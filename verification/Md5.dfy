/** The digest of RFC 1321, sections 3.1 to 3.5, on messages of whole bytes. */
module Rfc1321 {
  datatype State = State(a: bv32, b: bv32, c: bv32, d: bv32)

  const INITIAL := State(0x67452301, 0xefcdab89, 0x98badcfe, 0x10325476)

  function F(x: bv32, y: bv32, z: bv32): bv32 {
    (x & y) | (!x & z)
  }

  function G(x: bv32, y: bv32, z: bv32): bv32 {
    (x & z) | (y & !z)
  }

  function H(x: bv32, y: bv32, z: bv32): bv32 {
    x ^ y ^ z
  }

  function I(x: bv32, y: bv32, z: bv32): bv32 {
    y ^ (x | !z)
  }

  /** Addition of words, modulo 2^32. */
  function Plus(x: bv32, y: bv32): bv32 {
    x + y
  }

  function RotateLeft(x: bv32, s: bv8): bv32
    requires 0 < s < 32
  {
    (x << s) | (x >> (32 - s))
  }

  /** a = b + ((a + f + x + t) <<< s) */
  function Op(f: bv32, a: bv32, b: bv32, x: bv32, t: bv32, s: bv8): bv32
    requires 0 < s < 32
  {
    Plus(b, RotateLeft(Plus(a, Plus(Plus(f, x), t)), s))
  }

  /** The auxiliary function of a round. */
  function Mix(round: nat, x: bv32, y: bv32, z: bv32): bv32 {
    if round == 0 then F(x, y, z) else if round == 1 then G(x, y, z) else if round == 2 then H(x, y, z) else I(x, y, z)
  }

  /** The word that step i takes. */
  function Index(i: nat): (k: nat)
    ensures k < 16 || i >= 64
  {
    if i < 16 then i else if i < 32 then (1 + 5 * i) % 16 else if i < 48 then (5 + 3 * i) % 16 else 7 * i % 16
  }

  function Shift(i: nat): (s: bv8)
    ensures 0 < s < 32
  {
    var k := i % 4;
    if i < 16 then if k == 0 then 7 else if k == 1 then 12 else if k == 2 then 17 else 22
    else if i < 32 then if k == 0 then 5 else if k == 1 then 9 else if k == 2 then 14 else 20
    else if i < 48 then if k == 0 then 4 else if k == 1 then 11 else if k == 2 then 16 else 23
    else if k == 0 then 6 else if k == 1 then 10 else if k == 2 then 15 else 21
  }

  /** T[i + 1], the integer part of 4294967296 times abs(sin(i + 1)). */
  function T(i: nat): bv32 {
    if i < 16 then T1(i) else if i < 32 then T2(i - 16) else if i < 48 then T3(i - 32) else T4(i - 48)
  }

  function T1(k: nat): bv32 {
    match k
    case 0 => 0xd76aa478
    case 1 => 0xe8c7b756
    case 2 => 0x242070db
    case 3 => 0xc1bdceee
    case 4 => 0xf57c0faf
    case 5 => 0x4787c62a
    case 6 => 0xa8304613
    case 7 => 0xfd469501
    case 8 => 0x698098d8
    case 9 => 0x8b44f7af
    case 10 => 0xffff5bb1
    case 11 => 0x895cd7be
    case 12 => 0x6b901122
    case 13 => 0xfd987193
    case 14 => 0xa679438e
    case _ => 0x49b40821
  }

  function T2(k: nat): bv32 {
    match k
    case 0 => 0xf61e2562
    case 1 => 0xc040b340
    case 2 => 0x265e5a51
    case 3 => 0xe9b6c7aa
    case 4 => 0xd62f105d
    case 5 => 0x02441453
    case 6 => 0xd8a1e681
    case 7 => 0xe7d3fbc8
    case 8 => 0x21e1cde6
    case 9 => 0xc33707d6
    case 10 => 0xf4d50d87
    case 11 => 0x455a14ed
    case 12 => 0xa9e3e905
    case 13 => 0xfcefa3f8
    case 14 => 0x676f02d9
    case _ => 0x8d2a4c8a
  }

  function T3(k: nat): bv32 {
    match k
    case 0 => 0xfffa3942
    case 1 => 0x8771f681
    case 2 => 0x6d9d6122
    case 3 => 0xfde5380c
    case 4 => 0xa4beea44
    case 5 => 0x4bdecfa9
    case 6 => 0xf6bb4b60
    case 7 => 0xbebfbc70
    case 8 => 0x289b7ec6
    case 9 => 0xeaa127fa
    case 10 => 0xd4ef3085
    case 11 => 0x04881d05
    case 12 => 0xd9d4d039
    case 13 => 0xe6db99e5
    case 14 => 0x1fa27cf8
    case _ => 0xc4ac5665
  }

  function T4(k: nat): bv32 {
    match k
    case 0 => 0xf4292244
    case 1 => 0x432aff97
    case 2 => 0xab9423a7
    case 3 => 0xfc93a039
    case 4 => 0x655b59c3
    case 5 => 0x8f0ccc92
    case 6 => 0xffeff47d
    case 7 => 0x85845dd1
    case 8 => 0x6fa87e4f
    case 9 => 0xfe2ce6e0
    case 10 => 0xa3014314
    case 11 => 0x4e0811a1
    case 12 => 0xf7537e82
    case 13 => 0xbd3af235
    case 14 => 0x2ad7d2bb
    case _ => 0xeb86d391
  }

  /** Step i; the registers then swap names, as in [ABCD], [DABC], [CDAB], [BCDA]. */
  function StepAt(x: seq<bv32>, i: nat, st: State): State
    requires |x| == 16 && i < 64
  {
    State(st.d, Op(Mix(i / 16, st.b, st.c, st.d), st.a, st.b, x[Index(i)], T(i), Shift(i)), st.b, st.c)
  }

  /** Steps i to i + n - 1. */
  function Run(x: seq<bv32>, i: nat, n: nat, st: State): State
    requires |x| == 16 && i + n <= 64
  {
    if n == 0 then st else StepAt(x, i + n - 1, Run(x, i, n - 1, st))
  }

  /** Four bytes, the low-order one first. */
  function Word(b: seq<bv8>, n: nat): bv32
    requires n * 4 + 4 <= |b|
  {
    (b[n * 4] as bv32) | ((b[n * 4 + 1] as bv32) << 8) | ((b[n * 4 + 2] as bv32) << 16) | ((b[n * 4 + 3] as bv32) << 24)
  }

  function Words(b: seq<bv8>): (x: seq<bv32>)
    requires |b| == 64
    ensures |x| == 16
  {
    seq(16, n requires 0 <= n < 16 => Word(b, n))
  }

  function AddStates(s: State, t: State): State {
    State(Plus(s.a, t.a), Plus(s.b, t.b), Plus(s.c, t.c), Plus(s.d, t.d))
  }

  function Compress(st: State, b: seq<bv8>): State
    requires |b| == 64
  {
    AddStates(Run(Words(b), 0, 64, st), st)
  }

  /** Section 3.4: the 16-word blocks in order. */
  function Fold(st: State, m: seq<bv8>): State
    requires |m| % 64 == 0
  {
    if m == [] then st else Compress(Fold(st, m[..|m| - 64]), m[|m| - 64..])
  }

  function Zeros(n: nat): (r: seq<bv8>)
    ensures |r| == n
  {
    seq(n, _ => 0)
  }

  function ZeroCount(n: nat): (r: nat)
    ensures (n + 1 + r) % 64 == 56 && r < 64 && (n + 9 + r) % 64 == 0
  {
    (119 - n % 64) % 64
  }

  function Byte(n: nat): bv8 {
    (n % 256) as bv8
  }

  /** The four bytes of n modulo 2^32, the low-order one first. */
  function Bytes32(n: nat): (r: seq<bv8>)
    ensures |r| == 4
  {
    [Byte(n), Byte(n / 0x100), Byte(n / 0x1_0000), Byte(n / 0x100_0000)]
  }

  /** Sections 3.1 and 3.2: a one bit, zero bits up to 448 modulo 512, and the length in bits modulo 2^64. */
  function Pad(m: seq<bv8>): (r: seq<bv8>)
    ensures |r| % 64 == 0 && |r| == |m| + 9 + ZeroCount(|m|)
  {
    m + [0x80] + Zeros(ZeroCount(|m|)) + Bytes32(8 * |m|) + Bytes32(8 * |m| / 0x1_0000_0000)
  }

  function BytesOf(w: bv32): (r: seq<bv8>)
    ensures |r| == 4
  {
    [(w & 0xff) as bv8, ((w >> 8) & 0xff) as bv8, ((w >> 16) & 0xff) as bv8, ((w >> 24) & 0xff) as bv8]
  }

  function Digest(m: seq<bv8>): (r: seq<bv8>)
    ensures |r| == 16
  {
    var st := Fold(INITIAL, Pad(m));
    BytesOf(st.a) + BytesOf(st.b) + BytesOf(st.c) + BytesOf(st.d)
  }
}

/** MD5 over an unsigned type of more than 32 bits, fed piece by piece. */
module Md5 {
  import Rfc1321

  /** The 32 bits of a word that count. */
  function Low(w: bv64): bv32 {
    (w & 0xffff_ffff) as bv32
  }

  function F(x: bv64, y: bv64, z: bv64): (r: bv64)
    ensures Low(r) == Rfc1321.Mix(0, Low(x), Low(y), Low(z))
  {
    z ^ (x & (y ^ z))
  }

  function G(x: bv64, y: bv64, z: bv64): (r: bv64)
    ensures Low(r) == Rfc1321.Mix(1, Low(x), Low(y), Low(z))
  {
    y ^ (z & (x ^ y))
  }

  function H(x: bv64, y: bv64, z: bv64): (r: bv64)
    ensures Low(r) == Rfc1321.Mix(2, Low(x), Low(y), Low(z))
  {
    x ^ y ^ z
  }

  function I(x: bv64, y: bv64, z: bv64): (r: bv64)
    ensures Low(r) == Rfc1321.Mix(3, Low(x), Low(y), Low(z))
  {
    y ^ (x | !z)
  }

  function Add(x: bv64, y: bv64): bv64 {
    x + y
  }

  /** A constant of the wide type. */
  function Wide(t: bv32): (r: bv64)
    ensures Low(r) == t
  {
    t as bv64
  }

  function Cut(x: bv64): bv64 {
    x & 0xffff_ffff
  }

  lemma AddCuts(x: bv64, y: bv64)
    ensures Cut(Add(x, y)) == Cut(Add(Cut(x), Cut(y)))
  {
    AddMasked(x, y);
  }

  lemma AddMasked(x: bv64, y: bv64)
    ensures (x + y) & 0xffff_ffff == ((x & 0xffff_ffff) + (y & 0xffff_ffff)) & 0xffff_ffff
  {
  }

  lemma AddZeroExtended(u: bv32, v: bv32)
    ensures Low((u as bv64) + (v as bv64)) == u + v
  {
  }

  lemma AddWide(u: bv32, v: bv32)
    ensures Low(Add(u as bv64, v as bv64)) == Rfc1321.Plus(u, v)
  {
    hide Low;
    AddZeroExtended(u, v);
  }

  lemma LowCut(x: bv64)
    ensures Low(x) as bv64 == Cut(x) && Low(Cut(x)) == Low(x)
  {
  }

  /** Only the low 32 bits of the operands count for the low 32 bits of a sum. */
  lemma LowAdd(x: bv64, y: bv64)
    ensures Low(Add(x, y)) == Rfc1321.Plus(Low(x), Low(y))
  {
    hide Low, Add, Cut, Rfc1321.Plus;
    LowCut(Add(x, y));
    AddCuts(x, y);
    LowCut(Add(Cut(x), Cut(y)));
    LowCut(x);
    LowCut(y);
    AddWide(Low(x), Low(y));
  }

  function Turn(a: bv64, s: bv8): (r: bv64)
    requires 0 < s < 32
    ensures Low(r) == Rfc1321.RotateLeft(Low(a), s)
  {
    (a << s) | ((a & 0xffff_ffff) >> (32 - s))
  }

  /** The STEP macro, with f already applied. */
  function StepMacro(f: bv64, a: bv64, b: bv64, x: bv64, t: bv32, s: bv8): (r: bv64)
    requires 0 < s < 32
    ensures Low(r) == Rfc1321.Op(Low(f), Low(a), Low(b), Low(x), t, s)
  {
    StepIsOp(f, a, b, x, t, s);
    Add(Turn(Add(a, Add(Add(f, x), Wide(t))), s), b)
  }

  lemma Swap(a: bv32, b: bv32)
    ensures Rfc1321.Plus(a, b) == Rfc1321.Plus(b, a)
  {
  }

  lemma StepIsOp(f: bv64, a: bv64, b: bv64, x: bv64, t: bv32, s: bv8)
    requires 0 < s < 32
    ensures Low(Add(Turn(Add(a, Add(Add(f, x), Wide(t))), s), b)) == Rfc1321.Op(Low(f), Low(a), Low(b), Low(x), t, s)
  {
    hide Low, Add, Turn, Wide, Rfc1321.RotateLeft, Rfc1321.Plus;
    var fxt := Add(Add(f, x), Wide(t));
    LowAdd(f, x);
    LowAdd(Add(f, x), Wide(t));
    LowAdd(a, fxt);
    LowAdd(Turn(Add(a, fxt), s), b);
    Swap(Low(Turn(Add(a, fxt), s)), Low(b));
  }

  function Lows(a: bv64, b: bv64, c: bv64, d: bv64): Rfc1321.State {
    Rfc1321.State(Low(a), Low(b), Low(c), Low(d))
  }

  /** Row i of the table of steps: the word, the constant and the rotation. */
  predicate Row(i: nat, n: nat, t: bv32, s: bv8) {
    n == Rfc1321.Index(i) && n < 16 && t == Rfc1321.T(i) && s == Rfc1321.Shift(i)
  }

  lemma Rows0()
    ensures Row(0, 0, 0xd76aa478, 7) && Row(1, 1, 0xe8c7b756, 12) && Row(2, 2, 0x242070db, 17) && Row(3, 3, 0xc1bdceee, 22)
    ensures Row(4, 4, 0xf57c0faf, 7) && Row(5, 5, 0x4787c62a, 12) && Row(6, 6, 0xa8304613, 17) && Row(7, 7, 0xfd469501, 22)
  {
  }

  lemma Rows8()
    ensures Row(8, 8, 0x698098d8, 7) && Row(9, 9, 0x8b44f7af, 12) && Row(10, 10, 0xffff5bb1, 17) && Row(11, 11, 0x895cd7be, 22)
    ensures Row(12, 12, 0x6b901122, 7) && Row(13, 13, 0xfd987193, 12) && Row(14, 14, 0xa679438e, 17) && Row(15, 15, 0x49b40821, 22)
  {
  }

  lemma Table1()
    ensures Row(0, 0, 0xd76aa478, 7) && Row(1, 1, 0xe8c7b756, 12) && Row(2, 2, 0x242070db, 17) && Row(3, 3, 0xc1bdceee, 22)
    ensures Row(4, 4, 0xf57c0faf, 7) && Row(5, 5, 0x4787c62a, 12) && Row(6, 6, 0xa8304613, 17) && Row(7, 7, 0xfd469501, 22)
    ensures Row(8, 8, 0x698098d8, 7) && Row(9, 9, 0x8b44f7af, 12) && Row(10, 10, 0xffff5bb1, 17) && Row(11, 11, 0x895cd7be, 22)
    ensures Row(12, 12, 0x6b901122, 7) && Row(13, 13, 0xfd987193, 12) && Row(14, 14, 0xa679438e, 17) && Row(15, 15, 0x49b40821, 22)
  {
    hide Row;
    Rows0();
    Rows8();
  }

  lemma Rows16()
    ensures Row(16, 1, 0xf61e2562, 5) && Row(17, 6, 0xc040b340, 9) && Row(18, 11, 0x265e5a51, 14) && Row(19, 0, 0xe9b6c7aa, 20)
    ensures Row(20, 5, 0xd62f105d, 5) && Row(21, 10, 0x02441453, 9) && Row(22, 15, 0xd8a1e681, 14) && Row(23, 4, 0xe7d3fbc8, 20)
  {
  }

  lemma Rows24()
    ensures Row(24, 9, 0x21e1cde6, 5) && Row(25, 14, 0xc33707d6, 9) && Row(26, 3, 0xf4d50d87, 14) && Row(27, 8, 0x455a14ed, 20)
    ensures Row(28, 13, 0xa9e3e905, 5) && Row(29, 2, 0xfcefa3f8, 9) && Row(30, 7, 0x676f02d9, 14) && Row(31, 12, 0x8d2a4c8a, 20)
  {
  }

  lemma Table2()
    ensures Row(16, 1, 0xf61e2562, 5) && Row(17, 6, 0xc040b340, 9) && Row(18, 11, 0x265e5a51, 14) && Row(19, 0, 0xe9b6c7aa, 20)
    ensures Row(20, 5, 0xd62f105d, 5) && Row(21, 10, 0x02441453, 9) && Row(22, 15, 0xd8a1e681, 14) && Row(23, 4, 0xe7d3fbc8, 20)
    ensures Row(24, 9, 0x21e1cde6, 5) && Row(25, 14, 0xc33707d6, 9) && Row(26, 3, 0xf4d50d87, 14) && Row(27, 8, 0x455a14ed, 20)
    ensures Row(28, 13, 0xa9e3e905, 5) && Row(29, 2, 0xfcefa3f8, 9) && Row(30, 7, 0x676f02d9, 14) && Row(31, 12, 0x8d2a4c8a, 20)
  {
    hide Row;
    Rows16();
    Rows24();
  }

  lemma Rows32()
    ensures Row(32, 5, 0xfffa3942, 4) && Row(33, 8, 0x8771f681, 11) && Row(34, 11, 0x6d9d6122, 16) && Row(35, 14, 0xfde5380c, 23)
    ensures Row(36, 1, 0xa4beea44, 4) && Row(37, 4, 0x4bdecfa9, 11) && Row(38, 7, 0xf6bb4b60, 16) && Row(39, 10, 0xbebfbc70, 23)
  {
  }

  lemma Rows40()
    ensures Row(40, 13, 0x289b7ec6, 4) && Row(41, 0, 0xeaa127fa, 11) && Row(42, 3, 0xd4ef3085, 16) && Row(43, 6, 0x04881d05, 23)
    ensures Row(44, 9, 0xd9d4d039, 4) && Row(45, 12, 0xe6db99e5, 11) && Row(46, 15, 0x1fa27cf8, 16) && Row(47, 2, 0xc4ac5665, 23)
  {
  }

  lemma Table3()
    ensures Row(32, 5, 0xfffa3942, 4) && Row(33, 8, 0x8771f681, 11) && Row(34, 11, 0x6d9d6122, 16) && Row(35, 14, 0xfde5380c, 23)
    ensures Row(36, 1, 0xa4beea44, 4) && Row(37, 4, 0x4bdecfa9, 11) && Row(38, 7, 0xf6bb4b60, 16) && Row(39, 10, 0xbebfbc70, 23)
    ensures Row(40, 13, 0x289b7ec6, 4) && Row(41, 0, 0xeaa127fa, 11) && Row(42, 3, 0xd4ef3085, 16) && Row(43, 6, 0x04881d05, 23)
    ensures Row(44, 9, 0xd9d4d039, 4) && Row(45, 12, 0xe6db99e5, 11) && Row(46, 15, 0x1fa27cf8, 16) && Row(47, 2, 0xc4ac5665, 23)
  {
    hide Row;
    Rows32();
    Rows40();
  }

  lemma Rows48()
    ensures Row(48, 0, 0xf4292244, 6) && Row(49, 7, 0x432aff97, 10) && Row(50, 14, 0xab9423a7, 15) && Row(51, 5, 0xfc93a039, 21)
    ensures Row(52, 12, 0x655b59c3, 6) && Row(53, 3, 0x8f0ccc92, 10) && Row(54, 10, 0xffeff47d, 15) && Row(55, 1, 0x85845dd1, 21)
  {
  }

  lemma Rows56()
    ensures Row(56, 8, 0x6fa87e4f, 6) && Row(57, 15, 0xfe2ce6e0, 10) && Row(58, 6, 0xa3014314, 15) && Row(59, 13, 0x4e0811a1, 21)
    ensures Row(60, 4, 0xf7537e82, 6) && Row(61, 11, 0xbd3af235, 10) && Row(62, 2, 0x2ad7d2bb, 15) && Row(63, 9, 0xeb86d391, 21)
  {
  }

  lemma Table4()
    ensures Row(48, 0, 0xf4292244, 6) && Row(49, 7, 0x432aff97, 10) && Row(50, 14, 0xab9423a7, 15) && Row(51, 5, 0xfc93a039, 21)
    ensures Row(52, 12, 0x655b59c3, 6) && Row(53, 3, 0x8f0ccc92, 10) && Row(54, 10, 0xffeff47d, 15) && Row(55, 1, 0x85845dd1, 21)
    ensures Row(56, 8, 0x6fa87e4f, 6) && Row(57, 15, 0xfe2ce6e0, 10) && Row(58, 6, 0xa3014314, 15) && Row(59, 13, 0x4e0811a1, 21)
    ensures Row(60, 4, 0xf7537e82, 6) && Row(61, 11, 0xbd3af235, 10) && Row(62, 2, 0x2ad7d2bb, 15) && Row(63, 9, 0xeb86d391, 21)
  {
    hide Row;
    Rows48();
    Rows56();
  }

  /** The reference on one block: its words, and the registers it begins with. */
  datatype Run = Run(words: seq<bv32>, start: Rfc1321.State)

  /** After i steps of the run the registers, in the order of the next step, are a, b, c and d. */
  ghost predicate At(run: Run, i: nat, a: bv64, b: bv64, c: bv64, d: bv64) {
    |run.words| == 16 && i <= 64 && Lows(a, b, c, d) == Rfc1321.Run(run.words, 0, i, run.start)
  }

  /** A line of the transformation, the STEP macro with f applied: step i of the run. */
  method Step(f: bv64, a: bv64, b: bv64, c: bv64, d: bv64, x: bv64, t: bv32, s: bv8, ghost run: Run, ghost i: nat, ghost n: nat)
    returns (r: bv64)
    requires i < 64 && At(run, i, a, b, c, d) && Low(f) == Rfc1321.Mix(i / 16, Low(b), Low(c), Low(d))
    requires |run.words| == 16 && n < 16 && Low(x) == run.words[n] && Row(i, n, t, s)
    ensures At(run, i + 1, d, r, b, c)
  {
    hide Low, Rfc1321.Op, Rfc1321.T, Rfc1321.Shift, Rfc1321.Index, Rfc1321.Mix;
    r := StepMacro(f, a, b, x, t, s);
  }

  /** The first n words of the block are stored. */
  ghost predicate Holds(block: seq<bv64>, words: seq<bv32>, n: nat) {
    |block| == 16 == |words| && n <= 16 && forall k | 0 <= k < n :: Low(block[k]) == words[k]
  }

  class Context {
    const block: array<bv64>

    /** The SET macro: reads word n of the 64 bytes at ptr, and stores it. */
    method Set(chunk: seq<bv8>, n: nat) returns (w: bv64)
      requires n < 16 && |chunk| == 64 && Holds(block[..], Rfc1321.Words(chunk), n)
      modifies block
      ensures Holds(block[..], Rfc1321.Words(chunk), n + 1) && Low(w) == Rfc1321.Words(chunk)[n]
    {
      hide Low, FromBytes;
      w := FromBytes(chunk[n * 4], chunk[n * 4 + 1], chunk[n * 4 + 2], chunk[n * 4 + 3]);
      block[n] := w;
    }

    method Round1(chunk: seq<bv8>, a0: bv64, b0: bv64, c0: bv64, d0: bv64, ghost run: Run)
      returns (a: bv64, b: bv64, c: bv64, d: bv64)
      requires |chunk| == 64 && run.words == Rfc1321.Words(chunk) && Holds(block[..], run.words, 0) && At(run, 0, a0, b0, c0, d0)
      modifies block
      ensures At(run, 16, a, b, c, d) && Holds(block[..], run.words, 16)
    {
      hide Low, F, G, H, I, Rfc1321.Run, At, Row, Rfc1321.Mix, Rfc1321.Words, Holds;
      Table1();
      var w: bv64;
      a, b, c, d := a0, b0, c0, d0;
      w := Set(chunk, 0);
      a := Step(F(b, c, d), a, b, c, d, w, 0xd76aa478, 7, run, 0, 0);
      w := Set(chunk, 1);
      d := Step(F(a, b, c), d, a, b, c, w, 0xe8c7b756, 12, run, 1, 1);
      w := Set(chunk, 2);
      c := Step(F(d, a, b), c, d, a, b, w, 0x242070db, 17, run, 2, 2);
      w := Set(chunk, 3);
      b := Step(F(c, d, a), b, c, d, a, w, 0xc1bdceee, 22, run, 3, 3);
      w := Set(chunk, 4);
      a := Step(F(b, c, d), a, b, c, d, w, 0xf57c0faf, 7, run, 4, 4);
      w := Set(chunk, 5);
      d := Step(F(a, b, c), d, a, b, c, w, 0x4787c62a, 12, run, 5, 5);
      w := Set(chunk, 6);
      c := Step(F(d, a, b), c, d, a, b, w, 0xa8304613, 17, run, 6, 6);
      w := Set(chunk, 7);
      b := Step(F(c, d, a), b, c, d, a, w, 0xfd469501, 22, run, 7, 7);
      a, b, c, d := Round1Rest(chunk, a, b, c, d, run);
    }

    /** Its second half. */
    method Round1Rest(chunk: seq<bv8>, a0: bv64, b0: bv64, c0: bv64, d0: bv64, ghost run: Run)
      returns (a: bv64, b: bv64, c: bv64, d: bv64)
      requires |chunk| == 64 && run.words == Rfc1321.Words(chunk) && Holds(block[..], run.words, 8) && At(run, 8, a0, b0, c0, d0)
      modifies block
      ensures At(run, 16, a, b, c, d) && Holds(block[..], run.words, 16)
    {
      hide Low, F, G, H, I, Rfc1321.Run, At, Row, Rfc1321.Mix, Rfc1321.Words, Holds;
      Table1();
      var w: bv64;
      a, b, c, d := a0, b0, c0, d0;
      w := Set(chunk, 8);
      a := Step(F(b, c, d), a, b, c, d, w, 0x698098d8, 7, run, 8, 8);
      w := Set(chunk, 9);
      d := Step(F(a, b, c), d, a, b, c, w, 0x8b44f7af, 12, run, 9, 9);
      w := Set(chunk, 10);
      c := Step(F(d, a, b), c, d, a, b, w, 0xffff5bb1, 17, run, 10, 10);
      w := Set(chunk, 11);
      b := Step(F(c, d, a), b, c, d, a, w, 0x895cd7be, 22, run, 11, 11);
      w := Set(chunk, 12);
      a := Step(F(b, c, d), a, b, c, d, w, 0x6b901122, 7, run, 12, 12);
      w := Set(chunk, 13);
      d := Step(F(a, b, c), d, a, b, c, w, 0xfd987193, 12, run, 13, 13);
      w := Set(chunk, 14);
      c := Step(F(d, a, b), c, d, a, b, w, 0xa679438e, 17, run, 14, 14);
      w := Set(chunk, 15);
      b := Step(F(c, d, a), b, c, d, a, w, 0x49b40821, 22, run, 15, 15);
    }

    method Round2(a0: bv64, b0: bv64, c0: bv64, d0: bv64, ghost run: Run)
      returns (a: bv64, b: bv64, c: bv64, d: bv64)
      requires Holds(block[..], run.words, 16) && At(run, 16, a0, b0, c0, d0)
      ensures At(run, 32, a, b, c, d)
    {
      hide Low, F, G, H, I, Rfc1321.Run, At, Row, Rfc1321.Mix;
      Table2();
      a, b, c, d := a0, b0, c0, d0;
      a := Step(G(b, c, d), a, b, c, d, block[1], 0xf61e2562, 5, run, 16, 1);
      d := Step(G(a, b, c), d, a, b, c, block[6], 0xc040b340, 9, run, 17, 6);
      c := Step(G(d, a, b), c, d, a, b, block[11], 0x265e5a51, 14, run, 18, 11);
      b := Step(G(c, d, a), b, c, d, a, block[0], 0xe9b6c7aa, 20, run, 19, 0);
      a := Step(G(b, c, d), a, b, c, d, block[5], 0xd62f105d, 5, run, 20, 5);
      d := Step(G(a, b, c), d, a, b, c, block[10], 0x02441453, 9, run, 21, 10);
      c := Step(G(d, a, b), c, d, a, b, block[15], 0xd8a1e681, 14, run, 22, 15);
      b := Step(G(c, d, a), b, c, d, a, block[4], 0xe7d3fbc8, 20, run, 23, 4);
      a := Step(G(b, c, d), a, b, c, d, block[9], 0x21e1cde6, 5, run, 24, 9);
      d := Step(G(a, b, c), d, a, b, c, block[14], 0xc33707d6, 9, run, 25, 14);
      c := Step(G(d, a, b), c, d, a, b, block[3], 0xf4d50d87, 14, run, 26, 3);
      b := Step(G(c, d, a), b, c, d, a, block[8], 0x455a14ed, 20, run, 27, 8);
      a := Step(G(b, c, d), a, b, c, d, block[13], 0xa9e3e905, 5, run, 28, 13);
      d := Step(G(a, b, c), d, a, b, c, block[2], 0xfcefa3f8, 9, run, 29, 2);
      c := Step(G(d, a, b), c, d, a, b, block[7], 0x676f02d9, 14, run, 30, 7);
      b := Step(G(c, d, a), b, c, d, a, block[12], 0x8d2a4c8a, 20, run, 31, 12);
    }

    method Round3(a0: bv64, b0: bv64, c0: bv64, d0: bv64, ghost run: Run)
      returns (a: bv64, b: bv64, c: bv64, d: bv64)
      requires Holds(block[..], run.words, 16) && At(run, 32, a0, b0, c0, d0)
      ensures At(run, 48, a, b, c, d)
    {
      hide Low, F, G, H, I, Rfc1321.Run, At, Row, Rfc1321.Mix;
      Table3();
      a, b, c, d := a0, b0, c0, d0;
      a := Step(H(b, c, d), a, b, c, d, block[5], 0xfffa3942, 4, run, 32, 5);
      d := Step(H(a, b, c), d, a, b, c, block[8], 0x8771f681, 11, run, 33, 8);
      c := Step(H(d, a, b), c, d, a, b, block[11], 0x6d9d6122, 16, run, 34, 11);
      b := Step(H(c, d, a), b, c, d, a, block[14], 0xfde5380c, 23, run, 35, 14);
      a := Step(H(b, c, d), a, b, c, d, block[1], 0xa4beea44, 4, run, 36, 1);
      d := Step(H(a, b, c), d, a, b, c, block[4], 0x4bdecfa9, 11, run, 37, 4);
      c := Step(H(d, a, b), c, d, a, b, block[7], 0xf6bb4b60, 16, run, 38, 7);
      b := Step(H(c, d, a), b, c, d, a, block[10], 0xbebfbc70, 23, run, 39, 10);
      a := Step(H(b, c, d), a, b, c, d, block[13], 0x289b7ec6, 4, run, 40, 13);
      d := Step(H(a, b, c), d, a, b, c, block[0], 0xeaa127fa, 11, run, 41, 0);
      c := Step(H(d, a, b), c, d, a, b, block[3], 0xd4ef3085, 16, run, 42, 3);
      b := Step(H(c, d, a), b, c, d, a, block[6], 0x04881d05, 23, run, 43, 6);
      a := Step(H(b, c, d), a, b, c, d, block[9], 0xd9d4d039, 4, run, 44, 9);
      d := Step(H(a, b, c), d, a, b, c, block[12], 0xe6db99e5, 11, run, 45, 12);
      c := Step(H(d, a, b), c, d, a, b, block[15], 0x1fa27cf8, 16, run, 46, 15);
      b := Step(H(c, d, a), b, c, d, a, block[2], 0xc4ac5665, 23, run, 47, 2);
    }

    method Round4(a0: bv64, b0: bv64, c0: bv64, d0: bv64, ghost run: Run)
      returns (a: bv64, b: bv64, c: bv64, d: bv64)
      requires Holds(block[..], run.words, 16) && At(run, 48, a0, b0, c0, d0)
      ensures At(run, 64, a, b, c, d)
    {
      hide Low, F, G, H, I, Rfc1321.Run, At, Row, Rfc1321.Mix;
      Table4();
      a, b, c, d := a0, b0, c0, d0;
      a := Step(I(b, c, d), a, b, c, d, block[0], 0xf4292244, 6, run, 48, 0);
      d := Step(I(a, b, c), d, a, b, c, block[7], 0x432aff97, 10, run, 49, 7);
      c := Step(I(d, a, b), c, d, a, b, block[14], 0xab9423a7, 15, run, 50, 14);
      b := Step(I(c, d, a), b, c, d, a, block[5], 0xfc93a039, 21, run, 51, 5);
      a := Step(I(b, c, d), a, b, c, d, block[12], 0x655b59c3, 6, run, 52, 12);
      d := Step(I(a, b, c), d, a, b, c, block[3], 0x8f0ccc92, 10, run, 53, 3);
      c := Step(I(d, a, b), c, d, a, b, block[10], 0xffeff47d, 15, run, 54, 10);
      b := Step(I(c, d, a), b, c, d, a, block[1], 0x85845dd1, 21, run, 55, 1);
      a := Step(I(b, c, d), a, b, c, d, block[8], 0x6fa87e4f, 6, run, 56, 8);
      d := Step(I(a, b, c), d, a, b, c, block[15], 0xfe2ce6e0, 10, run, 57, 15);
      c := Step(I(d, a, b), c, d, a, b, block[6], 0xa3014314, 15, run, 58, 6);
      b := Step(I(c, d, a), b, c, d, a, block[13], 0x4e0811a1, 21, run, 59, 13);
      a := Step(I(b, c, d), a, b, c, d, block[4], 0xf7537e82, 6, run, 60, 4);
      d := Step(I(a, b, c), d, a, b, c, block[11], 0xbd3af235, 10, run, 61, 11);
      c := Step(I(d, a, b), c, d, a, b, block[2], 0x2ad7d2bb, 15, run, 62, 2);
      b := Step(I(c, d, a), b, c, d, a, block[9], 0xeb86d391, 21, run, 63, 9);
    }

    var a: bv64
    var b: bv64
    var c: bv64
    var d: bv64
    var lo: nat
    var hi: nat
    const buffer: array<bv8>
    /** Everything fed so far. */
    ghost var data: seq<bv8>

    ghost function State(): Rfc1321.State
      reads `a, `b, `c, `d
    {
      Lows(a, b, c, d)
    }

    /** The whole blocks of the data are digested, and the rest is in the buffer. */
    ghost predicate Stands()
      reads `a, `b, `c, `d, `data, buffer, block
    {
      && block.Length == 16 && buffer.Length == 64
      && State() == Rfc1321.Fold(Rfc1321.INITIAL, data[..Whole(|data|)])
      && buffer[..|data| % 64] == data[Whole(|data|)..]
    }

    /** And lo and hi count the bytes. */
    ghost predicate Valid()
      reads this, buffer, block
    {
      Stands() && Counted(|data|)
    }

    ghost predicate Counted(n: nat)
      reads `lo, `hi
    {
      lo == n % PART && hi == n / PART % WORD
    }

    /** MD5_Init */
    constructor ()
      ensures Valid() && data == [] && fresh(block) && fresh(buffer)
    {
      block := new bv64[16](_ => 0);
      buffer := new bv8[64](_ => 0);
      a, b, c, d := Wide(0x67452301), Wide(0xefcdab89), Wide(0x98badcfe), Wide(0x10325476);
      lo, hi, data := 0, 0, [];
      hide Low, Wide;
    }

    /** One round of the loop of body: four times sixteen steps on 64 bytes, and the old registers added. */
    method OneBlock(chunk: seq<bv8>)
      requires |chunk| == 64 && block.Length == 16
      modifies `a, `b, `c, `d, block
      ensures State() == Rfc1321.Compress(old(State()), chunk)
    {
      ghost var run := Run(Rfc1321.Words(chunk), State());
      hide Low, Rfc1321.Words;
      var a1, b1, c1, d1 := Round1(chunk, a, b, c, d, run);
      a1, b1, c1, d1 := Round2(a1, b1, c1, d1, run);
      a1, b1, c1, d1 := Round3(a1, b1, c1, d1, run);
      a1, b1, c1, d1 := Round4(a1, b1, c1, d1, run);
      LowAdd(a1, a);
      LowAdd(b1, b);
      LowAdd(c1, c);
      LowAdd(d1, d);
      a, b, c, d := Add(a1, a), Add(b1, b), Add(c1, c), Add(d1, d);
      hide Rfc1321.Run, Add;
    }

    /** body: one or more blocks. */
    method Body(ptr: seq<bv8>)
      requires |ptr| > 0 && |ptr| % 64 == 0 && block.Length == 16
      modifies `a, `b, `c, `d, block
      ensures State() == Rfc1321.Fold(old(State()), ptr)
    {
      hide Rfc1321.Compress, Low;
      var k: nat := 0;
      while true
        invariant k < |ptr| && k % 64 == 0
        invariant State() == Rfc1321.Fold(old(State()), ptr[..k])
        decreases |ptr| - k
      {
        OneBlock(ptr[k..k + 64]);
        assert ptr[..k + 64][..k] == ptr[..k] && ptr[..k + 64][k..] == ptr[k..k + 64];
        k := k + 64;
        if k == |ptr| {
          break;
        }
      }
      assert ptr[..k] == ptr;
    }

    /** memcpy into the buffer */
    method Copy(at: nat, piece: seq<bv8>)
      requires buffer.Length == 64 && at + |piece| <= 64
      modifies buffer
      ensures buffer[..] == old(buffer[..at]) + piece + old(buffer[at + |piece|..])
    {
      var k := 0;
      while k < |piece|
        invariant 0 <= k <= |piece|
        invariant buffer[..] == old(buffer[..at]) + piece[..k] + old(buffer[at + k..])
      {
        buffer[at + k] := piece[k];
        k := k + 1;
      }
    }

    /** The counters after size more bytes. */
    method Count(size: nat, ghost n: nat) returns (savedLo: nat)
      requires Counted(n) && size < WORD
      modifies `lo, `hi
      ensures Counted(n + size) && savedLo == old(lo)
    {
      savedLo := lo;
      CountGrows(n, size);
      lo := (savedLo + size) % PART;
      if lo < savedLo {
        hi := (hi + 1) % WORD;
      }
      hi := (hi + size / PART) % WORD;
    }

    /** Bytes that leave the buffer less than full. */
    method Keep(used: nat, piece: seq<bv8>)
      requires Stands() && used == |data| % 64 && used + |piece| < 64
      modifies `data, buffer
      ensures Stands() && data == old(data) + piece
    {
      hide Rfc1321.Fold, Low;
      Stays(data, piece);
      Copy(used, piece);
      data := data + piece;
      hide Whole;
    }

    /** Bytes that fill the buffer, which is then digested. */
    method TopUp(used: nat, piece: seq<bv8>)
      requires Stands() && used == |data| % 64 && used + |piece| == 64
      modifies this`a, this`b, this`c, this`d, this`data, block, buffer
      ensures Stands() && data == old(data) + piece && |data| % 64 == 0
    {
      hide Rfc1321.Fold, Low;
      var done := Whole(|data|);
      Copy(used, piece);
      Body(buffer[..]);
      FoldSplit(Rfc1321.INITIAL, data[..done], buffer[..]);
      assert data + piece == data[..done] + buffer[..];
      data := data + piece;
      assert data[..|data|] == data && Whole(|data|) == |data|;
    }

    /** Whole blocks, straight from the caller's memory. */
    method Blocks(piece: seq<bv8>)
      requires Stands() && |data| % 64 == 0 && |piece| % 64 == 0 && |piece| > 0
      modifies this`a, this`b, this`c, this`d, this`data, block
      ensures Stands() && data == old(data) + piece && |data| % 64 == 0
    {
      hide Rfc1321.Fold, Low;
      assert data[..|data|] == data && Whole(|data|) == |data|;
      Body(piece);
      FoldSplit(Rfc1321.INITIAL, data, piece);
      data := data + piece;
      assert data[..|data|] == data && Whole(|data|) == |data|;
    }

    /** The part of MD5_Update after the counting. */
    method Absorb(used: nat, piece: seq<bv8>)
      requires Stands() && used == |data| % 64
      modifies `a, `b, `c, `d, `data, block, buffer
      ensures Stands() && data == old(data) + piece
    {
      hide Stands;
      var rest := piece;
      if used > 0 {
        var free := 64 - used;
        if |rest| < free {
          Keep(used, rest);
          return;
        }
        TopUp(used, rest[..free]);
        rest := rest[free..];
      }
      assert data + rest == old(data) + piece;
      if |rest| >= 64 {
        var k := Whole(|rest|);
        Blocks(rest[..k]);
        rest := rest[k..];
      }
      Keep(0, rest);
    }

    /** MD5_Update: the state stands for the data so far followed by the new piece. */
    method Update(piece: seq<bv8>)
      requires Valid() && |piece| < WORD
      modifies this, block, buffer
      ensures Valid() && data == old(data) + piece
    {
      hide Stands;
      UsedIsRest(|data|);
      var savedLo := Count(|piece|, |data|);
      Absorb(savedLo % 64, piece);
      hide Counted;
    }

    /** memset of the buffer to zero */
    method Clear(at: nat, n: nat)
      requires buffer.Length == 64 && at + n <= 64
      modifies buffer
      ensures buffer[..] == old(buffer[..at]) + Rfc1321.Zeros(n) + old(buffer[at + n..])
    {
      var k := 0;
      while k < n
        invariant 0 <= k <= n
        invariant buffer[..] == old(buffer[..at]) + Rfc1321.Zeros(k) + old(buffer[at + k..])
      {
        buffer[at + k] := 0;
        k := k + 1;
      }
    }

    /** The four assignments for one counter. */
    method StoreCounter(at: nat, n: nat)
      requires buffer.Length == 64 && at + 4 <= 64
      modifies buffer
      ensures buffer[..] == old(buffer[..at]) + Rfc1321.Bytes32(n) + old(buffer[at + 4..])
    {
      hide Rfc1321.Byte;
      buffer[at] := Rfc1321.Byte(n);
      buffer[at + 1] := Rfc1321.Byte(n / 0x100);
      buffer[at + 2] := Rfc1321.Byte(n / 0x1_0000);
      buffer[at + 3] := Rfc1321.Byte(n / 0x100_0000);
    }

    /** The last block: zeros up to the length, the length, and the digesting. */
    method LastBlock(used: nat, ghost n: nat)
      requires buffer.Length == 64 && block.Length == 16 && used <= 56 && Counted(n)
      modifies this, block, buffer
      ensures State() == Rfc1321.Fold(old(State()), old(buffer[..used]) + Rfc1321.Zeros(56 - used) + LengthBytes(n))
    {
      hide Rfc1321.Fold, Rfc1321.Bytes32, Low;
      Clear(used, 56 - used);
      LengthCounted(n);
      lo := lo * 8;
      StoreCounter(56, lo);
      StoreCounter(60, hi);
      assert buffer[..] == old(buffer[..used]) + Rfc1321.Zeros(56 - used) + LengthBytes(n);
      Body(buffer[..]);
    }

    /** MD5_Final: the digest of everything fed, whatever the pieces were. */
    method Final(result: array<bv8>)
      requires Valid() && result.Length == 16 && result != buffer
      modifies this, block, buffer, result
      ensures result[..] == Rfc1321.Digest(old(data))
    {
      hide *;
      ghost var n, head, tail := |data|, data[..Whole(|data|)], data[Whole(|data|)..];
      PadParts(data);
      DigestIs(data);
      Standing();
      var used := lo % 64;
      buffer[used] := 0x80;
      used := used + 1;
      assert buffer[..used] == tail + [0x80];
      var free := 64 - used;
      if free < 8 {
        FillBlock(used, head);
        LastBlock(0, n);
        ghost var first, last := tail + [0x80] + Rfc1321.Zeros(free), Rfc1321.Zeros(56) + LengthBytes(n);
        assert [] + Rfc1321.Zeros(56) + LengthBytes(n) == last;
        FoldSplit(Rfc1321.INITIAL, head + first, last);
      } else {
        LastBlock(used, n);
        FoldSplit(Rfc1321.INITIAL, head, tail + [0x80] + Rfc1321.Zeros(56 - used) + LengthBytes(n));
      }
      StoreResult(result);
    }

    /** What MD5_Final finds. */
    lemma Standing()
      requires Valid()
      ensures var n, head, tail := |data|, data[..Whole(|data|)], data[Whole(|data|)..];
              && buffer.Length == 64 && block.Length == 16 && lo % 64 == n % 64 == |tail|
              && buffer[..n % 64] == tail && |head| % 64 == 0 && Counted(n) && State() == Rfc1321.Fold(Rfc1321.INITIAL, head)
    {
      UsedIsRest(|data|);
    }

    /** No room for the length: the block is filled with zeros, and digested. */
    method FillBlock(used: nat, ghost head: seq<bv8>)
      requires buffer.Length == 64 && block.Length == 16 && 56 < used <= 64
      requires |head| % 64 == 0 && State() == Rfc1321.Fold(Rfc1321.INITIAL, head)
      modifies `a, `b, `c, `d, block, buffer
      ensures State() == Rfc1321.Fold(Rfc1321.INITIAL, head + (old(buffer[..used]) + Rfc1321.Zeros(64 - used)))
    {
      hide *;
      ghost var first := buffer[..used] + Rfc1321.Zeros(64 - used);
      Clear(used, 64 - used);
      assert buffer[..] == first;
      Body(buffer[..]);
      FoldSplit(Rfc1321.INITIAL, head, first);
    }

    method StoreResult(result: array<bv8>)
      requires result.Length == 16
      modifies result
      ensures result[..] == Output(State())
    {
      hide ByteOf;
      StoreWord(result, 0, a);
      StoreWord(result, 4, b);
      StoreWord(result, 8, c);
      StoreWord(result, 12, d);
    }

    method StoreWord(result: array<bv8>, at: nat, w: bv64)
      requires at + 4 <= result.Length
      modifies result
      ensures result[..] == old(result[..at]) + Rfc1321.BytesOf(Low(w)) + old(result[at + 4..])
    {
      ByteOfLow(w);
      hide Low, ByteOf, Rfc1321.BytesOf;
      result[at] := ByteOf(w, 0);
      result[at + 1] := ByteOf(w, 8);
      result[at + 2] := ByteOf(w, 16);
      result[at + 3] := ByteOf(w, 24);
    }
  }

  function Concat(pieces: seq<seq<bv8>>): seq<bv8> {
    if pieces == [] then [] else Concat(pieces[..|pieces| - 1]) + pieces[|pieces| - 1]
  }

  lemma NoPieces(pieces: seq<seq<bv8>>)
    ensures Concat(pieces[..0]) == []
  {
  }

  lemma OnePieceMore(pieces: seq<seq<bv8>>, i: nat)
    requires i < |pieces|
    ensures pieces[i] in pieces && Concat(pieces[..i + 1]) == Concat(pieces[..i]) + pieces[i]
  {
    assert pieces[..i + 1][..i] == pieces[..i];
  }

  /** However a message is cut into pieces, Init, Update for each of them and Final give its digest. */
  method DigestOfPieces(pieces: seq<seq<bv8>>) returns (digest: seq<bv8>)
    requires forall p | p in pieces :: |p| < WORD
    ensures digest == Rfc1321.Digest(Concat(pieces))
  {
    NoPieces(pieces);
    hide *;
    var ctx := new Context();
    var i := 0;
    while i < |pieces|
      invariant 0 <= i <= |pieces| && ctx.Valid() && ctx.data == Concat(pieces[..i])
      invariant fresh(ctx) && fresh(ctx.block) && fresh(ctx.buffer)
    {
      OnePieceMore(pieces, i);
      ctx.Update(pieces[i]);
      i := i + 1;
    }
    assert pieces[..i] == pieces;
    var result := new bv8[16](_ => 0);
    ctx.Final(result);
    digest := result[..];
  }

  /** The length in bits, as section 3.2 has it. */
  function LengthBytes(n: nat): (r: seq<bv8>)
    ensures |r| == 8
  {
    Rfc1321.Bytes32(8 * n) + Rfc1321.Bytes32(8 * n / 0x1_0000_0000)
  }

  function Output(st: Rfc1321.State): seq<bv8> {
    Rfc1321.BytesOf(st.a) + Rfc1321.BytesOf(st.b) + Rfc1321.BytesOf(st.c) + Rfc1321.BytesOf(st.d)
  }

  lemma DigestIs(m: seq<bv8>)
    ensures Rfc1321.Digest(m) == Output(Rfc1321.Fold(Rfc1321.INITIAL, Rfc1321.Pad(m)))
  {
  }

  /** The byte of w at bit s. */
  function ByteOf(w: bv64, s: bv8): bv8
    requires s < 64
  {
    ((w >> s) & 0xff) as bv8
  }

  lemma ByteOfLow(w: bv64)
    ensures Rfc1321.BytesOf(Low(w)) == [ByteOf(w, 0), ByteOf(w, 8), ByteOf(w, 16), ByteOf(w, 24)]
  {
  }

  lemma SameBytes(m: nat, n: nat)
    requires m % 256 == n % 256 && m / 0x100 % 256 == n / 0x100 % 256
    requires m / 0x1_0000 % 256 == n / 0x1_0000 % 256 && m / 0x100_0000 % 256 == n / 0x100_0000 % 256
    ensures Rfc1321.Bytes32(m) == Rfc1321.Bytes32(n)
  {
    hide Rfc1321.Byte;
    SameByte(m, n);
    SameByte(m / 0x100, n / 0x100);
    SameByte(m / 0x1_0000, n / 0x1_0000);
    SameByte(m / 0x100_0000, n / 0x100_0000);
  }

  lemma SameByte(m: nat, n: nat)
    requires m % 256 == n % 256
    ensures Rfc1321.Byte(m) == Rfc1321.Byte(n)
  {
  }

  /** Multiples of 2^32 do not show in the four low bytes. */
  lemma HighDropped(q: nat, x: nat)
    ensures Rfc1321.Bytes32(q * 0x1_0000_0000 + x) == Rfc1321.Bytes32(x)
  {
    Dropped0(q, x);
    Dropped8(q, x);
    Dropped16(q, x);
    Dropped24(q, x);
    SameBytes(q * 0x1_0000_0000 + x, x);
  }

  lemma SameByteValue(a: nat, z: nat)
    ensures (a * 256 + z) % 256 == z % 256
  {
  }

  lemma Dropped0(q: nat, x: nat)
    ensures (q * 0x1_0000_0000 + x) % 256 == x % 256
  {
    SameByteValue(q * 0x100_0000, x);
  }

  lemma Dropped8(q: nat, x: nat)
    ensures (q * 0x1_0000_0000 + x) / 0x100 % 256 == x / 0x100 % 256
  {
    assert (q * 0x1_0000_0000 + x) / 0x100 == q * 0x100_0000 + x / 0x100;
    SameByteValue(q * 0x1_0000, x / 0x100);
  }

  lemma Dropped16(q: nat, x: nat)
    ensures (q * 0x1_0000_0000 + x) / 0x1_0000 % 256 == x / 0x1_0000 % 256
  {
    assert (q * 0x1_0000_0000 + x) / 0x1_0000 == q * 0x1_0000 + x / 0x1_0000;
    SameByteValue(q * 0x100, x / 0x1_0000);
  }

  lemma Dropped24(q: nat, x: nat)
    ensures (q * 0x1_0000_0000 + x) / 0x100_0000 % 256 == x / 0x100_0000 % 256
  {
    assert (q * 0x1_0000_0000 + x) / 0x100_0000 == q * 0x100 + x / 0x100_0000;
    SameByteValue(q, x / 0x100_0000);
  }

  /** The counters hold the length in bits: lo shifted by three, and hi. */
  lemma LengthCounted(n: nat)
    ensures Rfc1321.Bytes32(n % PART * 8) + Rfc1321.Bytes32(n / PART % WORD) == LengthBytes(n)
  {
    var q, r := n / PART, n % PART;
    assert 8 * n == q * 0x1_0000_0000 + r * 8;
    HighDropped(q, r * 8);
    assert 8 * n / 0x1_0000_0000 == q;
    assert q == q / WORD * 0x1_0000_0000 * 0x1_0000_0000 + q % WORD;
    HighDropped(q / WORD * 0x1_0000_0000, q % WORD);
  }

  /** The padded message is the whole blocks, and one block or two more. */
  lemma PadParts(m: seq<bv8>)
    ensures var u, tail, head := |m| % 64, m[Whole(|m|)..], m[..Whole(|m|)];
            Rfc1321.Pad(m) == if u <= 55 then head + (tail + [0x80] + Rfc1321.Zeros(55 - u) + LengthBytes(|m|))
                              else head + (tail + [0x80] + Rfc1321.Zeros(63 - u)) + (Rfc1321.Zeros(56) + LengthBytes(|m|))
  {
    hide Rfc1321.Bytes32;
    var u := |m| % 64;
    assert m == m[..Whole(|m|)] + m[Whole(|m|)..];
    if u <= 55 {
      assert Rfc1321.ZeroCount(|m|) == 55 - u;
    } else {
      assert Rfc1321.ZeroCount(|m|) == 119 - u;
      assert Rfc1321.Zeros(119 - u) == Rfc1321.Zeros(63 - u) + Rfc1321.Zeros(56);
    }
  }

  const PART := 0x2000_0000
  const WORD := 0x1_0000_0000_0000_0000

  /** The part of n bytes that makes whole blocks. */
  function Whole(n: nat): (w: nat)
    ensures w % 64 == 0 && w <= n && n - w == n % 64
  {
    n - n % 64
  }

  /** The two counters after k more bytes, the carry seen as a sum that got smaller. */
  lemma CountGrows(n: nat, k: nat)
    ensures (n % PART + k) % PART == (n + k) % PART
    ensures (n + k) / PART == n / PART + k / PART + if (n % PART + k) % PART < n % PART then 1 else 0
    ensures (n / PART % WORD + k / PART) % WORD == (n / PART + k / PART) % WORD
    ensures ((n / PART % WORD + 1) % WORD + k / PART) % WORD == (n / PART + k / PART + 1) % WORD
  {
    LowCounter(n, k);
    HighCounter(n / PART, k / PART);
    HighCounter(n / PART, 1);
    HighCounter(n / PART + 1, k / PART);
  }

  lemma LowCounter(n: nat, k: nat)
    ensures (n % PART + k) % PART == (n + k) % PART
    ensures (n + k) / PART == n / PART + k / PART + if (n % PART + k) % PART < n % PART then 1 else 0
  {
  }

  lemma HighCounter(m: nat, k: nat)
    ensures (m % WORD + k) % WORD == (m + k) % WORD
  {
  }

  lemma UsedIsRest(n: nat)
    ensures n % PART % 64 == n % 64
  {
  }

  lemma Stays(had: seq<bv8>, piece: seq<bv8>)
    requires |had| % 64 + |piece| < 64
    ensures Whole(|had + piece|) == Whole(|had|) && |had + piece| % 64 == |had| % 64 + |piece|
    ensures (had + piece)[..Whole(|had|)] == had[..Whole(|had|)]
    ensures (had + piece)[Whole(|had|)..] == had[Whole(|had|)..] + piece
  {
  }

  lemma {:induction false} FoldSplit(st: Rfc1321.State, x: seq<bv8>, y: seq<bv8>)
    requires |x| % 64 == 0 && |y| % 64 == 0
    ensures Rfc1321.Fold(st, x + y) == Rfc1321.Fold(Rfc1321.Fold(st, x), y)
    decreases |y|
  {
    hide Rfc1321.Compress;
    if y == [] {
      assert x + y == x;
    } else {
      var k := |y| - 64;
      FoldSplit(st, x, y[..k]);
      assert (x + y)[..|x| + k] == x + y[..k] && (x + y)[|x| + k..] == y[k..];
    }
  }

  function FromBytes(b0: bv8, b1: bv8, b2: bv8, b3: bv8): (r: bv64)
    ensures Low(r) == (b0 as bv32) | ((b1 as bv32) << 8) | ((b2 as bv32) << 16) | ((b3 as bv32) << 24)
  {
    (b0 as bv64) | ((b1 as bv64) << 8) | ((b2 as bv64) << 16) | ((b3 as bv64) << 24)
  }
}
