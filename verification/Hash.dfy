/** The hash functions of the name tables, and lists linked through their elements. */
module Hash {
  import opened Text

  const BITS_PER_COL := 3
  const BITS_PER_COL_MASK := 7
  const U_MAX_INITIAL := 8192
  const CH_MAX_INITIAL := 2048
  const U_MAX := U_MAX_INITIAL * 8
  const CH_MAX := CH_MAX_INITIAL * 8
  const UINT := 0x1_0000_0000

  /** A char of the lowered name, as a signed char. */
  function Lower(c: char): int {
    var v := ToLower(c) as int % 256;
    if v < 128 then v else v - 256
  }

  /** Seven-bit characters count as themselves, capitals as their small letters, and the upper half of the bytes as negative. */
  lemma LowerMeans(c: char)
    ensures c as int < 128 ==> Lower(c) == if 'A' <= c <= 'Z' then c as int + 32 else c as int
    ensures 128 <= c as int < 256 ==> Lower(c) == c as int - 256
  {
  }

  /** (hash << 1) + lower, unsigned */
  function Left(name: string): (r: nat) {
    if name == "" then 0 else (Left(name[..|name| - 1]) * 2 + Lower(name[|name| - 1])) % UINT
  }

  /** (hash2 >> 1) + lower, signed */
  function Right(name: string): int {
    if name == "" then 0 else Right(name[..|name| - 1]) / 2 + Lower(name[|name| - 1])
  }

  /** hash & mask, shifted, plus hash2 & BITS_PER_COL_MASK */
  function Column(left: nat, right: int, size: nat): (r: nat)
    requires size > 0
    ensures r < size * 8
  {
    left % size * 8 + right % 8
  }

  function NickBucket(name: string): nat {
    Column(Left(name), Right(name), U_MAX_INITIAL)
  }

  /** The part of a channel's name that is hashed: of at most 30 characters counted down from, 29 are looked at. */
  function Head(name: string): string {
    if |name| <= 29 then name else name[..29]
  }

  function ChannelBucket(name: string): nat {
    Column(Left(Head(name)), Right(Head(name)), CH_MAX_INITIAL)
  }

  method HashNickName(name: string) returns (r: nat)
    ensures r == NickBucket(name) && r < U_MAX
  {
    var hash: nat, hash2, i := 0, 0, 0;
    while i < |name|
      invariant 0 <= i <= |name|
      invariant hash == Left(name[..i]) && hash2 == Right(name[..i])
    {
      assert name[..i + 1][..i] == name[..i];
      hash := (hash * 2 + Lower(name[i])) % UINT;
      hash2 := hash2 / 2 + Lower(name[i]);
      i := i + 1;
    }
    assert name[..i] == name;
    r := hash % U_MAX_INITIAL * 8 + hash2 % 8;
  }

  method HashChannelName(name: string) returns (r: nat)
    ensures r == ChannelBucket(name) && r < CH_MAX
  {
    var hash: nat, hash2, k, i := 0, 0, 0, 30;
    while true
      invariant 0 <= k <= |Head(name)| && i == 30 - k
      invariant hash == Left(name[..k]) && hash2 == Right(name[..k])
      decreases |name| - k
    {
      if k == |name| {
        break;
      }
      i := i - 1;
      if i == 0 {
        break;
      }
      assert name[..k + 1][..k] == name[..k];
      hash := (hash * 2 + Lower(name[k])) % UINT;
      hash2 := hash2 / 2 + Lower(name[k]);
      k := k + 1;
    }
    assert name[..k] == Head(name);
    r := hash % CH_MAX_INITIAL * 8 + hash2 % 8;
  }

  lemma SameLower(a: char, b: char)
    requires ToUpper(a) == ToUpper(b)
    ensures Lower(a) == Lower(b)
  {
  }

  lemma {:induction false} SameSums(a: string, b: string)
    requires |a| == |b| && forall i | 0 <= i < |a| :: ToUpper(a[i]) == ToUpper(b[i])
    ensures Left(a) == Left(b) && Right(a) == Right(b)
  {
    if a != "" {
      SameSums(a[..|a| - 1], b[..|b| - 1]);
      SameLower(a[|a| - 1], b[|b| - 1]);
    }
  }

  /** Names equal under mycmp, which raises case, fall into one bucket, though hashing lowers it. */
  lemma SameNameSameBucket(a: string, b: string)
    requires SameName(a, b)
    ensures NickBucket(a) == NickBucket(b) && ChannelBucket(a) == ChannelBucket(b)
  {
    assert |a| == |b| by {
      assert |Fold(a)| == |Fold(b)|;
    }
    forall i | 0 <= i < |a|
      ensures ToUpper(a[i]) == ToUpper(b[i])
    {
      assert Fold(a)[i] == Fold(b)[i];
    }
    SameSums(a, b);
    SameSums(Head(a), Head(b));
  }

  /** The thirtieth character of a channel's name no longer counts. */
  lemma OnlyTwentyNine(a: string, b: string)
    requires |a| >= 29 && |b| >= 29 && a[..29] == b[..29]
    ensures ChannelBucket(a) == ChannelBucket(b)
  {
    assert Head(a) == a[..29] && Head(b) == b[..29];
  }
}

/** Singly linked lists without repetition. */
module Links {
  ghost predicate NoDup<T>(s: seq<T>) {
    forall i, j | 0 <= i < j < |s| :: s[i] != s[j]
  }

  /** What unlinking the first x leaves. */
  function Without<T(==)>(s: seq<T>, x: T): (r: seq<T>) {
    if s == [] then [] else if s[0] == x then s[1..] else [s[0]] + Without(s[1..], x)
  }

  lemma {:induction false} WithoutPlace<T>(s: seq<T>, x: T, i: nat)
    requires i < |s| && s[i] == x && x !in s[..i]
    ensures Without(s, x) == s[..i] + s[i + 1..]
  {
    if i > 0 {
      assert s[0] in s[..i];
      assert forall y | y in s[1..][..i - 1] :: y in s[..i];
      WithoutPlace(s[1..], x, i - 1);
      assert s[1..][i..] == s[i + 1..];
    }
  }

  lemma {:induction false} WithoutNone<T>(s: seq<T>, x: T)
    requires x !in s
    ensures Without(s, x) == s
  {
    if s != [] {
      WithoutNone(s[1..], x);
    }
  }

  /** Exactly the other elements are left, each once as before. */
  lemma WithoutFacts<T>(s: seq<T>, x: T)
    requires NoDup(s)
    ensures NoDup(Without(s, x)) && |Without(s, x)| == |s| - (if x in s then 1 else 0)
    ensures forall y | y in Without(s, x) :: y in s && y != x
    ensures forall y | y in s && y != x :: y in Without(s, x)
  {
    if x in s {
      var i :| 0 <= i < |s| && s[i] == x;
      WithoutPlace(s, x, i);
      var r := s[..i] + s[i + 1..];
      assert forall y | y in s && y != x :: y in r by {
        assert s == s[..i] + [x] + s[i + 1..];
      }
    } else {
      WithoutNone(s, x);
    }
  }

  /** The loop over a pointer to the link: find, unlink, stop. */
  method Unlink<T(==)>(s: seq<T>, x: T) returns (r: seq<T>)
    ensures r == Without(s, x)
  {
    var i := 0;
    while i < |s|
      invariant 0 <= i <= |s| && x !in s[..i]
    {
      if s[i] == x {
        WithoutPlace(s, x, i);
        return s[..i] + s[i + 1..];
      }
      i := i + 1;
    }
    WithoutNone(s, x);
    r := s;
  }

  lemma NoDupFront<T>(s: seq<T>, x: T)
    requires NoDup(s) && x !in s
    ensures NoDup([x] + s) && NoDup(s + [x])
  {
  }
}
