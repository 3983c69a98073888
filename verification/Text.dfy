/** The string helpers of the daemon: separators, decimal numbers, case folding and strcmp. */
module Text {

  /** s[i] of a C string: reading the terminator yields NUL. */
  function CharAt(s: string, i: nat): char {
    if i < |s| then s[i] else '\0'
  }

  /* ---------- space-separated parameter buffers ---------- */

  predicate IsWord(s: string) {
    s != "" && ' ' !in s
  }

  /** Length of the run of non-space characters at the front of s. */
  function WordLen(s: string): (n: nat)
    ensures n <= |s|
    ensures ' ' !in s[..n]
    ensures n < |s| ==> s[n] == ' '
  {
    if s == "" || s[0] == ' ' then 0
    else
      var n := 1 + WordLen(s[1..]);
      assert s[..n] == [s[0]] + s[1..][..n - 1];
      n
  }

  /** The tokens strtoken(…, " ") hands out. */
  function Words(s: string): (ws: seq<string>)
    ensures forall w | w in ws :: IsWord(w)
    decreases |s|
  {
    if s == "" then []
    else if s[0] == ' ' then Words(s[1..])
    else
      var n := WordLen(s);
      [s[..n]] + Words(s[n..])
  }

  /** ADD_PARA: append p, preceded by a space unless the buffer is empty. */
  function AddPara(buf: string, p: string): string {
    if buf == "" then p else buf + " " + p
  }

  lemma WordLenWhole(s: string)
    requires ' ' !in s
    ensures WordLen(s) == |s|
  {
  }

  lemma WordLenPrefix(s: string, t: string)
    requires WordLen(s) < |s|
    ensures WordLen(s + t) == WordLen(s)
  {
    if s[0] != ' ' {
      assert (s + t)[1..] == s[1..] + t;
      WordLenPrefix(s[1..], t);
    }
  }

  lemma WordLenEnd(s: string, t: string)
    requires ' ' !in s
    ensures WordLen(s + " " + t) == |s|
  {
    if s != "" {
      assert (s + " " + t)[1..] == s[1..] + " " + t;
      WordLenEnd(s[1..], t);
    }
  }

  lemma WordsOfWord(p: string)
    requires IsWord(p)
    ensures Words(p) == [p]
  {
    WordLenWhole(p);
    assert p[..|p|] == p && p[|p|..] == "";
  }

  lemma {:induction false} WordsAppend(buf: string, p: string)
    requires IsWord(p)
    ensures Words(buf + " " + p) == Words(buf) + [p]
    decreases |buf|
  {
    var whole := buf + " " + p;
    if buf == "" {
      assert whole[1..] == p;
      WordsOfWord(p);
    } else if buf[0] == ' ' {
      assert whole[1..] == buf[1..] + " " + p;
      WordsAppend(buf[1..], p);
    } else {
      var n := WordLen(buf);
      if n < |buf| {
        WordLenPrefix(buf, " " + p);
        assert whole == buf + (" " + p);
      } else {
        assert buf[..n] == buf;
        WordLenEnd(buf, p);
      }
      assert WordLen(whole) == n;
      assert whole[..n] == buf[..n];
      assert whole[n..] == buf[n..] + " " + p;
      WordsAppend(buf[n..], p);
    }
  }

  /** What ADD_PARA appended is read back as one more parameter. */
  lemma WordsAddPara(buf: string, p: string)
    requires IsWord(p)
    ensures Words(AddPara(buf, p)) == Words(buf) + [p]
  {
    if buf == "" {
      WordsOfWord(p);
    } else {
      WordsAppend(buf, p);
    }
  }

  lemma WordsOfSpaced(buf: string)
    ensures Words(buf + " ") == Words(buf)
    decreases |buf|
  {
    var whole := buf + " ";
    if buf == "" {
      assert whole[1..] == "";
    } else if buf[0] == ' ' {
      assert whole[1..] == buf[1..] + " ";
      WordsOfSpaced(buf[1..]);
    } else {
      var n := WordLen(buf);
      if n < |buf| {
        WordLenPrefix(buf, " ");
      } else {
        assert buf[..n] == buf;
        WordLenEnd(buf, "");
        assert buf + " " + "" == whole;
      }
      assert whole[..n] == buf[..n];
      assert whole[n..] == buf[n..] + " ";
      WordsOfSpaced(buf[n..]);
    }
  }

  /* ---------- decimal numbers ---------- */

  predicate IsDigit(c: char) {
    '0' <= c <= '9'
  }

  function DigitOf(d: nat): (c: char)
    requires d < 10
    ensures IsDigit(c) && c as int - '0' as int == d
  {
    ('0' as int + d) as char
  }

  function Digits(n: nat): (s: string)
    ensures s != "" && forall c | c in s :: IsDigit(c)
  {
    if n < 10 then [DigitOf(n)] else Digits(n / 10) + [DigitOf(n % 10)]
  }

  /** sprintf("%d") */
  function Itoa(n: int): (s: string)
    ensures IsWord(s) && ':' !in s
  {
    if n < 0 then "-" + Digits(-n) else Digits(n)
  }

  /** The digit run at the front of s, read on top of acc; the rest of s. */
  function ReadDigits(s: string, acc: nat): (r: (nat, string))
    ensures |r.1| <= |s|
  {
    if s != "" && IsDigit(s[0]) then ReadDigits(s[1..], acc * 10 + (s[0] as int - '0' as int))
    else (acc, s)
  }

  predicate IsSpace(c: char) {
    c == ' ' || '\t' <= c <= '\r'
  }

  function SkipSpace(s: string): string {
    if s != "" && IsSpace(s[0]) then SkipSpace(s[1..]) else s
  }

  /** A value of the C type int. */
  predicate Int32(n: int) {
    -0x8000_0000 <= n < 0x8000_0000
  }

  /** Conversion of a long to int, keeping the low 32 bits. */
  function ToInt32(n: int): (r: int)
    ensures Int32(r) && (Int32(n) ==> r == n) && (n - r) % 0x1_0000_0000 == 0
  {
    (n + 0x8000_0000) % 0x1_0000_0000 - 0x8000_0000
  }

  /** A long is 64 bits wide, and strtol stops at its limits. */
  function Saturate(n: int): int {
    if n < -0x8000_0000_0000_0000 then -0x8000_0000_0000_0000
    else if n > 0x7fff_ffff_ffff_ffff then 0x7fff_ffff_ffff_ffff
    else n
  }

  /** strtol(s, &end, 10): the value, and the text at end (s itself when there is no number). */
  function Strtol(s: string): (int, string) {
    var t := SkipSpace(s);
    var neg := CharAt(t, 0) == '-';
    var u := if CharAt(t, 0) == '-' || CharAt(t, 0) == '+' then t[1..] else t;
    if !IsDigit(CharAt(u, 0)) then (0, s)
    else
      var r := ReadDigits(u, 0);
      var v: int := r.0;
      (Saturate(if neg then -v else v), r.1)
  }

  function Atoi(s: string): (r: int)
    ensures Int32(r)
  {
    ToInt32(Strtol(s).0)
  }

  lemma {:induction false} ReadDigitsBack(n: nat, rest: string)
    ensures ReadDigits(Digits(n) + rest, 0) == ReadDigits(rest, n)
  {
    if n < 10 {
      assert ([DigitOf(n)] + rest)[1..] == rest;
    } else {
      var tail := [DigitOf(n % 10)] + rest;
      assert Digits(n) + rest == Digits(n / 10) + tail;
      ReadDigitsBack(n / 10, tail);
      assert tail[1..] == rest;
    }
  }

  /** Reading a printed number, followed by anything that is not a digit, gives the number back. */
  lemma StrtolBack(n: int, rest: string)
    requires Int32(n) && !IsDigit(CharAt(rest, 0))
    ensures Strtol(Itoa(n) + rest) == (n, rest)
  {
    var m := if n < 0 then -n else n;
    ReadDigitsBack(m, rest);
    var body := Digits(m) + rest;
    assert body[0] == Digits(m)[0] && IsDigit(body[0]);
    if n < 0 {
      assert Itoa(n) + rest == "-" + body;
      assert ("-" + body)[1..] == body;
    }
  }

  predicate AllDigits(s: string) {
    forall i | 0 <= i < |s| :: '0' <= s[i] <= '9'
  }

  predicate AllBlank(s: string) {
    forall i | 0 <= i < |s| :: s[i] as int == 32 || 9 <= s[i] as int <= 13
  }

  /** The value of decimal digits: the last counts once, the others ten times. */
  function ValueOf(ds: string): nat
    requires AllDigits(ds)
  {
    if ds == "" then 0 else 10 * ValueOf(ds[..|ds| - 1]) + (ds[|ds| - 1] as int - '0' as int)
  }

  lemma {:induction false} ReadDigitsMeans(ds: string, rest: string, acc: nat)
    requires AllDigits(ds) && !IsDigit(CharAt(rest, 0))
    ensures ReadDigits(ds + rest, acc) == (acc * Pow10(|ds|) + ValueOf(ds), rest)
  {
    if ds == "" {
      assert ds + rest == rest;
    } else {
      var d, more := ds[0], ds[1..];
      assert (ds + rest)[1..] == more + rest;
      ReadDigitsMeans(more, rest, acc * 10 + (d as int - '0' as int));
      FirstDigit(ds);
      Shifted(acc, d as int - '0' as int, Pow10(|more|));
    }
  }

  lemma Shifted(acc: nat, d: nat, p: nat)
    ensures (acc * 10 + d) * p == acc * (10 * p) + d * p
  {
  }

  lemma {:induction false} FirstDigit(ds: string)
    requires ds != "" && AllDigits(ds)
    ensures ValueOf(ds) == (ds[0] as int - '0' as int) * Pow10(|ds| - 1) + ValueOf(ds[1..])
  {
    if |ds| > 1 {
      var init := ds[..|ds| - 1];
      FirstDigit(init);
      assert ds[1..][..|ds| - 2] == init[1..] && ds[1..][|ds| - 2] == ds[|ds| - 1];
      TenTimes(ds[0] as int - '0' as int, Pow10(|ds| - 2));
    } else {
      assert ds[..0] == "" && ds[1..] == "";
    }
  }

  lemma TenTimes(d: nat, p: nat)
    ensures 10 * (d * p) == d * (10 * p)
  {
  }

  lemma {:induction false} SpacesSkipped(blanks: string, s: string)
    requires AllBlank(blanks) && !IsSpace(CharAt(s, 0))
    ensures SkipSpace(blanks + s) == s
  {
    if blanks == "" {
      assert blanks + s == s;
    } else {
      assert (blanks + s)[1..] == blanks[1..] + s;
      SpacesSkipped(blanks[1..], s);
    }
  }

  /**
   strtol in base 10, on text of any kind: blanks, a sign or none, digits and what follows them, with
   the value held within 64 bits; and without digits nothing is read.
   */
  lemma StrtolMeans(blanks: string, sign: string, ds: string, rest: string)
    requires AllBlank(blanks)
    requires sign == "" || sign == "+" || sign == "-"
    requires AllDigits(ds) && !IsDigit(CharAt(rest, 0))
    requires ds == "" && sign == "" ==> !IsSpace(CharAt(rest, 0)) && CharAt(rest, 0) != '+' && CharAt(rest, 0) != '-'
    ensures var s := blanks + (sign + (ds + rest));
            Strtol(s) ==
              if ds == "" then (0, s)
              else
                var n: int := ValueOf(ds);
                var v := if sign == "-" then -n else n;
                (if v > 9223372036854775807 then 9223372036854775807 else if v < -9223372036854775808 then -9223372036854775808 else v, rest)
  {
    var body := ds + rest;
    if ds != "" {
      assert body[0] == ds[0];
    } else {
      assert body == rest;
    }
    var t := sign + body;
    assert sign == "" ==> t == body;
    assert sign != "" ==> t[0] == sign[0] && t[1..] == body;
    SpacesSkipped(blanks, t);
    ReadDigitsMeans(ds, rest, 0);
  }

  function Pow10(k: nat): nat {
    if k == 0 then 1 else 10 * Pow10(k - 1)
  }

  lemma {:induction false} DigitsLength(n: nat, k: nat)
    requires k > 0 && n < Pow10(k)
    ensures |Digits(n)| <= k
  {
    if n >= 10 {
      DigitsLength(n / 10, k - 1);
    }
  }

  lemma NumberLength(n: int)
    requires 0 <= n && Int32(n)
    ensures |Itoa(n)| <= 10
  {
    assert Pow10(5) == 100_000;
    assert Pow10(10) == 10_000_000_000;
    DigitsLength(n, 10);
  }

  lemma AtoiItoa(n: int)
    requires Int32(n)
    ensures Atoi(Itoa(n)) == n
    ensures Strtol(Itoa(n)) == (n, "")
  {
    StrtolBack(n, "");
    assert Itoa(n) + "" == Itoa(n);
  }

  /** strchr(s, c): the position of the first c, or |s|. */
  function IndexOf(s: string, c: char): (i: nat)
    ensures i <= |s| && c !in s[..i]
    ensures i < |s| ==> s[i] == c
    ensures i == |s| <==> c !in s
  {
    if s == "" || s[0] == c then 0
    else
      var i := 1 + IndexOf(s[1..], c);
      assert s[..i] == [s[0]] + s[1..][..i - 1];
      i
  }

  /** IndexOf finds the separator that follows a part without it. */
  lemma IndexOfSplit(a: string, c: char, b: string)
    requires c !in a
    ensures IndexOf(a + [c] + b, c) == |a|
  {
    if a != "" {
      assert (a + [c] + b)[1..] == a[1..] + [c] + b;
      IndexOfSplit(a[1..], c, b);
    }
  }

  /* ---------- case folding (touppertab) and strcmp ---------- */

  function ToUpper(c: char): char {
    if 'a' <= c <= 'z' then (c as int - 'a' as int + 'A' as int) as char else c
  }

  function ToLower(c: char): char {
    if 'A' <= c <= 'Z' then (c as int - 'A' as int + 'a' as int) as char else c
  }

  function Fold(s: string): (r: string)
    ensures |r| == |s|
    ensures forall i | 0 <= i < |s| :: r[i] == ToUpper(s[i])
  {
    if s == "" then "" else [ToUpper(s[0])] + Fold(s[1..])
  }

  /** The two tables differ from the identity at the 26 letters only, and by 32. */
  lemma CaseTables(c: char)
    ensures ToUpper(c) as int == if 97 <= c as int <= 122 then c as int - 32 else c as int
    ensures ToLower(c) as int == if 65 <= c as int <= 90 then c as int + 32 else c as int
  {
  }

  /** mycmp(a, b) == 0 */
  predicate SameName(a: string, b: string) {
    Fold(a) == Fold(b)
  }

  /** One is a small letter, and the other the capital of it. */
  predicate CasePair(a: char, b: char) {
    ('a' <= a <= 'z' && a as int - b as int == 32) || ('a' <= b <= 'z' && b as int - a as int == 32)
  }

  /** Names are the same when they differ in the case of letters at most. */
  lemma SameNameMeans(a: string, b: string)
    ensures SameName(a, b) <==> |a| == |b| && forall i | 0 <= i < |a| :: a[i] == b[i] || CasePair(a[i], b[i])
  {
    var x, y := Fold(a), Fold(b);
    if |a| == |b| && forall i | 0 <= i < |a| :: a[i] == b[i] || CasePair(a[i], b[i]) {
      assert forall i | 0 <= i < |a| :: x[i] == y[i];
    }
    if x == y {
      forall i | 0 <= i < |a|
        ensures a[i] == b[i] || CasePair(a[i], b[i])
      {
        assert x[i] == y[i];
      }
    }
  }

  /** strcmp(a, b) < 0 */
  predicate Less(a: string, b: string) {
    b != "" && (a == "" || a[0] < b[0] || (a[0] == b[0] && Less(a[1..], b[1..])))
  }

  lemma {:induction false} LessTotal(a: string, b: string)
    ensures Less(a, b) || Less(b, a) || a == b
    ensures !(Less(a, b) && Less(b, a))
    ensures !Less(a, a)
  {
    if a != "" && b != "" {
      LessTotal(a[1..], b[1..]);
      assert a == [a[0]] + a[1..] && b == [b[0]] + b[1..];
    } else if a != "" {
      LessTotal(a[1..], a[1..]);
    }
  }

  /** a is a proper start of b, or smaller at the first place where they differ. */
  ghost predicate Precedes(a: string, b: string) {
    exists k | 0 <= k < |b| && k <= |a| :: a[..k] == b[..k] && (k == |a| || a[k] < b[k])
  }

  lemma {:induction false} LessMeans(a: string, b: string)
    ensures Less(a, b) <==> Precedes(a, b)
  {
    if b == "" {
    } else if a == "" || a[0] < b[0] {
      assert a[..0] == b[..0];
    } else if a[0] == b[0] {
      LessMeans(a[1..], b[1..]);
      if k :| 0 <= k < |b[1..]| && k <= |a[1..]| && a[1..][..k] == b[1..][..k] && (k == |a[1..]| || a[1..][k] < b[1..][k]) {
        assert a[..k + 1] == [a[0]] + a[1..][..k] && b[..k + 1] == [b[0]] + b[1..][..k];
      }
      if k :| 0 <= k < |b| && k <= |a| && a[..k] == b[..k] && (k == |a| || a[k] < b[k]) {
        assert k > 0;
        assert a[1..][..k - 1] == a[..k][1..] && b[1..][..k - 1] == b[..k][1..];
      }
    } else {
      forall k | 0 < k < |b| && k <= |a|
        ensures a[..k] != b[..k]
      {
        assert a[..k][0] == a[0] && b[..k][0] == b[0];
      }
    }
  }

  lemma {:induction false} LessTransitive(a: string, b: string, c: string)
    requires Less(a, b) && Less(b, c)
    ensures Less(a, c)
  {
    if a != "" && a[0] == b[0] && b[0] == c[0] {
      LessTransitive(a[1..], b[1..], c[1..]);
    }
  }
}
