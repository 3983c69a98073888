/** Wildcard matching: the recursive matcher, with its budget of calls. */
module Match {
  import opened Text

  const MAX_CALLS := 512

  predicate StartsWith(w: string, a: char, b: char) {
    |w| >= 2 && w[0] == a && w[1] == b
  }

  predicate SameChar(a: char, b: char) {
    ToUpper(a) == ToUpper(b)
  }

  /**
   _match, for the calls made so far: whether it matches, and the calls made then. It gives up when the
   budget is used, and takes *! and *@ at the front as "up to the first ! or @".
   */
  function Try(wild: string, text: string, calls: nat): (r: (bool, nat))
    decreases |wild|, 5, |text|
  {
    if calls > MAX_CALLS then (false, calls + 1)
    else if StartsWith(wild, '*', '!') then
      var i := IndexOf(text, '!');
      if i == |text| then (false, calls + 1) else TryHost(wild[2..], text[i + 1..], calls + 1)
    else TryHost(wild, text, calls + 1)
  }

  function TryHost(wild: string, text: string, calls: nat): (r: (bool, nat))
    decreases |wild|, 4, |text|
  {
    if StartsWith(wild, '*', '@') then
      var i := IndexOf(text, '@');
      if i == |text| then (false, calls) else Loop(wild[2..], text[i + 1..], calls)
    else Loop(wild, text, calls)
  }

  /** The main loop, character by character up to a star. */
  function Loop(wild: string, text: string, calls: nat): (r: (bool, nat))
    decreases |wild|, 3, |text|
  {
    if wild == "" then (text == "", calls)
    else if wild[0] == '*' then Star(wild[1..], text, calls)
    else if text == "" then (false, calls)
    else if wild[0] != '?' && !SameChar(text[0], wild[0]) then (false, calls)
    else Loop(wild[1..], text[1..], calls)
  }

  /** After a star: further stars are swallowed, question marks take a character each. */
  function Star(wild: string, text: string, calls: nat): (r: (bool, nat))
    decreases |wild|, 3, |text|
  {
    if wild != "" && wild[0] == '*' then Star(wild[1..], text, calls)
    else if wild != "" && wild[0] == '?' && text != "" then Questions(wild[1..], text[1..], calls)
    else if wild == "" then (true, calls)
    else Search(wild, text, calls)
  }

  function Questions(wild: string, text: string, calls: nat): (r: (bool, nat))
    decreases |wild|, 3, |text|
  {
    if wild != "" && wild[0] == '?' && text != "" then Questions(wild[1..], text[1..], calls)
    else if wild == "" then (true, calls)
    else if wild[0] == '*' then Star(wild[1..], text, calls)
    else Search(wild, text, calls)
  }

  /** Every occurrence of the next character is tried, with what follows it. */
  function Search(wild: string, text: string, calls: nat): (r: (bool, nat))
    requires wild != ""
    decreases |wild|, 2, |text|
  {
    if text == "" then (false, calls)
    else if SameChar(text[0], wild[0]) then
      var t := Try(wild[1..], text[1..], calls);
      if t.0 then t else Search(wild, text[1..], t.1)
    else Search(wild, text[1..], calls)
  }

  /** match(mask, text) == 0 */
  predicate Matches(mask: string, text: string) {
    Try(mask, text, 0).0
  }

  /* ---------- a mask matches itself ---------- */

  predicate AllSame(a: string, b: string) {
    |a| == |b| && forall i | 0 <= i < |a| :: SameChar(a[i], b[i])
  }

  lemma AllSameTail(a: string, b: string, n: nat)
    requires AllSame(a, b) && n <= |a|
    ensures AllSame(a[n..], b[n..])
  {
  }

  /** Star and question mark have no case, and nothing else is the same as them. */
  lemma WildChars(a: char, b: char)
    requires SameChar(a, b)
    ensures (a == '*' <==> b == '*') && (a == '?' <==> b == '?') && (a == '!' <==> b == '!') && (a == '@' <==> b == '@')
  {
  }

  predicate AllWild(s: string) {
    forall c | c in s :: c == '*' || c == '?'
  }

  lemma {:induction false} IndexAfterStar(s: string, c: char)
    requires |s| >= 2 && s[0] == '*' && s[1] == c && c != '*'
    ensures IndexOf(s, c) == 1
  {
    assert s[1..][0] == c;
  }

  /** Against itself, in any case, the matcher never has to try twice: one call for every star. */
  lemma {:induction false} TryItself(wild: string, text: string, calls: nat)
    requires AllSame(wild, text) && calls + |wild| <= MAX_CALLS
    ensures Try(wild, text, calls).0
    decreases |wild|, 5
  {
    if StartsWith(wild, '*', '!') {
      WildChars(wild[0], text[0]);
      WildChars(wild[1], text[1]);
      IndexAfterStar(text, '!');
      AllSameTail(wild, text, 2);
      HostItself(wild[2..], text[2..], calls + 1);
    } else {
      HostItself(wild, text, calls + 1);
    }
  }

  lemma {:induction false} HostItself(wild: string, text: string, calls: nat)
    requires AllSame(wild, text) && calls + |wild| <= MAX_CALLS + 1
    ensures TryHost(wild, text, calls).0
    decreases |wild|, 4
  {
    if StartsWith(wild, '*', '@') {
      WildChars(wild[0], text[0]);
      WildChars(wild[1], text[1]);
      IndexAfterStar(text, '@');
      AllSameTail(wild, text, 2);
      LoopItself(wild[2..], text[2..], calls);
    } else {
      LoopItself(wild, text, calls);
    }
  }

  lemma {:induction false} LoopItself(wild: string, text: string, calls: nat)
    requires AllSame(wild, text) && calls + |wild| <= MAX_CALLS + 1
    ensures Loop(wild, text, calls).0
    decreases |wild|, 3
  {
    if wild != "" {
      AllSameTail(wild, text, 1);
      WildChars(wild[0], text[0]);
      if wild[0] == '*' {
        assert text == text[..1] + text[1..] && text[..1] == "*";
        StarItself(wild[1..], text[..1], text[1..], calls);
      } else {
        LoopItself(wild[1..], text[1..], calls);
      }
    }
  }

  /** Between a star and the next plain character the text lags behind by wildcards only. */
  lemma {:induction false} StarItself(wild: string, lag: string, text: string, calls: nat)
    requires AllSame(wild, text) && AllWild(lag) && calls + |wild| <= MAX_CALLS
    ensures Star(wild, lag + text, calls).0 && Questions(wild, lag + text, calls).0
    decreases |wild|, 3
  {
    if wild != "" {
      AllSameTail(wild, text, 1);
      WildChars(wild[0], text[0]);
      var all := lag + text;
      if wild[0] == '*' {
        assert all == (lag + text[..1]) + text[1..];
        assert text[..1] == "*";
        StarItself(wild[1..], lag + text[..1], text[1..], calls);
      } else if wild[0] == '?' {
        var lag' := (lag + text[..1])[1..];
        assert all == (lag + text[..1]) + text[1..];
        assert all[1..] == lag' + text[1..];
        assert text[..1] == "?";
        forall c | c in lag'
          ensures c == '*' || c == '?'
        {
          assert c in lag + text[..1];
        }
        StarItself(wild[1..], lag', text[1..], calls);
      } else {
        SearchItself(wild, lag, text, calls);
      }
    }
  }

  lemma {:induction false} SearchItself(wild: string, lag: string, text: string, calls: nat)
    requires AllSame(wild, text) && AllWild(lag) && calls + |wild| <= MAX_CALLS
    requires wild != "" && wild[0] != '*' && wild[0] != '?'
    ensures Search(wild, lag + text, calls).0
    decreases |wild|, 2, |lag|
  {
    var all := lag + text;
    if lag == "" {
      assert all == text;
      AllSameTail(wild, text, 1);
      TryItself(wild[1..], text[1..], calls);
    } else {
      assert lag[0] in lag;
      if SameChar(all[0], wild[0]) {
        WildChars(all[0], wild[0]);
      }
      assert all[1..] == lag[1..] + text;
      assert forall c | c in lag[1..] :: c in lag;
      SearchItself(wild, lag[1..], text, calls);
    }
  }

  /** Up to 512 characters, far more than a mask has, every mask matches itself in any case. */
  lemma MatchesItself(mask: string, text: string)
    requires SameName(mask, text) && |mask| <= MAX_CALLS
    ensures Matches(mask, text)
  {
    SameNamed(mask, text);
    TryItself(mask, text, 0);
  }

  lemma EqualMatches(mask: string, text: string)
    requires SameName(mask, text) && |text| <= MAX_CALLS
    ensures Matches(mask, text)
  {
    SameNamed(mask, text);
    MatchesItself(mask, text);
  }

  /* ---------- the case of letters does not matter ---------- */

  lemma {:induction false} SameIndex(a: string, b: string, c: char)
    requires AllSame(a, b) && (c == '!' || c == '@')
    ensures IndexOf(a, c) == IndexOf(b, c)
  {
    if a != "" {
      WildChars(a[0], b[0]);
      AllSameTail(a, b, 1);
      SameIndex(a[1..], b[1..], c);
    }
  }

  lemma SameStart(a: string, b: string, c: char)
    requires AllSame(a, b) && (c == '!' || c == '@')
    ensures StartsWith(a, '*', c) == StartsWith(b, '*', c)
  {
    if |a| >= 2 {
      WildChars(a[0], b[0]);
      WildChars(a[1], b[1]);
    }
  }

  lemma {:induction false} TryCaseless(w: string, w': string, t: string, t': string, calls: nat)
    requires AllSame(w, w') && AllSame(t, t')
    ensures Try(w, t, calls) == Try(w', t', calls)
    decreases |w|, 5, |t|
  {
    hide TryHost, IndexOf;
    SameStart(w, w', '!');
    if calls <= MAX_CALLS {
      if StartsWith(w, '*', '!') {
        SameIndex(t, t', '!');
        var i := IndexOf(t, '!');
        if i < |t| {
          AllSameTail(w, w', 2);
          AllSameTail(t, t', i + 1);
          HostCaseless(w[2..], w'[2..], t[i + 1..], t'[i + 1..], calls + 1);
        }
      } else {
        HostCaseless(w, w', t, t', calls + 1);
      }
    }
  }

  lemma {:induction false} HostCaseless(w: string, w': string, t: string, t': string, calls: nat)
    requires AllSame(w, w') && AllSame(t, t')
    ensures TryHost(w, t, calls) == TryHost(w', t', calls)
    decreases |w|, 4, |t|
  {
    SameStart(w, w', '@');
    if StartsWith(w, '*', '@') {
      SameIndex(t, t', '@');
      var i := IndexOf(t, '@');
      if i < |t| {
        AllSameTail(w, w', 2);
        AllSameTail(t, t', i + 1);
        LoopCaseless(w[2..], w'[2..], t[i + 1..], t'[i + 1..], calls);
      }
    } else {
      LoopCaseless(w, w', t, t', calls);
    }
  }

  lemma {:induction false} LoopCaseless(w: string, w': string, t: string, t': string, calls: nat)
    requires AllSame(w, w') && AllSame(t, t')
    ensures Loop(w, t, calls) == Loop(w', t', calls)
    decreases |w|, 3, |t|
  {
    if w != "" {
      WildChars(w[0], w'[0]);
      AllSameTail(w, w', 1);
      if w[0] == '*' {
        StarCaseless(w[1..], w'[1..], t, t', calls);
      } else if t != "" {
        AllSameTail(t, t', 1);
        LoopCaseless(w[1..], w'[1..], t[1..], t'[1..], calls);
      }
    }
  }

  lemma {:induction false} StarCaseless(w: string, w': string, t: string, t': string, calls: nat)
    requires AllSame(w, w') && AllSame(t, t')
    ensures Star(w, t, calls) == Star(w', t', calls) && Questions(w, t, calls) == Questions(w', t', calls)
    decreases |w|, 3, |t|
  {
    if w != "" {
      WildChars(w[0], w'[0]);
      AllSameTail(w, w', 1);
      if w[0] == '*' {
        StarCaseless(w[1..], w'[1..], t, t', calls);
      } else if w[0] == '?' && t != "" {
        AllSameTail(t, t', 1);
        StarCaseless(w[1..], w'[1..], t[1..], t'[1..], calls);
      } else {
        SearchCaseless(w, w', t, t', calls);
      }
    }
  }

  lemma {:induction false} SearchCaseless(w: string, w': string, t: string, t': string, calls: nat)
    requires AllSame(w, w') && AllSame(t, t') && w != ""
    ensures Search(w, t, calls) == Search(w', t', calls)
    decreases |w|, 2, |t|
  {
    if t != "" {
      AllSameTail(w, w', 1);
      AllSameTail(t, t', 1);
      if SameChar(t[0], w[0]) {
        TryCaseless(w[1..], w'[1..], t[1..], t'[1..], calls);
        var r := Try(w[1..], t[1..], calls);
        SearchCaseless(w, w', t[1..], t'[1..], r.1);
      } else {
        SearchCaseless(w, w', t[1..], t'[1..], calls);
      }
    }
  }

  lemma SameNamed(a: string, b: string)
    requires SameName(a, b)
    ensures AllSame(a, b)
  {
    assert |Fold(a)| == |a| && |Fold(b)| == |b|;
    forall i | 0 <= i < |a|
      ensures SameChar(a[i], b[i])
    {
      assert Fold(a)[i] == Fold(b)[i];
    }
  }

  /** Whether a mask matches depends on neither's case. */
  lemma MatchIsCaseless(mask: string, mask': string, text: string, text': string)
    requires SameName(mask, mask') && SameName(text, text')
    ensures Matches(mask, text) == Matches(mask', text')
  {
    SameNamed(mask, mask');
    SameNamed(text, text');
    TryCaseless(mask, mask', text, text', 0);
  }

  /* ---------- what a mask means ---------- */

  /** A star stands for any stretch of text, a question mark for one character, anything else for itself in any case. */
  ghost predicate Glob(mask: string, text: string)
    decreases |mask|
  {
    if mask == "" then text == ""
    else if mask[0] == '*' then exists k | 0 <= k <= |text| :: Glob(mask[1..], text[k..])
    else text != "" && (mask[0] == '?' || SameChar(mask[0], text[0])) && Glob(mask[1..], text[1..])
  }

  lemma GlobStar(wild: string, text: string, k: nat)
    requires k <= |text| && Glob(wild, text[k..])
    ensures Glob("*" + wild, text)
  {
    assert ("*" + wild)[1..] == wild;
  }

  lemma GlobStarBack(wild: string, text: string) returns (k: nat)
    requires Glob("*" + wild, text)
    ensures k <= |text| && Glob(wild, text[k..])
  {
    assert ("*" + wild)[1..] == wild;
    k :| 0 <= k <= |text| && Glob(wild, text[k..]);
  }

  /** A star may take a character more. */
  lemma StarTakes(wild: string, text: string)
    requires text != "" && Glob("*" + wild, text[1..])
    ensures Glob("*" + wild, text)
  {
    var k := GlobStarBack(wild, text[1..]);
    assert text[1..][k..] == text[k + 1..];
    GlobStar(wild, text, k + 1);
  }

  lemma TwoStars(wild: string, text: string)
    ensures Glob("**" + wild, text) <==> Glob("*" + wild, text)
  {
    assert "**" + wild == "*" + ("*" + wild);
    if Glob("**" + wild, text) {
      var k := GlobStarBack("*" + wild, text);
      var j := GlobStarBack(wild, text[k..]);
      assert text[k..][j..] == text[k + j..];
      GlobStar(wild, text, k + j);
    }
    if Glob("*" + wild, text) {
      assert text[0..] == text;
      GlobStar("*" + wild, text, 0);
    }
  }

  /** A question mark behind a star may take its character first. */
  lemma StarQuestion(wild: string, text: string)
    ensures Glob("*?" + wild, text) <==> text != "" && Glob("*" + wild, text[1..])
  {
    assert "*?" + wild == "*" + ("?" + wild) && ("?" + wild)[1..] == wild;
    if Glob("*?" + wild, text) {
      var k := GlobStarBack("?" + wild, text);
      assert text[k..][1..] == text[1..][k..];
      GlobStar(wild, text[1..], k);
    }
    if text != "" && Glob("*" + wild, text[1..]) {
      var k := GlobStarBack(wild, text[1..]);
      assert text[k..][1..] == text[1..][k..];
      assert Glob("?" + wild, text[k..]);
      GlobStar("?" + wild, text, k);
    }
  }

  /** After a star the next plain character is somewhere, and the rest follows it. */
  lemma StarPlain(c: char, wild: string, text: string)
    requires c != '*' && c != '?'
    ensures Glob("*" + [c] + wild, text) <==>
              text != "" && ((SameChar(c, text[0]) && Glob(wild, text[1..])) || Glob("*" + [c] + wild, text[1..]))
  {
    var tail := [c] + wild;
    assert "*" + [c] + wild == "*" + tail && tail[1..] == wild;
    if Glob("*" + tail, text) {
      var k := GlobStarBack(tail, text);
      if k > 0 {
        assert text[k..] == text[1..][k - 1..];
        GlobStar(tail, text[1..], k - 1);
      } else {
        assert text[0..] == text;
      }
    }
    if text != "" && SameChar(c, text[0]) && Glob(wild, text[1..]) {
      assert text[0..] == text;
      GlobStar(tail, text, 0);
    }
    if text != "" && Glob("*" + tail, text[1..]) {
      StarTakes(tail, text);
    }
  }

  /** Up to a separator: some separator of the text is the one. */
  lemma {:induction false} StarSep(c: char, wild: string, text: string)
    requires c == '!' || c == '@'
    ensures var i := IndexOf(text, c);
            && (i < |text| && Glob(wild, text[i + 1..]) ==> Glob("*" + [c] + wild, text))
            && (Glob("*" + [c] + wild, text) ==> i < |text|)
            && (Glob("*" + [c] + wild, text) && AtMostOne(text, c) ==> Glob(wild, text[i + 1..]))
  {
    StarPlain(c, wild, text);
    if text != "" {
      SepChar(c, text[0]);
      StarSep(c, wild, text[1..]);
      hide Glob, SameChar;
      if text[0] == c {
        if AtMostOne(text, c) {
          NoneAfter(text, c);
        }
      } else {
        IndexNext(text, c);
        if AtMostOne(text, c) {
          OneLess(text, c);
        }
      }
    }
  }

  lemma SepChar(c: char, d: char)
    requires c == '!' || c == '@'
    ensures SameChar(c, d) <==> c == d
  {
  }

  lemma IndexNext(text: string, c: char)
    requires text != "" && text[0] != c
    ensures IndexOf(text, c) == 1 + IndexOf(text[1..], c)
    ensures IndexOf(text, c) < |text| ==> text[IndexOf(text, c) + 1..] == text[1..][IndexOf(text[1..], c) + 1..]
  {
  }

  lemma NoneAfter(text: string, c: char)
    requires text != "" && text[0] == c && AtMostOne(text, c)
    ensures IndexOf(text[1..], c) == |text[1..]|
  {
    assert forall j | 0 <= j < |text[1..]| :: text[1..][j] == text[j + 1];
  }

  lemma OneLess(text: string, c: char)
    requires text != "" && AtMostOne(text, c)
    ensures AtMostOne(text[1..], c)
  {
    assert forall i, j | 0 <= i < j < |text[1..]| :: text[1..][i] == text[i + 1] && text[1..][j] == text[j + 1];
  }

  /** A separator that occurs no more than once. */
  ghost predicate AtMostOne(text: string, c: char) {
    forall i, j | 0 <= i < j < |text| :: !(text[i] == c && text[j] == c)
  }

  ghost predicate Separated(text: string) {
    AtMostOne(text, '!') && AtMostOne(text, '@')
  }

  lemma SeparatedTail(text: string, n: nat)
    requires Separated(text) && n <= |text|
    ensures Separated(text[n..])
  {
  }

  /** The matcher's answer r for a mask: right if it says yes, and right if it says no within its budget. */
  ghost predicate Right(r: (bool, nat), calls: nat, mask: string, text: string) {
    && calls <= r.1
    && (r.0 ==> Glob(mask, text))
    && (Separated(text) && r.1 <= MAX_CALLS + 1 && Glob(mask, text) ==> r.0)
  }

  lemma {:induction false} TryRight(wild: string, text: string, calls: nat)
    ensures Right(Try(wild, text, calls), calls, wild, text)
    decreases |wild|, 5, |text|
  {
    if calls <= MAX_CALLS {
      if StartsWith(wild, '*', '!') {
        var i := IndexOf(text, '!');
        assert wild == "*" + ['!'] + wild[2..];
        StarSep('!', wild[2..], text);
        if i < |text| {
          HostRight(wild[2..], text[i + 1..], calls + 1);
          if Separated(text) {
            SeparatedTail(text, i + 1);
          }
        }
      } else {
        HostRight(wild, text, calls + 1);
      }
    }
  }

  lemma {:induction false} HostRight(wild: string, text: string, calls: nat)
    ensures Right(TryHost(wild, text, calls), calls, wild, text)
    decreases |wild|, 4, |text|
  {
    if StartsWith(wild, '*', '@') {
      var i := IndexOf(text, '@');
      assert wild == "*" + ['@'] + wild[2..];
      StarSep('@', wild[2..], text);
      if i < |text| {
        LoopRight(wild[2..], text[i + 1..], calls);
        if Separated(text) {
          SeparatedTail(text, i + 1);
        }
      }
    } else {
      LoopRight(wild, text, calls);
    }
  }

  lemma {:induction false} LoopRight(wild: string, text: string, calls: nat)
    ensures Right(Loop(wild, text, calls), calls, wild, text)
    decreases |wild|, 3, |text|
  {
    if wild != "" {
      if wild[0] == '*' {
        assert wild == "*" + wild[1..];
        StarRight(wild[1..], text, calls);
      } else if text != "" {
        LoopRight(wild[1..], text[1..], calls);
        if Separated(text) {
          SeparatedTail(text, 1);
        }
      }
    }
  }

  lemma {:induction false} StarRight(wild: string, text: string, calls: nat)
    ensures Right(Star(wild, text, calls), calls, "*" + wild, text)
    ensures Right(Questions(wild, text, calls), calls, "*" + wild, text)
    decreases |wild|, 3, |text|
  {
    if wild == "" {
      assert text[|text|..] == "";
      GlobStar("", text, |text|);
    } else if wild[0] == '*' {
      assert "*" + wild == "**" + wild[1..];
      TwoStars(wild[1..], text);
      StarRight(wild[1..], text, calls);
    } else if wild[0] == '?' {
      assert "*" + wild == "*?" + wild[1..];
      StarQuestion(wild[1..], text);
      if text != "" {
        StarRight(wild[1..], text[1..], calls);
        if Separated(text) {
          SeparatedTail(text, 1);
        }
      }
    } else {
      SearchRight(wild, text, calls);
    }
  }

  lemma {:induction false} SearchRight(wild: string, text: string, calls: nat)
    requires wild != "" && wild[0] != '*' && wild[0] != '?'
    ensures Right(Search(wild, text, calls), calls, "*" + wild, text)
    decreases |wild|, 2, |text|
  {
    assert "*" + wild == "*" + [wild[0]] + wild[1..];
    StarPlain(wild[0], wild[1..], text);
    if text != "" {
      if Separated(text) {
        SeparatedTail(text, 1);
      }
      if SameChar(text[0], wild[0]) {
        TryRight(wild[1..], text[1..], calls);
        SearchRight(wild, text[1..], Try(wild[1..], text[1..], calls).1);
      } else {
        SearchRight(wild, text[1..], calls);
      }
    }
  }

  /** Whatever is matched is in the relation; and within the budget, with single separators, nothing else is missed. */
  lemma MatchesMeans(mask: string, text: string)
    ensures Matches(mask, text) ==> Glob(mask, text)
    ensures Separated(text) && Try(mask, text, 0).1 <= MAX_CALLS + 1 ==> (Matches(mask, text) <==> Glob(mask, text))
  {
    TryRight(mask, text, 0);
  }

  /** With two separators the shortcut takes the first one, and misses what the second would give. */
  lemma FirstSeparatorOnly()
    ensures Glob("*!x", "a!b!x") && !Matches("*!x", "a!b!x")
  {
    var mask, text := "*!x", "a!b!x";
    assert "x"[1..] == "" && "!x"[1..] == "x" && mask == "*" + "!x" && mask[2..] == "x";
    assert text[3..] == "!x" && Glob("x", "x") && Glob("!x", "!x");
    GlobStar("!x", text, 3);
    assert text[1..] == "!b!x" && IndexOf("!b!x", '!') == 0 && IndexOf(text, '!') == 1;
    assert text[2..] == "b!x";
    assert Loop("x", "b!x", 1) == (false, 1);
  }

  /* ---------- when the budget is enough ---------- */

  function Stars(mask: string): nat {
    if mask == "" then 0 else (if mask[0] == '*' then 1 else 0) + Stars(mask[1..])
  }

  /** The mask behind the shortcuts. */
  function Unshortened(mask: string): string {
    var rest := if StartsWith(mask, '*', '!') then mask[2..] else mask;
    if StartsWith(rest, '*', '@') then rest[2..] else rest
  }

  /** Without a star there are no further calls, and with one at most one for every character. */
  lemma {:induction false} LoopCalls(wild: string, text: string, calls: nat)
    requires Stars(wild) <= 1
    ensures Loop(wild, text, calls).1 <= calls + if Stars(wild) == 0 then 0 else |text|
    decreases |wild|, 3
  {
    if wild != "" {
      if wild[0] == '*' {
        StarCalls(wild[1..], text, calls);
      } else if text != "" {
        LoopCalls(wild[1..], text[1..], calls);
      }
    }
  }

  lemma {:induction false} StarCalls(wild: string, text: string, calls: nat)
    requires Stars(wild) == 0
    ensures Star(wild, text, calls).1 <= calls + |text| && Questions(wild, text, calls).1 <= calls + |text|
    decreases |wild|, 3
  {
    if wild != "" {
      if wild[0] == '?' && text != "" {
        StarCalls(wild[1..], text[1..], calls);
      } else {
        SearchCalls(wild, text, calls);
      }
    }
  }

  lemma {:induction false} SearchCalls(wild: string, text: string, calls: nat)
    requires wild != "" && Stars(wild) == 0
    ensures Search(wild, text, calls).1 <= calls + |text|
    decreases |wild|, 2, |text|
  {
    if text != "" {
      if SameChar(text[0], wild[0]) {
        NoStars(wild[1..]);
        LoopCalls(wild[1..], text[1..], calls + 1);
        assert Try(wild[1..], text[1..], calls).1 <= calls + 1;
        SearchCalls(wild, text[1..], Try(wild[1..], text[1..], calls).1);
      } else {
        SearchCalls(wild, text[1..], calls);
      }
    }
  }

  lemma NoStars(wild: string)
    requires Stars(wild) == 0
    ensures !StartsWith(wild, '*', '!') && !StartsWith(wild, '*', '@')
  {
  }

  /** A mask with at most one star behind its shortcuts is matched exactly as it reads. */
  lemma OneStarMeans(mask: string, text: string)
    requires Stars(Unshortened(mask)) <= 1 && |text| <= MAX_CALLS && Separated(text)
    ensures Matches(mask, text) <==> Glob(mask, text)
  {
    MatchesMeans(mask, text);
    if StartsWith(mask, '*', '!') {
      var i := IndexOf(text, '!');
      if i < |text| {
        HostCalls(mask[2..], text[i + 1..]);
      }
    } else {
      HostCalls(mask, text);
    }
  }

  lemma HostCalls(wild: string, text: string)
    requires Stars(if StartsWith(wild, '*', '@') then wild[2..] else wild) <= 1
    ensures TryHost(wild, text, 1).1 <= 1 + |text|
  {
    if StartsWith(wild, '*', '@') {
      var i := IndexOf(text, '@');
      if i < |text| {
        LoopCalls(wild[2..], text[i + 1..], 1);
      }
    } else {
      LoopCalls(wild, text, 1);
    }
  }

  /* ---------- meaning and case ---------- */

  ghost predicate SameMeaning(a: string, b: string) {
    forall text :: Glob(a, text) <==> Glob(b, text)
  }

  /** What a mask means does not depend on its case. */
  lemma {:induction false} GlobCaseless(a: string, b: string, text: string)
    requires AllSame(a, b)
    ensures Glob(a, text) <==> Glob(b, text)
    decreases |a|
  {
    if a != "" {
      WildChars(a[0], b[0]);
      AllSameTail(a, b, 1);
      if a[0] == '*' {
        forall k | 0 <= k <= |text|
          ensures Glob(a[1..], text[k..]) <==> Glob(b[1..], text[k..])
        {
          GlobCaseless(a[1..], b[1..], text[k..]);
        }
      } else if text != "" {
        GlobCaseless(a[1..], b[1..], text[1..]);
      }
    }
  }

  lemma SameNameMeansSame(a: string, b: string)
    requires SameName(a, b)
    ensures SameMeaning(a, b)
  {
    SameNamed(a, b);
    forall text
      ensures Glob(a, text) <==> Glob(b, text)
    {
      GlobCaseless(a, b, text);
    }
  }

  /** Masks of one meaning behind the same start have one meaning. */
  lemma {:induction false} BehindStart(h: string, a: string, b: string)
    requires SameMeaning(a, b)
    ensures SameMeaning(h + a, h + b)
  {
    if h == "" {
      assert h + a == a && h + b == b;
    } else {
      assert (h + a)[1..] == h[1..] + a && (h + b)[1..] == h[1..] + b;
      BehindStart(h[1..], a, b);
      forall text
        ensures Glob(h + a, text) <==> Glob(h + b, text)
      {
        if h[0] == '*' {
          assert forall k | 0 <= k <= |text| :: Glob(h[1..] + a, text[k..]) <==> Glob(h[1..] + b, text[k..]);
        }
      }
    }
  }

  lemma StarsAreOne(wild: string)
    ensures SameMeaning("**" + wild, "*" + wild)
  {
    forall text
      ensures Glob("**" + wild, text) <==> Glob("*" + wild, text)
    {
      TwoStars(wild, text);
    }
  }

  lemma StarQuestionSame(a: string, b: string)
    requires SameMeaning("*" + a, "*" + b)
    ensures SameMeaning("*?" + a, "*?" + b)
  {
    forall text
      ensures Glob("*?" + a, text) <==> Glob("*?" + b, text)
    {
      StarQuestion(a, text);
      StarQuestion(b, text);
    }
  }
}
