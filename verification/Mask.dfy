/** pretty_mask, make_nick_user_host and collapse: the form in which a ban, exempt or invite mask is stored. */
module Masks {
  import opened Text
  import opened MaskBatch

  const NICK_LEN: nat := 30
  const USER_LEN: nat := 10
  const HOST_LEN: nat := 63

  /* ---------- make_nick_user_host ---------- */

  function CutAtSpace(s: string): (r: string)
    ensures |r| <= |s|
    ensures forall c | c in r :: !IsSpace(c) && c in s
  {
    if s == "" || IsSpace(s[0]) then "" else [s[0]] + CutAtSpace(s[1..])
  }

  /** check_string: up to the first white space; "*" for nothing ("" stands for a null pointer too). */
  function CheckString(s: string): (r: string)
    ensures r != "" && forall c | c in r :: !IsSpace(c)
  {
    var t := CutAtSpace(s);
    if t == "" then "*" else t
  }

  function Cut(s: string, n: nat): string {
    if |s| <= n then s else s[..n]
  }

  function NickUserHost(nick: string, user: string, host: string): (r: string)
    ensures |r| <= MASK_LEN
    ensures forall c | c in r :: !IsSpace(c)
  {
    Cut(CheckString(nick), NICK_LEN) + "!" + Cut(CheckString(user), USER_LEN) + "@" + Cut(CheckString(host), HOST_LEN)
  }

  /** The longest start of s without white space, up to so many characters; "*" when there is none. */
  predicate IsCut(part: string, s: string, most: nat) {
    if s == "" || IsSpace(s[0]) then part == "*"
    else
      && part <= s && 0 < |part| <= most && (forall c | c in part :: !IsSpace(c))
      && (|part| == most || |part| == |s| || IsSpace(s[|part|]))
  }

  lemma {:induction false} SpaceCut(s: string)
    ensures CutAtSpace(s) <= s && (|CutAtSpace(s)| == |s| || IsSpace(s[|CutAtSpace(s)|]))
    ensures CutAtSpace(s) == "" <==> s == "" || IsSpace(s[0])
  {
    if s != "" && !IsSpace(s[0]) {
      SpaceCut(s[1..]);
    }
  }

  lemma PartIsCut(s: string, most: nat)
    requires most > 0
    ensures IsCut(Cut(CheckString(s), most), s, most)
  {
    SpaceCut(s);
    hide CutAtSpace;
    var part := Cut(CheckString(s), most);
    assert forall c | c in part :: c in CheckString(s);
  }

  /** The mask has three parts, each cut from its text. */
  lemma MaskParts(nick: string, user: string, host: string) returns (n: string, u: string, h: string)
    ensures NickUserHost(nick, user, host) == n + "!" + u + "@" + h
    ensures IsCut(n, nick, NICK_LEN) && IsCut(u, user, USER_LEN) && IsCut(h, host, HOST_LEN)
  {
    hide IsCut;
    n, u, h := Cut(CheckString(nick), NICK_LEN), Cut(CheckString(user), USER_LEN), Cut(CheckString(host), HOST_LEN);
    PartIsCut(nick, NICK_LEN);
    PartIsCut(user, USER_LEN);
    PartIsCut(host, HOST_LEN);
  }

  /* ---------- pretty_mask ---------- */

  /** strrchr(s, c), or |s|. */
  function LastIndexOf(s: string, c: char): (i: nat)
    ensures i <= |s|
    ensures i < |s| ==> s[i] == c && c !in s[i + 1..]
    ensures i == |s| <==> c !in s
  {
    if s == "" then 0
    else
      var last := |s| - 1;
      if s[last] == c then last
      else
        var i := LastIndexOf(s[..last], c);
        if i < last then
          assert s[i + 1..] == s[..last][i + 1..] + [s[last]];
          i
        else |s|
  }

  function PrettyMask(mask: string): string {
    var bang := IndexOf(mask, '!');
    var nick := mask[..bang];
    if bang < |mask| then
      var user := mask[bang + 1..];
      var at := LastIndexOf(user, '@');
      if at < |user| then NickUserHost(nick, user[..at], user[at + 1..]) else NickUserHost(nick, user, "")
    else
      var at := LastIndexOf(mask, '@');
      if at < |mask| then NickUserHost("", mask[..at], mask[at + 1..])
      else if '.' in mask then NickUserHost("", "", mask)
      else NickUserHost(mask, "", "")
  }

  /* ---------- collapse ---------- */

  predicate Wild(c: char) {
    c == '*' || c == '?'
  }

  function DropStars(s: string): (r: string)
    ensures |r| <= |s| && (r != "" ==> r[0] != '*')
  {
    if s != "" && s[0] == '*' then DropStars(s[1..]) else s
  }

  /** Length of the run of wildcards at the front. */
  function WildRun(s: string): (n: nat)
    ensures n <= |s| && (n < |s| ==> !Wild(s[n]))
    ensures forall k | 0 <= k < n :: Wild(s[k])
  {
    if s != "" && Wild(s[0]) then 1 + WildRun(s[1..]) else 0
  }

  function OnlyQuestions(s: string): (r: string)
    ensures |r| <= |s| && forall c | c in r :: c == '?' && c in s
  {
    if s == "" then "" else (if s[0] == '?' then "?" else "") + OnlyQuestions(s[1..])
  }

  lemma DropStarsShape(s: string)
    ensures s != "" && s[0] == '*' ==> |DropStars(s)| < |s|
    ensures forall c | c in DropStars(s) :: c in s
  {
  }

  /** One turn of collapse's loop: the text written, and the text still to be read. */
  function Chop(p: string): (r: (string, string))
    requires p != ""
    ensures |r.0| + |r.1| <= |p| && |r.1| < |p| && r.0 != "" && r.0[0] == p[0]
  {
    if p[0] == '\\' && |p| > 1 then (p[..2], p[2..])
    else if p[0] == '*' && |p| > 1 && p[1] == '*' then
      DropStarsShape(p[1..]);
      ("*", DropStars(p[1..]))
    else if p[0] == '*' && |p| > 1 && p[1] == '?' then
      var n := WildRun(p[1..]);
      ("*" + OnlyQuestions(p[1..][..n]), p[1..][n..])
    else (p[..1], p[1..])
  }

  lemma ChopChars(p: string)
    requires p != ""
    ensures forall c | c in Chop(p).0 || c in Chop(p).1 :: c in p
  {
    if p[0] == '*' && |p| > 1 && p[1] == '*' {
      DropStarsShape(p[1..]);
    }
  }

  /** collapse only leaves characters out. */
  lemma {:induction false} CollapseChars(p: string)
    ensures forall c | c in Collapse(p) :: c in p
    decreases |p|
  {
    if p != "" {
      ChopChars(p);
      CollapseChars(Chop(p).1);
    }
  }

  /** A backslash protects the next character; a star swallows the stars that follow it. */
  function Collapse(p: string): (r: string)
    decreases |p|
    ensures |r| <= |p| && (p != "" ==> r != "" && r[0] == p[0])
  {
    if p == "" then "" else Chop(p).0 + Collapse(Chop(p).1)
  }

  /** The form in which set_mode stores a mask. */
  function Canon(mask: string): string {
    Collapse(PrettyMask(mask))
  }

  /* ---------- the canonical form is parsed back into itself ---------- */

  predicate PlainStart(t: string) {
    t != "" && !Wild(t[0]) && t[0] != '\\'
  }

  lemma WildRunStops(s: string, t: string)
    requires PlainStart(t)
    ensures WildRun(s + t) == WildRun(s)
  {
    if s != "" && Wild(s[0]) {
      assert (s + t)[1..] == s[1..] + t;
      WildRunStops(s[1..], t);
    }
  }

  lemma DropStarsStops(s: string, t: string)
    requires PlainStart(t)
    ensures DropStars(s + t) == DropStars(s) + t
  {
    if s != "" && s[0] == '*' {
      assert (s + t)[1..] == s[1..] + t;
      DropStarsStops(s[1..], t);
    } else {
      assert s == "" ==> s + t == t;
    }
  }

  lemma ChopSplit(a: string, t: string)
    requires a != "" && a != "\\" && PlainStart(t)
    ensures Chop(a + t) == (Chop(a).0, Chop(a).1 + t)
  {
    assert (a + t)[1..] == a[1..] + t;
    if a[0] == '\\' {
      assert (a + t)[..2] == a[..2] && (a + t)[2..] == a[2..] + t;
    } else if a[0] == '*' && |a| > 1 && a[1] == '*' {
      DropStarsStops(a[1..], t);
    } else if a[0] == '*' && |a| > 1 && a[1] == '?' {
      WildRunStops(a[1..], t);
      var n := WildRun(a[1..]);
      assert (a[1..] + t)[..n] == a[1..][..n] && (a[1..] + t)[n..] == a[1..][n..] + t;
    } else {
      assert (a + t)[..1] == a[..1];
    }
  }

  /** Collapsing works separately on the two sides of a plain character. */
  lemma {:induction false} CollapseSplit(a: string, t: string)
    requires PlainStart(t)
    ensures Collapse(a + t) == Collapse(a) + Collapse(t)
    decreases |a|
  {
    hide Chop, DropStars, WildRun;
    if a == "" {
      assert a + t == t;
    } else if a == "\\" {
      EscapedStart(t);
    } else {
      ChopSplit(a, t);
      var head, tail := Chop(a).0, Chop(a).1;
      CollapseSplit(tail, t);
      assert Collapse(a) == head + Collapse(tail);
      assert Collapse(a + t) == head + Collapse(tail + t);
      assert head + (Collapse(tail) + Collapse(t)) == head + Collapse(tail) + Collapse(t);
    }
  }

  lemma ChopEscaped(t: string)
    requires PlainStart(t)
    ensures Chop("\\" + t) == ("\\" + t[..1], t[1..]) && Chop(t) == (t[..1], t[1..])
  {
    var p := "\\" + t;
    assert p[..2] == "\\" + t[..1] && p[2..] == t[1..];
  }

  lemma LoneBackslash()
    ensures Collapse("\\") == "\\"
  {
    assert "\\"[..1] == "\\" && "\\"[1..] == "";
  }

  /** A backslash before a plain character changes nothing for what follows. */
  lemma EscapedStart(t: string)
    requires PlainStart(t)
    ensures Collapse("\\" + t) == Collapse("\\") + Collapse(t)
  {
    hide Chop;
    ChopEscaped(t);
    LoneBackslash();
    var rest := Collapse(t[1..]);
    assert "\\" + t[..1] + rest == "\\" + (t[..1] + rest);
  }

  lemma CollapsePlain(c: char, t: string)
    requires !Wild(c) && c != '\\'
    ensures Collapse([c] + t) == [c] + Collapse(t)
  {
    assert ([c] + t)[1..] == t;
  }

  /** nick!user@host with parts that pretty_mask leaves alone. */
  ghost predicate Parts(m: string, nick: string, user: string, host: string) {
    && m == nick + "!" + user + "@" + host
    && '!' !in nick && '@' !in host
    && 0 < |nick| <= NICK_LEN && 0 < |user| <= USER_LEN && 0 < |host| <= HOST_LEN
    && forall c | c in m :: !IsSpace(c)
  }

  lemma CutNothing(s: string)
    requires s != "" && forall c | c in s :: !IsSpace(c)
    ensures CheckString(s) == s
  {
    CutWhole(s);
  }

  lemma CutWhole(s: string)
    requires forall c | c in s :: !IsSpace(c)
    ensures CutAtSpace(s) == s
  {
  }

  lemma {:induction false} LastIndexSplit(a: string, c: char, b: string)
    requires c !in b
    ensures LastIndexOf(a + [c] + b, c) == |a|
  {
    var whole := a + [c] + b;
    var i := LastIndexOf(whole, c);
    assert whole[|a|] == c;
    forall k | i < k < |whole|
      ensures whole[k] != c
    {
      assert whole[k] == whole[i + 1..][k - i - 1];
    }
    forall k | |a| < k < |whole|
      ensures whole[k] != c
    {
      assert whole[k] == b[k - |a| - 1];
    }
  }

  lemma Halves(a: string, c: char, b: string)
    ensures var s := a + [c] + b; |a| < |s| && s[..|a|] == a && s[|a| + 1..] == b
  {
  }

  /** pretty_mask on text that has both separators. */
  lemma PrettyOfParts(nick: string, user: string, host: string)
    requires '!' !in nick && '@' !in host
    ensures PrettyMask(nick + "!" + user + "@" + host) == NickUserHost(nick, user, host)
  {
    hide NickUserHost, LastIndexOf, IndexOf;
    var m, tail := nick + "!" + user + "@" + host, user + ['@'] + host;
    assert m == nick + ['!'] + tail;
    IndexOfSplit(nick, '!', tail);
    Halves(nick, '!', tail);
    LastIndexSplit(user, '@', host);
    Halves(user, '@', host);
  }

  /** And on text that lacks one or both: a host behind '@', a host with a dot, or a nick. */
  lemma PrettyForms(nick: string, user: string, host: string, word: string)
    requires '!' !in nick && '@' !in host && '@' !in user && '!' !in user && '!' !in host && '!' !in word && '@' !in word
    ensures PrettyMask(nick + "!" + user) == NickUserHost(nick, user, "")
    ensures PrettyMask(user + "@" + host) == NickUserHost("", user, host)
    ensures PrettyMask(word) == if '.' in word then NickUserHost("", "", word) else NickUserHost(word, "", "")
  {
    hide NickUserHost, LastIndexOf, IndexOf;
    var a, b := nick + ['!'] + user, user + ['@'] + host;
    assert nick + "!" + user == a && user + "@" + host == b;
    IndexOfSplit(nick, '!', user);
    Halves(nick, '!', user);
    LastIndexSplit(user, '@', host);
    Halves(user, '@', host);
    assert '!' !in b;
    assert word[..|word|] == word;
  }

  lemma PrettyKeepsParts(m: string, nick: string, user: string, host: string)
    requires Parts(m, nick, user, host)
    ensures PrettyMask(m) == m
  {
    PrettyOfParts(nick, user, host);
    forall c | c in nick || c in user || c in host
      ensures c in m
    {
    }
    CutNothing(nick);
    CutNothing(user);
    CutNothing(host);
  }

  lemma CutPart(s: string, n: nat) returns (r: string)
    requires n > 0
    ensures r == Cut(CheckString(s), n) && 0 < |r| <= n
    ensures forall c | c in r :: !IsSpace(c) && (c in s || c == '*')
  {
    r := Cut(CheckString(s), n);
  }

  lemma PartsOf(nick: string, user: string, host: string) returns (n: string, u: string, h: string)
    requires '!' !in nick && '@' !in host
    ensures Parts(NickUserHost(nick, user, host), n, u, h)
  {
    n := CutPart(nick, NICK_LEN);
    u := CutPart(user, USER_LEN);
    h := CutPart(host, HOST_LEN);
  }

  lemma PrettyHasParts(mask: string) returns (n: string, u: string, h: string)
    ensures Parts(PrettyMask(mask), n, u, h)
  {
    hide NickUserHost, Parts, LastIndexOf;
    var bang := IndexOf(mask, '!');
    var nick := mask[..bang];
    if bang < |mask| {
      var user := mask[bang + 1..];
      var at := LastIndexOf(user, '@');
      if at < |user| {
        n, u, h := PartsOf(nick, user[..at], user[at + 1..]);
      } else {
        n, u, h := PartsOf(nick, user, "");
      }
    } else {
      var at := LastIndexOf(mask, '@');
      if at < |mask| {
        n, u, h := PartsOf("", mask[..at], mask[at + 1..]);
      } else if '.' in mask {
        n, u, h := PartsOf("", "", mask);
      } else {
        n, u, h := PartsOf(mask, "", "");
      }
    }
  }

  lemma CollapseJoined(n: string, u: string, h: string)
    ensures Collapse(n + "!" + u + "@" + h) == Collapse(n) + "!" + Collapse(u) + "@" + Collapse(h)
  {
    hide Collapse;
    var host, user := ['@'] + h, u + (['@'] + h);
    assert n + "!" + u + "@" + h == n + (['!'] + user);
    CollapseSplit(n, ['!'] + user);
    CollapsePlain('!', user);
    CollapseSplit(u, host);
    CollapsePlain('@', h);
  }

  lemma CollapseParts(p: string, n: string, u: string, h: string)
    requires Parts(p, n, u, h)
    ensures Parts(Collapse(p), Collapse(n), Collapse(u), Collapse(h))
  {
    hide Collapse;
    CollapseJoined(n, u, h);
    CollapseChars(p);
    CollapseChars(n);
    CollapseChars(h);
  }

  /** A stored mask is one word of bounded length, and pretty_mask changes it no more. */
  lemma CanonShape(mask: string)
    ensures IsWord(Canon(mask)) && |Canon(mask)| <= MASK_LEN
    ensures PrettyMask(Canon(mask)) == Canon(mask)
    ensures Canon(Canon(mask)) == Collapse(Canon(mask))
  {
    hide Collapse, PrettyMask;
    var n, u, h := PrettyHasParts(mask);
    CollapseParts(PrettyMask(mask), n, u, h);
    PrettyKeepsParts(Canon(mask), Collapse(n), Collapse(u), Collapse(h));
    assert ' ' in Canon(mask) ==> IsSpace(' ');
  }

  /* ---------- collapse is not idempotent ---------- */

  /** Somewhere a run of stars, then a question mark, then later in the same run another star. */
  predicate Lumpy(p: string)
    decreases |p|
  {
    p != "" && (LumpyHere(p) || Lumpy(Chop(p).1))
  }

  predicate LumpyHere(p: string)
    requires p != ""
  {
    && p[0] == '*' && |p| > 1 && p[1] == '*'
    && var r := DropStars(p[1..]); '*' in r[..WildRun(r)]
  }

  /** "**?*" loses one star each time. */
  lemma CollapseTwiceDiffers()
    ensures Collapse("**?*") == "*?*" && Collapse("*?*") == "*?" && Lumpy("**?*")
  {
    var p := "**?*";
    assert p[1..] == "*?*" && "*?*"[1..] == "?*" && "?*"[1..] == "*" && "*"[1..] == "";
    assert DropStars("?*") == "?*" && DropStars("*?*") == "?*";
    assert WildRun("") == 0 && WildRun("*") == 1 && WildRun("?*") == 2;
    assert "?*"[..2] == "?*" && "?*"[2..] == "" && "?*"[..1] == "?" && "*"[..1] == "*";
    assert OnlyQuestions("") == "" && OnlyQuestions("*") == "" && OnlyQuestions("?*") == "?";
    assert Chop(p) == ("*", "?*");
    assert Chop("?*") == ("?", "*");
    assert Chop("*") == ("*", "");
    assert "*" + OnlyQuestions("?*") == "*?";
    assert Chop("*?*") == ("*?", "") by {
      assert "*?*"[1] == '?';
    }
    assert '*' in "?*"[..2] by {
      assert "?*"[1] == '*';
    }
  }

  lemma ChopPlain(p: string)
    requires p != "" && p[0] != '\\' && (p[0] != '*' || |p| == 1 || !Wild(p[1]))
    ensures Chop(p) == (p[..1], p[1..])
  {
  }

  lemma CopyOne(t: string)
    requires t != "" && t[0] == '?'
    ensures Collapse(t) == [t[0]] + Collapse(t[1..]) && Collapse(t)[1..] == Collapse(t[1..]) && WildRun(t) == 1 + WildRun(t[1..])
    ensures t == [t[0]] + t[1..]
  {
    ChopPlain(t);
  }

  /** A run of question marks is copied, and stays a run. */
  lemma {:induction false} QuestionRun(t: string)
    requires '*' !in t[..WildRun(t)]
    ensures WildRun(Collapse(t)) == WildRun(t) && Collapse(t)[..WildRun(t)] == t[..WildRun(t)]
    ensures Collapse(t)[WildRun(t)..] == Collapse(t[WildRun(t)..])
    ensures Questions(t[..WildRun(t)])
  {
    if t != "" && Wild(t[0]) {
      var m := WildRun(t);
      assert t[..m][0] == t[0] && t[0] == '?';
      CopyOne(t);
      assert t[1..][..m - 1] == t[..m][1..];
      QuestionRun(t[1..]);
      hide Chop, Collapse, WildRun;
      RunFront(t, Collapse(t[1..]), m);
      StillRun(Collapse(t));
    } else {
      assert t[..0] == "" && t[0..] == t && Collapse(t)[0..] == Collapse(t);
    }
  }

  lemma StillRun(c: string)
    requires c != "" && c[0] == '?'
    ensures WildRun(c) == 1 + WildRun(c[1..])
  {
  }

  lemma RunFront(t: string, c: string, m: nat)
    requires 0 < m <= |t| && t[0] == '?' && m - 1 <= |c| && c[..m - 1] == t[1..][..m - 1] && Questions(t[1..][..m - 1])
    ensures var d := [t[0]] + c; d[..m] == t[..m] && d[m..] == c[m - 1..] && Questions(t[..m]) && t[1..][m - 1..] == t[m..]
  {
    assert t[..m] == [t[0]] + t[1..][..m - 1];
  }

  /** A star inside a run of wildcards leaves a star inside the collapsed run. */
  lemma {:induction false} StarStays(t: string)
    requires '*' in t[..WildRun(t)]
    ensures '*' in Collapse(t)[..WildRun(Collapse(t))]
  {
    var c := Collapse(t);
    if t[0] == '*' {
      assert c[0] == '*' && c[..WildRun(c)][0] == '*';
    } else {
      ChopPlain(t);
      assert c == [t[0]] + Collapse(t[1..]) && c[1..] == Collapse(t[1..]);
      var k :| 0 <= k < WildRun(t) && t[k] == '*';
      assert t[1..][..WildRun(t[1..])][k - 1] == '*';
      StarStays(t[1..]);
      var j :| 0 <= j < WildRun(c[1..]) && c[1..][j] == '*';
      assert c[..WildRun(c)][j + 1] == '*';
    }
  }

  ghost predicate Questions(s: string) {
    forall k | 0 <= k < |s| :: s[k] == '?'
  }

  lemma {:induction false} QuestionsOnly(s: string)
    ensures Questions(s) ==> OnlyQuestions(s) == s
    ensures '*' in s ==> |OnlyQuestions(s)| < |s|
    ensures Questions(OnlyQuestions(s))
  {
    if s != "" {
      QuestionsOnly(s[1..]);
    }
  }

  /** What the loop does first on text it has already collapsed. */
  lemma ChopAgain(p: string)
    requires p != "" && !LumpyHere(p)
    ensures Collapse(Chop(p).0 + Collapse(Chop(p).1)) == Chop(p).0 + Collapse(Collapse(Chop(p).1))
  {
    hide DropStars, OnlyQuestions;
    var h, t := Chop(p).0, Chop(p).1;
    var c := Collapse(t);
    var q := h + c;
    assert t != "" ==> c[0] == t[0];
    if p[0] == '\\' && |p| > 1 {
      assert q[..2] == h && q[2..] == c;
    } else if p[0] == '*' && |p| > 1 && p[1] == '?' {
      var n := WildRun(p[1..]);
      CopiedRun(p[1..], c);
      assert q[1..] == OnlyQuestions(p[1..][..n]) + c;
      assert Chop(q) == (h, c);
    } else if p[0] == '*' && |p| > 1 && p[1] == '*' && t != "" && t[0] == '?' {
      QuestionRun(t);
      RunAfterStar(t);
    } else {
      assert h == p[..1] && q[..1] == h && q[1..] == c;
      if p != "\\" {
        ChopPlain(q);
      } else {
        assert c == "";
      }
    }
  }

  /** OnlyQuestions of a run, put before text that starts with no wildcard, is a run copied whole. */
  lemma CopiedRun(s: string, c: string)
    requires s != "" && s[0] == '?' && (c != "" ==> !Wild(c[0]))
    ensures var r := OnlyQuestions(s[..WildRun(s)]);
            && r != "" && r[0] == '?' && WildRun(r + c) == |r| && OnlyQuestions((r + c)[..|r|]) == r && (r + c)[|r|..] == c
  {
    var r := OnlyQuestions(s[..WildRun(s)]);
    assert s[..WildRun(s)][0] == '?';
    QuestionsOnly(s[..WildRun(s)]);
    RunLength(r, c);
    assert (r + c)[..|r|] == r && (r + c)[|r|..] == c;
    QuestionsOnly(r);
  }

  lemma {:induction false} RunLength(r: string, c: string)
    requires Questions(r) && (c != "" ==> !Wild(c[0]))
    ensures WildRun(r + c) == |r|
  {
    if r != "" {
      assert (r + c)[1..] == r[1..] + c;
      RunLength(r[1..], c);
    } else {
      assert r + c == c;
    }
  }

  /** A collapsed run of question marks stays one. */
  lemma RunTwice(t: string)
    requires t != "" && t[0] == '?' && '*' !in t[..WildRun(t)]
    ensures var c := Collapse(t);
            && c != "" && c[0] == '?' && '*' !in c[..WildRun(c)] && OnlyQuestions(c[..WildRun(c)]) == c[..WildRun(c)]
  {
    QuestionRun(t);
    QuestionsOnly(Collapse(t)[..WildRun(t)]);
  }

  /** A star before a collapsed run of question marks. */
  lemma RunAfterStar(t: string)
    requires t != "" && t[0] == '?' && '*' !in t[..WildRun(t)]
    ensures Collapse("*" + Collapse(t)) == "*" + Collapse(Collapse(t))
  {
    hide *;
    var c := Collapse(t);
    var m := WildRun(c);
    RunTwice(t);
    QuestionRun(c);
    StarRun(c);
    StarJoins(Collapse(c), m);
  }

  lemma StarJoins(s: string, m: nat)
    requires m <= |s|
    ensures "*" + s[..m] + s[m..] == "*" + s
  {
  }

  lemma StarRun(c: string)
    requires c != "" && c[0] == '?'
    ensures Collapse("*" + c) == "*" + OnlyQuestions(c[..WildRun(c)]) + Collapse(c[WildRun(c)..])
  {
    assert ("*" + c)[1..] == c;
  }

  /** Collapsing a second time changes nothing exactly when the text was not lumpy. */
  lemma {:induction false} CollapseStable(p: string)
    ensures Collapse(Collapse(p)) == Collapse(p) <==> !Lumpy(p)
    decreases |p|
  {
    if p != "" {
      var h, t := Chop(p).0, Chop(p).1;
      var c := Collapse(t);
      CollapseStable(t);
      if LumpyHere(p) {
        StarStays(t);
        var q, n := "*" + c, WildRun(c);
        assert q[1..] == c && t[0] == '?';
        assert Chop(q) == ("*" + OnlyQuestions(c[..n]), c[n..]);
        QuestionsOnly(c[..n]);
        assert |Collapse(q)| < |q|;
      } else {
        ChopAgain(p);
        hide Chop;
        assert (h + Collapse(c))[|h|..] == Collapse(c) && (h + c)[|h|..] == c;
      }
    }
  }

  /** The stored form is a fixed point, and so travels unchanged, exactly when the parsed mask is not lumpy. */
  lemma CanonStable(mask: string)
    ensures Canon(Canon(mask)) == Canon(mask) <==> !Lumpy(PrettyMask(mask))
  {
    CanonShape(mask);
    CollapseStable(PrettyMask(mask));
  }

  /* ---------- letter case ---------- */

  /** Collapsing does not look at letters. */
  lemma {:induction false} CollapseFold(p: string)
    ensures Collapse(Fold(p)) == Fold(Collapse(p))
    decreases |p|
  {
    if p != "" {
      ChopFold(p);
      CollapseFold(Chop(p).1);
      FoldJoin(Chop(p).0, Collapse(Chop(p).1));
    }
  }

  lemma {:induction false} FoldJoin(a: string, b: string)
    ensures Fold(a + b) == Fold(a) + Fold(b)
  {
    if a == "" {
      assert a + b == b;
    } else {
      assert (a + b)[1..] == a[1..] + b;
      FoldJoin(a[1..], b);
    }
  }

  lemma FoldSlice(s: string, i: nat)
    requires i <= |s|
    ensures Fold(s)[..i] == Fold(s[..i]) && Fold(s)[i..] == Fold(s[i..])
  {
    hide Fold;
  }

  lemma {:induction false} DropStarsFold(s: string)
    ensures DropStars(Fold(s)) == Fold(DropStars(s))
  {
    if s != "" {
      FoldSlice(s, 1);
      DropStarsFold(s[1..]);
    }
  }

  lemma {:induction false} WildRunFold(s: string)
    ensures WildRun(Fold(s)) == WildRun(s)
  {
    if s != "" {
      FoldSlice(s, 1);
      WildRunFold(s[1..]);
    }
  }

  lemma {:induction false} OnlyQuestionsFold(s: string)
    ensures OnlyQuestions(Fold(s)) == OnlyQuestions(s) == Fold(OnlyQuestions(s))
  {
    if s != "" {
      FoldSlice(s, 1);
      OnlyQuestionsFold(s[1..]);
    }
  }

  lemma OneStar()
    ensures Fold("*") == "*"
  {
  }

  lemma ChopFold(p: string)
    requires p != ""
    ensures Chop(Fold(p)) == (Fold(Chop(p).0), Fold(Chop(p).1))
  {
    hide DropStars, WildRun, OnlyQuestions, Fold;
    FoldSlice(p, 1);
    if p[0] == '\\' && |p| > 1 {
      FoldSlice(p, 2);
    } else if p[0] == '*' && |p| > 1 && p[1] == '*' {
      DropStarsFold(p[1..]);
      OneStar();
    } else if p[0] == '*' && |p| > 1 && p[1] == '?' {
      WildRunFold(p[1..]);
      var n := WildRun(p[1..]);
      FoldSlice(p[1..], n);
      OnlyQuestionsFold(p[1..][..n]);
      FoldJoin("*", OnlyQuestions(p[1..][..n]));
      OneStar();
    }
  }

  /** collapse only shortens: text of the same length is the same text. */
  lemma {:induction false} CollapseShortens(p: string)
    ensures |Collapse(p)| == |p| ==> Collapse(p) == p
    decreases |p|
  {
    if p != "" {
      var h, t := Chop(p).0, Chop(p).1;
      CollapseShortens(t);
      ChopShortens(p);
    }
  }

  lemma ChopShortens(p: string)
    requires p != ""
    ensures |Chop(p).0| + |Chop(p).1| == |p| ==> Chop(p).0 + Chop(p).1 == p
  {
    if p[0] == '*' && |p| > 1 && p[1] == '*' {
      DropStarsShape(p[1..]);
    } else if p[0] == '*' && |p| > 1 && p[1] == '?' {
      var n := WildRun(p[1..]);
      RunShortens(p[1..][..n]);
      assert p[1..] == p[1..][..n] + p[1..][n..];
    }
  }

  lemma RunShortens(s: string)
    requires forall k | 0 <= k < |s| :: Wild(s[k])
    ensures |OnlyQuestions(s)| == |s| ==> OnlyQuestions(s) == s
  {
    QuestionsOnly(s);
  }

  /** A mask in the form set_mode stores: one word pretty_mask leaves alone, that starts with no colon. */
  predicate Stored(mask: string) {
    IsWord(mask) && mask[0] != ':' && PrettyMask(mask) == mask
  }

  /** Stored masks are short enough for a line, and reading one again can only shorten it. */
  lemma StoredShape(mask: string)
    requires Stored(mask)
    ensures |mask| <= MASK_LEN && Canon(mask) == Collapse(mask) && |Canon(mask)| <= |mask|
    ensures |Canon(mask)| == |mask| ==> Canon(mask) == mask
    ensures Stored(Canon(mask))
  {
    hide Collapse;
    CollapseShortens(mask);
    CanonShape(mask);
    hide NickUserHost;
    assert Canon(mask)[0] == mask[0];
  }

  /** Whatever parameter set_mode accepts, it stores a mask of this form. */
  lemma CanonStored(param: string)
    requires param != "" && param[0] != ':'
    ensures Stored(Canon(param))
  {
    hide Collapse;
    CanonShape(param);
    PrettyStart(param);
  }

  lemma CutStart(s: string, n: nat)
    requires n > 0
    ensures Cut(CheckString(s), n)[0] == '*' || (s != "" && Cut(CheckString(s), n)[0] == s[0])
  {
  }

  lemma PrettyStart(param: string)
    requires param != "" && param[0] != ':'
    ensures PrettyMask(param) != "" && PrettyMask(param)[0] != ':'
  {
    hide CheckString, Cut, LastIndexOf;
    var bang := IndexOf(param, '!');
    CutStart(param[..bang], NICK_LEN);
    CutStart("", NICK_LEN);
    CutStart(param, NICK_LEN);
  }

  /** Masks equal up to case are changed or left alone together. */
  lemma StableTogether(a: string, b: string)
    requires Stored(a) && Stored(b) && SameName(a, b)
    ensures Canon(a) == a <==> Canon(b) == b
  {
    hide Collapse, PrettyMask, Fold;
    StoredShape(a);
    StoredShape(b);
    CollapseFold(a);
    CollapseFold(b);
    SameLengths(a, b);
    SameLengths(Canon(a), Canon(b));
  }

  lemma SameLengths(a: string, b: string)
    requires SameName(a, b)
    ensures |a| == |b|
  {
    assert |Fold(a)| == |a| && |Fold(b)| == |b|;
  }
}
