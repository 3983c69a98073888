/** The message m_sjoin passes on does to the next server what the original did here. */
module Relay {
  import opened Text
  import opened ModeLine
  import opened Merge
  import opened Options
  import opened Sjoin

  /* ---------- what servers guarantee about what they hold and send ---------- */

  /** Modes that fit on a MODE line: known flags, numbers of type int and a key that is one word. */
  ghost predicate Printable(m: Mode) {
    && Int32(m.limit) && Int32(m.joinNum) && Int32(m.joinTime)
    && (forall c | c in m.flags :: CarriedFlag(c))
    && (m.key == "" || IsWord(m.key))
  }

  /** A mode some server holds: printable, with a normalised join rate and a key cut to size. */
  ghost predicate GoodMode(m: Mode) {
    Printable(m) && Normal(m) && |m.key| <= KEY_LEN
  }

  /** What is known of modes that come from anywhere: the join rate need not be normalised. */
  ghost predicate RawMode(m: Mode) {
    Printable(m) && Raw(m) && |m.key| <= KEY_LEN
  }

  predicate ValidNick(n: string) {
    IsWord(n) && !IsPrefix(CharAt(n, 0)) && !IsPrefix(CharAt(n, 1))
  }

  predicate ValidNicks(nicks: set<string>) {
    forall n | n in nicks :: ValidNick(n)
  }

  function ReadModes(msg: Message): Parsed
    requires msg.args != []
  {
    ParseModes(msg.letters, msg.args, NO_MODE, 0)
  }

  /** "0" or modes with all their parameters, such as a server holds and prints. */
  ghost predicate GoodMessage(msg: Message) {
    && msg.args != []
    && (CharAt(msg.letters, 0) == '0' ==> msg.letters == "0")
    && ReadModes(msg).Parsed? && GoodMode(ReadModes(msg).mode)
  }

  ghost predicate GoodState(c: Option<Chan>) {
    c.Some? ==> GoodMode(c.value.mode)
  }

  /** The same for messages and states with any join rate. */
  ghost predicate RawMessage(msg: Message) {
    && msg.args != []
    && (CharAt(msg.letters, 0) == '0' ==> msg.letters == "0")
    && ReadModes(msg).Parsed? && RawMode(ReadModes(msg).mode)
  }

  ghost predicate RawState(c: Option<Chan>) {
    c.Some? ==> RawMode(c.value.mode)
  }

  /** Every message that can be read is of this kind: parameters before the last are words. */
  lemma {:induction false} ReadIsRaw(letters: string, args: seq<string>, m: Mode, used: nat)
    requires used < |args| && RawMode(m) && forall i | 0 <= i < |args| - 1 :: IsWord(args[i])
    ensures var r := ParseModes(letters, args, m, used); r.Parsed? ==> RawMode(r.mode)
  {
    if letters != "" {
      var c, rest := letters[0], letters[1..];
      if CarriedFlag(c) {
        ReadIsRaw(rest, args, m.(flags := m.flags + {c}), used);
      } else if c == 'k' || c == 'j' || c == 'l' {
        if used + 1 < |args| {
          ReadIsRaw(rest, args, TakeParam(m, c, args[used]), used + 1);
        }
      } else {
        ReadIsRaw(rest, args, m, used);
      }
    }
  }

  function Listed(msg: Message): seq<string>
    requires msg.args != [] && ReadModes(msg).Parsed?
  {
    Words(msg.args[ReadModes(msg).used])
  }

  predicate SomeAccepted(words: seq<string>, behind: set<string>) {
    exists k | 0 <= k < |words| :: Strip(words[k]) in behind
  }

  /* ---------- printing modes and reading them back ---------- */

  /** The flags collected while the letters of ShowFlags are read. */
  function Collect(got: set<char>, flags: set<char>, letters: string): set<char>
    decreases |letters|
  {
    if letters == "" then got
    else Collect(if letters[0] in flags then got + {letters[0]} else got, flags, letters[1..])
  }

  lemma {:induction false} Collected(got: set<char>, flags: set<char>, letters: string)
    ensures forall c :: c in Collect(got, flags, letters) <==> c in got || (c in letters && c in flags)
    decreases |letters|
  {
    if letters != "" {
      Collected(if letters[0] in flags then got + {letters[0]} else got, flags, letters[1..]);
    }
  }

  lemma ReadOneFlag(c: char, rest: string, args: seq<string>, m: Mode, used: nat)
    requires used < |args| && CarriedFlag(c)
    ensures ParseModes([c] + rest, args, m, used) == ParseModes(rest, args, m.(flags := m.flags + {c}), used)
  {
    assert ([c] + rest)[1..] == rest;
  }

  lemma ReadPlus(rest: string, args: seq<string>, m: Mode, used: nat)
    requires used < |args|
    ensures ParseModes("+" + rest, args, m, used) == ParseModes(rest, args, m, used)
  {
    assert ("+" + rest)[1..] == rest;
  }

  lemma {:induction false} ReadShownFlags(flags: set<char>, letters: string, rest: string,
                                          args: seq<string>, m: Mode, used: nat)
    requires used < |args| && forall c | c in letters :: CarriedFlag(c)
    ensures ParseModes(ShowFlags(flags, letters) + rest, args, m, used)
         == ParseModes(rest, args, m.(flags := Collect(m.flags, flags, letters)), used)
    decreases |letters|
  {
    hide ParseModes, CarriedFlag;
    if letters == "" {
      assert ShowFlags(flags, letters) + rest == rest;
    } else {
      var c, more := letters[0], letters[1..];
      var tail := ShowFlags(flags, more) + rest;
      if c in flags {
        assert ShowFlags(flags, letters) + rest == [c] + tail;
        ReadOneFlag(c, tail, args, m, used);
        ReadShownFlags(flags, more, rest, args, m.(flags := m.flags + {c}), used);
      } else {
        assert ShowFlags(flags, letters) + rest == tail;
        ReadShownFlags(flags, more, rest, args, m, used);
      }
    }
  }

  function ShownWords(m: Mode): seq<string> {
    (if m.limit != 0 then [Itoa(m.limit)] else []) + (if m.key != "" then [m.key] else [])
    + if m.rated then [RateText(m.joinNum, m.joinTime)] else []
  }

  lemma WordsOfShown(m: Mode)
    requires m.key == "" || IsWord(m.key)
    ensures Words(ShowParams(m)) == ShownWords(m)
  {
    var p0 := if m.limit != 0 then Itoa(m.limit) else "";
    if m.limit != 0 {
      WordsOfWord(p0);
    }
    var p1 := if m.key != "" then AddPara(p0, m.key) else p0;
    if m.key != "" {
      WordsAddPara(p0, m.key);
    }
    if m.rated {
      WordsAddPara(p1, RateText(m.joinNum, m.joinTime));
    }
  }

  function TailLetters(m: Mode): string {
    (if m.limit != 0 then "l" else "") + ((if m.key != "" then "k" else "") + (if m.rated then "j" else ""))
  }

  /** Printed modes as they are read: a rate with a zero in it is printed as switched off. */
  function ReadBack(m: Mode): Mode {
    if m.rated && (m.joinNum == 0 || m.joinTime == 0) then m.(joinNum := 0, joinTime := 0) else m
  }

  lemma ReadRated(m: Mode, args: seq<string>, used: nat)
    requires Printable(m) && Raw(m) && (m.rated ==> used + 1 < |args| && args[used] == RateText(m.joinNum, m.joinTime))
    requires used < |args|
    ensures ParseModes(if m.rated then "j" else "", args, m.(rated := false, joinNum := 0, joinTime := 0), used)
         == Parsed(ReadBack(m), if m.rated then used + 1 else used)
  {
    hide RateText, RateNumbers, MakeRate;
    RateBack(m.joinNum, m.joinTime);
    assert "j"[1..] == "";
  }

  lemma ReadOneParam(c: char, rest: string, args: seq<string>, m: Mode, used: nat)
    requires (c == 'l' || c == 'k' || c == 'j') && used + 1 < |args|
    ensures ParseModes([c] + rest, args, m, used) == ParseModes(rest, args, TakeParam(m, c, args[used]), used + 1)
  {
    assert ([c] + rest)[1..] == rest;
  }

  /** The parameters of the printed modes are taken in the order they were printed. */
  lemma ReadTail(m: Mode, nicks: string)
    requires RawMode(m)
    ensures ParseModes(TailLetters(m), ShownWords(m) + [nicks], NO_MODE.(flags := m.flags), 0)
         == Parsed(ReadBack(m), |ShownWords(m)|)
  {
    hide ParseModes, RateText;
    var args := ShownWords(m) + [nicks];
    var j := if m.rated then "j" else "";
    var k := if m.key != "" then "k" else "";
    var m0 := NO_MODE.(flags := m.flags);
    var m1, n1 := m0.(limit := m.limit), if m.limit != 0 then 1 else 0;
    var m2, n2 := m1.(key := m.key), if m.key != "" then n1 + 1 else n1;
    AtoiItoa(m.limit);
    if m.limit != 0 {
      ReadOneParam('l', k + j, args, m0, 0);
    } else {
      assert TailLetters(m) == k + j;
    }
    if m.key != "" {
      ReadOneParam('k', j, args, m1, n1);
    } else {
      assert k + j == j;
    }
    ReadRated(m, args, n2);
  }

  /** channel_modes has a place for every carried flag. */
  lemma AllShown(flags: set<char>)
    requires forall c | c in flags :: CarriedFlag(c)
    ensures forall c | c in SHOW_LETTERS :: CarriedFlag(c)
    ensures Collect({}, flags, SHOW_LETTERS) == flags
  {
    Collected({}, flags, SHOW_LETTERS);
    hide Collect;
    var s := SHOW_LETTERS;
    assert s[0] == 's' && s[1] == 'p' && s[2] == 'm' && s[3] == 't' && s[4] == 'i' && s[5] == 'n' && s[6] == 'r';
    assert s[7] == 'R' && s[8] == 'c' && s[9] == 'O' && s[10] == 'S' && s[11] == 'N' && s[12] == 'M';
  }

  /** m_sjoin reads back exactly the modes channel_modes prints, and stops at the nick list. */
  lemma ModesRoundTrip(m: Mode, nicks: string)
    requires GoodMode(m)
    ensures ParseModes(ShowLetters(m), Words(ShowParams(m)) + [nicks], NO_MODE, 0)
         == Parsed(m, |Words(ShowParams(m))|)
  {
    RawRoundTrip(m, nicks);
  }

  lemma RawRoundTrip(m: Mode, nicks: string)
    requires RawMode(m)
    ensures ParseModes(ShowLetters(m), Words(ShowParams(m)) + [nicks], NO_MODE, 0)
         == Parsed(ReadBack(m), |Words(ShowParams(m))|)
  {
    WordsOfShown(m);
    ReadTail(m, nicks);
    ShownSplit(m);
    AllShown(m.flags);
    NoFlagsYet();
    var args := ShownWords(m) + [nicks];
    var flags, tail := ShowFlags(m.flags, SHOW_LETTERS), TailLetters(m);
    var order := SHOW_LETTERS;
    hide *;
    ReadPlus(flags + tail, args, NO_MODE, 0);
    ReadShownFlags(m.flags, order, tail, args, NO_MODE, 0);
  }

  lemma ShownSplit(m: Mode)
    ensures ShowLetters(m) == "+" + (ShowFlags(m.flags, SHOW_LETTERS) + TailLetters(m))
  {
    hide ShowFlags;
  }

  lemma NoFlagsYet()
    ensures NO_MODE.flags == {}
  {
  }

  /* ---------- nick lists ---------- */

  lemma {:induction false} WordsOfJoin(words: seq<string>)
    requires forall w | w in words :: IsWord(w)
    ensures Words(Join(words)) == words
  {
    if words != [] {
      WordsOfJoin(words[..|words| - 1]);
      WordsAddPara(Join(words[..|words| - 1]), words[|words| - 1]);
    }
  }

  lemma StripShape(w: string)
    ensures ' ' !in w ==> ' ' !in Strip(w)
    ensures Strip(w) != "" ==> !IsPrefix(Strip(w)[0])
    ensures Strip(Strip(w)) == Strip(w)
  {
  }

  lemma {:induction false} AcceptedShape(words: seq<string>, behind: set<string>, theirs: bool)
    requires ValidNicks(behind) && forall w | w in words :: IsWord(w)
    ensures forall w | w in Accepted(words, behind, theirs) :: IsWord(w) && Strip(w) in behind
    ensures Accepted(words, behind, theirs) != [] <==> SomeAccepted(words, behind)
  {
    if words != [] {
      AcceptedShape(words[1..], behind, theirs);
      StripShape(words[0]);
      if SomeAccepted(words, behind) {
        var k :| 0 <= k < |words| && Strip(words[k]) in behind;
        assert k > 0 ==> Strip(words[1..][k - 1]) in behind;
      } 
      if SomeAccepted(words[1..], behind) {
        var k :| 0 <= k < |words[1..]| && Strip(words[1..][k]) in behind;
        assert Strip(words[k + 1]) in behind;
      }
    }
  }

  /** Reading the rewritten nick list adds the same members with the same status. */
  lemma {:induction false} RewrittenList(members: seq<Member>, words: seq<string>, behind: set<string>,
                                         theirs: bool, below: set<string>)
    requires ValidNicks(behind) && behind <= below
    ensures AddListed(members, Accepted(words, behind, theirs), below, true)
         == AddListed(members, words, behind, theirs)
    ensures Accepted(Accepted(words, behind, theirs), below, true) == Accepted(words, behind, theirs)
    decreases |words|
  {
    if words != [] {
      var w, n := words[0], Strip(words[0]);
      var rest := Accepted(words[1..], behind, theirs);
      var next := AddOne(members, w, behind, theirs);
      RewrittenList(next, words[1..], behind, theirs, below);
      StripShape(w);
      if n in behind {
        var w' := if theirs then w else n;
        assert Accepted(words, behind, theirs) == [w'] + rest;
        assert Granted(w', true) == Granted(w, theirs);
        assert ([w'] + rest)[1..] == rest;
      } else {
        assert Accepted(words, behind, theirs) == rest;
      }
    }
  }

  /* ---------- fidelity ---------- */

  lemma SettleGood(v: Verdict, ours: Mode, theirs: Mode)
    requires GoodMode(ours) && GoodMode(theirs)
    ensures GoodMode(Settle(v, ours, theirs))
    ensures v.ours && v.theirs ==> Settle(v, ours, Settle(v, ours, theirs)) == Settle(v, ours, theirs)
    ensures Settle(Verdict(v.ts, true, true), ours, NO_MODE) == ours
  {
    MergeIsJoin(ours, theirs, ours);
    MergeAbsorbs(ours, theirs);
  }

  /** Every server keeps its modes well formed. */
  lemma StepGood(c: Option<Chan>, msg: Message, behind: set<string>, now: int)
    requires GoodState(c) && GoodMessage(msg)
    ensures GoodState(Step(c, msg, behind, now).chan)
  {
    SettleGood(Judge(c.None?, Sender(c, now).ts, msg.ts), Sender(c, now).mode, ReadModes(msg).mode);
  }

  lemma ReadZero(args: seq<string>)
    requires args != []
    ensures ParseModes("0", args, NO_MODE, 0) == Parsed(NO_MODE, 0)
  {
    assert "0"[1..] == "";
  }

  /** What the passed-on message says, read by the next server. */
  lemma RelayReads(msg: Message, v: Verdict, mode: Mode, accepted: seq<string>)
    requires GoodMode(mode) && accepted != [] && forall w | w in accepted :: IsWord(w)
    ensures var out := RelayOf(msg, v, mode, accepted).value;
            && GoodMessage(out) && out.ts == v.ts && Listed(out) == accepted
            && ReadModes(out).mode == if CharAt(msg.letters, 0) != '0' && v.theirs then mode else NO_MODE
  {
    var out := RelayOf(msg, v, mode, accepted).value;
    WordsOfJoin(accepted);
    if CharAt(msg.letters, 0) != '0' && v.theirs {
      ModesRoundTrip(mode, Join(accepted));
    } else {
      ReadZero(out.args);
    }
  }

  /** Timestamps and modes settle the same way when the rewritten message is read one server on. */
  lemma SettledTwice(isNew: bool, oldTs: int, laterTs: int, ours: Mode, msgTs: int, theirs: Mode)
    requires GoodMode(ours) && GoodMode(theirs)
    requires if isNew then ours == NO_MODE else laterTs == oldTs
    ensures var v := Judge(isNew, oldTs, msgTs);
            var w := Judge(isNew, laterTs, v.ts);
            var mode := Settle(v, ours, theirs);
            && w == Verdict(v.ts, v.ours, true)
            && (v.theirs ==> Settle(w, ours, mode) == mode)
            && (!v.theirs || theirs == NO_MODE ==> Settle(w, ours, NO_MODE) == mode)
  {
    MergeAbsorbs(ours, theirs);
    MergeAbsorbs(ours, ours);
    MergeIsJoin(ours, theirs, ours);
  }

  /** The rewritten message is rewritten to itself. */
  lemma RelayAgain(msg: Message, v: Verdict, mode: Mode, accepted: seq<string>)
    requires accepted != []
    ensures var out := RelayOf(msg, v, mode, accepted).value;
            RelayOf(out, v.(theirs := true), mode, accepted) == Some(out)
  {
    assert ShowLetters(mode)[0] == '+';
  }

  /**
   A downstream server that held the same channel ends with the same channel, and passes on the
   very message it received; it hears nothing exactly when no listed nick was accepted here.
   */
  lemma RelayFidelity(c: Option<Chan>, msg: Message, behind: set<string>, below: set<string>, now: int, later: int)
    requires GoodState(c) && GoodMessage(msg)
    requires ValidNicks(below) && behind <= below
    ensures var here := Step(c, msg, behind, now);
            && (here.relay.Some? <==> SomeAccepted(Listed(msg), behind))
            && (here.relay.Some? ==>
                 && GoodMessage(here.relay.value)
                 && SomeAccepted(Listed(here.relay.value), below)
                 && Step(c, here.relay.value, below, later) == here)
  {
    var ch := Sender(c, now);
    var v := Judge(c.None?, ch.ts, msg.ts);
    var words := Listed(msg);
    var accepted := Accepted(words, behind, v.theirs);
    AcceptedShape(words, behind, v.theirs);
    if accepted != [] {
      var theirs := ReadModes(msg).mode;
      var mode := Settle(v, ch.mode, theirs);
      SettledTwice(c.None?, ch.ts, Sender(c, later).ts, ch.mode, msg.ts, theirs);
      SettleGood(v, ch.mode, theirs);
      RelayReads(msg, v, mode, accepted);
      RelayAgain(msg, v, mode, accepted);
      if msg.letters == "0" {
        ReadZero(msg.args);
      }
      AcceptedShape(accepted, below, true);
      RewrittenList(if v.ours then ch.members else Cleared(ch.members), words, behind, v.theirs, below);
      assert SomeAccepted(accepted, below) by {
        assert Strip(accepted[0]) in below;
      }
    }
  }

  /* ---------- fidelity for any join rate ---------- */

  lemma SettleRaw(v: Verdict, ours: Mode, theirs: Mode)
    requires RawMode(ours) && RawMode(theirs)
    ensures RawMode(Settle(v, ours, theirs)) && RawMode(ReadBack(Settle(v, ours, theirs)))
  {
  }

  /** What the passed-on message says of modes, read by the next server. */
  lemma RawRelayReads(msg: Message, v: Verdict, mode: Mode, accepted: seq<string>)
    requires RawMode(mode) && accepted != [] && forall w | w in accepted :: IsWord(w)
    ensures var out := RelayOf(msg, v, mode, accepted).value;
            && RawMessage(out) && out.ts == v.ts && Listed(out) == accepted
            && ReadModes(out).mode == if CharAt(msg.letters, 0) != '0' && v.theirs then ReadBack(mode) else NO_MODE
  {
    var out := RelayOf(msg, v, mode, accepted).value;
    WordsOfJoin(accepted);
    if CharAt(msg.letters, 0) != '0' && v.theirs {
      RawRoundTrip(mode, Join(accepted));
    } else {
      ReadZero(out.args);
    }
  }

  /**
   What the rewritten message needs to arrive: modes that are sent have both numbers of their rate or
   neither; and where "0" is sent because ours won, limit and rate must win against none.
   */
  predicate Arrives(msg: Message, v: Verdict, ours: Mode, settled: Mode) {
    if CharAt(msg.letters, 0) != '0' && v.theirs then settled.rated ==> (settled.joinNum == 0 <==> settled.joinTime == 0)
    else v.theirs || (ours.limit >= 0 && !(ours.rated && LosesToNone(ours)))
  }

  lemma RawSettledTwice(isNew: bool, oldTs: int, laterTs: int, ours: Mode, msg: Message, theirs: Mode)
    requires Raw(ours) && Raw(theirs)
    requires if isNew then ours == NO_MODE else laterTs == oldTs
    requires msg.letters == "0" ==> theirs == NO_MODE
    requires CharAt(msg.letters, 0) == '0' ==> msg.letters == "0"
    ensures var v := Judge(isNew, oldTs, msg.ts);
            var w := Judge(isNew, laterTs, v.ts);
            var mode := Settle(v, ours, theirs);
            var sent := if CharAt(msg.letters, 0) != '0' && v.theirs then ReadBack(mode) else NO_MODE;
            && w == Verdict(v.ts, v.ours, true)
            && (Settle(w, ours, sent) == mode <==> Arrives(msg, v, ours, mode))
  {
    LessTotal(ours.key, theirs.key);
    LessTotal(ours.key, ours.key);
  }

  /**
   For any join rates: a downstream server that held the same channel ends with the same channel and
   passes on the same message if and only if the settled rate can arrive.
   */
  lemma RawFidelity(c: Option<Chan>, msg: Message, behind: set<string>, below: set<string>, now: int, later: int)
    requires RawState(c) && RawMessage(msg)
    requires ValidNicks(below) && behind <= below && SomeAccepted(Listed(msg), behind)
    ensures var here := Step(c, msg, behind, now);
            var v := Judge(c.None?, Sender(c, now).ts, msg.ts);
            var settled := Settle(v, Sender(c, now).mode, ReadModes(msg).mode);
            && here.relay.Some? && RawMessage(here.relay.value)
            && (Step(c, here.relay.value, below, later) == here <==> Arrives(msg, v, Sender(c, now).mode, settled))
  {
    hide ParseModes, ShowLetters, ShowParams, Printable;
    var ch := Sender(c, now);
    var v := Judge(c.None?, ch.ts, msg.ts);
    var words, theirs := Listed(msg), ReadModes(msg).mode;
    var accepted, mode := Accepted(words, behind, v.theirs), Settle(v, ch.mode, theirs);
    AcceptedShape(words, behind, v.theirs);
    if msg.letters == "0" {
      ReadZero(msg.args);
    }
    NoModeRaw();
    SettleRaw(v, ch.mode, theirs);
    RawRelayReads(msg, v, mode, accepted);
    RawSettledTwice(c.None?, ch.ts, Sender(c, later).ts, ch.mode, msg, theirs);
    RewrittenList(if v.ours then ch.members else Cleared(ch.members), words, behind, v.theirs, below);
    RelayAgain(msg, v, mode, accepted);
  }

  lemma NoModeRaw()
    ensures RawMode(NO_MODE)
  {
  }
}
