/** What a burst does to the server that reads it, however its nick list was cut into lines. */
module Receiving {
  import opened Text
  import opened ModeLine
  import opened Merge
  import opened MaskBatch
  import opened Options
  import opened Sjoin
  import opened Relay
  import opened ChannelClass
  import opened Burst

  /** An SJOIN by its timestamp, modes and words. */
  function StepWords(c: Option<Chan>, ts: int, theirs: Mode, words: seq<string>, behind: set<string>): Option<Chan> {
    var ch := Sender(c, 0);
    var v := Judge(c.None?, ch.ts, ts);
    if c.None? && Accepted(words, behind, v.theirs) == [] then None
    else Some(Received(ch, v, theirs, words, behind))
  }

  lemma StepIsStepWords(c: Option<Chan>, msg: Message, behind: set<string>, now: int)
    requires GoodMessage(msg)
    ensures Step(c, msg, behind, now).chan == StepWords(c, msg.ts, ReadModes(msg).mode, Listed(msg), behind)
  {
  }

  lemma {:induction false} AddListedSplit(members: seq<Member>, xs: seq<string>, ys: seq<string>, behind: set<string>, theirs: bool)
    ensures AddListed(members, xs + ys, behind, theirs) == AddListed(AddListed(members, xs, behind, theirs), ys, behind, theirs)
    ensures Accepted(xs + ys, behind, theirs) == Accepted(xs, behind, theirs) + Accepted(ys, behind, theirs)
    decreases |xs|
  {
    hide AddOne, AcceptOne;
    if xs == [] {
      assert xs + ys == ys;
    } else {
      assert (xs + ys)[1..] == xs[1..] + ys;
      AddListedSplit(AddOne(members, xs[0], behind, theirs), xs[1..], ys, behind, theirs);
    }
  }

  lemma AcceptedAlike(words: seq<string>, behind: set<string>, a: bool, b: bool)
    ensures |Accepted(words, behind, a)| == |Accepted(words, behind, b)|
  {
  }

  /** Reading the "0" line after the first one settles nothing anew. */
  lemma SettledAgain(ch: Chan, isNew: bool, ts: int, theirs: Mode, members: seq<Member>)
    requires GoodMode(ch.mode) && GoodMode(theirs) && (isNew ==> ch.mode == NO_MODE)
    ensures var v := Judge(isNew, ch.ts, ts);
            var mid := Settled(ch, v, theirs).(members := members);
            var w := Judge(false, mid.ts, ts);
            w.theirs == v.theirs && Settled(mid, w, NO_MODE) == mid
  {
    SettleGood(Judge(isNew, ch.ts, ts), ch.mode, theirs);
    MergeAbsorbs(Settle(Judge(isNew, ch.ts, ts), ch.mode, theirs), NO_MODE);
  }

  /**
   A line cut in two, the second part with "0" for modes, acts like the whole line; only a new channel
   whose first part names nobody known is lost in between, with the modes it came with.
   */
  lemma SplitActsAsWhole(c: Option<Chan>, ts: int, theirs: Mode, xs: seq<string>, ys: seq<string>, behind: set<string>)
    requires GoodState(c) && GoodMode(theirs)
    ensures StepWords(StepWords(c, ts, theirs, xs, behind), ts, NO_MODE, ys, behind) == StepWords(c, ts, theirs, xs + ys, behind)
            <==> c.Some? || Accepted(xs, behind, true) != [] || Accepted(ys, behind, true) == [] || theirs == NO_MODE
  {
    var ch := Sender(c, 0);
    var v := Judge(c.None?, ch.ts, ts);
    var s := Settled(ch, v, theirs);
    AddListedSplit(s.members, xs, ys, behind, v.theirs);
    AcceptedAlike(xs, behind, v.theirs, true);
    AcceptedAlike(ys, behind, v.theirs, true);
    MergeAbsorbs(theirs, NO_MODE);
    if c.Some? || Accepted(xs, behind, true) != [] {
      SettledAgain(ch, c.None?, ts, theirs, AddListed(s.members, xs, behind, v.theirs));
    } else {
      NoneAccepted(s.members, xs, behind, true);
    }
  }

  /* ---------- all lines of a burst ---------- */

  function ReceiveAll(c: Option<Chan>, msgs: seq<Message>, behind: set<string>, now: int): Option<Chan>
    requires forall m | m in msgs :: m.args != []
  {
    if msgs == [] then c
    else Step(ReceiveAll(c, msgs[..|msgs| - 1], behind, now), msgs[|msgs| - 1], behind, now).chan
  }

  lemma BurstMessageReads(c: Chan, first: bool, nicks: string)
    requires GoodMode(c.mode)
    ensures var msg := BurstMessage(c, first, nicks);
            && GoodMessage(msg) && Listed(msg) == Words(nicks) && msg.ts == c.ts
            && ReadModes(msg).mode == if first then c.mode else NO_MODE
  {
    if first {
      ModesRoundTrip(c.mode, nicks);
    } else {
      ReadZero([nicks]);
    }
  }

  /**
   However many lines a channel is printed on, with at least one accepted nick on the first, they act
   like one line with all its words.
   */
  lemma {:induction false} LinesActAsOne(c: Option<Chan>, src: Chan, msgs: seq<Message>, behind: set<string>, now: int)
    requires GoodState(c) && GoodMode(src.mode) && msgs != []
    requires BurstLines(src, msgs) && forall m | m in msgs :: m.args != []
    requires c.Some? || Accepted(Words(NicksOf(msgs[0])), behind, true) != []
    ensures ReceiveAll(c, msgs, behind, now) == StepWords(c, src.ts, src.mode, AllWords(msgs), behind)
    ensures c.None? ==> Accepted(AllWords(msgs), behind, true) != []
  {
    var n := |msgs| - 1;
    var init, last := msgs[..n], msgs[n];
    assert last == BurstMessage(src, n == 0, NicksOf(last));
    BurstMessageReads(src, n == 0, NicksOf(last));
    StepIsStepWords(ReceiveAll(c, init, behind, now), last, behind, now);
    if n == 0 {
      assert AllWords(msgs) == Words(NicksOf(last));
    } else {
      assert BurstLines(src, init);
      LinesActAsOne(c, src, init, behind, now);
      SplitActsAsWhole(c, src.ts, src.mode, AllWords(init), Words(NicksOf(last)), behind);
      AddListedSplit([], AllWords(init), Words(NicksOf(last)), behind, true);
    }
  }

  /* ---------- members and their status ---------- */

  /** Members whose status fits into the two prefix characters that are read. */
  predicate TwoAtMost(m: Member) {
    !(m.status.op && m.status.halfop && m.status.voice)
  }

  lemma PrefixReads(m: Member)
    requires ValidNick(m.nick)
    ensures Strip(PrefixWord(m)) == m.nick
    ensures Prefixed(PrefixWord(m)) == if TwoAtMost(m) then m.status else Status(true, true, false)
  {
    var o, h, v := if m.status.op then "@" else "", if m.status.halfop then "%" else "", if m.status.voice then "+" else "";
    assert o + (h + (v + m.nick)) == PrefixWord(m) && o + h + v + m.nick == PrefixWord(m);
    assert m.nick != "" && !IsPrefix(m.nick[0]);
    hide Strip, PrefixWord;
    StripPrefixes(o, h, v, m.nick);
    hide Prefixed;
    PrefixedOnly(o + h + v, m.nick);
    LeadingPrefixes(m.status);
  }

  /** A nick after the prefix characters adds none. */
  lemma PrefixedOnly(prefix: string, nick: string)
    requires ValidNick(nick)
    ensures Prefixed(prefix + nick) == Prefixed(prefix)
  {
    var w := prefix + nick;
    assert CharAt(w, 0) == if |prefix| > 0 then prefix[0] else CharAt(nick, 0);
    assert CharAt(w, 1) == if |prefix| > 1 then prefix[1] else CharAt(nick, 1 - |prefix|);
  }

  lemma LeadingPrefixes(s: Status)
    ensures Prefixed((if s.op then "@" else "") + (if s.halfop then "%" else "") + (if s.voice then "+" else ""))
         == if s.op && s.halfop then Status(true, true, false) else s
  {
  }

  lemma StripPrefixes(o: string, h: string, v: string, nick: string)
    requires forall p | p in [o, h, v] :: p == "" || (|p| == 1 && IsPrefix(p[0]))
    requires nick != "" && !IsPrefix(nick[0])
    ensures Strip(o + (h + (v + nick))) == nick
  {
    assert o in [o, h, v] && h in [o, h, v] && v in [o, h, v];
    StripOne(o, h + (v + nick));
    StripOne(h, v + nick);
    StripOne(v, nick);
  }

  lemma StripOne(p: string, rest: string)
    requires p == "" || (|p| == 1 && IsPrefix(p[0]))
    ensures Strip(p + rest) == Strip(rest)
  {
    if p != "" {
      assert (p + rest)[1..] == rest;
    } else {
      assert p + rest == rest;
    }
  }

  ghost predicate AllBehind(members: seq<Member>, behind: set<string>) {
    forall k | 0 <= k < |members| :: members[k].nick in behind && ValidNick(members[k].nick)
  }

  /** The status a listed member arrives with. */
  function Arrived(m: Member, theirs: bool): Status {
    if !theirs then PLAIN else if TwoAtMost(m) then m.status else Status(true, true, false)
  }

  /** The listed members in the order they end up in: the last one in front. */
  function ArriveAll(order: seq<Member>, theirs: bool): (r: seq<Member>)
    ensures |r| == |order|
    ensures forall k | 0 <= k < |r| :: r[k] == Member(order[|order| - 1 - k].nick, Arrived(order[|order| - 1 - k], theirs))
  {
    if order == [] then []
    else
      var m := order[|order| - 1];
      [Member(m.nick, Arrived(m, theirs))] + ArriveAll(order[..|order| - 1], theirs)
  }

  lemma NotYetListed(had: seq<Member>, order: seq<Member>, theirs: bool, m: Member)
    requires Distinct(had + (order + [m]))
    ensures !IsMember(ArriveAll(order, theirs) + had, m.nick)
  {
    var so, all := ArriveAll(order, theirs) + had, had + (order + [m]);
    assert all[|had| + |order|] == m;
    forall k | 0 <= k < |so|
      ensures so[k].nick != m.nick
    {
      var at := if k < |order| then |had| + (|order| - 1 - k) else k - |order|;
      assert all[at].nick == so[k].nick;
    }
  }

  /** Members that are all new and all known are all added, the last of them in front. */
  lemma {:induction false} ListedArrive(had: seq<Member>, order: seq<Member>, behind: set<string>, theirs: bool)
    requires AllBehind(order, behind) && Distinct(had + order)
    ensures AddListed(had, PrefixWords(order), behind, theirs) == ArriveAll(order, theirs) + had
    ensures |Accepted(PrefixWords(order), behind, theirs)| == |order|
  {
    hide PrefixWord, Prefixed, Strip, IsMember, ValidNick;
    if order != [] {
      var n := |order| - 1;
      var init, m := order[..n], order[n];
      assert order == init + [m];
      assert had + init == (had + order)[..|had| + n];
      ListedArrive(had, init, behind, theirs);
      AddListedSplit(had, PrefixWords(init), [PrefixWord(m)], behind, theirs);
      NotYetListed(had, init, theirs, m);
      var so := ArriveAll(init, theirs) + had;
      NextArrives(so, m, behind, theirs);
      hide AddListed, Accepted, PrefixWord, Distinct, IsMember;
      assert [Member(m.nick, Arrived(m, theirs))] + so == ArriveAll(order, theirs) + had;
    }
  }

  lemma NextArrives(members: seq<Member>, m: Member, behind: set<string>, theirs: bool)
    requires m.nick in behind && ValidNick(m.nick) && !IsMember(members, m.nick)
    ensures AddListed(members, [PrefixWord(m)], behind, theirs) == [Member(m.nick, Arrived(m, theirs))] + members
    ensures |Accepted([PrefixWord(m)], behind, theirs)| == 1
  {
    hide AddListed, Accepted, PrefixWord, Prefixed, Strip, IsMember;
    PrefixReads(m);
    OneWord(members, PrefixWord(m), behind, theirs);
  }

  lemma OneWord(members: seq<Member>, w: string, behind: set<string>, theirs: bool)
    requires Strip(w) in behind && !IsMember(members, Strip(w))
    ensures AddListed(members, [w], behind, theirs) == [Member(Strip(w), Granted(w, theirs))] + members
    ensures |Accepted([w], behind, theirs)| == 1
  {
    assert [w][1..] == [];
  }
}
