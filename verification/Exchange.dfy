/** Two servers link up and send each other one channel: what both hold once all lines are read. */
module Exchange {
  import opened Text
  import opened ModeLine
  import opened Merge
  import opened MaskBatch
  import opened Masks
  import opened Options
  import opened Sjoin
  import opened Relay
  import opened ChannelClass
  import opened SetMode
  import opened Burst
  import opened Receiving
  import opened Lists

  /* ---------- a burst on the wire ---------- */

  datatype Wire = SjoinLine(msg: Message) | ListLine(ts: int, line: Line)

  /** What a server holds before the link: some member, well-formed modes, masks as set_mode stores them. */
  ghost predicate Healthy(c: Chan) {
    && GoodMode(c.mode) && c.ts >= 0
    && c.members != [] && Distinct(c.members) && (forall m | m in c.members :: ValidNick(m.nick))
    && StoredLists(c)
  }

  /** The lines of send_channel_modes, cut anywhere: SJOINs with all members, then all masks. */
  ghost predicate IsBurst(c: Chan, msgs: seq<Message>, lines: seq<Line>) {
    && BurstLines(c, msgs) && (forall m | m in msgs :: m.args != [])
    && AllWords(msgs) == PrefixWords(WalkOrder(c.members))
    && (forall l | l in lines :: WithinLimits(l, '+', MAX_TS_MODE_PARAMS)) && Lines(lines)
    && AllItems(lines) == ThreeLists(c.bans, c.exempts, c.invites)
  }

  function Wires(c: Chan, msgs: seq<Message>, lines: seq<Line>): seq<Wire> {
    seq(|msgs|, i requires 0 <= i < |msgs| => SjoinLine(msgs[i]))
    + seq(|lines|, i requires 0 <= i < |lines| => ListLine(c.ts, lines[i]))
  }

  /** send_channel_modes on a channel whose name starts with '#'; other channels stay local. */
  method SendChannelModes(c: Chan, names: Names) returns (msgs: seq<Message>, lines: seq<Line>)
    requires Healthy(c) && forall m | m in c.members :: |m.nick| <= NICK_LEN
    ensures CharAt(names.chname, 0) != '#' ==> msgs == [] && lines == []
    ensures CharAt(names.chname, 0) == '#' ==> IsBurst(c, msgs, lines)
    ensures forall k | 0 <= k < |msgs| :: LineFits(names, c, k, |NicksOf(msgs[k])|)
  {
    if CharAt(names.chname, 0) != '#' {
      return [], [];
    }
    StoredLegal(c.bans);
    StoredLegal(c.exempts);
    StoredLegal(c.invites);
    hide ShowLetters, ShowParams, Stored, LegalMasks, WithinLimits, PrefixWords, BurstLines, ThreeLists;
    assert forall m | m in c.members :: ValidNick(m.nick);
    msgs := SendMembers(c, names);
    lines := PrintLists('+', 20, MAX_TS_MODE_PARAMS, c.bans, c.exempts, c.invites);
  }

  lemma StoredLegal(masks: seq<string>)
    requires AllStored(masks)
    ensures LegalMasks(masks)
  {
    forall m | m in masks
      ensures IsWord(m) && |m| <= MASK_LEN
    {
      StoredShape(m);
    }
  }

  ghost predicate Parsable(wire: Wire) {
    wire.SjoinLine? ==> wire.msg.args != []
  }

  /** A MODE for a channel that does not exist is no channel mode at all. */
  function Hear(c: Option<Chan>, wire: Wire, behind: set<string>, w: World): Option<Chan>
    requires Parsable(wire)
  {
    match wire
    case SjoinLine(msg) => Step(c, msg, behind, 0).chan
    case ListLine(ts, line) => if c.Some? then Some(ModeFromServer(c.value, ts, line, w)) else None
  }

  function HearAll(c: Option<Chan>, wires: seq<Wire>, behind: set<string>, w: World): Option<Chan>
    requires forall x | x in wires :: Parsable(x)
  {
    if wires == [] then c else Hear(HearAll(c, wires[..|wires| - 1], behind, w), wires[|wires| - 1], behind, w)
  }

  /* ---------- one side ---------- */

  /** What a burst makes of a channel, in one formula. */
  function Heard(c: Option<Chan>, src: Chan): Chan {
    var joined := Joined(c, src);
    if src.ts != 0 && src.ts > joined.ts then joined else WithLists(joined, src)
  }

  /** The members of a channel are not known here yet, and are reached through the link. */
  ghost predicate Strangers(c: Option<Chan>, src: Chan, behind: set<string>) {
    && (forall m | m in src.members :: m.nick in behind)
    && (c.Some? ==> Distinct(c.value.members + src.members))
  }

  lemma WalkKeeps(had: seq<Member>, members: seq<Member>)
    requires Distinct(had + members)
    ensures Distinct(had + WalkOrder(members)) && |WalkOrder(members)| == |members|
    ensures forall m :: m in WalkOrder(members) <==> m in members
  {
    WalkListsAll(members);
    forall m
      ensures m in WalkOrder(members) <==> m in members
    {
      assert m in multiset(WalkOrder(members)) <==> m in multiset(members);
    }
    OrderDistinct(had, members);
  }

  lemma ApartNicks(s: seq<Member>, i: nat, j: nat)
    requires Distinct(s) && i < |s| && j < |s| && i != j
    ensures s[i].nick != s[j].nick
  {
  }

  lemma OrderDistinct(had: seq<Member>, members: seq<Member>)
    requires Distinct(had + members)
    ensures Distinct(had + WalkOrder(members))
  {
    var k, all := FirstLeader(members), had + WalkOrder(members);
    if k < |members| {
      hide FirstLeader;
      forall i, j | 0 <= i < j < |all|
        ensures all[i].nick != all[j].nick
      {
        MovedFrom(had, members, k, i);
        MovedFrom(had, members, k, j);
        ApartNicks(had + members, Origin(|had|, k, i), Origin(|had|, k, j));
      }
    }
  }

  /** Where an element comes from when element k is taken to the front. */
  function Origin(n: nat, k: nat, i: nat): nat {
    if i < n then i else if i == n then n + k else if i - n <= k then i - 1 else i
  }

  lemma MovedFrom(had: seq<Member>, members: seq<Member>, k: nat, i: nat)
    requires k < |members| && i < |had| + |members|
    ensures Origin(|had|, k, i) < |had| + |members|
    ensures (had + ([members[k]] + members[..k] + members[k + 1..]))[i] == (had + members)[Origin(|had|, k, i)]
  {
  }

  lemma {:induction false} HearAppend(c: Option<Chan>, xs: seq<Wire>, ys: seq<Wire>, behind: set<string>, w: World)
    requires forall x | x in xs + ys :: Parsable(x)
    ensures (forall x | x in xs :: Parsable(x)) && forall y | y in ys :: Parsable(y)
    ensures HearAll(c, xs + ys, behind, w) == HearAll(HearAll(c, xs, behind, w), ys, behind, w)
  {
    forall x | x in xs
      ensures Parsable(x)
    {
      assert x in xs + ys;
    }
    forall y | y in ys
      ensures Parsable(y)
    {
      assert y in xs + ys;
    }
    if ys == [] {
      assert xs + ys == xs;
    } else {
      assert (xs + ys)[..|xs + ys| - 1] == xs + ys[..|ys| - 1];
      HearAppend(c, xs, ys[..|ys| - 1], behind, w);
    }
  }

  lemma {:induction false} HearSjoins(c: Option<Chan>, msgs: seq<Message>, behind: set<string>, w: World)
    requires forall m | m in msgs :: m.args != []
    ensures var wires := seq(|msgs|, i requires 0 <= i < |msgs| => SjoinLine(msgs[i]));
            && (forall x | x in wires :: Parsable(x))
            && HearAll(c, wires, behind, w) == ReceiveAll(c, msgs, behind, 0)
  {
    var wires := seq(|msgs|, i requires 0 <= i < |msgs| => SjoinLine(msgs[i]));
    if msgs != [] {
      var init := msgs[..|msgs| - 1];
      HearSjoins(c, init, behind, w);
      assert wires[..|wires| - 1] == seq(|init|, i requires 0 <= i < |init| => SjoinLine(init[i]));
    }
  }

  lemma {:induction false} HearListLines(c: Chan, ts: int, lines: seq<Line>, behind: set<string>, w: World)
    ensures var wires := seq(|lines|, i requires 0 <= i < |lines| => ListLine(ts, lines[i]));
            && (forall x | x in wires :: Parsable(x))
            && HearAll(Some(c), wires, behind, w) == Some(HearLines(c, ts, lines, w))
  {
    var wires := seq(|lines|, i requires 0 <= i < |lines| => ListLine(ts, lines[i]));
    if lines != [] {
      var init := lines[..|lines| - 1];
      HearListLines(c, ts, init, behind, w);
      assert wires[..|wires| - 1] == seq(|init|, i requires 0 <= i < |init| => ListLine(ts, init[i]));
    }
  }

  lemma {:induction false} FirstLineAccepted(msgs: seq<Message>, order: seq<Member>, behind: set<string>)
    requires msgs != [] && (forall m | m in msgs :: m.args != []) && AllWords(msgs) == PrefixWords(order)
    requires AllBehind(order, behind) && Words(NicksOf(msgs[0])) != []
    ensures Accepted(Words(NicksOf(msgs[0])), behind, true) != []
  {
    AllWordsFirst(msgs);
    var w := Words(NicksOf(msgs[0]))[0];
    assert AllWords(msgs)[0] == w;
    PrefixWordsAt(order, 0);
    PrefixReads(order[0]);
    assert Strip(w) in behind;
  }

  lemma {:induction false} AllWordsFirst(msgs: seq<Message>)
    requires msgs != [] && forall m | m in msgs :: m.args != []
    ensures Words(NicksOf(msgs[0])) <= AllWords(msgs)
  {
    if |msgs| == 1 {
      assert AllWords(msgs) == [] + Words(NicksOf(msgs[0]));
    } else {
      AllWordsFirst(msgs[..|msgs| - 1]);
    }
  }

  lemma {:induction false} PrefixWordsAt(order: seq<Member>, k: nat)
    requires k < |order|
    ensures |PrefixWords(order)| == |order| && PrefixWords(order)[k] == PrefixWord(order[k])
  {
    var n := |order| - 1;
    if k < n {
      PrefixWordsAt(order[..n], k);
    } else if n > 0 {
      PrefixWordsAt(order[..n], 0);
    }
  }

  /** The channel after the SJOIN lines. */
  function Joined(c: Option<Chan>, src: Chan): Chan {
    var ch := Sender(c, 0);
    var v := Judge(c.None?, ch.ts, src.ts);
    var s := Settled(ch, v, src.mode);
    s.(members := ArriveAll(WalkOrder(src.members), v.theirs) + s.members)
  }

  lemma AllBehindOrder(src: Chan, behind: set<string>)
    requires (forall m | m in src.members :: m.nick in behind && ValidNick(m.nick)) && Distinct(src.members)
    ensures AllBehind(WalkOrder(src.members), behind)
  {
    var order := WalkOrder(src.members);
    OrderMembers(src.members);
    forall k | 0 <= k < |order|
      ensures order[k].nick in behind && ValidNick(order[k].nick)
    {
      assert order[k] in order;
    }
  }

  lemma SjoinsHeard(c: Option<Chan>, src: Chan, msgs: seq<Message>, lines: seq<Line>, behind: set<string>)
    requires GoodState(c) && Healthy(src) && IsBurst(src, msgs, lines) && Strangers(c, src, behind)
    ensures ReceiveAll(c, msgs, behind, 0) == Some(Joined(c, src))
  {
    hide ShowLetters, ShowParams, Printable, Normal, IsMember, Prefixed, Strip, FirstLeader;
    var had := if c.Some? then c.value.members else [];
    var order := WalkOrder(src.members);
    assert had == [] ==> had + src.members == src.members;
    WalkKeeps(had, src.members);
    PrefixWordsAt(order, 0);
    AllBehindOrder(src, behind);
    assert AllWords([]) == [];
    FirstLineAccepted(msgs, order, behind);
    LinesActAsOne(c, src, msgs, behind, 0);
    var ch := Sender(c, 0);
    var v := Judge(c.None?, ch.ts, src.ts);
    DistinctCleared(had, order);
    ListedArrive(Settled(ch, v, src.mode).members, order, behind, v.theirs);
  }

  /** A burst, however cut into lines, makes of the receiver's channel what Heard says. */
  lemma BurstHeard(c: Option<Chan>, src: Chan, msgs: seq<Message>, lines: seq<Line>, behind: set<string>, w: World)
    requires GoodState(c) && Healthy(src) && IsBurst(src, msgs, lines) && Strangers(c, src, behind) && SmallWorld(w)
    ensures var wires := Wires(src, msgs, lines);
            (forall x | x in wires :: Parsable(x)) && HearAll(c, wires, behind, w) == Some(Heard(c, src))
  {
    var joined := Joined(c, src);
    SjoinsHeard(c, src, msgs, lines, behind);
    ListsArrive(joined, src, lines, w);
    HearSjoins(c, msgs, behind, w);
    HearListLines(joined, src.ts, lines, behind, w);
    var xs := seq(|msgs|, i requires 0 <= i < |msgs| => SjoinLine(msgs[i]));
    var ys := seq(|lines|, i requires 0 <= i < |lines| => ListLine(src.ts, lines[i]));
    forall x | x in xs + ys
      ensures Parsable(x)
    {
    }
    hide Hear, Healthy, ReceiveAll, HearLines, WithLists, Settled, ArriveAll, WalkOrder, GoodMode, IsBurst;
    HearAppend(c, xs, ys, behind, w);
  }

  lemma DistinctCleared(had: seq<Member>, order: seq<Member>)
    requires Distinct(had + order)
    ensures Distinct(Cleared(had) + order)
  {
    forall i, j | 0 <= i < j < |Cleared(had) + order|
      ensures (Cleared(had) + order)[i].nick != (Cleared(had) + order)[j].nick
    {
      assert (had + order)[i].nick != (had + order)[j].nick;
    }
  }

  /* ---------- the round trip ---------- */

  /** Nobody holds all three of op, halfop and voice: no prefix is written beyond the two that are read. */
  ghost predicate NoTriple(c: Chan) {
    forall m | m in c.members :: TwoAtMost(m)
  }

  ghost predicate SameLists(a: Chan, b: Chan) {
    SameMasks(a.bans, b.bans) && SameMasks(a.exempts, b.exempts) && SameMasks(a.invites, b.invites)
  }

  lemma ArrivedStatus(order: seq<Member>, theirs: bool)
    requires Distinct(order)
    ensures Distinct(ArriveAll(order, theirs))
    ensures forall n :: n in StatusMap(ArriveAll(order, theirs)) <==> IsMember(order, n)
    ensures forall k | 0 <= k < |order| ::
              && order[k].nick in StatusMap(ArriveAll(order, theirs))
              && StatusMap(ArriveAll(order, theirs))[order[k].nick] == Arrived(order[k], theirs)
  {
    var r := ArriveAll(order, theirs);
    StatusMapKeys(r);
    forall n
      ensures IsMember(r, n) <==> IsMember(order, n)
    {
      if IsMember(order, n) {
        var k :| 0 <= k < |order| && order[k].nick == n;
        assert r[|order| - 1 - k].nick == n;
      }
    }
    forall k | 0 <= k < |order|
      ensures order[k].nick in StatusMap(r) && StatusMap(r)[order[k].nick] == Arrived(order[k], theirs)
    {
      assert r[|order| - 1 - k] == Member(order[k].nick, Arrived(order[k], theirs));
    }
  }

  lemma OrderMembers(members: seq<Member>)
    requires Distinct(members)
    ensures Distinct(WalkOrder(members)) && forall m :: m in WalkOrder(members) <==> m in members
    ensures forall n :: IsMember(WalkOrder(members), n) <==> IsMember(members, n)
  {
    assert [] + members == members && [] + WalkOrder(members) == WalkOrder(members);
    WalkKeeps([], members);
    forall n
      ensures IsMember(WalkOrder(members), n) <==> IsMember(members, n)
    {
      MemberByNick(members, n);
      MemberByNick(WalkOrder(members), n);
    }
  }

  lemma MemberByNick(members: seq<Member>, n: string)
    ensures IsMember(members, n) <==> exists m :: m in members && m.nick == n
  {
    if IsMember(members, n) {
      var k :| 0 <= k < |members| && members[k].nick == n;
      assert members[k] in members;
    }
  }

  /** The status every listed member arrives with, by nick. */
  lemma ArrivedMap(members: seq<Member>, theirs: bool)
    requires Distinct(members)
    ensures var st := StatusMap(ArriveAll(WalkOrder(members), theirs));
            && st.Keys == StatusMap(members).Keys
            && forall m | m in members :: m.nick in st && st[m.nick] == Arrived(m, theirs)
  {
    var order := WalkOrder(members);
    hide WalkOrder, ArriveAll, StatusMap, Arrived;
    OrderMembers(members);
    ArrivedStatus(order, theirs);
    StatusMapKeys(members);
    var st := StatusMap(ArriveAll(order, theirs));
    forall m | m in members
      ensures m.nick in st && st[m.nick] == Arrived(m, theirs)
    {
      assert m in order;
      var k :| 0 <= k < |order| && order[k] == m;
      assert IsMember(order, order[k].nick);
    }
  }

  /**
   A server without the channel rebuilds it from the burst: lists exactly when every mask is stable,
   status exactly when nobody holds all three.
   */
  lemma RoundTrip(src: Chan)
    requires Healthy(src)
    ensures var copy := Heard(None, src);
            && copy.ts == src.ts && copy.mode == src.mode && (SameLists(copy, src) <==> StableLists(src))
            && StatusMap(copy.members).Keys == StatusMap(src.members).Keys
            && (StatusMap(copy.members) == StatusMap(src.members) <==> NoTriple(src))
  {
    hide Canon, Stored;
    MergeAbsorbs(src.mode, NO_MODE);
    StatusBack(src);
    AddedToNone(src.bans);
    AddedToNone(src.exempts);
    AddedToNone(src.invites);
    hide AddMasks, SameMasks, AllStored, AllStable, ArriveAll, WalkOrder, StatusMap;
  }

  lemma StatusBack(src: Chan)
    requires Healthy(src)
    ensures var copy := Heard(None, src);
            && StatusMap(copy.members).Keys == StatusMap(src.members).Keys
            && (StatusMap(copy.members) == StatusMap(src.members) <==> NoTriple(src))
  {
    hide Canon, Stored, StoredLists;
    ArrivedMap(src.members, true);
    StatusMapKeys(src.members);
    var copy := Heard(None, src);
    var order := WalkOrder(src.members);
    assert ArriveAll(order, true) + [] == ArriveAll(order, true);
    forall m | m in src.members
      ensures StatusMap(src.members)[m.nick] == m.status && StatusMap(copy.members)[m.nick] == Arrived(m, true)
    {
      var k :| 0 <= k < |src.members| && src.members[k] == m;
    }
    if NoTriple(src) {
      forall n | n in StatusMap(src.members)
        ensures StatusMap(copy.members)[n] == StatusMap(src.members)[n]
      {
        MemberByNick(src.members, n);
        var m :| m in src.members && m.nick == n;
      }
    } else {
      var m :| m in src.members && !TwoAtMost(m);
      assert StatusMap(copy.members)[m.nick] != StatusMap(src.members)[m.nick];
    }
  }

  lemma AddedToNone(masks: seq<string>)
    requires AllStored(masks)
    ensures SameMasks(AddMasks([], masks), masks) <==> AllStable(masks)
  {
    hide Canon, Stored, SameName, AddMasks;
    SameWhenStable(masks);
    forall m
      ensures HasMask(AddMasks([], masks), m) <==> HasMask(Canons(masks), m)
    {
      AddMasksHas([], masks, m);
    }
  }
}
