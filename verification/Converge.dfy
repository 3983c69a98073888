/** Two linked servers agree on a channel after exchanging bursts: on what always, on what exactly when. */
module Converge {
  import opened Text
  import opened ModeLine
  import opened Merge
  import opened MaskBatch
  import opened Masks
  import opened Options
  import opened Sjoin
  import opened Relay
  import opened ChannelClass
  import opened SetMode
  import opened Burst
  import opened Receiving
  import opened Lists
  import opened Exchange

  /** Both channels are healthy and share no member. */
  ghost predicate Apart(a: Chan, b: Chan) {
    Healthy(a) && Healthy(b) && Distinct(a.members + b.members)
  }

  /** The status given on x's side survives the exchange with y. */
  predicate Kept(x: Chan, y: Chan) {
    x.ts == 0 || y.ts == 0 || x.ts <= y.ts
  }

  function After(a: Chan, b: Chan): Chan {
    Heard(Some(a), b)
  }

  /** The same timestamp, zero if either was zero and else the smaller, and the same modes. */
  lemma SameModes(a: Chan, b: Chan)
    requires Healthy(a) && Healthy(b)
    ensures After(a, b).ts == After(b, a).ts
         == if a.ts == 0 || b.ts == 0 then 0 else if a.ts < b.ts then a.ts else b.ts
    ensures After(a, b).mode == After(b, a).mode
  {
    MergeCommutes(a.mode, b.mode);
  }

  /* ---------- status ---------- */

  lemma Lookup(members: seq<Member>, m: Member)
    requires Distinct(members) && m in members
    ensures m.nick in StatusMap(members) && StatusMap(members)[m.nick] == m.status
  {
    StatusMapKeys(members);
    var k :| 0 <= k < |members| && members[k] == m;
  }

  lemma KeyIsMember(members: seq<Member>, n: string)
    ensures n in StatusMap(members) <==> exists m :: m in members && m.nick == n
  {
    StatusMapKeys(members);
    MemberByNick(members, n);
  }

  lemma ArrivedDistinct(had: seq<Member>, order: seq<Member>, theirs: bool)
    requires Distinct(had + order)
    ensures Distinct(ArriveAll(order, theirs) + had)
  {
    var so := ArriveAll(order, theirs) + had;
    forall i, j | 0 <= i < j < |so|
      ensures so[i].nick != so[j].nick
    {
      var n := |order|;
      var i', j' := if i < n then |had| + (n - 1 - i) else i - n, if j < n then |had| + (n - 1 - j) else j - n;
      assert (had + order)[i'].nick == so[i].nick && (had + order)[j'].nick == so[j].nick;
    }
  }

  /** The members after the exchange: those that arrived, and those that were there. */
  lemma AfterIs(a: Chan, b: Chan)
    requires Apart(a, b)
    ensures var had, order, all := HadOf(a, b), WalkOrder(b.members), After(a, b).members;
            && all == ArriveAll(order, Kept(b, a)) + had && Distinct(all)
            && |order| == |b.members| && (forall m :: m in order <==> m in b.members)
  {
    var v := Judge(false, a.ts, b.ts);
    assert v.ours == Kept(a, b) && v.theirs == Kept(b, a);
    var order := WalkOrder(b.members);
    WalkKeeps(a.members, b.members);
    DistinctCleared(a.members, order);
    ArrivedDistinct(HadOf(a, b), order, v.theirs);
    hide WalkOrder, Distinct, Healthy;
  }

  function HadOf(a: Chan, b: Chan): (had: seq<Member>)
    ensures |had| == |a.members|
    ensures forall k | 0 <= k < |had| :: had[k] == Member(a.members[k].nick, if Kept(a, b) then a.members[k].status else PLAIN)
  {
    if Kept(a, b) then a.members else Cleared(a.members)
  }

  lemma AfterOurs(a: Chan, b: Chan, m: Member)
    requires Apart(a, b) && m in a.members
    ensures var st := StatusMap(After(a, b).members); m.nick in st && st[m.nick] == if Kept(a, b) then m.status else PLAIN
  {
    AfterIs(a, b);
    hide WalkOrder, StatusMap, Arrived, Heard, After, Apart, Distinct;
    var all, had := After(a, b).members, HadOf(a, b);
    var k :| 0 <= k < |a.members| && a.members[k] == m;
    assert all[|b.members| + k] == had[k];
    Lookup(all, had[k]);
  }

  lemma AfterTheirs(a: Chan, b: Chan, m: Member)
    requires Apart(a, b) && m in b.members
    ensures var st := StatusMap(After(a, b).members); m.nick in st && st[m.nick] == Arrived(m, Kept(b, a))
  {
    AfterIs(a, b);
    var order := WalkOrder(b.members);
    assert m in order;
    var k :| 0 <= k < |order| && order[k] == m;
    ArrivedAt(order, Kept(b, a), HadOf(a, b), k);
    hide *;
    Lookup(After(a, b).members, Member(m.nick, Arrived(m, Kept(b, a))));
  }

  lemma ArrivedAt(order: seq<Member>, theirs: bool, had: seq<Member>, k: nat)
    requires k < |order|
    ensures Member(order[k].nick, Arrived(order[k], theirs)) in ArriveAll(order, theirs) + had
  {
    hide Arrived;
    var all := ArriveAll(order, theirs) + had;
    assert all[|order| - 1 - k] == Member(order[k].nick, Arrived(order[k], theirs));
  }

  lemma AfterNobodyElse(a: Chan, b: Chan, n: string)
    requires Apart(a, b) && n in StatusMap(After(a, b).members)
    ensures (exists m :: m in a.members && m.nick == n) || exists m :: m in b.members && m.nick == n
  {
    AfterIs(a, b);
    hide WalkOrder, StatusMap, Arrived, Heard, After, Apart, Distinct;
    var all, order := After(a, b).members, WalkOrder(b.members);
    KeyIsMember(all, n);
    var x :| x in all && x.nick == n;
    var k :| 0 <= k < |all| && all[k] == x;
    if k < |order| {
      assert order[|order| - 1 - k] in b.members;
    } else {
      assert a.members[k - |order|] in a.members;
    }
  }

  /** What the receiving side a of an exchange ends up with: its own members, and b's. */
  lemma AfterMembers(a: Chan, b: Chan)
    requires Apart(a, b)
    ensures var st := StatusMap(After(a, b).members);
            && (forall n :: n in st <==> (exists m :: m in a.members && m.nick == n) || exists m :: m in b.members && m.nick == n)
            && (forall m | m in a.members :: m.nick in st && st[m.nick] == if Kept(a, b) then m.status else PLAIN)
            && (forall m | m in b.members :: m.nick in st && st[m.nick] == Arrived(m, Kept(b, a)))
            && (forall n :: n in st <==> IsMember(a.members, n) || IsMember(b.members, n))
  {
    hide *;
    var st := StatusMap(After(a, b).members);
    forall m | m in a.members
      ensures m.nick in st && st[m.nick] == if Kept(a, b) then m.status else PLAIN
    {
      AfterOurs(a, b, m);
    }
    forall m | m in b.members
      ensures m.nick in st && st[m.nick] == Arrived(m, Kept(b, a))
    {
      AfterTheirs(a, b, m);
    }
    forall n | n in st
      ensures (exists m :: m in a.members && m.nick == n) || exists m :: m in b.members && m.nick == n
    {
      AfterNobodyElse(a, b, n);
    }
    forall n
      ensures n in st <==> IsMember(a.members, n) || IsMember(b.members, n)
    {
      MemberByNick(a.members, n);
      MemberByNick(b.members, n);
    }
  }

  lemma PlainArrives(m: Member)
    ensures Arrived(m, false) == PLAIN && (Arrived(m, true) == m.status <==> TwoAtMost(m))
  {
  }

  /** On one of a's members the two sides agree, unless it holds all three and keeps them. */
  lemma OneStatus(a: Chan, b: Chan, m: Member)
    requires Apart(a, b) && m in a.members
    ensures var x, y := StatusMap(After(a, b).members), StatusMap(After(b, a).members);
            m.nick in x && m.nick in y && (x[m.nick] == y[m.nick] <==> (Kept(a, b) ==> TwoAtMost(m)))
  {
    ApartBack(a, b);
    AfterMembers(a, b);
    AfterMembers(b, a);
    PlainArrives(m);
    hide StatusMap, Arrived, Heard, Apart, TwoAtMost;
  }

  lemma SameKeys(a: Chan, b: Chan)
    requires Apart(a, b)
    ensures var x := StatusMap(After(a, b).members);
            x.Keys == StatusMap(After(b, a).members).Keys
            && forall n | n in x :: (exists m :: m in a.members && m.nick == n) || exists m :: m in b.members && m.nick == n
  {
    hide *;
    ApartBack(a, b);
    AfterMembers(a, b);
    AfterMembers(b, a);
    var x, y := StatusMap(After(a, b).members), StatusMap(After(b, a).members);
    assert forall n :: n in x.Keys <==> n in y.Keys;
  }

  /** Op, halfop and voice agree exactly when no member holding all three is on a side whose status survives. */
  lemma SameStatus(a: Chan, b: Chan)
    requires Apart(a, b)
    ensures StatusMap(After(a, b).members) == StatusMap(After(b, a).members)
       <==> (Kept(a, b) ==> NoTriple(a)) && (Kept(b, a) ==> NoTriple(b))
  {
    ApartBack(a, b);
    SameKeys(a, b);
    var x, y := StatusMap(After(a, b).members), StatusMap(After(b, a).members);
    hide StatusMap, Heard, Apart, TwoAtMost, Kept;
    if (Kept(a, b) ==> NoTriple(a)) && (Kept(b, a) ==> NoTriple(b)) {
      forall n | n in x
        ensures x[n] == y[n]
      {
        if m :| m in a.members && m.nick == n {
          OneStatus(a, b, m);
        } else {
          var m :| m in b.members && m.nick == n;
          OneStatus(b, a, m);
        }
      }
    } else if Kept(a, b) && !NoTriple(a) {
      var m :| m in a.members && !TwoAtMost(m);
      OneStatus(a, b, m);
    } else {
      var m :| m in b.members && !TwoAtMost(m);
      OneStatus(b, a, m);
    }
  }

  lemma ApartBack(a: Chan, b: Chan)
    requires Apart(a, b)
    ensures Apart(b, a)
  {
    var n := |b.members|;
    forall i, j | 0 <= i < j < |b.members + a.members|
      ensures (b.members + a.members)[i].nick != (b.members + a.members)[j].nick
    {
      var i', j' := if i < n then |a.members| + i else i - n, if j < n then |a.members| + j else j - n;
      assert (a.members + b.members)[i'] == (b.members + a.members)[i];
      assert (a.members + b.members)[j'] == (b.members + a.members)[j];
    }
  }

  /* ---------- mask lists ---------- */

  ghost predicate Covers(big: seq<string>, small: seq<string>) {
    forall m :: HasMask(small, m) ==> HasMask(big, m)
  }

  ghost predicate CoversAll(big: Chan, small: Chan) {
    Covers(big.bans, small.bans) && Covers(big.exempts, small.exempts) && Covers(big.invites, small.invites)
  }

  /** The masks of one list on the receiving side. */
  function ListAfter(a: Chan, b: Chan, mine: seq<string>, other: seq<string>): seq<string> {
    var kept := if Kept(a, b) then mine else [];
    if b.ts != 0 && (a.ts == 0 || b.ts > a.ts) then kept else AddMasks(kept, other)
  }

  lemma ListsAfter(a: Chan, b: Chan)
    requires Healthy(a) && Healthy(b)
    ensures After(a, b).bans == ListAfter(a, b, a.bans, b.bans)
    ensures After(a, b).exempts == ListAfter(a, b, a.exempts, b.exempts)
    ensures After(a, b).invites == ListAfter(a, b, a.invites, b.invites)
  {
  }

  /** A list with another's masks added, in canonical form. */
  ghost predicate Holds(own: seq<string>, other: seq<string>, m: string) {
    HasMask(own, m) || HasMask(Canons(other), m)
  }

  /** Both sides keep their masks and add the other's: they end alike. */
  ghost predicate Swapped(x: seq<string>, y: seq<string>) {
    forall m :: Holds(x, y, m) <==> Holds(y, x, m)
  }

  /** x has all that y has, once y has added x's masks. */
  ghost predicate TakesIn(x: seq<string>, y: seq<string>) {
    forall m :: HasMask(x, m) <==> Holds(y, x, m)
  }

  /** When one list agrees, told from what both sides had before. */
  ghost predicate ListAgrees(a: Chan, b: Chan, x: seq<string>, y: seq<string>) {
    if a.ts == b.ts then Swapped(x, y)
    else if a.ts == 0 then TakesIn(x, y)
    else if b.ts == 0 then TakesIn(y, x)
    else if a.ts < b.ts then AllStable(x)
    else AllStable(y)
  }

  lemma SameList(a: Chan, b: Chan, x: seq<string>, y: seq<string>)
    requires a.ts >= 0 && b.ts >= 0 && AllStored(x) && AllStored(y)
    ensures SameMasks(ListAfter(a, b, x, y), ListAfter(b, a, y, x)) <==> ListAgrees(a, b, x, y)
  {
    hide Canon, Stored, SameName, HasMask, Canons, AllStable, AddMasks;
    forall m
      ensures HasMask(AddMasks(x, y), m) <==> Holds(x, y, m)
      ensures HasMask(AddMasks(y, x), m) <==> Holds(y, x, m)
    {
      AddMasksHas(x, y, m);
      AddMasksHas(y, x, m);
    }
    AddedToNone(x);
    AddedToNone(y);
    assert forall xs, ys :: SameMasks(xs, ys) ==> SameMasks(ys, xs);
  }

  /** When no mask that changes is on both sides, lists that are exchanged agree exactly when no mask changes. */
  lemma SwappedApart(x: seq<string>, y: seq<string>)
    requires AllStored(x) && AllStored(y)
    requires (forall m | m in x && Canon(m) != m :: !HasMask(y, m)) && forall m | m in y && Canon(m) != m :: !HasMask(x, m)
    ensures Swapped(x, y) <==> AllStable(x) && AllStable(y)
  {
    hide Canon, Stored, SameName;
    if AllStable(x) && AllStable(y) {
      CanonsOfStable(x);
      CanonsOfStable(y);
    }
    if Swapped(x, y) {
      SwappedStable(x, y);
      SwappedStable(y, x);
    }
  }

  lemma SwappedStable(x: seq<string>, y: seq<string>)
    requires AllStored(x) && Swapped(x, y) && forall m | m in x && Canon(m) != m :: !HasMask(y, m)
    ensures AllStable(x)
  {
    hide Canon, Stored, SameName;
    forall j | 0 <= j < |x| && Canon(x[j]) != x[j]
      ensures HasMask(Canons(x), x[j])
    {
      SameAsItself(x[j]);
      assert x[j] in x && HasMask(x, x[j]) && Holds(y, x, x[j]);
    }
    forall m | m in x
      ensures Canon(m) == m
    {
      var k :| 0 <= k < |x| && x[k] == m;
      SameSoStable(x, k);
    }
  }

  /** When nothing changes on the way, the lists agree but for what a zero timestamp refuses. */
  lemma StableAgrees(a: Chan, b: Chan, x: seq<string>, y: seq<string>)
    requires AllStable(x) && AllStable(y)
    ensures ListAgrees(a, b, x, y)
       <==> if a.ts == 0 && b.ts != 0 then Covers(x, y) else if b.ts == 0 && a.ts != 0 then Covers(y, x) else true
  {
    CanonsOfStable(x);
    CanonsOfStable(y);
    hide HasMask, Canons, AllStable;
  }

  /**
   Ban, exempt and invite lists agree up to case exactly when each of the three does: both sides keep
   their own masks and add the other's in canonical form, the older channel's masks replace the
   younger's, and a channel stamped zero refuses the lists of one that is not. If all masks are stable,
   a difference remains exactly when something is refused.
   */
  lemma SameListsAfter(a: Chan, b: Chan)
    requires Healthy(a) && Healthy(b)
    ensures SameLists(After(a, b), After(b, a))
       <==> ListAgrees(a, b, a.bans, b.bans) && ListAgrees(a, b, a.exempts, b.exempts) && ListAgrees(a, b, a.invites, b.invites)
    ensures StableLists(a) && StableLists(b) ==>
              (SameLists(After(a, b), After(b, a))
          <==> if a.ts == 0 && b.ts != 0 then CoversAll(a, b) else if b.ts == 0 && a.ts != 0 then CoversAll(b, a) else true)
  {
    hide Canon, Stored;
    ListsAfter(a, b);
    ListsAfter(b, a);
    SameList(a, b, a.bans, b.bans);
    SameList(a, b, a.exempts, b.exempts);
    SameList(a, b, a.invites, b.invites);
    hide ListAfter, Heard, SameMasks, Covers, Healthy, AllStable, ListAgrees;
    if StableLists(a) && StableLists(b) {
      StableAgrees(a, b, a.bans, b.bans);
      StableAgrees(a, b, a.exempts, b.exempts);
      StableAgrees(a, b, a.invites, b.invites);
    }
  }

  /* ---------- every interleaving ---------- */

  /** Two servers and the lines on their way to each. */
  datatype Link = Link(a: Option<Chan>, b: Option<Chan>, toA: seq<Wire>, toB: seq<Wire>)

  ghost predicate AllParsable(wires: seq<Wire>) {
    forall x | x in wires :: Parsable(x)
  }

  /** Either server reads the next line. */
  ghost predicate Reads(l: Link, l': Link, behindA: set<string>, behindB: set<string>, wA: World, wB: World) {
    || (l.toA != [] && Parsable(l.toA[0]) && l' == l.(a := Hear(l.a, l.toA[0], behindA, wA), toA := l.toA[1..]))
    || (l.toB != [] && Parsable(l.toB[0]) && l' == l.(b := Hear(l.b, l.toB[0], behindB, wB), toB := l.toB[1..]))
  }

  lemma HearFirst(c: Option<Chan>, wires: seq<Wire>, behind: set<string>, w: World)
    requires wires != [] && AllParsable(wires)
    ensures AllParsable(wires[1..]) && Parsable(wires[0])
    ensures HearAll(c, wires, behind, w) == HearAll(Hear(c, wires[0], behind, w), wires[1..], behind, w)
  {
    var first := [wires[0]];
    assert wires == first + wires[1..];
    HearAppend(c, first, wires[1..], behind, w);
    assert first[..0] == [];
    assert HearAll(c, first[..0], behind, w) == c;
  }

  /** What remains to be read always leads to the same end. */
  lemma {:induction false} RunsAgree(run: seq<Link>, k: nat, behindA: set<string>, behindB: set<string>, wA: World, wB: World)
    requires k < |run| && AllParsable(run[0].toA) && AllParsable(run[0].toB)
    requires forall i | 0 <= i < |run| - 1 :: Reads(run[i], run[i + 1], behindA, behindB, wA, wB)
    ensures AllParsable(run[k].toA) && AllParsable(run[k].toB)
    ensures HearAll(run[k].a, run[k].toA, behindA, wA) == HearAll(run[0].a, run[0].toA, behindA, wA)
    ensures HearAll(run[k].b, run[k].toB, behindB, wB) == HearAll(run[0].b, run[0].toB, behindB, wB)
  {
    if k > 0 {
      RunsAgree(run, k - 1, behindA, behindB, wA, wB);
      var l := run[k - 1];
      assert Reads(l, run[k], behindA, behindB, wA, wB);
      if l.toA != [] {
        HearFirst(l.a, l.toA, behindA, wA);
      }
      if l.toB != [] {
        HearFirst(l.b, l.toB, behindB, wB);
      }
    }
  }

  /**
   Two servers send each other their bursts. In whatever order the lines are read and however they were
   cut, when all are read each holds After of its own channel and the other's.
   */
  lemma LinkConverges(run: seq<Link>, a: Chan, b: Chan, msgsA: seq<Message>, linesA: seq<Line>, msgsB: seq<Message>,
                      linesB: seq<Line>, behindA: set<string>, behindB: set<string>, wA: World, wB: World)
    requires Apart(a, b) && IsBurst(a, msgsA, linesA) && IsBurst(b, msgsB, linesB) && SmallWorld(wA) && SmallWorld(wB)
    requires (forall m | m in b.members :: m.nick in behindA) && (forall m | m in a.members :: m.nick in behindB)
    requires run != [] && run[0] == Link(Some(a), Some(b), Wires(b, msgsB, linesB), Wires(a, msgsA, linesA))
    requires forall i | 0 <= i < |run| - 1 :: Reads(run[i], run[i + 1], behindA, behindB, wA, wB)
    requires run[|run| - 1].toA == [] && run[|run| - 1].toB == []
    ensures run[|run| - 1].a == Some(After(a, b)) && run[|run| - 1].b == Some(After(b, a))
  {
    ApartBack(a, b);
    BurstHeard(Some(a), b, msgsB, linesB, behindA, wA);
    BurstHeard(Some(b), a, msgsA, linesA, behindB, wB);
    RunsAgree(run, |run| - 1, behindA, behindB, wA, wB);
  }
}
