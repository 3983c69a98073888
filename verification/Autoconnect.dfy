/** The rotation of automatic connections. */
module Autoconnect {
  import opened Links
  import opened Options

  /** A connect block, with the connect frequency of its class. */
  class Entry {
    const name: string
    const port: int
    const freq: int
    var hold: int

    constructor (name: string, port: int, freq: int)
      ensures this.name == name && this.port == port && this.freq == freq && hold == 0
    {
      this.name, this.port, this.freq, hold := name, port, freq, 0;
    }

    predicate Usable() {
      port > 0 && freq != 0
    }
  }

  /** What a pass finds: the entries whose server is linked or whose class is full, and whether any server is. */
  datatype World = World(linked: set<Entry>, full: set<Entry>, anyLinked: bool, hub: bool)

  /** Nothing but the hold time and earlier entries keeps e from being tried. */
  predicate Ready(e: Entry, w: World) {
    e.Usable() && e !in w.linked && e !in w.full
  }

  predicate MayConnect(w: World) {
    !w.anyLinked || w.hub
  }

  /** Position in the list. */
  ghost function Place(s: seq<Entry>, e: Entry): (k: nat)
    ensures k <= |s| && (k < |s| ==> s[k] == e) && e !in s[..k] && (e in s <==> k < |s|)
  {
    if s == [] || s[0] == e then 0
    else
      var k := 1 + Place(s[1..], e);
      assert s[..k] == [s[0]] + s[1..][..k - 1];
      k
  }

  ghost function HoldTimes(s: seq<Entry>): map<Entry, int>
    reads s
  {
    map e | e in s :: e.hold
  }

  /** The first entry that is ready and due at these hold times, or the length of the list. */
  ghost function DueAt(s: seq<Entry>, holds: map<Entry, int>, now: int, w: World): (k: nat)
    requires forall e | e in s :: e in holds
    ensures k <= |s|
    ensures k < |s| ==> Ready(s[k], w) && holds[s[k]] <= now
    ensures forall j | 0 <= j < k :: !(Ready(s[j], w) && holds[s[j]] <= now)
  {
    if s == [] || (Ready(s[0], w) && holds[s[0]] <= now) then 0 else 1 + DueAt(s[1..], holds, now, w)
  }

  /** The same at the hold times the entries have. */
  ghost function FirstDue(s: seq<Entry>, now: int, w: World): (k: nat)
    reads s
    ensures k <= |s|
    ensures k < |s| ==> Ready(s[k], w) && s[k].hold <= now
    ensures forall j | 0 <= j < k :: !(Ready(s[j], w) && s[j].hold <= now)
  {
    DueAt(s, HoldTimes(s), now, w)
  }

  /** A usable entry that is due goes on hold for its class's frequency. */
  function NewHold(e: Entry, hold: int, now: int): int {
    if e.Usable() && hold <= now then now + e.freq else hold
  }

  /** The least hold time of the usable entries among rows of usability and hold time; 0 when there is none. */
  ghost function Least(rows: seq<(bool, int)>): int {
    if rows == [] then 0
    else
      var n, row := Least(rows[..|rows| - 1]), rows[|rows| - 1];
      if row.0 && (n == 0 || n > row.1) then row.1 else n
  }

  lemma {:induction false} LeastFacts(rows: seq<(bool, int)>)
    requires forall j | 0 <= j < |rows| && rows[j].0 :: rows[j].1 > 0
    ensures Least(rows) == 0 <==> forall j | 0 <= j < |rows| :: !rows[j].0
    ensures Least(rows) != 0 ==> exists j :: 0 <= j < |rows| && rows[j] == (true, Least(rows))
    ensures forall j | 0 <= j < |rows| && rows[j].0 :: Least(rows) <= rows[j].1
  {
    if rows != [] {
      var init := rows[..|rows| - 1];
      assert forall j | 0 <= j < |init| :: rows[j] == init[j];
      LeastFacts(init);
    }
  }

  ghost predicate AreRows(rows: seq<(bool, int)>, s: seq<Entry>)
    reads s
  {
    |rows| == |s| && forall j | 0 <= j < |s| :: rows[j] == (s[j].Usable(), s[j].hold)
  }

  lemma LeastOfEntries(rows: seq<(bool, int)>, s: seq<Entry>)
    requires AreRows(rows, s) && forall e | e in s && e.Usable() :: e.hold > 0
    ensures Least(rows) == 0 <==> forall e | e in s :: !e.Usable()
    ensures Least(rows) != 0 ==> exists e | e in s :: e.Usable() && e.hold == Least(rows)
    ensures forall e | e in s && e.Usable() :: Least(rows) <= e.hold
  {
    LeastFacts(rows);
    hide Least;
    if Least(rows) != 0 {
      var j :| 0 <= j < |rows| && rows[j] == (true, Least(rows));
      assert s[j] in s && s[j].Usable() && s[j].hold == Least(rows);
    }
    assert forall j | 0 <= j < |s| :: s[j] in s;
    assert forall e | e in s :: exists j :: 0 <= j < |s| && s[j] == e;
  }

  lemma LeastNext(rows: seq<(bool, int)>, row: (bool, int))
    ensures Least(rows + [row]) == if row.0 && (Least(rows) == 0 || Least(rows) > row.1) then row.1 else Least(rows)
  {
    assert (rows + [row])[..|rows|] == rows;
  }

  lemma WithoutLast<T>(s: seq<T>, x: T)
    requires NoDup(s) && s != [] && s[|s| - 1] == x
    ensures Without(s, x) + [x] == s
  {
    assert x !in s[..|s| - 1];
    WithoutPlace(s, x, |s| - 1);
  }

  lemma PlaceIs(s: seq<Entry>, e: Entry, k: nat)
    requires k < |s| && s[k] == e && e !in s[..k]
    ensures Place(s, e) == k
  {
    var p := Place(s, e);
    assert forall j | 0 <= j < k :: s[j] in s[..k];
    assert forall j | 0 <= j < p :: s[j] in s[..p];
  }

  /** When another entry goes to the end, e keeps its place, or gains one if that entry was ahead. */
  lemma RotationHelps(s: seq<Entry>, x: Entry, e: Entry)
    requires NoDup(s) && e in s && x in s && x != e
    ensures var t := Without(s, x) + [x];
            e in t && Place(t, e) == Place(s, e) - if Place(s, x) < Place(s, e) then 1 else 0
  {
    var i, k := Place(s, x), Place(s, e);
    WithoutPlace(s, x, i);
    var t := s[..i] + s[i + 1..] + [x];
    var at := if i < k then k - 1 else k;
    hide Place, Without;
    assert i != k && t[at] == e;
    forall j | 0 <= j < at
      ensures t[j] != e
    {
      assert t[j] == s[if j < i then j else j + 1];
    }
    PlaceIs(t, e, at);
  }

  /** A pass: the time, and what it finds. */
  datatype Pass = Pass(now: int, world: World)

  ghost predicate Covers(holds: map<Entry, int>, s: seq<Entry>) {
    forall e | e in s :: e in holds
  }

  ghost function TriedAt(s: seq<Entry>, holds: map<Entry, int>, p: Pass): (tried: Option<Entry>)
    requires Covers(holds, s)
    ensures tried.Some? ==> tried.value in s
  {
    var k := DueAt(s, holds, p.now, p.world);
    if k < |s| && MayConnect(p.world) then Some(s[k]) else None
  }

  ghost function ListAfter(s: seq<Entry>, tried: Option<Entry>): seq<Entry> {
    if tried.None? then s else Without(s, tried.value) + [tried.value]
  }

  ghost function HoldsAfter(holds: map<Entry, int>, now: int): map<Entry, int> {
    map e | e in holds :: NewHold(e, holds[e], now)
  }

  lemma ListAfterFacts(s: seq<Entry>, tried: Option<Entry>)
    requires NoDup(s) && (tried.Some? ==> tried.value in s)
    ensures NoDup(ListAfter(s, tried)) && forall e :: e in ListAfter(s, tried) <==> e in s
  {
    if tried.Some? {
      WithoutFacts(s, tried.value);
    }
  }

  /** The entries tried, pass by pass. */
  ghost function Tries(s: seq<Entry>, holds: map<Entry, int>, passes: seq<Pass>): (tries: seq<Option<Entry>>)
    requires NoDup(s) && Covers(holds, s)
    ensures |tries| == |passes|
    decreases |passes|
  {
    if passes == [] then []
    else
      var tried := TriedAt(s, holds, passes[0]);
      ListAfterFacts(s, tried);
      [tried] + Tries(ListAfter(s, tried), HoldsAfter(holds, passes[0].now), passes[1..])
  }

  /** How many passes find e due, if its hold time is this one before the first. */
  ghost function DuePasses(e: Entry, hold: int, passes: seq<Pass>): nat
    decreases |passes|
  {
    if passes == [] then 0
    else (if hold <= passes[0].now then 1 else 0) + DuePasses(e, NewHold(e, hold, passes[0].now), passes[1..])
  }

  ghost predicate Steady(e: Entry, passes: seq<Pass>) {
    forall p | p in passes :: Ready(e, p.world) && MayConnect(p.world)
  }

  /** A pass that does not try e although it is ready keeps e's place, and improves it if e was due. */
  lemma PassedOver(s: seq<Entry>, holds: map<Entry, int>, e: Entry, p: Pass)
    requires NoDup(s) && Covers(holds, s) && e in s && Ready(e, p.world) && MayConnect(p.world)
    ensures var tried := TriedAt(s, holds, p);
            tried == Some(e) || Place(ListAfter(s, tried), e) <= Place(s, e) - if holds[e] <= p.now then 1 else 0
  {
    var k, at, tried := DueAt(s, holds, p.now, p.world), Place(s, e), TriedAt(s, holds, p);
    if tried.Some? && tried != Some(e) {
      PlaceIs(s, s[k], k);
      RotationHelps(s, s[k], e);
    }
  }

  /**
   Nobody starves: an entry that stays ready and is found due more often than there were entries
   ahead of it is tried.
   */
  lemma {:induction false} NobodyStarves(s: seq<Entry>, holds: map<Entry, int>, e: Entry, passes: seq<Pass>)
    requires NoDup(s) && Covers(holds, s) && e in s && Steady(e, passes)
    ensures DuePasses(e, holds[e], passes) > Place(s, e) ==> Some(e) in Tries(s, holds, passes)
    decreases |passes|
  {
    if passes != [] {
      var p, tried := passes[0], TriedAt(s, holds, passes[0]);
      assert p in passes && forall q | q in passes[1..] :: q in passes;
      ListAfterFacts(s, tried);
      PassedOver(s, holds, e, p);
      hide DueAt, TriedAt, ListAfter, Place, NoDup, Ready, MayConnect;
      assert Steady(e, passes[1..]);
      assert Covers(HoldsAfter(holds, p.now), ListAfter(s, tried));
      assert NoDup(ListAfter(s, tried));
      assert e in ListAfter(s, tried);
      NobodyStarves(ListAfter(s, tried), HoldsAfter(holds, p.now), e, passes[1..]);
    }
  }

  lemma SliceNext<T>(s: seq<T>, i: nat)
    requires i < |s|
    ensures s[i..][0] == s[i] && s[i..][1..] == s[i + 1..] && s[..i] + [s[i]] == s[..i + 1]
  {
  }

  class Connects {
    var connects: seq<Entry>

    ghost predicate Valid()
      reads this
    {
      NoDup(connects) && forall e | e in connects :: e.freq >= 0
    }

    constructor (entries: seq<Entry>)
      requires NoDup(entries) && forall e | e in entries :: e.freq >= 0
      ensures Valid() && connects == entries
    {
      connects := entries;
    }

    static ghost function Holds(s: seq<Entry>): (r: seq<int>)
      reads s
      ensures |r| == |s| && forall j | 0 <= j < |s| :: r[j] == s[j].hold
    {
      if s == [] then [] else [s[0].hold] + Holds(s[1..])
    }

    /** The first i entries have been gone through; was holds the hold times before. */
    ghost predicate Done(i: nat, was: seq<int>, rows: seq<(bool, int)>, next: int, now: int)
      reads this, connects
    {
      && |was| == |connects| && |rows| == i <= |connects|
      && (forall j | i <= j < |connects| :: connects[j].hold == was[j])
      && (forall j | 0 <= j < i :: connects[j].hold == NewHold(connects[j], was[j], now))
      && (forall j | 0 <= j < i :: rows[j] == (connects[j].Usable(), connects[j].hold))
      && next == Least(rows) && (next == 0 || next > now)
    }

    /** The loop over all entries: due ones are put on hold again, and the first ready one is picked. */
    method Scan(now: int, w: World) returns (next: int, pick: Option<Entry>, ghost rows: seq<(bool, int)>)
      requires Valid() && now > 0
      modifies connects
      ensures next == Least(rows) && AreRows(rows, connects) && forall j | 0 <= j < |connects| && connects[j].Usable() :: connects[j].hold > now
      ensures forall j | 0 <= j < |connects| :: connects[j].hold == NewHold(connects[j], old(connects[j].hold), now)
      ensures var k := old(FirstDue(connects, now, w)); pick == if k < |connects| then Some(connects[k]) else None
    {
      hide *;
      next, pick, rows := 0, None, [];
      ghost var k, was := FirstDue(connects, now, w), Holds(connects);
      AtFirst(now, w);
      for i := 0 to |connects|
        invariant Valid() && Done(i, was, rows, next, now)
        invariant pick == if k < i then Some(connects[k]) else None
      {
        next, pick, rows := Turn(i, now, w, next, pick, rows, was);
      }
      AllDone(was, rows, next, now);
    }

    lemma AtFirst(now: int, w: World)
      ensures var k, was := FirstDue(connects, now, w), Holds(connects);
              && k <= |connects| && (k < |connects| ==> Ready(connects[k], w) && was[k] <= now)
              && (forall j | 0 <= j < k :: !(was[j] <= now && Ready(connects[j], w)))
              && Done(0, was, [], 0, now)
    {
      hide FirstDue, Ready, Holds;
    }

    /** One turn of the loop. */
    method Turn(i: nat, now: int, w: World, next0: int, pick0: Option<Entry>, ghost rows0: seq<(bool, int)>, ghost was: seq<int>)
      returns (next: int, pick: Option<Entry>, ghost rows: seq<(bool, int)>)
      requires Valid() && now > 0 && i < |connects| && Done(i, was, rows0, next0, now)
      modifies connects`hold
      ensures Valid() && Done(i + 1, was, rows, next, now)
      ensures pick == if was[i] <= now && Ready(connects[i], w) && pick0.None? then Some(connects[i]) else pick0
    {
      hide NoDup, Least;
      var aconn := connects[i];
      var due;
      Apart(i);
      next, due := Consider(aconn, now, next0);
      LeastNext(rows0, (aconn.Usable(), aconn.hold));
      rows := rows0 + [(aconn.Usable(), aconn.hold)];
      pick := Choose(aconn, due, w, pick0);
    }

    lemma AllDone(was: seq<int>, rows: seq<(bool, int)>, next: int, now: int)
      requires Valid() && Done(|connects|, was, rows, next, now)
      ensures next == Least(rows) && AreRows(rows, connects) && |was| == |connects|
      ensures forall j | 0 <= j < |connects| :: connects[j].hold == NewHold(connects[j], was[j], now)
      ensures forall j | 0 <= j < |connects| && connects[j].Usable() :: connects[j].hold > now
    {
      hide Least;
      assert forall j | 0 <= j < |connects| :: connects[j] in connects;
    }

    lemma Apart(i: nat)
      requires Valid() && i < |connects|
      ensures connects[i].freq >= 0 && forall j | 0 <= j < |connects| && j != i :: connects[j] != connects[i]
    {
    }

    /** We connect only one at a time: the first entry that can be. */
    method Choose(aconn: Entry, due: bool, w: World, pick0: Option<Entry>) returns (pick: Option<Entry>)
      requires due ==> aconn.Usable()
      ensures pick == if due && Ready(aconn, w) && pick0.None? then Some(aconn) else pick0
    {
      pick := pick0;
      if due && aconn !in w.linked && aconn !in w.full && pick.None? {
        pick := Some(aconn);
      }
    }

    /** One entry: on hold again if it is due, and its hold time counted in. */
    method Consider(aconn: Entry, now: int, next0: int) returns (next: int, due: bool)
      requires aconn.freq >= 0 && now > 0 && (next0 == 0 || next0 > now)
      modifies aconn`hold
      ensures due <==> aconn.Usable() && old(aconn.hold) <= now
      ensures aconn.hold == NewHold(aconn, old(aconn.hold), now) && (aconn.Usable() ==> aconn.hold > now)
      ensures next == (if aconn.Usable() && (next0 == 0 || next0 > aconn.hold) then aconn.hold else next0)
      ensures next == 0 || next > now
    {
      next, due := next0, false;
      if aconn.port <= 0 || aconn.freq == 0 {
        return;
      }
      if aconn.hold <= now {
        aconn.hold := now + aconn.freq;
        due := true;
      }
      if next > aconn.hold || next == 0 {
        next := aconn.hold;
      }
    }

    /** The loop that unlinks the entry and walks on to the end of the list. */
    method Rotate(e: Entry)
      requires Valid() && e in connects
      modifies this
      ensures Valid() && connects == Without(old(connects), e) + [e]
    {
      hide Without;
      var list := connects;
      WithoutFacts(list, e);
      connects := Unlink(list, e);
      connects := connects + [e];
    }

    /** An entry is found exactly when some entry is due and nothing is in its way. */
    lemma SomeDue(now: int, w: World)
      ensures FirstDue(connects, now, w) < |connects| <==> exists e | e in connects ::
                e.port > 0 && e.freq != 0 && e.hold <= now && e !in w.linked && e !in w.full
    {
      var k := FirstDue(connects, now, w);
      if e :| e in connects && e.port > 0 && e.freq != 0 && e.hold <= now && e !in w.linked && e !in w.full {
        var j :| 0 <= j < |connects| && connects[j] == e;
        assert Ready(connects[j], w) && connects[j].hold <= now;
      }
      if k < |connects| {
        assert connects[k] in connects;
      }
    }

    /** try_connections: when to look again, and which entry is tried, if any; that one goes to the end. */
    method TryConnections(now: int, w: World) returns (next: int, tried: Option<Entry>)
      requires Valid() && now > 0
      modifies this, connects
      ensures Valid()
      ensures next == 0 <==> forall e | e in old(connects) :: !e.Usable()
      ensures next != 0 ==> exists e | e in old(connects) :: e.Usable() && e.hold == next
      ensures forall e | e in old(connects) && e.Usable() :: now < e.hold && next <= e.hold
      ensures forall j | 0 <= j < |old(connects)| :: old(connects)[j].hold == NewHold(old(connects)[j], old(connects[j].hold), now)
      ensures var k := old(FirstDue(connects, now, w)); tried == if k < |old(connects)| && MayConnect(w) then Some(old(connects)[k]) else None
      ensures tried.Some? <==> (w.hub || !w.anyLinked) && exists e | e in old(connects) ::
                e.port > 0 && e.freq != 0 && old(e.hold) <= now && e !in w.linked && e !in w.full
      ensures connects == if tried.None? then old(connects) else Without(old(connects), tried.value) + [tried.value]
    {
      SomeDue(now, w);
      hide FirstDue, Without, NoDup;
      ghost var rows;
      next, tried, rows := Scan(now, w);
      LeastOfEntries(rows, connects);
      hide Least, AreRows;
      if tried.Some? && MayConnect(w) {
        if connects[|connects| - 1] != tried.value {
          Rotate(tried.value);
        } else {
          WithoutLast(connects, tried.value);
        }
      } else {
        tried := None;
      }
    }

    /** Pass after pass, as the main loop makes them. */
    method Passes(passes: seq<Pass>) returns (tries: seq<Option<Entry>>)
      requires Valid() && forall p | p in passes :: p.now > 0
      modifies this, connects
      ensures Valid() && tries == old(Remaining(passes))
      ensures forall e | e in old(connects) && Steady(e, passes) && DuePasses(e, old(e.hold), passes) > old(Place(connects, e)) ::
        Some(e) in tries
    {
      ghost var all := Remaining(passes);
      NobodyLeft(passes);
      assert passes[0..] == passes;
      hide *;
      tries := [];
      for i := 0 to |passes|
        invariant Valid() && forall j | 0 <= j < |connects| :: connects[j] in old(connects)
        invariant Remaining(passes[i..]) == all[i..] && tries == all[..i]
      {
        var tried;
        assert passes[i] in passes;
        tried := OnePass(passes[i], passes[i..]);
        SliceNext(passes, i);
        SliceNext(all, i);
        tries := tries + [tried];
      }
    }

    lemma NobodyLeft(passes: seq<Pass>)
      requires Valid()
      ensures forall e | e in connects && Steady(e, passes) && DuePasses(e, e.hold, passes) > Place(connects, e) ::
        Some(e) in Remaining(passes)
    {
      var list, holds := connects, HoldTimes(connects);
      forall e | e in list && Steady(e, passes) && DuePasses(e, e.hold, passes) > Place(list, e)
        ensures Some(e) in Remaining(passes)
      {
        NobodyStarves(list, holds, e, passes);
      }
    }

    /** What is tried in passes still to come. */
    ghost function Remaining(passes: seq<Pass>): (tries: seq<Option<Entry>>)
      requires Valid()
      reads this, connects
      ensures |tries| == |passes|
    {
      Tries(connects, HoldTimes(connects), passes)
    }

    /** One pass does the first step of a run. */
    method OnePass(p: Pass, ghost passes: seq<Pass>) returns (tried: Option<Entry>)
      requires Valid() && p.now > 0 && passes != [] && passes[0] == p
      modifies this, connects
      ensures Valid() && forall j | 0 <= j < |connects| :: connects[j] in old(connects)
      ensures tried == old(Remaining(passes))[0] && Remaining(passes[1..]) == old(Remaining(passes))[1..]
    {
      ghost var list, holds := connects, HoldTimes(connects);
      hide Place, Without, Ready, MayConnect, NoDup, DueAt;
      var next;
      next, tried := TryConnections(p.now, p.world);
      ListAfterFacts(list, tried);
      assert Covers(holds, list);
      assert connects == ListAfter(list, tried);
      assert HoldTimes(connects) == HoldsAfter(holds, p.now);
    }
  }
}
