/**
 A tree of servers that all hold the same channel: one burst, pushed in at the root, with every
 link a FIFO queue and the servers handling their messages in any order whatever.
 */
module Network {
  import opened Text
  import opened Merge
  import opened Options
  import opened Sjoin
  import opened Relay

  /** Server i hears from server parent[i], server 0 from the link the burst comes in on. */
  datatype Net = Net(parent: seq<nat>, behind: seq<set<string>>, clock: seq<int>,
                     chan: seq<Option<Chan>>, queue: seq<seq<Message>>)

  ghost predicate Shape(net: Net) {
    && |net.parent| == |net.behind| == |net.clock| == |net.chan| == |net.queue| > 0
    && forall i | 0 < i < |net.parent| :: net.parent[i] < i && net.behind[net.parent[i]] <= net.behind[i]
  }

  /** A server takes the oldest message of its queue; what m_sjoin passes on goes to all its children. */
  function Handle(net: Net, i: nat): Net
    requires Shape(net) && i < |net.chan| && net.queue[i] != [] && net.queue[i][0].args != []
  {
    var r := Step(net.chan[i], net.queue[i][0], net.behind[i], net.clock[i]);
    net.(chan := net.chan[i := r.chan],
         queue := seq(|net.queue|, j requires 0 <= j < |net.queue| =>
                    if j == i then net.queue[i][1..]
                    else if j > 0 && net.parent[j] == i && r.relay.Some? then net.queue[j] + [r.relay.value]
                    else net.queue[j]))
  }

  /** The channel after a queue of messages. */
  function Drain(c: Option<Chan>, q: seq<Message>, behind: set<string>): Option<Chan>
    requires forall m | m in q :: m.args != []
    decreases |q|
  {
    if q == [] then c else Drain(Step(c, q[0], behind, 0).chan, q[1..], behind)
  }

  /** A well-formed message that names at least one client behind the link. */
  ghost predicate Carries(msg: Message, behind: set<string>) {
    GoodMessage(msg) && SomeAccepted(Listed(msg), behind)
  }

  /** What every server still has to hear takes it to the state its parent is in; the root, to the goal. */
  ghost predicate Inv(net: Net, goal: Option<Chan>) {
    && Shape(net)
    && (forall i | 0 <= i < |net.chan| :: ValidNicks(net.behind[i]) && GoodState(net.chan[i]))
    && (forall i | 0 <= i < |net.queue| :: forall m | m in net.queue[i] :: Carries(m, net.behind[i]))
    && Drain(net.chan[0], net.queue[0], net.behind[0]) == goal
    && forall i | 0 < i < |net.chan| ::
         Drain(net.chan[i], net.queue[i], net.behind[i]) == net.chan[net.parent[i]]
  }

  lemma {:induction false} DrainSnoc(c: Option<Chan>, q: seq<Message>, m: Message, behind: set<string>)
    requires forall x | x in q + [m] :: x.args != []
    ensures Drain(c, q + [m], behind) == Step(Drain(c, q, behind), m, behind, 0).chan
    decreases |q|
  {
    if q == [] {
      assert q + [m] == [m];
    } else {
      assert (q + [m])[1..] == q[1..] + [m];
      DrainSnoc(Step(c, q[0], behind, 0).chan, q[1..], m, behind);
    }
  }

  /** The clock matters only to a message that breaks off. */
  lemma ClockFree(c: Option<Chan>, msg: Message, behind: set<string>, now: int, later: int)
    requires GoodMessage(msg)
    ensures Step(c, msg, behind, now) == Step(c, msg, behind, later)
  {
  }

  lemma HandleKeeps(net: Net, goal: Option<Chan>, i: nat)
    requires Inv(net, goal) && i < |net.chan| && net.queue[i] != []
    ensures Carries(net.queue[i][0], net.behind[i]) && Inv(Handle(net, i), goal)
  {
    hide Step, SomeAccepted, ReadModes, GoodMode, ValidNicks, Listed;
    var msg, b := net.queue[i][0], net.behind[i];
    assert Carries(msg, b);
    var after := Handle(net, i);
    ClockFree(net.chan[i], msg, b, net.clock[i], 0);
    StepGood(net.chan[i], msg, b, net.clock[i]);
    forall j | 0 < j < |net.chan|
      ensures forall m | m in after.queue[j] :: Carries(m, after.behind[j])
      ensures Drain(after.chan[j], after.queue[j], after.behind[j]) == after.chan[after.parent[j]]
    {
      if net.parent[j] == i {
        ChildKeeps(net, goal, i, j);
      } else if j == i {
        HandlerKeeps(net, goal, i);
      }
    }
  }

  /** The server that handled the message has the rest still to hear. */
  lemma HandlerKeeps(net: Net, goal: Option<Chan>, i: nat)
    requires Inv(net, goal) && i < |net.chan| && net.queue[i] != []
    ensures Carries(net.queue[i][0], net.behind[i])
    ensures var c := Step(net.chan[i], net.queue[i][0], net.behind[i], net.clock[i]).chan;
            (forall m | m in net.queue[i][1..] :: Carries(m, net.behind[i]))
            && Drain(c, net.queue[i][1..], net.behind[i]) == Drain(net.chan[i], net.queue[i], net.behind[i])
  {
    hide Step, SomeAccepted, ReadModes, GoodMode, ValidNicks, Listed, GoodState;
    assert Carries(net.queue[i][0], net.behind[i]);
    ClockFree(net.chan[i], net.queue[i][0], net.behind[i], net.clock[i], 0);
  }

  /** A child has what was passed on to it added to what it has to hear. */
  lemma ChildKeeps(net: Net, goal: Option<Chan>, i: nat, j: nat)
    requires Inv(net, goal) && i < |net.chan| && net.queue[i] != []
    requires 0 < j < |net.chan| && net.parent[j] == i
    ensures Carries(net.queue[i][0], net.behind[i])
    ensures var r := Step(net.chan[i], net.queue[i][0], net.behind[i], net.clock[i]);
            && r.relay.Some? && Carries(r.relay.value, net.behind[j])
            && (forall m | m in net.queue[j] + [r.relay.value] :: m.args != [])
            && Drain(net.chan[j], net.queue[j] + [r.relay.value], net.behind[j]) == r.chan
  {
    hide Step, SomeAccepted, ReadModes, GoodMode, ValidNicks, Listed, GoodState;
    var msg, b := net.queue[i][0], net.behind[i];
    assert Carries(msg, b);
    assert forall m | m in net.queue[j] :: Carries(m, net.behind[j]);
    var r := Step(net.chan[i], msg, b, net.clock[i]);
    RelayFidelity(net.chan[i], msg, b, net.behind[j], net.clock[i], 0);
    DrainSnoc(net.chan[j], net.queue[j], r.relay.value, net.behind[j]);
  }

  ghost predicate CanHandle(net: Net, i: nat) {
    Shape(net) && i < |net.chan| && net.queue[i] != [] && net.queue[i][0].args != []
  }

  ghost predicate Moves(a: Net, b: Net) {
    exists i: nat :: CanHandle(a, i) && b == Handle(a, i)
  }

  /** A run: some server with something to read reads it, again and again. */
  ghost predicate IsRun(nets: seq<Net>) {
    nets != [] && forall k | 0 <= k < |nets| - 1 :: Moves(nets[k], nets[k + 1])
  }

  lemma {:induction false} RunKeeps(nets: seq<Net>, goal: Option<Chan>, k: nat)
    requires IsRun(nets) && Inv(nets[0], goal) && k < |nets|
    ensures Inv(nets[k], goal)
  {
    if k > 0 {
      RunKeeps(nets, goal, k - 1);
      assert Moves(nets[k - 1], nets[k]);
      var i: nat :| CanHandle(nets[k - 1], i) && nets[k] == Handle(nets[k - 1], i);
      HandleKeeps(nets[k - 1], goal, i);
    }
  }

  /** With nothing left to read, every server is where the root is. */
  lemma {:induction false} QuietAgrees(net: Net, goal: Option<Chan>, i: nat)
    requires Inv(net, goal) && i < |net.chan| && forall j | 0 <= j < |net.queue| :: net.queue[j] == []
    ensures net.chan[i] == goal
    decreases i
  {
    if i > 0 {
      QuietAgrees(net, goal, net.parent[i]);
    }
  }

  /** Before anything is read: all servers agree and only the root has something to read. */
  ghost predicate Start(net: Net, c: Option<Chan>, burst: seq<Message>) {
    && Shape(net) && GoodState(c)
    && (forall i | 0 <= i < |net.chan| :: ValidNicks(net.behind[i]) && net.chan[i] == c)
    && net.queue[0] == burst && (forall m | m in burst :: Carries(m, net.behind[0]))
    && forall i | 0 < i < |net.queue| :: net.queue[i] == []
  }

  /**
   However the servers of a tree take turns, once every queue is empty they all hold the channel that
   the burst makes of the old one at the root.
   */
  lemma TreeAgrees(nets: seq<Net>, c: Option<Chan>, burst: seq<Message>, i: nat)
    requires IsRun(nets) && Start(nets[0], c, burst)
    requires var last := nets[|nets| - 1]; i < |last.chan| && forall j | 0 <= j < |last.queue| :: last.queue[j] == []
    ensures nets[|nets| - 1].chan[i] == Drain(c, burst, nets[0].behind[0])
  {
    var goal := Drain(c, burst, nets[0].behind[0]);
    assert Inv(nets[0], goal);
    RunKeeps(nets, goal, |nets| - 1);
    QuietAgrees(nets[|nets| - 1], goal, i);
  }

  /* ---------- the line nobody hears about ---------- */

  /** The message is not older than the channel and brings no mode the channel lacks. */
  ghost predicate BringsNothing(c: Option<Chan>, msg: Message)
    requires GoodMessage(msg)
  {
    c.Some? ==>
      if msg.ts != 0 && c.value.ts != 0 then
        msg.ts > c.value.ts || (msg.ts == c.value.ts && Below(ReadModes(msg).mode, c.value.mode))
      else c.value.ts == 0 && Below(ReadModes(msg).mode, c.value.mode)
  }

  /** The next server after it has read what was passed on, if anything was. */
  function NextServer(c: Option<Chan>, relay: Option<Message>, below: set<string>, now: int): Option<Chan>
    requires relay.Some? ==> relay.value.args != []
  {
    if relay.Some? then Step(c, relay.value, below, now).chan else c
  }

  /**
   Without an accepted nick nothing is passed on, although modes, lists and timestamp may have
   changed: the next server agrees exactly when a nick was accepted or the message brought nothing.
   */
  lemma UnheardMessage(c: Option<Chan>, msg: Message, behind: set<string>, below: set<string>, now: int)
    requires GoodState(c) && GoodMessage(msg) && ValidNicks(below) && behind <= below
    ensures var here := Step(c, msg, behind, now);
            && (here.relay.Some? ==> here.relay.value.args != [])
            && (NextServer(c, here.relay, below, now) == here.chan
                <==> SomeAccepted(Listed(msg), behind) || BringsNothing(c, msg))
  {
    RelayFidelity(c, msg, behind, below, now, now);
    if c.Some? && !SomeAccepted(Listed(msg), behind) {
      var ours, theirs := c.value.mode, ReadModes(msg).mode;
      var v := Judge(false, c.value.ts, msg.ts);
      AcceptedShape(Listed(msg), behind, v.theirs);
      NoneAccepted(Settled(c.value, v, theirs).members, Listed(msg), behind, v.theirs);
      MergeIsJoin(ours, theirs, ours);
      BelowOrder(ours, MergeModes(ours, theirs), ours);
      BelowOrder(MergeModes(ours, theirs), ours, ours);
    }
  }
}
