/** What a server tells a new link: its servers, then its users and channels. */
module LinkBurst {
  import opened Links

  datatype Kind = Me | Peer | Person | Other

  /** A client of the list; link is the connection it is behind, and up the server it is on. */
  class Client {
    const link: nat
    var kind: Kind
    var up: Client?
    var nicksent: nat

    constructor (kind: Kind, link: nat, up: Client?)
      ensures this.kind == kind && this.link == link && this.up == up && nicksent == 0
    {
      this.link, this.kind, this.up, nicksent := link, kind, up, 0;
    }
  }

  datatype Channel = Channel(name: string, members: seq<Client>)

  /** send_channel_modes keeps other channels to this server. */
  predicate Shared(ch: Channel) {
    ch.name != "" && ch.name[0] == '#'
  }

  function SharedOnes(channels: seq<Channel>): seq<Channel> {
    if channels == [] then []
    else SharedOnes(channels[..|channels| - 1]) + if Shared(channels[|channels| - 1]) then [channels[|channels| - 1]] else []
  }

  /** Exactly the channels whose name starts with '#' are shared. */
  lemma {:induction false} SharedAre(channels: seq<Channel>)
    ensures forall ch :: ch in SharedOnes(channels) <==> (ch in channels && ch.name != "" && ch.name[0] == '#')
  {
    if channels != [] {
      var init := channels[..|channels| - 1];
      SharedAre(init);
      assert channels == init + [channels[|channels| - 1]];
    }
  }

  /** The lines that introduce something; servers and nicks are introduced with the server they are on. */
  datatype Line = Server(up: Client?, server: Client) | Nick(up: Client?, who: Client) | Sjoin(channel: Channel)

  function Introduced(out: seq<Line>): seq<Client> {
    if out == [] then []
    else Introduced(out[..|out| - 1]) + match out[|out| - 1] case Nick(_, c) => [c] case _ => []
  }

  function Servers(out: seq<Line>): seq<Client> {
    if out == [] then []
    else Servers(out[..|out| - 1]) + match out[|out| - 1] case Server(_, s) => [s] case _ => []
  }

  function Channels(out: seq<Line>): seq<Channel> {
    if out == [] then []
    else Channels(out[..|out| - 1]) + match out[|out| - 1] case Sjoin(ch) => [ch] case _ => []
  }

  /** Every line names only what the receiver knows by then: this server, what is behind the link, and what was introduced. */
  predicate InOrder(out: seq<Line>, me: Client, link: nat) {
    out == [] || (
      var init := out[..|out| - 1];
      InOrder(init, me, link) &&
      match out[|out| - 1]
      case Server(up, s) => up == me || (up != null && up in Servers(init))
      case Nick(up, _) => up == me || (up != null && up in Servers(init))
      case Sjoin(ch) => forall c | c in ch.members :: c.link == link || c in Introduced(init)
    )
  }

  lemma Snoc(out: seq<Line>, l: Line, me: Client, link: nat)
    ensures Introduced(out + [l]) == match l case Nick(_, c) => Introduced(out) + [c] case _ => Introduced(out)
    ensures Servers(out + [l]) == match l case Server(_, s) => Servers(out) + [s] case _ => Servers(out)
    ensures Channels(out + [l]) == match l case Sjoin(ch) => Channels(out) + [ch] case _ => Channels(out)
    ensures InOrder(out + [l], me, link) <==> InOrder(out, me, link) && match l
            case Server(up, s) => up == me || (up != null && up in Servers(out))
            case Nick(up, _) => up == me || (up != null && up in Servers(out))
            case Sjoin(ch) => forall c | c in ch.members :: c.link == link || c in Introduced(out)
  {
    assert (out + [l])[..|out|] == out;
  }

  class Network {
    const me: Client
    /** From the oldest client, me, to the newest: the client list walked by its prev pointers. */
    var list: seq<Client>
    var channels: seq<Channel>
    /** The static flag of do_server_estab. */
    var nickissent: nat

    ghost predicate Placed(i: nat)
      requires i < |list|
      reads `list, list`kind, list`up
    {
      var c := list[i];
      c.kind.Peer? || c.kind.Person? ==>
        c.up != null && c.up in list[..i] && (c.up == me || (c.up.kind.Peer? && c.up.link == c.link))
    }

    /** The mark a client carries is not the one the next burst will use. */
    ghost predicate Unmarked()
      reads this, list
    {
      && (nickissent == 1 || nickissent == 2)
      && forall c | c in list :: c.nicksent == 0 || c.nicksent == nickissent
    }

    ghost predicate Shape()
      reads this, list`kind, list`up
    {
      && NoDup(list) && list != [] && list[0] == me && me.kind.Me?
      && (forall c | c in list && c.kind.Me? :: c == me)
      && (forall i | 0 <= i < |list| :: Placed(i))
      && (forall ch | ch in channels :: forall c | c in ch.members :: c in list && c.kind.Person?)
    }

    ghost predicate Valid()
      reads this, list
    {
      Shape() && Unmarked()
    }

    constructor ()
      ensures Valid() && list == [me] && channels == []
    {
      var m := new Client(Me, 0, null);
      me := m;
      list := [m];
      channels := [];
      nickissent := 1;
    }

    /**
     make_client and add_client_to_list: on top of the list, behind a link; the server that a server or
     a person is on is known, and behind that link too.
     */
    method Arrive(kind: Kind, link: nat, up: Client?) returns (c: Client)
      requires Valid() && !kind.Me?
      requires kind.Peer? || kind.Person? ==> up != null && up in list && (up == me || (up.kind.Peer? && up.link == link))
      modifies `list
      ensures Valid() && fresh(c) && list == old(list) + [c] && channels == old(channels)
    {
      c := new Client(kind, link, up);
      list := list + [c];
      forall i | 0 <= i < |old(list)|
        ensures Placed(i)
      {
        assert old(Placed(i)) && list[..i] == old(list)[..i];
      }
      assert list[..|old(list)|] == old(list);
    }

    /** A connection to this server registers, as a person or as a server. */
    method Register(c: Client, kind: Kind)
      requires Valid() && c in list && c.kind.Other? && (kind.Peer? || kind.Person?)
      modifies c`kind, c`up
      ensures Valid() && c.kind == kind && c.up == me
    {
      assert c != me && list[0] == me;
      c.kind, c.up := kind, me;
      forall i | 0 <= i < |list|
        ensures Placed(i)
      {
        assert old(Placed(i));
        if list[i] == c {
          assert list[..i][0] == me;
        } else if list[i].kind.Peer? || list[i].kind.Person? {
          assert list[i].up != c;
        }
      }
    }

    /** remove_client_from_list: a client goes that is in no channel, and that nobody is on. */
    method Depart(c: Client)
      requires Valid() && c in list && c != me && (forall d | d in list :: d.up != c)
      requires forall ch | ch in channels :: c !in ch.members
      modifies `list
      ensures Valid() && list == Without(old(list), c) && channels == old(channels)
    {
      var was := list;
      list := Unlink(list, c);
      WithoutFacts(was, c);
      var k :| 0 <= k < |was| && was[k] == c;
      WithoutPlace(was, c, k);
      forall i | 0 <= i < |list|
        ensures Placed(i)
      {
        var j := if i < k then i else i + 1;
        assert old(Placed(j));
        assert list[i] == was[j];
        forall d | d in was[..j] && d != c
          ensures d in list[..i]
        {
          var l :| 0 <= l < j && was[l] == d;
          assert list[if l < k then l else l - 1] == d;
        }
      }
    }

    /** Joins and parts: the channels list persons of the client list. */
    method Rearrange(now: seq<Channel>)
      requires Valid() && forall ch | ch in now :: forall c | c in ch.members :: c in list && c.kind.Person?
      modifies `channels
      ensures Valid() && channels == now && list == old(list)
    {
      channels := now;
    }

    lemma OnlyOnce(i: nat)
      requires Shape() && i < |list|
      ensures list[i] !in list[..i]
    {
    }

    /** The servers, from the oldest on: each after its uplink. */
    method SendServers(link: nat) returns (out: seq<Line>)
      requires Valid() && link != 0
      ensures InOrder(out, me, link) && Introduced(out) == [] && Channels(out) == []
      ensures NoDup(Servers(out)) && forall c | c in Servers(out) :: c in list && c.kind.Peer? && c.link != link
      ensures forall c | c in list && c.kind.Peer? && c.link != link :: c in Servers(out)
    {
      hide NoDup, InOrder, Servers, Introduced, Channels;
      out := [];
      NoLines(me, link);
      for i := 0 to |list|
        invariant InOrder(out, me, link) && Introduced(out) == [] && Channels(out) == []
        invariant NoDup(Servers(out))
        invariant forall c | c in Servers(out) :: c in list[..i] && c.kind.Peer? && c.link != link
        invariant forall c | c in list[..i] && c.kind.Peer? && c.link != link :: c in Servers(out)
      {
        var acptr := list[i];
        assert Placed(i);
        OnlyOnce(i);
        assert list[..i + 1] == list[..i] + [acptr];
        if acptr.link != link && acptr.kind.Peer? {
          Snoc(out, Server(acptr.up, acptr), me, link);
          NoDupFront(Servers(out), acptr);
          out := out + [Server(acptr.up, acptr)];
        }
      }
      assert list[..|list|] == list;
    }

    /** Those who carry the mark of this burst have been dealt with: persons not behind the link were introduced, once. */
    ghost predicate SoFar(out: seq<Line>, link: nat)
      reads this, list
    {
      && (forall c | c in list && c.kind.Peer? && c.link != link :: c in Servers(out))
      && InOrder(out, me, link) && NoDup(Introduced(out))
      && (forall c | c in Introduced(out) :: c in list && c.nicksent == nickissent && c.kind.Person? && c.link != link)
      && (forall c | c in list && c.nicksent == nickissent && c.kind.Person? && c.link != link :: c in Introduced(out))
    }

    /** The test, the mark and the nick line, in both walks. */
    method Visit(acptr: Client, link: nat, out0: seq<Line>) returns (out: seq<Line>)
      requires Shape() && acptr in list && SoFar(out0, link)
      modifies acptr`nicksent
      ensures Shape() && SoFar(out, link) && acptr.nicksent == nickissent
      ensures Servers(out) == Servers(out0) && Channels(out) == Channels(out0)
    {
      hide NoDup, InOrder, Introduced, Servers, Channels;
      out := out0;
      if acptr.nicksent != nickissent {
        if acptr.kind.Person? && acptr.link != link {
          OnKnown(acptr, link, out0);
        }
        acptr.nicksent := nickissent;
        if acptr.link != link && acptr.kind.Person? {
          Snoc(out, Nick(acptr.up, acptr), me, link);
          NoDupFront(Introduced(out0), acptr);
          out := out + [Nick(acptr.up, acptr)];
        }
      }
    }

    /** The server a person is on has been introduced, unless it is this one. */
    lemma OnKnown(c: Client, link: nat, out: seq<Line>)
      requires Shape() && c in list && c.kind.Person? && c.link != link && SoFar(out, link)
      ensures c.up == me || (c.up != null && c.up in Servers(out))
    {
      var i :| 0 <= i < |list| && list[i] == c;
      assert Placed(i);
    }

    /** The members of a channel, those not sent yet first as nicks, and then the channel itself unless it is local. */
    method SendChannel(ch: Channel, link: nat, out0: seq<Line>) returns (out: seq<Line>)
      requires Shape() && ch in channels && SoFar(out0, link)
      modifies list`nicksent
      ensures Shape() && SoFar(out, link) && Servers(out) == Servers(out0)
      ensures Channels(out) == Channels(out0) + if Shared(ch) then [ch] else []
      ensures forall c | c in list && old(c.nicksent) == nickissent :: c.nicksent == nickissent
    {
      hide NoDup, InOrder, Introduced, Servers, Channels;
      out := out0;
      for i := 0 to |ch.members|
        invariant SoFar(out, link) && Servers(out) == Servers(out0) && Channels(out) == Channels(out0)
        invariant forall j | 0 <= j < i :: ch.members[j].nicksent == nickissent
        invariant forall c | c in list && old(c.nicksent) == nickissent :: c.nicksent == nickissent
      {
        assert ch.members[i] in ch.members;
        out := Visit(ch.members[i], link, out);
      }
      assert forall c | c in ch.members :: c in list && c.kind.Person? && c.nicksent == nickissent;
      if Shared(ch) {
        Snoc(out, Sjoin(ch), me, link);
        assert forall c | c in ch.members && c.link != link :: c in Introduced(out);
        out := out + [Sjoin(ch)];
      }
    }

    /**
     The burst of do_server_estab: every person not behind the link is introduced exactly once, every
     such server too, each after its uplink and before the persons on it, and each channel that is
     shared once, after its members; and the marks are ready for the next burst.
     */
    method Burst(link: nat) returns (out: seq<Line>)
      requires Valid() && link != 0
      modifies this`nickissent, list`nicksent
      ensures Valid() && InOrder(out, me, link)
      ensures NoDup(Introduced(out)) && forall c | c in Introduced(out) :: c in list && c.kind.Person? && c.link != link
      ensures forall c | c in list && c.kind.Person? && c.link != link :: c in Introduced(out)
      ensures NoDup(Servers(out)) && forall c | c in Servers(out) :: c in list && c.kind.Peer? && c.link != link
      ensures forall c | c in list && c.kind.Peer? && c.link != link :: c in Servers(out)
      ensures Channels(out) == SharedOnes(channels)
      ensures forall ch :: ch in Channels(out) <==> (ch in channels && ch.name != "" && ch.name[0] == '#')
    {
      hide NoDup, InOrder, Introduced, Servers, Channels, SharedOnes;
      out := SendServers(link);
      nickissent := 3 - nickissent;
      NoLines(me, link);
      hide SharedOnes;
      out := SendChannels(link, out);
      out := SendRest(link, out);
      assert forall c | c in list :: c.nicksent == nickissent;
      SharedAre(channels);
    }

    /** The walk over the channels. */
    method SendChannels(link: nat, out0: seq<Line>) returns (out: seq<Line>)
      requires Shape() && SoFar(out0, link) && Channels(out0) == []
      modifies list`nicksent
      ensures Shape() && SoFar(out, link) && Servers(out) == Servers(out0) && Channels(out) == SharedOnes(channels)
    {
      hide SoFar, Shape, Servers, Channels, Shared;
      out := out0;
      for i := 0 to |channels|
        invariant Shape() && SoFar(out, link) && Servers(out) == Servers(out0) && Channels(out) == SharedOnes(channels[..i])
      {
        assert channels[..i + 1][..i] == channels[..i];
        out := SendChannel(channels[i], link, out);
      }
      assert channels[..|channels|] == channels;
    }

    /** The walk over all clients, for those on no channel. */
    method SendRest(link: nat, out0: seq<Line>) returns (out: seq<Line>)
      requires Shape() && SoFar(out0, link)
      modifies list`nicksent
      ensures Shape() && SoFar(out, link) && Servers(out) == Servers(out0) && Channels(out) == Channels(out0)
      ensures forall j | 0 <= j < |list| :: list[j].nicksent == nickissent
    {
      hide SoFar, Shape, Servers, Channels;
      out := out0;
      for i := 0 to |list|
        invariant Shape() && SoFar(out, link) && Servers(out) == Servers(out0) && Channels(out) == Channels(out0)
        invariant forall j | 0 <= j < i :: list[j].nicksent == nickissent
      {
        out := Visit(list[i], link, out);
      }
    }
  }

  lemma NoLines(me: Client, link: nat)
    ensures InOrder([], me, link) && Introduced([]) == [] && Servers([]) == [] && Channels([]) == [] && NoDup<Client>([])
  {
  }
}
