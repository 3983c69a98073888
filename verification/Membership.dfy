/** Who is in which channel, and who is invited: kept twice, with counters, a list and a hash table. */
module Membership {
  import opened Text
  import opened Hash
  import opened Links
  import opened Merge
  import Sjoin

  const DEFAULT_JOIN_NUM := 8
  const DEFAULT_JOIN_TIME := 4

  /** A link of the member chain. */
  datatype Seat = Seat(user: User, chanop: bool)

  class User {
    var channel: seq<Chan>
    var joined: int
    var invited: seq<Chan>

    constructor ()
      ensures channel == [] && joined == 0 && invited == []
    {
      channel, joined, invited := [], 0, [];
    }
  }

  class Chan {
    const name: string
    var members: seq<Seat>
    var users: int
    var invites: seq<User>
    var mode: Mode
    var joinStart: int
    var joinCount: int

    /** make_channel: all zero, but for the name. */
    constructor (name: string)
      ensures this.name == name && members == [] && users == 0 && invites == []
      ensures mode == NO_MODE && joinStart == 0 && joinCount == 0
    {
      this.name := name;
      members, users, invites, mode, joinStart, joinCount := [], 0, [], NO_MODE, 0, 0;
    }
  }

  function Sitting(members: seq<Seat>): (r: seq<User>)
    ensures |r| == |members| && forall i | 0 <= i < |r| :: r[i] == members[i].user
  {
    seq(|members|, i requires 0 <= i < |members| => members[i].user)
  }

  datatype Entry = Entry(list: seq<Chan>, links: int)

  class Server {
    const maxChannels: nat
    /** The list of channels, the newest first; the hash table; Count.chan. */
    var channel: seq<Chan>
    const table: array<Entry>
    var count: int
    ghost var clients: set<User>
    /** Who is in which channel, and who is invited to which. */
    ghost var member: set<(Chan, User)>
    ghost var asked: set<(Chan, User)>

    /** The channel's lists hold exactly what the relations say, each once. */
    ghost predicate ChanAgrees(c: Chan)
      reads `member, `asked, c`members, c`invites
    {
      && NoDup(Sitting(c.members)) && NoDup(c.invites)
      && (forall u | u in Sitting(c.members) :: (c, u) in member)
      && (forall p | p in member && p.0 == c :: p.1 in Sitting(c.members))
      && (forall u | u in c.invites :: (c, u) in asked)
      && (forall p | p in asked && p.0 == c :: p.1 in c.invites)
    }

    /** So do the user's. */
    ghost predicate UserAgrees(u: User)
      reads `member, `asked, u
    {
      && NoDup(u.channel) && NoDup(u.invited)
      && u.joined == |u.channel| && |u.invited| <= maxChannels
      && (forall c | c in u.channel :: (c, u) in member)
      && (forall p | p in member && p.1 == u :: p.0 in u.channel)
      && (forall c | c in u.invited :: (c, u) in asked)
      && (forall p | p in asked && p.1 == u :: p.0 in u.invited)
    }

    /** The list, the hash table and the count name the same channels, and no name twice. */
    ghost predicate TablesAgree()
      reads `channel, `count, table
    {
      && NoDup(channel) && count == |channel| && table.Length == CH_MAX
      && (forall b | 0 <= b < CH_MAX :: NoDup(table[b].list) && table[b].links == |table[b].list|)
      && (forall b | 0 <= b < CH_MAX :: forall c | c in table[b].list :: c in channel && ChannelBucket(c.name) == b)
      && (forall c | c in channel :: c in table[ChannelBucket(c.name)].list)
      && (forall c, d | c in channel && d in channel && SameName(c.name, d.name) :: c == d)
    }

    /** Everything but the user counts of the channels. */
    ghost predicate Shape()
      reads this, table, channel, clients
    {
      && maxChannels > 0 && TablesAgree()
      && (forall c | c in channel :: ChanAgrees(c))
      && (forall u | u in clients :: UserAgrees(u))
      && (forall p | p in member + asked :: p.0 in channel && p.1 in clients)
    }

    ghost predicate Counted(c: Chan)
      reads c`members, c`users
    {
      c.users == |c.members|
    }

    ghost predicate Valid()
      reads this, table, channel, clients
    {
      Shape() && forall c | c in channel :: Counted(c)
    }

    /** No channel without members. */
    ghost predicate NoneEmpty()
      reads this, channel
    {
      forall c | c in channel :: c.members != []
    }

    constructor (maxChannels: nat, clients: set<User>)
      requires maxChannels > 0
      requires forall u | u in clients :: u.channel == [] && u.joined == 0 && u.invited == []
      ensures Valid() && NoneEmpty() && fresh(table) && channel == [] && this.clients == clients
    {
      this.maxChannels := maxChannels;
      channel, count, this.clients, member, asked := [], 0, clients, {}, {};
      table := new Entry[CH_MAX](_ => Entry([], 0));
    }

    /** The two sides of a membership name each other, exactly once each. */
    lemma Symmetric(c: Chan, u: User)
      requires Valid() && c in channel && u in clients
      ensures u in Sitting(c.members) <==> c in u.channel
      ensures u in c.invites <==> c in u.invited
      ensures multiset(Sitting(c.members))[u] <= 1 && multiset(u.channel)[c] <= 1
      ensures c.users == |c.members| && u.joined == |u.channel| && |u.invited| <= maxChannels
    {
      assert ChanAgrees(c) && UserAgrees(u) && Counted(c);
      OnceEach(Sitting(c.members), u);
      OnceEach(u.channel, c);
    }

    lemma InBucket(c: Chan, name: string)
      requires TablesAgree() && c in channel && SameName(name, c.name)
      ensures ChannelBucket(name) < CH_MAX && c in table[ChannelBucket(name)].list
    {
      SameNameSameBucket(name, c.name);
    }

    /** hash_find_channel */
    method FindChannel(name: string) returns (r: Chan?)
      requires TablesAgree()
      ensures r != null ==> r in channel && SameName(name, r.name)
      ensures r == null ==> forall c | c in channel :: !SameName(name, c.name)
    {
      hide SameName, NoDup, ChannelBucket;
      var hashv := HashChannelName(name);
      var list := table[hashv].list;
      forall c | c in channel && SameName(name, c.name)
        ensures c in list
      {
        InBucket(c, name);
      }
      assert forall c | c in list :: c in channel;
      hide *;
      var i := 0;
      while i < |list|
        invariant 0 <= i <= |list|
        invariant forall j | 0 <= j < i :: !SameName(name, list[j].name)
      {
        if SameName(name, list[i].name) {
          return list[i];
        }
        i := i + 1;
      }
      r := null;
    }

    /** get_channel: the channel of that name, made if there is none and flag says so. */
    method GetChannel(local: bool, chname: string, create: bool) returns (r: Chan?, created: bool)
      requires Valid()
      modifies this, table
      ensures Valid() && member == old(member) && asked == old(asked) && clients == old(clients)
      ensures !created ==> channel == old(channel)
      ensures r != null ==> r in channel && SameName(ShortName(local, chname), r.name)
      ensures ShortName(local, chname) == if local && |chname| > 32 then chname[..32] else chname
      ensures created ==> r != null && fresh(r) && channel == [r] + old(channel) && Pristine(r)
      ensures r == null <==> chname == "" || (!create && forall c | c in old(channel) :: !SameName(ShortName(local, chname), c.name))
      ensures created <==> chname != "" && create && forall c | c in old(channel) :: !SameName(ShortName(local, chname), c.name)
    {
      created := false;
      if chname == "" {
        return null, false;
      }
      var name := ShortName(local, chname);
      r := FindChannel(name);
      if r != null || !create {
        return;
      }
      created := true;
      var c := new Chan(name);
      r := c;
      AddChannel(c);
    }

    method AddChannel(c: Chan)
      requires Valid() && Pristine(c) && c !in channel
      requires forall d | d in channel :: !SameName(c.name, d.name)
      modifies this, table
      ensures Valid() && member == old(member) && asked == old(asked) && clients == old(clients)
      ensures channel == [c] + old(channel)
    {
      hide SameName, ChannelBucket, NoDup;
      var hashv := HashChannelName(c.name);
      ghost var before := table[..];
      channel := [c] + channel;
      table[hashv] := Entry([c] + table[hashv].list, table[hashv].links + 1);
      count := count + 1;
      TablesAfterAdd(c);
      forall d | d in channel
        ensures ChanAgrees(d) && Counted(d)
      {
        NewChanAgrees(c, d);
      }
      hide TablesAgree, ChanAgrees;
    }

    twostate lemma NewChanAgrees(new c: Chan, new d: Chan)
      requires old(Shape()) && Pristine(c) && c !in old(channel) && (d == c || d in old(channel))
      requires member == old(member) && asked == old(asked)
      requires d in old(channel) ==> unchanged(d)
      ensures ChanAgrees(d)
    {
      if d in old(channel) {
        assert old(ChanAgrees(d));
      }
    }

    twostate lemma TablesAfterAdd(new c: Chan)
      requires old(TablesAgree()) && channel == [c] + old(channel) && c !in old(channel) && count == old(count) + 1
      requires forall d | d in old(channel) :: !SameName(c.name, d.name)
      requires forall b | 0 <= b < CH_MAX ::
                 table[b] == (if b == ChannelBucket(c.name) then Entry([c] + old(table[b].list), old(table[b].links) + 1) else old(table[b]))
      ensures TablesAgree()
    {
      hide SameName, NoDup;
      NoDupFront(old(channel), c);
      forall d | d in channel
        ensures ChannelBucket(d.name) < CH_MAX && d in table[ChannelBucket(d.name)].list
      {
        assert d != c ==> d in old(channel) && d in old(table[ChannelBucket(d.name)].list);
      }
      forall b | 0 <= b < CH_MAX
        ensures NoDup(table[b].list) && table[b].links == |table[b].list|
      {
        if b == ChannelBucket(c.name) {
          NoDupFront(old(table[b].list), c);
        }
      }
      forall d, e | d in channel && e in channel && SameName(d.name, e.name)
        ensures d == e
      {
        SameNameSymmetric(d.name, e.name);
      }
    }

    ghost predicate Pristine(c: Chan)
      reads c
    {
      c.members == [] && c.users == 0 && c.invites == [] && c.mode == NO_MODE && c.joinStart == 0 && c.joinCount == 0
    }

    /** A channel whose lists and whose pairs did not change still agrees. */
    twostate lemma ChanKept(new c: Chan)
      requires c in old(channel) && old(ChanAgrees(c))
      requires c.members == old(c.members) && c.invites == old(c.invites)
      requires forall p: (Chan, User) | p.0 == c :: (p in member <==> p in old(member)) && (p in asked <==> p in old(asked))
      ensures ChanAgrees(c)
    {
    }

    twostate lemma UserKept(new u: User)
      requires u in old(clients) && old(UserAgrees(u))
      requires unchanged(u)
      requires forall p: (Chan, User) | p.1 == u :: (p in member <==> p in old(member)) && (p in asked <==> p in old(asked))
      ensures UserAgrees(u)
    {
    }

    /** add_user_to_channel, for a user who is not in the channel. */
    method AddUser(c: Chan, u: User, chanop: bool)
      requires Valid() && c in channel && u in clients && (c, u) !in member
      modifies c`members, c`users, u`channel, u`joined, `member
      ensures Valid() && member == old(member) + {(c, u)}
      ensures c.members == [Seat(u, chanop)] + old(c.members) && u.channel == [c] + old(u.channel)
    {
      hide NoDup, TablesAgree;
      assert ChanAgrees(c) && UserAgrees(u) && Counted(c);
      assert u !in Sitting(c.members) && c !in u.channel;
      NoDupFront(Sitting(c.members), u);
      NoDupFront(u.channel, c);
      c.members := [Seat(u, chanop)] + c.members;
      c.users := c.users + 1;
      u.channel := [c] + u.channel;
      u.joined := u.joined + 1;
      member := member + {(c, u)};
      assert Sitting(c.members) == [u] + old(Sitting(c.members));
      AllAgree(c, u);
    }

    /** What changed at most is c, u and the pair of the two. */
    twostate lemma AllAgree(new c: Chan, new u: User)
      requires old(Shape()) && TablesAgree() && channel == old(channel) && clients == old(clients)
      requires ChanAgrees(c) && UserAgrees(u) && c in channel && u in clients
      requires forall d | d in channel && d != c :: d.members == old(d.members) && d.invites == old(d.invites)
      requires forall w | w in clients && w != u :: unchanged(w)
      requires forall p: (Chan, User) | p != (c, u) :: (p in member <==> p in old(member)) && (p in asked <==> p in old(asked))
      ensures Shape()
    {
      hide TablesAgree;
      forall d | d in channel
        ensures ChanAgrees(d)
      {
        if d != c {
          assert old(ChanAgrees(d));
          ChanKept(d);
        }
      }
      forall w | w in clients
        ensures UserAgrees(w)
      {
        if w != u {
          assert old(UserAgrees(w));
          UserKept(w);
        }
      }
      hide ChanAgrees, UserAgrees;
    }

    /** del_invite: both sides forget the invitation, if there is one. */
    method DelInvite(u: User, c: Chan)
      requires Shape() && c in channel && u in clients
      modifies c`invites, u`invited, `asked
      ensures Shape() && asked == old(asked) - {(c, u)}
      ensures c.invites == Without(old(c.invites), u) && u.invited == Without(old(u.invited), c)
    {
      hide TablesAgree, NoDup, Without, Sitting;
      assert ChanAgrees(c) && UserAgrees(u);
      WithoutFacts(c.invites, u);
      WithoutFacts(u.invited, c);
      c.invites := Unlink(c.invites, u);
      u.invited := Unlink(u.invited, c);
      asked := asked - {(c, u)};
      AllAgree(c, u);
    }

    /** MODE -i: the loop that ends because every round takes the first invitation off the channel. */
    method ClearInvites(c: Chan)
      requires Shape() && c in channel
      modifies c`invites, clients, `asked
      ensures Shape() && c.invites == [] && asked == set p | p in old(asked) && p.0 != c
      ensures forall u | u in clients :: u.channel == old(u.channel) && u.joined == old(u.joined)
    {
      hide NoDup, TablesAgree, Without, UserAgrees;
      while c.invites != []
        invariant Shape()
        invariant forall p | p in asked :: p in old(asked)
        invariant forall p | p in old(asked) && p.0 != c :: p in asked
        invariant forall u | u in clients :: u.channel == old(u.channel) && u.joined == old(u.joined)
        decreases |c.invites|
      {
        assert ChanAgrees(c);
        var u := c.invites[0];
        assert (c, u) in asked;
        WithoutFacts(c.invites, u);
        DelInvite(u, c);
      }
      assert ChanAgrees(c);
    }

    /** add_invite: the newest invitation last; when the user has the most there may be, the oldest goes. */
    method AddInvite(u: User, c: Chan)
      requires Valid() && c in channel && u in clients
      modifies channel, u`invited, `asked
      ensures Valid()
      ensures var rest := Without(old(u.invited), c);
              u.invited == (if |rest| >= maxChannels then rest[1..] else rest) + [c]
      ensures forall p: (Chan, User) | p.1 != u :: p in asked <==> p in old(asked)
      ensures forall d | d in channel :: d.members == old(d.members) && d.users == old(d.users)
    {
      hide NoDup, TablesAgree, Without, ChanAgrees, UserAgrees;
      DelInvite(u, c);
      if |u.invited| >= maxChannels {
        ghost var rest := u.invited;
        DropOldest(u);
        assert u.invited == rest[1..];
      }
      PutInvite(u, c);
    }

    method DropOldest(u: User)
      requires Shape() && u in clients && u.invited != []
      modifies channel, u`invited, `asked
      ensures Shape() && u.invited == old(u.invited)[1..] && |u.invited| < maxChannels
      ensures forall p: (Chan, User) | p.1 != u :: p in asked <==> p in old(asked)
      ensures forall p: (Chan, User) | p in asked :: p in old(asked)
      ensures forall d | d in channel :: d.members == old(d.members) && d.users == old(d.users)
    {
      hide NoDup, TablesAgree, ChanAgrees;
      assert UserAgrees(u);
      var d := u.invited[0];
      assert (d, u) in asked;
      DelInvite(u, d);
      hide UserAgrees;
    }

    method PutInvite(u: User, c: Chan)
      requires Shape() && c in channel && u in clients && (c, u) !in asked && |u.invited| < maxChannels
      modifies c`invites, u`invited, `asked
      ensures Shape() && u.invited == old(u.invited) + [c] && asked == old(asked) + {(c, u)}
    {
      hide NoDup, TablesAgree;
      assert ChanAgrees(c) && UserAgrees(u);
      NoDupFront(c.invites, u);
      NoDupFront(u.invited, c);
      c.invites := [u] + c.invites;
      u.invited := u.invited + [c];
      asked := asked + {(c, u)};
      AllAgree(c, u);
    }

    /** Takes a channel that no pair names off the list and the table. */
    method RemoveChannel(c: Chan)
      requires Shape() && c in channel && (forall p | p in member + asked :: p.0 != c)
      modifies `channel, `count, table
      ensures Shape() && channel == Without(old(channel), c)
      ensures (forall d | d in channel :: d in old(channel) && d != c) && forall d | d in old(channel) && d != c :: d in channel
    {
      hide NoDup, ChanAgrees, UserAgrees, Without, SameName, ChannelBucket;
      TablesWithout(c);
      channel := Unlink(channel, c);
      var hashv := HashChannelName(c.name);
      var list := Unlink(table[hashv].list, c);
      table[hashv] := Entry(list, table[hashv].links - 1);
      count := count - 1;
      TablesAfterRemove(c);
      hide TablesAgree;
    }

    lemma TablesWithout(c: Chan)
      requires TablesAgree() && c in channel
      ensures |Without(channel, c)| == |channel| - 1 && NoDup(Without(channel, c))
      ensures forall d | d in Without(channel, c) :: d in channel && d != c
      ensures forall d | d in channel && d != c :: d in Without(channel, c)
      ensures ChannelBucket(c.name) < CH_MAX
      ensures var b := ChannelBucket(c.name); var list := table[b].list;
              NoDup(Without(list, c)) && |Without(list, c)| == table[b].links - 1
    {
      hide NoDup, SameName, Without;
      WithoutFacts(channel, c);
      WithoutFacts(table[ChannelBucket(c.name)].list, c);
    }

    twostate lemma TablesAfterRemove(c: Chan)
      requires old(TablesAgree()) && c in old(channel) && channel == Without(old(channel), c) && count == old(count) - 1
      requires forall b | 0 <= b < CH_MAX ::
                 table[b] == (if b == ChannelBucket(c.name) then Entry(Without(old(table[b].list), c), old(table[b].links) - 1) else old(table[b]))
      ensures TablesAgree()
    {
      hide NoDup, SameName, Without;
      WithoutFacts(old(channel), c);
      var k := ChannelBucket(c.name);
      assert c in old(table[k].list);
      WithoutFacts(old(table[k].list), c);
      forall d | d in channel
        ensures d in table[ChannelBucket(d.name)].list
      {
        assert d in old(channel) && d in old(table[ChannelBucket(d.name)].list);
      }
      forall b | 0 <= b < CH_MAX
        ensures NoDup(table[b].list) && table[b].links == |table[b].list|
        ensures forall d | d in table[b].list :: d in channel && ChannelBucket(d.name) == b
      {
        assert old(NoDup(table[b].list)) && old(table[b].links) == |old(table[b].list)|;
        forall d | d in table[b].list
          ensures d in channel && ChannelBucket(d.name) == b
        {
          assert d in old(table[b].list) && d in old(channel) && d != c;
        }
      }
    }

    /** All but the count of c. */
    ghost predicate CountedBut(c: Chan)
      reads this, channel
    {
      forall d | d in channel && d != c :: Counted(d)
    }

    /** sub1_from_channel: one user less, and the channel destroyed with its invitations when none is left. */
    method Sub1(c: Chan)
      requires Shape() && c in channel && CountedBut(c)
      requires c.users == |c.members| + 1 || (c.users == 0 && c.members == [])
      modifies this, table, c`users, c`invites, clients
      ensures Valid() && member == old(member) && clients == old(clients)
      ensures c.members != [] ==> channel == old(channel) && asked == old(asked)
      ensures c.members == [] ==> channel == Without(old(channel), c) && asked == set p | p in old(asked) && p.0 != c
      ensures forall d | d in channel :: d in old(channel) && (c.members == [] ==> d != c)
      ensures forall d | d in old(channel) && (d != c || c.members != []) :: d in channel
      ensures forall u | u in clients :: u.channel == old(u.channel) && u.joined == old(u.joined)
    {
      hide NoDup, TablesAgree, UserAgrees, Without;
      c.users := c.users - 1;
      assert Shape() by {
        assert ChanAgrees(c);
      }
      if c.users <= 0 {
        assert ChanAgrees(c);
        ClearInvites(c);
        assert forall p | p in member + asked :: p.0 != c;
        RemoveChannel(c);
      }
      hide ChanAgrees;
    }

    /** remove_user_from_channel */
    method RemoveUser(u: User, c: Chan)
      requires Valid() && c in channel && u in clients && (c, u) in member
      modifies this, table, c, clients
      ensures Valid() && member == old(member) - {(c, u)} && clients == old(clients)
      ensures u.channel == Without(old(u.channel), c)
      ensures forall d | d in channel :: d in old(channel)
      ensures forall d | d in channel && d != c :: d.members == old(d.members)
      ensures old(NoneEmpty()) ==> NoneEmpty()
    {
      hide Shape, CountedBut, Without;
      TakeSeat(u, c);
      Sub1(c);
    }

    /** The two loops that unlink. */
    method TakeSeat(u: User, c: Chan)
      requires Valid() && c in channel && u in clients && (c, u) in member
      modifies `member, c`members, u`channel, u`joined
      ensures Shape() && CountedBut(c) && c.users == |c.members| + 1
      ensures member == old(member) - {(c, u)} && u.channel == Without(old(u.channel), c)
    {
      hide NoDup, TablesAgree, Without;
      assert ChanAgrees(c) && UserAgrees(u) && Counted(c);
      c.members := UnlinkSeat(c.members, u);
      WithoutFacts(old(Sitting(c.members)), u);
      WithoutFacts(u.channel, c);
      u.channel := Unlink(u.channel, c);
      u.joined := u.joined - 1;
      member := member - {(c, u)};
      AllAgree(c, u);
    }

    /** JOIN 0, or a client that leaves: the loop that parts the first channel until there is none. */
    method LeaveAll(u: User)
      requires Valid() && u in clients
      modifies this, table, channel, clients
      ensures Valid() && u.channel == [] && member == set p | p in old(member) && p.1 != u
      ensures forall d | d in channel :: d in old(channel)
      ensures old(NoneEmpty()) ==> NoneEmpty()
      ensures clients == old(clients)
    {
      hide Shape, Without, NoneEmpty;
      while u.channel != []
        invariant Valid() && clients == old(clients)
        invariant forall d | d in channel :: d in old(channel)
        invariant forall p | p in member :: p in old(member)
        invariant forall p | p in old(member) && p.1 != u :: p in member
        invariant old(NoneEmpty()) ==> NoneEmpty()
        decreases |u.channel|
      {
        FirstSeat(u);
        RemoveUser(u, u.channel[0]);
      }
      NoSeat(u);
    }

    lemma FirstSeat(u: User)
      requires Valid() && u in clients && u.channel != []
      ensures u.channel[0] in channel && (u.channel[0], u) in member
      ensures |Without(u.channel, u.channel[0])| < |u.channel|
    {
      assert UserAgrees(u);
      WithoutFacts(u.channel, u.channel[0]);
    }

    lemma NoSeat(u: User)
      requires Valid() && u in clients && u.channel == []
      ensures forall p | p in member :: p.1 != u
    {
      assert UserAgrees(u);
    }

    /** Invited, U-lined, or not banned and either on the +I list or kept out by no mode. */
    ghost predicate Admits(u: User, c: Chan, j: Joiner, now: int)
      reads u`invited, c
    {
      || c in u.invited || j.uline
      || ((c in j.listedBy || !Obstructed(c.mode, c.users, c.joinStart, c.joinCount, j, now)) && c !in j.bannedFrom)
    }

    /** The limit on channels per user, three times as high for operators. */
    ghost predicate HasRoom(u: User, j: Joiner)
      reads u`channel
    {
      |u.channel| < maxChannels || (j.oper && |u.channel| < maxChannels * 3)
    }

    /** can_join with check_joinrate, for a local client. */
    method CanJoin(u: User, c: Chan, j: Joiner, now: int) returns (ok: bool)
      modifies c`joinStart, c`joinCount
      ensures ok <==> old(Admits(u, c, j, now))
      ensures c.joinCount == 0 || c.joinCount == old(c.joinCount)
      ensures ok && c !in u.invited && !j.uline && c !in j.listedBy && Rated(c.mode) ==> c.joinCount == 0 || c.joinCount < Rate(c.mode).0
    {
      var i := 0;
      while i < |u.invited|
        invariant 0 <= i <= |u.invited| && c !in u.invited[..i]
      {
        if u.invited[i] == c {
          return true;
        }
        i := i + 1;
      }
      if j.uline {
        return true;
      }
      var error := false;
      var rateOk := CheckJoinrate(c, now);
      if !rateOk {
        error := true;
      } else if 'i' in c.mode.flags {
        error := true;
      } else if 'O' in c.mode.flags && !j.oper {
        error := true;
      } else if c.mode.limit != 0 && c.users >= c.mode.limit {
        error := true;
      } else if 'R' in c.mode.flags && !j.regNick {
        error := true;
      } else if c.mode.key != "" && (j.key == "" || !SameName(c.mode.key, j.key)) {
        error := true;
      }
      if 'S' in c.mode.flags && !j.ssl {
        error := true;
      }
      if error && c in j.listedBy {
        error := false;
      }
      if !error && c in j.bannedFrom {
        error := true;
      }
      ok := !error;
    }

    /** check_joinrate for a local client, without the counters that only serve for warnings. */
    method CheckJoinrate(c: Chan, now: int) returns (ok: bool)
      modifies c`joinStart, c`joinCount
      ensures var (num, time) := Rate(c.mode);
              if !Rated(c.mode) then ok && unchanged(c)
              else if now - old(c.joinStart) > time then ok && c.joinStart == now && c.joinCount == 0
              else (ok <==> c.joinCount < num) && unchanged(c)
    {
      var joinNum, joinTime := DEFAULT_JOIN_NUM, DEFAULT_JOIN_TIME;
      if c.mode.rated {
        if c.mode.joinNum == 0 || c.mode.joinTime == 0 {
          return true;
        }
        joinTime, joinNum := c.mode.joinTime, c.mode.joinNum;
      }
      if now - c.joinStart > joinTime {
        c.joinStart, c.joinCount := now, 0;
        return true;
      }
      ok := c.joinCount < joinNum;
    }

    /**
     m_join, for one channel name of a local client who may be an operator of a new channel unless
     the network is split.
     */
    method Join(u: User, name: string, j: Joiner, now: int, allowOp: bool) returns (c: Chan?)
      requires Valid() && NoneEmpty() && u in clients && name != "" && |name| <= Sjoin.CHANNELLEN
      modifies this, table, channel, clients
      ensures Valid() && NoneEmpty() && clients == old(clients)
      ensures c == null ==> member == old(member) && channel == old(channel)
      ensures c != null ==> member == old(member) + {(c, u)} && (c, u) !in old(member) && c in channel && SameName(name, c.name)
      ensures c != null && c in old(channel) ==> channel == old(channel) && c.members[0] == Seat(u, false)
      ensures c != null && c !in old(channel) ==> channel == [c] + old(channel) && c.members == [Seat(u, allowOp)]
      ensures c != null ==> c !in u.invited
      ensures c != null && c !in old(u.invited) && !j.uline && c !in j.listedBy && Rated(c.mode) ==>
                c.joinCount == 1 || c.joinCount <= Rate(c.mode).0
      ensures c != null <==> old(HasRoom(u, j)) && forall d | d in old(channel) && SameName(name, d.name) ::
                d !in old(u.channel) && old(Admits(u, d, j, now))
    {
      hide Shape, SameName, Obstructed, Rated, Rate, NoDup;
      NamesTables();
      assert u.joined == |u.channel| by {
        JoinedCount(u);
      }
      var existing := FindChannel(name);
      assert HasRoom(u, j) <==> u.joined < maxChannels || (j.oper && u.joined < maxChannels * 3);
      if u.joined >= maxChannels && (!j.oper || u.joined >= maxChannels * 3) {
        return null;
      }
      if existing != null {
        OneOfName(name, existing);
      }
      hide TablesAgree, HasRoom;
      var created;
      c, created := GetChannel(true, name, true);
      SeatsOf(u, c);
      if c in u.channel {
        return null;
      }
      label Found:
      var ok := MayJoin(u, c, j, now);
      if created {
        PristineAdmits(old@Found(c.users), j, now);
      }
      if !ok {
        return null;
      }
      Enter(u, c, existing == null && allowOp);
    }

    lemma JoinedCount(u: User)
      requires Valid() && u in clients
      ensures u.joined == |u.channel|
    {
      assert UserAgrees(u);
    }

    /** Names are unique up to case. */
    lemma OneOfName(name: string, c: Chan)
      requires TablesAgree() && c in channel && SameName(name, c.name)
      ensures forall d | d in channel && SameName(name, d.name) :: d == c
    {
    }

    lemma NamesTables()
      requires Shape()
      ensures TablesAgree()
    {
    }

    /** u's own list decides whether u is in c. */
    lemma SeatsOf(u: User, c: Chan)
      requires Valid() && u in clients && c in channel
      ensures c in u.channel <==> (c, u) in member
      ensures c in u.invited <==> (c, u) in asked
      ensures u.joined == |u.channel|
    {
      assert UserAgrees(u);
    }

    method MayJoin(u: User, c: Chan, j: Joiner, now: int) returns (ok: bool)
      requires Valid() && NoneEmptyBut(c)
      modifies c`joinStart, c`joinCount
      ensures Valid() && NoneEmptyBut(c)
      ensures ok <==> old(Admits(u, c, j, now))
      ensures ok && c !in u.invited && !j.uline && c !in j.listedBy && Rated(c.mode) ==> c.joinCount == 0 || c.joinCount < Rate(c.mode).0
    {
      ok := CanJoin(u, c, j, now);
    }

    ghost predicate NoneEmptyBut(c: Chan)
      reads this, channel
    {
      forall d | d in channel && d != c :: d.members != []
    }

    /** The end of m_join: the seat, the count, and the invitation that is used up. */
    method Enter(u: User, c: Chan, chanop: bool)
      requires Valid() && u in clients && c in channel && (c, u) !in member && NoneEmptyBut(c)
      modifies c, u, `member, `asked
      ensures Valid() && NoneEmpty() && member == old(member) + {(c, u)} && c !in u.invited
      ensures c.members == [Seat(u, chanop)] + old(c.members)
      ensures c.joinCount == old(c.joinCount) + 1 && c.joinStart == old(c.joinStart) && c.mode == old(c.mode)
    {
      hide TablesAgree, ChanAgrees, UserAgrees, NoDup, Without;
      AddUser(c, u, chanop);
      c.joinCount := c.joinCount + 1;
      DelInvite(u, c);
      SeatsOf(u, c);
    }

    /**
     The membership side of m_sjoin: the channel is made if need be, the accepted nicks enter, and a
     channel nobody entered goes again. behind: the clients behind the link, by nick; theirs: whether
     the sender's modes count. When parameters are missing the function returns early, and leaves the
     empty channel it made: exactly then.
     */
    method SjoinEnter(chname: string, letters: string, args: seq<string>, behind: map<string, User>, theirs: bool) returns (ghost c: Chan)
      requires Valid() && NoneEmpty() && chname != "" && args != []
      requires forall n | n in behind :: behind[n] in clients
      modifies this, table, channel, clients
      ensures Valid() && clients == old(clients)
      ensures NoneEmpty() <==> Sjoin.Takers(letters) < |args| || exists d | d in old(channel) :: SameName(chname, d.name)
      ensures var listed := Listed(letters, args, behind, theirs);
              && (listed != [] ==> c in channel && SameName(chname, c.name))
              && (forall p: (Chan, User) :: p in member <==> p in old(member) || (p.0 == c && p.1 in Sitting(listed)))
      ensures forall m | m in c.members :: (c in old(channel) && m in old(c.members)) || m in Listed(letters, args, behind, theirs)
    {
      hide Shape, SameName, CountedBut, Without;
      var ch, created := GetChannel(false, chname, true);
      c := ch;
      Sjoin.ShortWhen(letters, args, NO_MODE, 0);
      ListedKnown(letters, args, behind, theirs);
      var parsed := Sjoin.ParseModes(letters, args, NO_MODE, 0);
      var listed := Listed(letters, args, behind, theirs);
      hide Listed;
      if parsed.Short? {
        if created {
          assert ch in channel && ch.members == [];
        }
        return;
      }
      var people := EnterAll(ch, listed);
      if people == 0 && created && ch.users == 0 {
        EmptyShape(ch);
        Sub1(ch);
      } else if created {
        SeatsFilled(ch, listed[0].user);
      }
    }

    /** The loop over the listed nicks: those not yet members enter. */
    method EnterAll(c: Chan, listed: seq<Seat>) returns (people: nat)
      requires Valid() && c in channel && (forall m | m in listed :: m.user in clients)
      modifies c`members, c`users, clients, `member
      ensures Valid() && people == |listed|
      ensures forall p: (Chan, User) :: p in member <==> p in old(member) || (p.0 == c && p.1 in Sitting(listed))
      ensures listed == [] ==> c.members == old(c.members) && c.users == old(c.users)
      ensures old(c.members) != [] ==> c.members != []
      ensures forall m | m in c.members :: m in old(c.members) || m in listed
    {
      hide Shape;
      people := 0;
      var i := 0;
      while i < |listed|
        invariant 0 <= i <= |listed| && people == i && Valid()
        invariant forall p: (Chan, User) :: p in member <==> p in old(member) || (p.0 == c && p.1 in Sitting(listed[..i]))
        invariant i == 0 ==> c.members == old(c.members) && c.users == old(c.users)
        invariant old(c.members) != [] ==> c.members != []
        invariant forall m | m in c.members :: m in old(c.members) || m in listed
      {
        var u := listed[i].user;
        assert listed[i] in listed;
        SeatsOf(u, c);
        if c !in u.channel {
          AddUser(c, u, listed[i].chanop);
        }
        people := people + 1;
        i := i + 1;
        assert Sitting(listed[..i]) == Sitting(listed[..i - 1]) + [u];
      }
      assert listed[..i] == listed;
    }

    lemma EmptyShape(c: Chan)
      requires Valid() && c in channel && c.users == 0
      ensures Shape() && CountedBut(c) && c.members == [] && forall p | p in member :: p.0 != c
    {
      assert Counted(c) && ChanAgrees(c);
    }

    /** Somebody who is in c is on its list. */
    lemma SeatsFilled(c: Chan, u: User)
      requires Valid() && c in channel && (c, u) in member
      ensures c.members != []
    {
      assert ChanAgrees(c);
    }
  }

  /** The users an SJOIN names, with whether they become operators; none when parameters are missing. */
  function Listed(letters: string, args: seq<string>, behind: map<string, User>, theirs: bool): seq<Seat>
    requires args != []
  {
    match Sjoin.ParseModes(letters, args, NO_MODE, 0)
    case Short => []
    case Parsed(_, used) => Found(Words(args[used]), behind, theirs)
  }

  function Found(words: seq<string>, behind: map<string, User>, theirs: bool): seq<Seat> {
    if words == [] then []
    else
      var nick, rest := Sjoin.Strip(words[0]), Found(words[1..], behind, theirs);
      if nick in behind then [Seat(behind[nick], Sjoin.Granted(words[0], theirs).op)] + rest else rest
  }

  /**
   Who enters, and how: each word of the nick list whose nick is known behind the link stands for its
   user, with operator status if an '@' is among its first two characters and the sender's modes count.
   */
  lemma ListedMeans(letters: string, args: seq<string>, behind: map<string, User>, theirs: bool, m: Seat)
    requires args != []
    ensures var parsed := Sjoin.ParseModes(letters, args, NO_MODE, 0);
            m in Listed(letters, args, behind, theirs) <==>
              parsed.Parsed? && exists w | w in Words(args[parsed.used]) :: WordFor(w, behind, theirs, m.user, m.chanop)
  {
    hide WordFor, Found;
    var parsed := Sjoin.ParseModes(letters, args, NO_MODE, 0);
    if parsed.Parsed? {
      FoundWords(Words(args[parsed.used]), behind, theirs);
    }
  }

  /** A word names a user, and grants operator status or does not. */
  predicate WordFor(w: string, behind: map<string, User>, theirs: bool, u: User, chanop: bool) {
    && Sjoin.Strip(w) in behind && behind[Sjoin.Strip(w)] == u
    && (chanop <==> theirs && (CharAt(w, 0) == '@' || CharAt(w, 1) == '@'))
  }

  lemma {:induction false} FoundWords(words: seq<string>, behind: map<string, User>, theirs: bool)
    ensures forall m :: m in Found(words, behind, theirs) <==> exists w | w in words :: WordFor(w, behind, theirs, m.user, m.chanop)
    decreases |words|
  {
    if words != [] {
      var w0, rest := words[0], words[1..];
      FoundWords(rest, behind, theirs);
      FoundFirst(words, behind, theirs);
      assert words == [w0] + rest;
      hide WordFor, Found;
      forall m
        ensures m in Found(words, behind, theirs) <==> exists w | w in words :: WordFor(w, behind, theirs, m.user, m.chanop)
      {
        if w :| w in words && WordFor(w, behind, theirs, m.user, m.chanop) {
          assert w == w0 || w in rest;
        }
      }
    }
  }

  lemma FoundFirst(words: seq<string>, behind: map<string, User>, theirs: bool)
    requires words != []
    ensures forall m :: m in Found(words, behind, theirs) <==>
              WordFor(words[0], behind, theirs, m.user, m.chanop) || m in Found(words[1..], behind, theirs)
  {
    hide Sjoin.Strip;
  }

  lemma ListedKnown(letters: string, args: seq<string>, behind: map<string, User>, theirs: bool)
    requires args != []
    ensures forall m | m in Listed(letters, args, behind, theirs) :: exists n | n in behind :: behind[n] == m.user
    ensures Sjoin.ParseModes(letters, args, NO_MODE, 0).Short? ==> Listed(letters, args, behind, theirs) == []
  {
    var parsed := Sjoin.ParseModes(letters, args, NO_MODE, 0);
    if parsed.Parsed? {
      FoundKnown(Words(args[parsed.used]), behind, theirs);
    }
  }

  /** Words are found exactly when the message's receiver accepts them. */
  lemma {:induction false} FoundKnown(words: seq<string>, behind: map<string, User>, theirs: bool)
    ensures forall m | m in Found(words, behind, theirs) :: exists n | n in behind :: behind[n] == m.user
    ensures |Found(words, behind, theirs)| == |Sjoin.Accepted(words, behind.Keys, theirs)|
    decreases |words|
  {
    if words != [] {
      FoundKnown(words[1..], behind, theirs);
    }
  }

  /** Unlinks the seat of u. */
  method UnlinkSeat(members: seq<Seat>, u: User) returns (r: seq<Seat>)
    ensures Sitting(r) == Without(Sitting(members), u)
    ensures forall m | m in r :: m in members
  {
    var i := 0;
    while i < |members|
      invariant 0 <= i <= |members| && u !in Sitting(members)[..i]
    {
      if members[i].user == u {
        WithoutPlace(Sitting(members), u, i);
        r := members[..i] + members[i + 1..];
        assert Sitting(r) == Sitting(members)[..i] + Sitting(members)[i + 1..];
        return;
      }
      i := i + 1;
    }
    WithoutNone(Sitting(members), u);
    r := members;
  }

  lemma {:induction false} OnceEach<T>(s: seq<T>, x: T)
    requires NoDup(s)
    ensures multiset(s)[x] == if x in s then 1 else 0
  {
    if s != [] {
      assert s == s[..|s| - 1] + [s[|s| - 1]];
      OnceEach(s[..|s| - 1], x);
    }
  }

  lemma SameNameSymmetric(a: string, b: string)
    ensures SameName(a, b) <==> SameName(b, a)
  {
  }

  /** The client that wants to join: what it is, the key it gave, and which channels' lists match it. */
  datatype Joiner = Joiner(uline: bool, oper: bool, regNick: bool, ssl: bool, key: string,
                           listedBy: set<Chan>, bannedFrom: set<Chan>)

  /** The number of joins and the seconds of the channel's own +j, or of the default. */
  function Rate(mode: Mode): (int, int) {
    if mode.rated then (mode.joinNum, mode.joinTime) else (DEFAULT_JOIN_NUM, DEFAULT_JOIN_TIME)
  }

  /** The channel has not turned the limit off. */
  predicate Rated(mode: Mode) {
    !(mode.rated && (mode.joinNum == 0 || mode.joinTime == 0))
  }

  /** Too many joins within the time. */
  predicate TooFast(mode: Mode, joinStart: int, joinCount: int, now: int) {
    Rated(mode) && now - joinStart <= Rate(mode).1 && joinCount >= Rate(mode).0
  }

  /** Some mode keeps the client out. */
  predicate Obstructed(mode: Mode, users: int, joinStart: int, joinCount: int, j: Joiner, now: int) {
    || TooFast(mode, joinStart, joinCount, now)
    || 'i' in mode.flags || ('O' in mode.flags && !j.oper) || ('R' in mode.flags && !j.regNick) || ('S' in mode.flags && !j.ssl)
    || (mode.limit != 0 && users >= mode.limit)
    || (mode.key != "" && (j.key == "" || !SameName(mode.key, j.key)))
  }

  /** A channel just made lets everybody in. */
  lemma PristineAdmits(users: int, j: Joiner, now: int)
    ensures !Obstructed(NO_MODE, users, 0, 0, j, now)
  {
  }

  function ShortName(local: bool, name: string): string {
    if local && |name| > Sjoin.CHANNELLEN then name[..Sjoin.CHANNELLEN] else name
  }
}
