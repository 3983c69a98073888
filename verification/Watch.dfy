/** The WATCH table: which clients want to hear of which nicks. */
module Watch {
  import opened Text
  import opened Hash
  import opened Links

  const WATCHHASHSIZE := 10007

  function Bucket(nick: string): nat {
    NickBucket(nick) % WATCHHASHSIZE
  }

  class Client {
    var watch: seq<Header>
    var watches: int

    constructor ()
      ensures watch == [] && watches == 0
    {
      watch, watches := [], 0;
    }
  }

  /** aWatch: a nick, and the clients on it. */
  class Header {
    const nick: string
    var watch: seq<Client>

    constructor (nick: string)
      ensures this.nick == nick && watch == []
    {
      this.nick := nick;
      watch := [];
    }
  }

  class Table {
    const table: array<seq<Header>>
    ghost var clients: set<Client>
    /** Who watches which nick, the nick with its case folded; and the header of each nick. */
    ghost var watching: set<(Client, string)>
    ghost var header: map<string, Header>

    /** The header of n lists those who watch n, each once, and there are some. */
    ghost predicate HeaderAgrees(n: string)
      reads `watching, `header, header.Values
    {
      n in header ==>
        && NoDup(header[n].watch) && header[n].watch != []
        && (forall c | c in header[n].watch :: (c, n) in watching)
        && (forall p | p in watching && p.1 == n :: p.0 in header[n].watch)
    }

    /** list holds the headers of the nicks c watches, each once. */
    ghost predicate ClientAgrees(c: Client, list: seq<Header>)
      reads `watching, `header
    {
      && NoDup(list)
      && (forall h | h in list :: Known(h) && (c, Fold(h.nick)) in watching)
      && (forall p | p in watching && p.0 == c :: p.1 in header && header[p.1] in list)
    }

    ghost predicate Known(h: Header)
      reads `header
    {
      Fold(h.nick) in header && header[Fold(h.nick)] == h
    }

    ghost predicate TableAgrees()
      reads `header, table
    {
      && table.Length == WATCHHASHSIZE
      && (forall b | 0 <= b < table.Length :: NoDup(table[b]))
      && (forall b | 0 <= b < table.Length :: forall h | h in table[b] :: Known(h) && Bucket(h.nick) == b)
      && (forall n | n in header :: Fold(header[n].nick) == n && header[n] in table[Bucket(header[n].nick)])
    }

    /** Everything but the lists of the clients. */
    ghost predicate Shape()
      reads this, table, header.Values
    {
      && TableAgrees()
      && (forall n | n in header :: HeaderAgrees(n))
      && (forall p | p in watching :: p.0 in clients && p.1 in header)
    }

    ghost predicate Listed(c: Client)
      reads `watching, `header, c
    {
      ClientAgrees(c, c.watch) && c.watches == |c.watch|
    }

    ghost predicate Valid()
      reads this, table, header.Values, clients
    {
      Shape() && forall c | c in clients :: Listed(c)
    }

    constructor (clients: set<Client>)
      requires forall c | c in clients :: c.watch == [] && c.watches == 0
      ensures Valid() && watching == {} && this.clients == clients && fresh(table)
    {
      this.clients, watching, header := clients, {}, map[];
      table := new seq<Header>[WATCHHASHSIZE](_ => []);
    }

    /** A nick has a header exactly when somebody watches it, and both sides agree. */
    lemma BothSides(c: Client, n: string)
      requires Valid() && c in clients
      ensures n in header <==> exists p :: p in watching && p.1 == n
      ensures (c, n) in watching <==> n in header && c in header[n].watch
      ensures (c, n) in watching <==> n in header && header[n] in c.watch
      ensures c.watches == |c.watch|
    {
      assert Listed(c);
      if n in header {
        assert HeaderAgrees(n);
        assert (header[n].watch[0], n) in watching;
      }
    }

    lemma InBucket(name: string)
      requires TableAgrees() && Fold(name) in header && Fold(header[Fold(name)].nick) == Fold(name)
      ensures header[Fold(name)] in table[Bucket(name)]
    {
      SameNameSameBucket(header[Fold(name)].nick, name);
    }

    /** hash_get_watch: names that differ in case only find the same header. */
    method HashGetWatch(name: string) returns (r: Header?)
      requires Shape()
      ensures r == if Fold(name) in header then header[Fold(name)] else null
    {
      var hash := HashNickName(name);
      var list := table[hash % WATCHHASHSIZE];
      if Fold(name) in header {
        assert HeaderAgrees(Fold(name));
        InBucket(name);
      }
      assert forall h | h in list :: Known(h);
      hide NoDup, Fold, NickBucket;
      var i := 0;
      while i < |list|
        invariant 0 <= i <= |list|
        invariant forall j | 0 <= j < i :: !SameName(list[j].nick, name)
      {
        if SameName(list[i].nick, name) {
          return list[i];
        }
        i := i + 1;
      }
      r := null;
    }

    /** hash_check_watch: everybody who watches the name is told, once. */
    method HashCheckWatch(name: string) returns (told: seq<Client>)
      requires Valid()
      ensures NoDup(told)
      ensures (forall c | c in told :: (c, Fold(name)) in watching) && forall p | p in watching && p.1 == Fold(name) :: p.0 in told
    {
      hide Fold, TableAgrees;
      var h := HashGetWatch(name);
      told := [];
      if h == null {
        return;
      }
      assert HeaderAgrees(Fold(name)) && NoDup(h.watch);
      assert (forall c | c in h.watch :: (c, Fold(name)) in watching) && forall p | p in watching && p.1 == Fold(name) :: p.0 in h.watch;
      hide *;
      var lp := 0;
      while lp < |h.watch|
        modifies {}
        invariant 0 <= lp <= |h.watch| && told == h.watch[..lp]
      {
        told := told + [h.watch[lp]];
        lp := lp + 1;
      }
      assert told == h.watch;
    }

    /** The header of a nick nobody watches yet, not yet with its first client. */
    method NewHeader(nick: string) returns (h: Header)
      requires TableAgrees() && Fold(nick) !in header
      modifies `header, table
      ensures TableAgrees() && fresh(h) && h.nick == nick && h.watch == [] && header == old(header)[Fold(nick) := h]
    {
      hide NoDup, Fold, NickBucket;
      var hash := HashNickName(nick);
      h := new Header(nick);
      var b := hash % WATCHHASHSIZE;
      assert h !in table[b];
      NoDupFront(table[b], h);
      table[b] := [h] + table[b];
      header := header[Fold(nick) := h];
    }

    /** What the two sides say about c and n. */
    lemma Pair(c: Client, n: string)
      requires Valid() && c in clients
      ensures HeaderAgrees(n) && Listed(c) && NoDup(c.watch) && TableAgrees()
      ensures (c, n) in watching <==> n in header && c in header[n].watch
      ensures n in header ==> Known(header[n]) && Fold(header[n].nick) == n && NoDup(header[n].watch)
      ensures n in header ==> (header[n] in c.watch <==> c in header[n].watch)
      ensures forall h | h in c.watch :: Known(h) && (c, Fold(h.nick)) in watching
    {
      assert Listed(c) && HeaderAgrees(n);
    }

    /** add_to_watch_hash_table */
    method Add(nick: string, c: Client)
      requires Valid() && c in clients
      modifies this, table, header.Values, c
      ensures Valid() && watching == old(watching) + {(c, Fold(nick))} && clients == old(clients)
    {
      hide NoDup, Fold, TableAgrees, HeaderAgrees, Listed, Shape;
      ghost var n := Fold(nick);
      Pair(c, n);
      ItsShape();
      var found := HashGetWatch(nick);
      var anptr: Header;
      if found == null {
        anptr := NewHeader(nick);
      } else {
        anptr := found;
      }
      var lp := 0;
      while lp < |anptr.watch| && anptr.watch[lp] != c
        invariant 0 <= lp <= |anptr.watch| && c !in anptr.watch[..lp]
        modifies {}
      {
        lp := lp + 1;
      }
      assert anptr.watch[..|anptr.watch|] == anptr.watch;
      ghost var others := anptr.watch;
      if lp == |anptr.watch| {
        NoDupFront(anptr.watch, c);
        NoDupFront(c.watch, anptr);
        anptr.watch := [c] + anptr.watch;
        c.watch := [anptr] + c.watch;
        c.watches := c.watches + 1;
        watching := watching + {(c, n)};
        PairAdded(n, anptr, c);
      }
      PairChanged(n, c);
    }

    lemma ItsShape()
      requires Valid()
      ensures Shape() && forall c :: ShapeBut(c)
    {
    }

    twostate lemma PairAdded(new n: string, new h: Header, c: Client)
      requires old(HeaderAgrees(n)) && old(Listed(c)) && (n in old(header) ==> old(header[n]) == h)
      requires old(forall p | p in watching :: p.1 in header)
      requires header == old(header)[n := h] && Fold(h.nick) == n && watching == old(watching) + {(c, n)}
      requires NoDup(h.watch) && h.watch == [c] + (if n in old(header) then old(header[n].watch) else [])
      requires NoDup(c.watch) && c.watch == [h] + old(c.watch) && c.watches == old(c.watches) + 1
      ensures HeaderAgrees(n) && Listed(c)
    {
      hide NoDup, Fold;
    }

    /** Everything but the list of c. */
    ghost predicate ShapeBut(c: Client)
      reads this, table, header.Values, clients
    {
      Shape() && forall d | d in clients && d != c :: Listed(d)
    }

    /** At most the header of n, client c and the pair of the two changed. */
    twostate lemma PairChanged(new n: string, c: Client)
      requires old(ShapeBut(c)) && TableAgrees() && clients == old(clients) && c in clients
      requires forall m | m != n :: (m in header <==> m in old(header)) && (m in header ==> header[m] == old(header[m]) && unchanged(header[m]))
      requires n in header && n in old(header) ==> header[n] == old(header[n])
      requires forall p: (Client, string) | p != (c, n) :: p in watching <==> p in old(watching)
      requires HeaderAgrees(n)
      requires n !in header ==> forall p | p in watching :: p.1 != n
      requires forall d | d in clients && d != c :: unchanged(d)
      ensures ShapeBut(c)
    {
      hide TableAgrees, NoDup;
      forall m | m in header
        ensures HeaderAgrees(m)
      {
        assert m != n ==> old(HeaderAgrees(m));
      }
      forall d | d in clients && d != c
        ensures Listed(d)
      {
        assert old(Listed(d));
        forall h | h in d.watch
          ensures Known(h) && (d, Fold(h.nick)) in watching
        {
          assert old(Known(h)) && (d, Fold(h.nick)) in old(watching);
        }
      }
      hide HeaderAgrees, Listed;
    }

    /** Takes a header that has lost its last client out of its bucket. */
    method DropHeader(h: Header)
      requires TableAgrees() && Known(h)
      modifies `header, table
      ensures TableAgrees() && header == old(header) - {Fold(h.nick)}
    {
      hide NoDup, NickBucket, Fold;
      var hash := HashNickName(h.nick);
      var b := hash % WATCHHASHSIZE;
      WithoutFacts(table[b], h);
      table[b] := Unlink(table[b], h);
      header := header - {Fold(h.nick)};
      forall n | n in header
        ensures header[n] in table[Bucket(header[n].nick)]
      {
        assert n in old(header) && header[n] == old(header[n]);
      }
    }

    /** del_from_watch_hash_table */
    method Del(nick: string, c: Client)
      requires Valid() && c in clients
      modifies this, table, header.Values, c
      ensures Valid() && watching == old(watching) - {(c, Fold(nick))} && clients == old(clients)
    {
      hide NoDup, Fold, TableAgrees, HeaderAgrees, Listed, Shape, Without;
      ghost var n := Fold(nick);
      Pair(c, n);
      ItsShape();
      var found := HashGetWatch(nick);
      if found == null || c !in found.watch {
        return;
      }
      var anptr: Header := found;
      assert Sizes(c, anptr) by {
        ItsSizes(c, n);
      }
      WithoutFacts(anptr.watch, c);
      WithoutFacts(c.watch, anptr);
      anptr.watch := Unlink(anptr.watch, c);
      c.watch := Unlink(c.watch, anptr);
      if anptr.watch == [] {
        DropHeader(anptr);
      }
      c.watches := c.watches - 1;
      watching := watching - {(c, n)};
      PairRemoved(n, c);
      PairChanged(n, c);
    }

    ghost predicate Sizes(c: Client, h: Header)
      reads c
    {
      c.watches == |c.watch| && h in c.watch
    }

    lemma ItsSizes(c: Client, n: string)
      requires Valid() && c in clients && n in header && c in header[n].watch
      ensures Sizes(c, header[n])
    {
      Pair(c, n);
    }

    twostate lemma PairRemoved(new n: string, c: Client)
      requires old(HeaderAgrees(n)) && old(Listed(c)) && n in old(header) && Fold(old(header[n]).nick) == n
      requires old(forall m | m in header :: Fold(header[m].nick) == m)
      requires var h := old(header[n]);
               && header == (if h.watch == [] then old(header) - {n} else old(header))
               && h.watch == Without(old(h.watch), c) && c.watch == Without(old(c.watch), h)
               && c in old(h.watch) && h in old(c.watch)
      requires watching == old(watching) - {(c, n)} && c.watches == old(c.watches) - 1
      ensures HeaderAgrees(n) && Listed(c)
      ensures n !in header ==> forall p | p in watching :: p.1 != n
    {
      hide NoDup, Fold, Without;
      var h := old(header[n]);
      WithoutFacts(old(h.watch), c);
      WithoutFacts(old(c.watch), h);
      forall g | g in c.watch
        ensures Known(g) && (c, Fold(g.nick)) in watching
      {
        assert old(Known(g)) && (c, Fold(g.nick)) in old(watching) && Fold(g.nick) != n;
      }
      forall p | p in watching && p.0 == c
        ensures p.1 in header && header[p.1] in c.watch
      {
        assert p.1 in old(header) && old(header[p.1]) in old(c.watch);
        assert p.1 != n;
        assert old(Known(header[p.1]));
      }
    }

    /** Finds the pointer to h in its bucket, which must be there, and unlinks h. */
    method FindAndDrop(h: Header)
      requires TableAgrees() && Known(h)
      modifies `header, table
      ensures TableAgrees() && header == old(header) - {Fold(h.nick)}
    {
      hide NoDup, NickBucket, Fold;
      var hash := HashNickName(h.nick);
      var b := hash % WATCHHASHSIZE;
      assert h in table[b];
      var np2 := Walk(table[b], h);
      WithoutPlace(table[b], h, np2);
      WithoutFacts(table[b], h);
      table[b] := table[b][..np2] + table[b][np2 + 1..];
      header := header - {Fold(h.nick)};
      forall n | n in header
        ensures header[n] in table[Bucket(header[n].nick)]
      {
        assert n in old(header) && header[n] == old(header[n]);
      }
    }

    /** One round of hash_del_watch_list: c goes off the list of np[0], and the header goes if it was the last. */
    method DelOne(c: Client, np: seq<Header>)
      requires ShapeBut(c) && c in clients && np != [] && ClientAgrees(c, np)
      modifies np[0], `header, `watching, table
      ensures ShapeBut(c) && clients == old(clients) && ClientAgrees(c, np[1..])
      ensures watching == old(watching) - {(c, Fold(np[0].nick))}
    {
      hide NoDup, Fold, TableAgrees, HeaderAgrees, Listed, Without;
      var anptr := np[0];
      ghost var n := Fold(anptr.nick);
      assert Known(anptr) && (c, n) in watching;
      OnItsHeader(c, n);
      WithoutFacts(anptr.watch, c);
      anptr.watch := Unlink(anptr.watch, c);
      if anptr.watch == [] {
        FindAndDrop(anptr);
      }
      watching := watching - {(c, n)};
      NextRemoved(n, (c, np));
      PairChanged(n, c);
    }

    lemma OnItsHeader(c: Client, n: string)
      requires ShapeBut(c) && (c, n) in watching
      ensures TableAgrees() && n in header && HeaderAgrees(n) && c in header[n].watch && NoDup(header[n].watch)
      ensures forall m | m in header :: Fold(header[m].nick) == m
    {
      assert HeaderAgrees(n);
    }

    twostate lemma NextRemoved(new n: string, at: (Client, seq<Header>))
      requires old(HeaderAgrees(n)) && old(ClientAgrees(at.0, at.1)) && at.1 != [] && n in old(header) && old(header[n]) == at.1[0]
      requires old(forall m | m in header :: Fold(header[m].nick) == m)
      requires var h := old(header[n]);
               && header == (if h.watch == [] then old(header) - {n} else old(header))
               && h.watch == Without(old(h.watch), at.0) && at.0 in old(h.watch)
      requires watching == old(watching) - {(at.0, n)}
      ensures HeaderAgrees(n) && ClientAgrees(at.0, at.1[1..])
      ensures n !in header ==> forall p | p in watching :: p.1 != n
    {
      hide Fold, Without;
      WithoutFacts(old(header[n].watch), at.0);
      forall g | g in at.1[1..]
        ensures Known(g) && (at.0, Fold(g.nick)) in watching
      {
        assert old(Known(g)) && (at.0, Fold(g.nick)) in old(watching) && g != at.1[0];
      }
      forall p | p in watching && p.0 == at.0
        ensures p.1 in header && header[p.1] in at.1[1..]
      {
        assert p.1 in old(header) && old(header[p.1]) in at.1 && old(header[p.1]) != at.1[0];
      }
    }

    /** hash_del_watch_list: the client watches nothing any more. */
    method DelList(c: Client)
      requires Valid() && c in clients
      modifies this, table, header.Values, c
      ensures Valid() && c.watch == [] && watching == (set p | p in old(watching) && p.0 != c) && clients == old(clients)
    {
      hide NoDup, Fold, Shape, ShapeBut, ClientAgrees;
      ghost var headers := header.Values;
      var np := BreakList(c);
      if np == [] {
        return;
      }
      while np != []
        invariant ShapeBut(c) && ClientAgrees(c, np) && clients == old(clients) && c.watch == []
        invariant forall p | p in watching :: p in old(watching)
        invariant forall p | p in old(watching) && p.0 != c :: p in watching
        invariant forall h | h in np :: h in headers
        decreases |np|
      {
        DelOne(c, np);
        np := np[1..];
      }
      NoneLeft(c);
    }

    /** Takes the client's list away, for the loop to walk. */
    method BreakList(c: Client) returns (np: seq<Header>)
      requires Valid() && c in clients
      modifies c`watch
      ensures np == old(c.watch) && c.watch == [] && ShapeBut(c) && ClientAgrees(c, np)
      ensures forall h | h in np :: h in header.Values
      ensures np == [] ==> Valid() && forall p | p in watching :: p.0 != c
    {
      assert Listed(c);
      HeadersKnown(c);
      np := c.watch;
      c.watch := [];
    }

    method NoneLeft(c: Client)
      requires ShapeBut(c) && c in clients && ClientAgrees(c, []) && c.watch == []
      modifies c`watches
      ensures Valid() && forall p | p in watching :: p.0 != c
    {
      c.watches := 0;
    }

    lemma HeadersKnown(c: Client)
      requires Listed(c)
      ensures forall h | h in c.watch :: h in header.Values
    {
      forall h | h in c.watch
        ensures h in header.Values
      {
        assert Known(h);
      }
    }
  }

  /** The loop that stops at h and at nothing else: it ends because h is in the list. */
  method Walk(s: seq<Header>, h: Header) returns (k: nat)
    requires h in s
    ensures k < |s| && s[k] == h && h !in s[..k]
  {
    k := 0;
    while s[k] != h
      invariant k < |s| && h !in s[..k]
      decreases |s| - k
    {
      NotLast(s, k, h);
      k := k + 1;
    }
  }

  lemma NotLast<T>(s: seq<T>, k: nat, x: T)
    requires x in s && k < |s| && x !in s[..k] && s[k] != x
    ensures k + 1 < |s| && x !in s[..k + 1]
  {
    assert s[..k + 1] == s[..k] + [s[k]];
    assert s == s[..k + 1] + s[k + 1..];
  }
}
