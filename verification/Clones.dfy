/** How many clients there are per address and per /24, for the clone limits. */
module Clones {
  import opened Text
  import opened Links

  const HOSTIPLEN := 46

  datatype Client = Client(id: nat, ip: string, local: bool)

  /** A dotted address: it ends in something other than the star of a site. */
  predicate IsIp(ip: string) {
    '.' in ip && ip[|ip| - 1] != '*'
  }

  /** Everything up to the last dot, and a star. */
  function Site(ip: string): (r: string)
    ensures r != "" && r[|r| - 1] == '*'
  {
    if ip == "" then "*" else if ip[|ip| - 1] == '.' then ip + "*" else Site(ip[..|ip| - 1])
  }

  /** The site is the text up to and with the last dot, and a star. */
  lemma {:induction false} SiteMeans(ip: string) returns (dot: nat)
    requires '.' in ip
    ensures dot < |ip| && ip[dot] == '.' && '.' !in ip[dot + 1..] && Site(ip) == ip[..dot + 1] + "*"
  {
    var last := |ip| - 1;
    if ip[last] == '.' {
      dot := last;
      assert ip[..last + 1] == ip && ip[last + 1..] == "";
    } else {
      var init := ip[..last];
      assert ip == init + [ip[last]];
      dot := SiteMeans(init);
      assert init[..dot + 1] == ip[..dot + 1] && ip[dot + 1..] == init[dot + 1..] + [ip[last]];
    }
  }

  /** Two addresses share a site exactly when they are the same up to and with their last dots. */
  lemma SameSite(a: string, b: string, i: nat, j: nat)
    requires i < |a| && a[i] == '.' && '.' !in a[i + 1..] && j < |b| && b[j] == '.' && '.' !in b[j + 1..]
    ensures Site(a) == Site(b) <==> a[..i + 1] == b[..j + 1]
  {
    var k := SiteMeans(a);
    var l := SiteMeans(b);
    assert k == i by {
      LastDot(a, i, k);
    }
    assert l == j by {
      LastDot(b, j, l);
    }
    var x, y := a[..i + 1], b[..j + 1];
    assert (x + "*")[..|x + "*"| - 1] == x && (y + "*")[..|y + "*"| - 1] == y;
  }

  lemma LastDot(s: string, i: nat, k: nat)
    requires i < |s| && k < |s| && s[i] == '.' && s[k] == '.' && '.' !in s[i + 1..] && '.' !in s[k + 1..]
    ensures i == k
  {
    assert forall x | i < x < |s| :: s[i + 1..][x - i - 1] == s[x];
    assert forall x | k < x < |s| :: s[k + 1..][x - k - 1] == s[x];
  }

  /** Those who count for an entry: the clients of the address, or of the site. */
  ghost function At(online: set<Client>, key: string): set<Client>
  {
    set c | c in online && (c.ip == key || Site(c.ip) == key)
  }

  ghost function Locals(clients: set<Client>): set<Client> {
    set c | c in clients && c.local
  }

  class CloneEnt {
    const ent: string
    var clients: seq<Client>
    var lcount: int
    var gcount: int
    var limit: int
    var sllimit: int
    var sglimit: int

    constructor (ent: string)
      ensures this.ent == ent && clients == [] && lcount == 0 && gcount == 0 && limit == 0 && sllimit == 0 && sglimit == 0
    {
      this.ent := ent;
      clients, lcount, gcount, limit, sllimit, sglimit := [], 0, 0, 0, 0, 0;
    }

    /** gcount, and lcount for a local client, one up or down. */
    method Count(step: int, local: bool)
      modifies `gcount, `lcount
      ensures gcount == old(gcount) + step && lcount == old(lcount) + if local then step else 0
    {
      gcount := gcount + step;
      if local {
        lcount := lcount + step;
      }
    }

    predicate Blank()
      reads this
    {
      clients == [] && lcount == 0 && gcount == 0 && !Limited()
    }

    predicate Limited()
      reads this
    {
      limit != 0 || sllimit != 0 || sglimit != 0
    }
  }

  /** The limits of the client's class, and those of the configuration. */
  datatype Limits = Limits(classIp: int, classSite: int, localIp: int, localSite: int, globalIp: int, globalSite: int)

  /** The first limit that is set, or the last resort. */
  function First(a: int, b: int, default: int): int {
    if a != 0 then a else if b != 0 then b else default
  }

  datatype Kind = HardGlobal | SoftGlobal | SoftLocal

  class CloneTable {
    /** The hash, and the list of all entries, the newest first. */
    var table: map<string, CloneEnt>
    var list: seq<CloneEnt>
    ghost var online: set<Client>

    ghost predicate Sane()
      reads `online
    {
      forall c | c in online :: IsIp(c.ip)
    }

    /** The counts of entry k are those of the clients online, and an address lists its clients, each once. */
    ghost predicate Counts(k: string)
      reads `online, `table, table.Values
    {
      k in table ==>
        var e := table[k];
        && e.ent == k && e.gcount == |At(online, k)| && e.lcount == |Locals(At(online, k))|
        && NoDup(e.clients)
        && (forall c | c in e.clients :: c in online && c.ip == k)
        && (forall c | c in online && c.ip == k :: c in e.clients)
    }

    /** An entry is there when somebody counts for it, and otherwise only for the sake of a limit. */
    ghost predicate Needed(k: string)
      reads `online, `table, table.Values
    {
      && (At(online, k) != {} ==> k in table)
      && (k in table ==> At(online, k) != {} || table[k].Limited())
    }

    ghost predicate ListAgrees()
      reads `table, `list
    {
      && NoDup(list)
      && (forall e | e in list :: e.ent in table && table[e.ent] == e)
      && (forall k | k in table :: table[k].ent == k && table[k] in list)
    }

    ghost predicate Valid()
      reads this, table.Values
    {
      Sane() && ListAgrees() && forall k :: Counts(k) && Needed(k)
    }

    constructor ()
      ensures Valid() && online == {} && table == map[]
    {
      table, list, online := map[], [], {};
    }

    /** get_clone */
    method GetClone(key: string, create: bool) returns (ce: CloneEnt?)
      requires ListAgrees()
      modifies `table, `list
      ensures ListAgrees()
      ensures key in old(table) ==> ce == old(table[key]) && table == old(table) && list == old(list)
      ensures key !in old(table) && create ==> fresh(ce) && table == old(table)[key := ce]
      ensures key !in old(table) && create ==> ce.ent == key && ce.Blank()
      ensures ce != null ==> ce.ent == key
      ensures key !in old(table) && !create ==> ce == null && table == old(table) && list == old(list)
    {
      if key in table {
        return table[key];
      }
      if !create {
        return null;
      }
      var e := new CloneEnt(key);
      NoDupFront(list, e);
      table := table[key := e];
      list := [e] + list;
      ce := e;
    }

    /** get_clones: the entries of an address and of its site. */
    method GetClones(ip: string, create: bool) returns (ceip: CloneEnt?, ce24: CloneEnt?)
      requires ListAgrees() && IsIp(ip)
      modifies `table, `list
      ensures ListAgrees() && (!create ==> table == old(table) && list == old(list))
      ensures ceip == (if ip in table then table[ip] else null) && ce24 == (if Site(ip) in table then table[Site(ip)] else null)
      ensures create ==> ip in table && Site(ip) in table
      ensures forall k | k in old(table) :: k in table && table[k] == old(table[k])
      ensures forall k | k in table && k !in old(table) :: (k == ip || k == Site(ip)) && fresh(table[k]) && table[k].Blank()
    {
      hide ListAgrees, Site;
      var ip24 := Site(ip);
      ceip := GetClone(ip, create);
      ce24 := GetClone(ip24, create);
    }

    /** expire_clone: goes when nobody counts for it and no limit is set. */
    method ExpireClone(ce: CloneEnt)
      requires ListAgrees() && ce in list
      modifies `table, `list
      ensures ListAgrees()
      ensures table == if ce.gcount == 0 && !ce.Limited() then old(table) - {ce.ent} else old(table)
    {
      if ce.gcount != 0 || ce.limit != 0 || ce.sllimit != 0 || ce.sglimit != 0 {
        return;
      }
      WithoutFacts(list, ce);
      list := Unlink(list, ce);
      table := table - {ce.ent};
    }

    /** clones_add */
    method Add(c: Client)
      requires Valid() && IsIp(c.ip) && c !in online
      modifies this, table.Values
      ensures Valid() && online == old(online) + {c}
      ensures forall k | k in old(table) :: k in table && table[k] == old(table[k]) && Kept(table[k])
      ensures forall k | k in old(table) :: table[k].lcount == old(table[k].lcount) + if c.local && (k == c.ip || k == Site(c.ip)) then 1 else 0
      ensures forall k | k in table && k !in old(table) :: table[k].sllimit == 0
    {
      hide NoDup, At, Locals, Counts, Needed, Sane, Site, ListAgrees, OneMore;
      Enroll(c);
      online := online + {c};
      EntryAdded(c.ip, c);
      EntryAdded(Site(c.ip), c);
      OthersAdded(c);
    }

    /** The linking and the counting. */
    method Enroll(c: Client)
      requires ListAgrees() && IsIp(c.ip)
      modifies `table, `list, table.Values
      ensures ListAgrees() && c.ip in table && Site(c.ip) in table && OneMore(c.ip, c) && OneMore(Site(c.ip), c)
      ensures forall k | k in old(table) :: k in table && table[k] == old(table[k]) && Kept(table[k])
      ensures forall k | k in table && k !in old(table) :: (k == c.ip || k == Site(c.ip)) && table[k].sllimit == 0
      ensures forall e | e in old(table.Values) && e.ent != c.ip && e.ent != Site(c.ip) :: unchanged(e)
      ensures forall k | k in old(table) :: table[k].lcount == old(table[k].lcount) + if c.local && (k == c.ip || k == Site(c.ip)) then 1 else 0
    {
      hide NoDup, Site;
      assert c.ip != Site(c.ip) && c.ip != "";
      var ceip, ce24 := GetClones(c.ip, true);
      ceip.clients := [c] + ceip.clients;
      ceip.Count(1, c.local);
      ce24.Count(1, c.local);
    }

    /** Entry k, there or new, has one client more. */
    twostate predicate OneMore(k: string, c: Client)
      requires k in table
      reads `table, table.Values
    {
      && (k in old(table) ==>
            && table[k] == old(table[k]) && table[k].gcount == old(table[k].gcount) + 1
            && table[k].lcount == old(table[k].lcount) + (if c.local then 1 else 0)
            && table[k].clients == (if k == c.ip then [c] else []) + old(table[k].clients))
      && (k !in old(table) ==>
            && table[k].ent == k && table[k].gcount == 1 && table[k].lcount == (if c.local then 1 else 0)
            && table[k].clients == (if k == c.ip then [c] else []))
    }

    /** The entry of the new client's address, or of its site, counts it. */
    twostate lemma EntryAdded(new k: string, new c: Client)
      requires old(Valid()) && IsIp(c.ip) && c !in old(online) && online == old(online) + {c}
      requires (k == c.ip || k == Site(c.ip)) && k in table && OneMore(k, c)
      ensures Counts(k) && Needed(k)
    {
      assert old(Counts(k) && Needed(k));
      hide At, Locals;
      AtAdd(old(online), c, k);
      NoneAt(old(online), k);
      assert k == Site(c.ip) ==> c.ip != k;
    }

    /** Entries of other addresses and sites count what they counted. */
    twostate lemma OthersAdded(c: Client)
      requires old(Valid()) && IsIp(c.ip) && c !in old(online) && online == old(online) + {c} && ListAgrees()
      requires forall k | k != c.ip && k != Site(c.ip) :: (k in table <==> k in old(table))
      requires forall k | k in table && k != c.ip && k != Site(c.ip) :: table[k] == old(table[k])
      requires forall e | e in old(table.Values) && e.ent != c.ip && e.ent != Site(c.ip) :: unchanged(e)
      requires forall k | k == c.ip || k == Site(c.ip) :: Counts(k) && Needed(k)
      ensures Valid()
    {
      hide NoDup, At, Locals;
      forall k | k != c.ip && k != Site(c.ip)
        ensures Counts(k) && Needed(k)
      {
        AtAdd(old(online), c, k);
        assert k in table ==> old(table[k].ent) == k && table[k] in old(table.Values);
        assert old(Counts(k) && Needed(k));
      }
      hide Counts, Needed;
    }

    method ExpireClones(ceip: CloneEnt, ce24: CloneEnt)
      requires ListAgrees() && ceip in list && ce24 in list && ceip != ce24
      modifies `table, `list
      ensures ListAgrees() && (forall k | k in table :: k in old(table) && table[k] == old(table[k]))
      ensures forall k | k in old(table) && k != ceip.ent && k != ce24.ent :: k in table
      ensures ceip.ent in table <==> ceip.gcount != 0 || ceip.Limited()
      ensures ce24.ent in table <==> ce24.gcount != 0 || ce24.Limited()
    {
      hide NoDup, CloneEnt.Limited;
      assert ceip.ent != ce24.ent;
      ExpireClone(ceip);
      assert table[ce24.ent] == ce24;
      ExpireClone(ce24);
    }

    /** clones_remove */
    method Remove(c: Client)
      requires Valid() && c in online
      modifies this, table.Values
      ensures Valid() && online == old(online) - {c}
      ensures forall k | k in table :: k in old(table) && table[k] == old(table[k]) && Kept(table[k])
      ensures forall k | k in table :: table[k].lcount <= old(table[k].lcount)
    {
      hide NoDup, At, Locals, Counts, Sane, Site, Without, OneLess;
      BothEntries(c);
      hide Needed, ListAgrees;
      Withdraw(c);
      online := online - {c};
      EntryRemoved(c.ip, c);
      EntryRemoved(Site(c.ip), c);
      OthersRemoved(c);
    }

    /** Uncounts the client, and drops entries that are no longer needed. */
    method Withdraw(c: Client)
      requires ListAgrees() && IsIp(c.ip) && c.ip in table && Site(c.ip) in table && c.ip != Site(c.ip)
      modifies `table, `list, table.Values
      ensures ListAgrees() && OneLess(c.ip, c, old(table[c.ip])) && OneLess(Site(c.ip), c, old(table[Site(c.ip)]))
      ensures forall k | k != c.ip && k != Site(c.ip) :: k in table <==> k in old(table)
      ensures forall k | k in table :: k in old(table) && table[k] == old(table[k]) && Kept(table[k])
      ensures forall k | k in table :: table[k].lcount <= old(table[k].lcount)
      ensures forall e | e in old(table.Values) && e.ent != c.ip && e.ent != Site(c.ip) :: unchanged(e)
    {
      hide NoDup, Site, Without, CloneEnt.Limited;
      var ceip, ce24 := Uncount(c);
      ExpireClones(ceip, ce24);
    }

    /** Entry k has one client less, and is still there if it is needed. */
    twostate predicate OneLess(k: string, c: Client, e: CloneEnt)
      reads `table, e
    {
      && e.gcount == old(e.gcount) - 1 && e.lcount == old(e.lcount) - (if c.local then 1 else 0)
      && e.clients == (if k == c.ip then Without(old(e.clients), c) else old(e.clients))
      && (k in table <==> e.gcount != 0 || e.Limited()) && (k in table ==> table[k] == e)
    }

    /** The unlinking and the counting. */
    method Uncount(c: Client) returns (ceip: CloneEnt, ce24: CloneEnt)
      requires ListAgrees() && IsIp(c.ip) && c.ip in table && Site(c.ip) in table && c.ip != Site(c.ip)
      modifies `table, `list, table.Values
      ensures ListAgrees() && table == old(table) && list == old(list)
      ensures ceip == table[c.ip] && ce24 == table[Site(c.ip)] && ceip != ce24
      ensures ceip in list && ce24 in list && ceip.ent == c.ip && ce24.ent == Site(c.ip)
      ensures forall e | e in table.Values && e != ceip && e != ce24 :: unchanged(e)
      ensures Kept(ceip) && Kept(ce24) && ceip.clients == Without(old(ceip.clients), c) && ce24.clients == old(ce24.clients)
      ensures ceip.gcount == old(ceip.gcount) - 1 && ceip.lcount == old(ceip.lcount) - if c.local then 1 else 0
      ensures ce24.gcount == old(ce24.gcount) - 1 && ce24.lcount == old(ce24.lcount) - if c.local then 1 else 0
    {
      hide NoDup, Site;
      var x, y := GetClones(c.ip, false);
      ceip, ce24 := x, y;
      ceip.clients := Unlink(ceip.clients, c);
      ceip.Count(-1, c.local);
      ce24.Count(-1, c.local);
    }

    lemma BothEntries(c: Client)
      requires Valid() && c in online
      ensures IsIp(c.ip) && c.ip in table && Site(c.ip) in table && c.ip != Site(c.ip)
      ensures table[c.ip] != table[Site(c.ip)] && table[c.ip] in list && table[Site(c.ip)] in list
      ensures table[c.ip].ent == c.ip && table[Site(c.ip)].ent == Site(c.ip)
    {
      hide Site, NoDup;
      assert c in At(online, c.ip) && c in At(online, Site(c.ip));
      assert Needed(c.ip) && Needed(Site(c.ip));
    }

    twostate lemma EntryRemoved(new k: string, new c: Client)
      requires old(Valid()) && IsIp(c.ip) && c in old(online) && online == old(online) - {c}
      requires (k == c.ip || k == Site(c.ip)) && k in old(table)
      requires OneLess(k, c, old(table[k]))
      ensures Counts(k) && Needed(k)
    {
      assert old(Counts(k) && Needed(k));
      hide At, Locals, Without, NoDup, ListAgrees;
      AtRemove(old(online), c, k);
      WithoutFacts(old(table[k].clients), c);
      assert k == Site(c.ip) ==> c.ip != k;
    }

    twostate lemma OthersRemoved(new c: Client)
      requires old(Valid()) && IsIp(c.ip) && c in old(online) && online == old(online) - {c} && ListAgrees()
      requires forall k | k != c.ip && k != Site(c.ip) :: (k in table <==> k in old(table))
      requires forall k | k in table :: k in old(table) && table[k] == old(table[k])
      requires forall e | e in old(table.Values) && e.ent != c.ip && e.ent != Site(c.ip) :: unchanged(e)
      requires forall k | k == c.ip || k == Site(c.ip) :: Counts(k) && Needed(k)
      ensures Valid()
    {
      hide NoDup, At, Locals;
      forall k | k != c.ip && k != Site(c.ip)
        ensures Counts(k) && Needed(k)
      {
        AtRemove(old(online), c, k);
        assert k in table ==> old(table[k].ent) == k && table[k] in old(table.Values);
        assert old(Counts(k) && Needed(k));
      }
      hide Counts, Needed;
    }

    /** clones_set: the old limit, or -1; an entry nobody needs any more goes. */
    method Set(ent: string, kind: Kind, limit: int) returns (rval: int)
      requires Valid()
      modifies this, table.Values
      ensures Valid() && online == old(online)
      ensures |ent| > HOSTIPLEN || limit < 0 ==> rval == -1 && table == old(table)
      ensures |ent| <= HOSTIPLEN && limit >= 0 ==>
                && (kind != HardGlobal ==> Limit(ent, HardGlobal) == old(Limit(ent, HardGlobal)))
                && (kind != SoftLocal ==> Limit(ent, SoftLocal) == old(Limit(ent, SoftLocal)))
                && (kind == SoftLocal ==> Limit(ent, SoftGlobal) == old(Limit(ent, SoftGlobal)))
                && (kind == HardGlobal ==>
                      Limit(ent, SoftGlobal) == if limit != 0 && old(Limit(ent, SoftGlobal)) > limit then 0 else old(Limit(ent, SoftGlobal)))
      ensures |ent| <= HOSTIPLEN && limit >= 0 ==> Limit(ent, kind) == limit && rval == old(Limit(ent, kind))
      ensures forall k | k in table && k != ent :: k in old(table) && table[k] == old(table[k]) && Kept(table[k])
    {
      hide NoDup, At, Locals, Counts, Sane, Site, Needed;
      rval := 0;
      if |ent| > HOSTIPLEN || limit < 0 {
        return -1;
      }
      var ce := GetClone(ent, true);
      match kind {
        case HardGlobal =>
          rval := ce.limit;
          ce.limit := limit;
          if limit != 0 && ce.sglimit > limit {
            ce.sglimit := 0;
          }
        case SoftGlobal =>
          rval := ce.sglimit;
          ce.sglimit := limit;
        case SoftLocal =>
          rval := ce.sllimit;
          ce.sllimit := limit;
      }
      assert table[ent] == ce;
      ExpireClone(ce);
      LimitChanged(ent);
    }

    twostate lemma LimitChanged(new ent: string)
      requires old(Valid()) && online == old(online) && ListAgrees()
      requires forall k | k != ent :: (k in table <==> k in old(table)) && (k in table ==> table[k] == old(table[k]) && unchanged(table[k]))
      requires ent in table ==>
                 if ent in old(table)
                 then table[ent] == old(table[ent]) && table[ent].gcount == old(table[ent].gcount)
                      && table[ent].lcount == old(table[ent].lcount) && table[ent].clients == old(table[ent].clients)
                 else table[ent].gcount == 0 && table[ent].lcount == 0 && table[ent].clients == []
      requires ent in table ==> table[ent].gcount != 0 || table[ent].Limited()
      requires ent !in table && ent in old(table) ==> old(table[ent].gcount) == 0
      ensures Valid()
    {
      hide At, Locals, Site;
      NoneAt(online, ent);
      forall k
        ensures Counts(k) && Needed(k)
      {
        assert old(Counts(k) && Needed(k));
      }
      hide Counts, Needed;
    }

    /** The limit set for an entry: none when there is no entry. */
    ghost function Limit(k: string, kind: Kind): int
      reads `table, table.Values
    {
      if k !in table then 0
      else match kind
        case HardGlobal => table[k].limit
        case SoftGlobal => table[k].sglimit
        case SoftLocal => table[k].sllimit
    }

    /** clones_check: 1 when a limit of the address is hit, else 2 when one of the site is, else 0. */
    method Check(c: Client, lim: Limits) returns (r: int)
      requires Valid() && IsIp(c.ip)
      ensures r == if HostFull(c.ip, lim) then 1 else if SiteFull(c.ip, lim) then 2 else 0
    {
      hide Counts, Needed, ListAgrees, Site;
      var ceip: CloneEnt? := if c.ip in table then table[c.ip] else null;
      var ce24: CloneEnt? := if Site(c.ip) in table then table[Site(c.ip)] else null;
      var lpri, gpri := 0, 0;
      var limit: int;
      if ceip != null {
        if ceip.sllimit != 0 {
          lpri, limit := 3, ceip.sllimit;
        } else if lim.classIp != 0 {
          lpri, limit := 2, lim.classIp;
        } else {
          lpri, limit := 1, lim.localIp;
        }
        if ceip.lcount >= limit {
          return 1;
        }
        if ceip.sglimit != 0 {
          gpri, limit := 3, ceip.sglimit;
        } else if ceip.limit != 0 {
          gpri, limit := 2, ceip.limit;
        } else {
          gpri, limit := 1, lim.globalIp;
        }
        if ceip.gcount >= limit {
          return 1;
        }
      }
      if ce24 != null {
        if ce24.sllimit != 0 {
          if ce24.lcount >= ce24.sllimit {
            return 2;
          }
        } else if lpri <= 2 && lim.classSite != 0 {
          if ce24.lcount >= lim.classSite {
            return 2;
          }
        } else if lpri <= 1 {
          if ce24.lcount >= lim.localSite {
            return 2;
          }
        }
        if ce24.sglimit != 0 {
          if ce24.gcount >= ce24.sglimit {
            return 2;
          }
        } else if ce24.limit != 0 {
          if ce24.gcount >= ce24.limit {
            return 2;
          }
        } else if gpri <= 1 {
          if ce24.gcount >= lim.globalSite {
            return 2;
          }
        }
      }
      r := 0;
    }

    /** The address has as many clients as its limits of the highest priority allow. */
    ghost predicate HostFull(ip: string, lim: Limits)
      reads `table, table.Values
    {
      ip in table &&
        var e := table[ip];
        e.lcount >= First(e.sllimit, lim.classIp, lim.localIp) || e.gcount >= First(e.sglimit, e.limit, lim.globalIp)
    }

    /** So does the site, where a limit set for the address exempts it from limits of lower priority. */
    ghost predicate SiteFull(ip: string, lim: Limits)
      reads `table, table.Values
    {
      Site(ip) in table &&
        var e := table[Site(ip)];
        var soft := ip in table && table[ip].sllimit != 0;
        var classed := ip in table && lim.classIp != 0;
        var global := ip in table && (table[ip].sglimit != 0 || table[ip].limit != 0);
        || (e.sllimit != 0 && e.lcount >= e.sllimit)
        || (e.sllimit == 0 && !soft && lim.classSite != 0 && e.lcount >= lim.classSite)
        || (e.sllimit == 0 && !soft && lim.classSite == 0 && !classed && e.lcount >= lim.localSite)
        || (e.sglimit != 0 && e.gcount >= e.sglimit)
        || (e.sglimit == 0 && e.limit != 0 && e.gcount >= e.limit)
        || (e.sglimit == 0 && e.limit == 0 && !global && e.gcount >= lim.globalSite)
    }

    /** No soft local limit is exceeded. */
    ghost predicate WithinSoft()
      reads `table, table.Values
    {
      forall k | k in table && table[k].sllimit != 0 :: table[k].lcount <= table[k].sllimit
    }

    /** A local client is added directly after a check of 0: soft local limits that hold keep holding. */
    method Register(c: Client, lim: Limits) returns (r: int)
      requires Valid() && IsIp(c.ip) && c.local && c !in online
      modifies this, table.Values
      ensures Valid() && online == old(online) + if r == 0 then {c} else {}
      ensures old(WithinSoft()) ==> WithinSoft()
    {
      hide Counts, Needed, ListAgrees, Site, At;
      r := Check(c, lim);
      if r == 0 {
        Add(c);
      }
    }

    /** A remote client is added without a check, and does not count for local limits. */
    method Introduce(c: Client)
      requires Valid() && IsIp(c.ip) && !c.local && c !in online
      modifies this, table.Values
      ensures Valid() && online == old(online) + {c} && (old(WithinSoft()) ==> WithinSoft())
    {
      hide Counts, Needed, ListAgrees, Site, At;
      Add(c);
    }

    /** A client leaves. */
    method Leave(c: Client)
      requires Valid() && c in online
      modifies this, table.Values
      ensures Valid() && online == old(online) - {c} && (old(WithinSoft()) ==> WithinSoft())
    {
      hide Counts, Needed, ListAgrees, Site, At;
      Remove(c);
    }

    /** The limits of an entry are the same. */
    twostate predicate Kept(e: CloneEnt)
      reads e
    {
      e.limit == old(e.limit) && e.sllimit == old(e.sllimit) && e.sglimit == old(e.sglimit)
    }
  }

  lemma AtRemove(online: set<Client>, c: Client, k: string)
    requires c in online
    ensures |At(online - {c}, k)| == |At(online, k)| - if k == c.ip || k == Site(c.ip) then 1 else 0
    ensures |Locals(At(online - {c}, k))| == |Locals(At(online, k))| - if (k == c.ip || k == Site(c.ip)) && c.local then 1 else 0
  {
    AtAdd(online - {c}, c, k);
    assert online - {c} + {c} == online;
  }

  lemma NoneAt(online: set<Client>, k: string)
    ensures At(online, k) == {} ==> |Locals(At(online, k))| == 0 && forall c | c in online :: c.ip != k
  {
    assert forall c | c in online && c.ip == k :: c in At(online, k);
    assert At(online, k) == {} ==> Locals(At(online, k)) == {};
  }

  /** One client more counts for its address and its site, and for nothing else. */
  lemma AtAdd(online: set<Client>, c: Client, k: string)
    requires c !in online
    ensures c !in At(online, k)
    ensures |At(online + {c}, k)| == |At(online, k)| + if k == c.ip || k == Site(c.ip) then 1 else 0
    ensures |Locals(At(online + {c}, k))| == |Locals(At(online, k))| + if (k == c.ip || k == Site(c.ip)) && c.local then 1 else 0
  {
    var a, b := At(online, k), At(online + {c}, k);
    if k == c.ip || k == Site(c.ip) {
      assert b == a + {c};
      assert Locals(b) == if c.local then Locals(a) + {c} else Locals(a);
    } else {
      assert b == a;
    }
  }

  ghost function Total(online: set<Client>, hosts: seq<string>): nat {
    if hosts == [] then 0 else |At(online, hosts[0])| + Total(online, hosts[1..])
  }

  ghost function LocalTotal(online: set<Client>, hosts: seq<string>): nat {
    if hosts == [] then 0 else |Locals(At(online, hosts[0]))| + LocalTotal(online, hosts[1..])
  }

  /** What counts for a site, globally and locally, is the sum of what counts for its addresses. */
  lemma SiteIsSum(online: set<Client>, site: string, hosts: seq<string>)
    requires forall c | c in online :: IsIp(c.ip)
    requires NoDup(hosts) && forall h | h in hosts :: IsIp(h) && Site(h) == site
    requires forall c | c in online && Site(c.ip) == site :: c.ip in hosts
    requires site != "" && site[|site| - 1] == '*'
    ensures |At(online, site)| == Total(online, hosts)
    ensures |Locals(At(online, site))| == LocalTotal(online, hosts)
  {
    hide At, Site, IsIp, NoDup, Total, LocalTotal;
    SiteTotal(online, site, hosts);
    SiteTotal(Locals(online), site, hosts);
    LocalsAt(online, site);
    LocalTotalIs(online, hosts);
  }

  lemma LocalsAt(online: set<Client>, k: string)
    ensures Locals(At(online, k)) == At(Locals(online), k)
  {
  }

  lemma {:induction false} LocalTotalIs(online: set<Client>, hosts: seq<string>)
    ensures LocalTotal(online, hosts) == Total(Locals(online), hosts)
  {
    if hosts != [] {
      LocalsAt(online, hosts[0]);
      LocalTotalIs(online, hosts[1..]);
    }
  }

  lemma {:induction false} SiteTotal(online: set<Client>, site: string, hosts: seq<string>)
    requires forall c | c in online :: IsIp(c.ip)
    requires NoDup(hosts) && forall h | h in hosts :: IsIp(h) && Site(h) == site
    requires forall c | c in online && Site(c.ip) == site :: c.ip in hosts
    requires site != "" && site[|site| - 1] == '*'
    ensures |At(online, site)| == Total(online, hosts)
    decreases |hosts|
  {
    hide Site;
    if hosts == [] {
      assert At(online, site) == {};
    } else {
      var h, rest := hosts[0], hosts[1..];
      var others := online - At(online, h);
      assert h in hosts && h !in rest;
      SitePart(online, site, h);
      SiteTotal(others, site, rest);
      SameTotal(online, others, h, rest);
      assert |At(online, site)| == |At(online, h)| + |At(others, site)|;
      hide At, IsIp;
    }
  }

  lemma SitePart(online: set<Client>, site: string, h: string)
    requires (forall c | c in online :: IsIp(c.ip)) && IsIp(h) && Site(h) == site && site != "" && site[|site| - 1] == '*'
    ensures var others := online - At(online, h);
            && At(online, site) == At(online, h) + At(others, site) && At(online, h) !! At(others, site)
            && (forall c | c in others :: c.ip != h)
  {
    hide Site;
    StarLast();
    var others := online - At(online, h);
    forall c | c in online
      ensures (c in At(online, h) <==> c.ip == h) && (c in At(online, site) <==> Site(c.ip) == site)
    {
      assert IsIp(c.ip);
    }
    forall c | c in others
      ensures c.ip != h && (c in At(others, site) <==> Site(c.ip) == site)
    {
      assert c in online;
    }
    hide At;
    assert At(online, site) == At(online, h) + At(others, site);
  }

  lemma {:induction false} SameTotal(online: set<Client>, others: set<Client>, h: string, hosts: seq<string>)
    requires (forall c | c in online :: IsIp(c.ip)) && others == online - At(online, h)
    requires h !in hosts && IsIp(h) && forall k | k in hosts :: IsIp(k)
    ensures Total(others, hosts) == Total(online, hosts)
  {
    hide Site;
    if hosts != [] {
      assert At(others, hosts[0]) == At(online, hosts[0]) by {
        StarLast();
        assert hosts[0] in hosts;
      }
      SameTotal(online, others, h, hosts[1..]);
    }
  }

  lemma StarLast()
    ensures forall c: Client :: Site(c.ip) != "" && Site(c.ip)[|Site(c.ip)| - 1] == '*'
  {
  }
}
