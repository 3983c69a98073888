/** Ban, exempt and invite lists: their edits, the cached ban test, and the removal of matching masks. */
module BanLists {
  import opened Text
  import opened ModeLine
  import opened MaskBatch
  import Match
  import Masks

  const MAXBANS := 100
  const MAXEXEMPTLIST := 45
  const MAXINVITELIST := 100
  const UINT := 0x1_0000_0000

  /** The add functions refuse: full, or matched already, for a local client; the same mask there, for others. */
  predicate Refused(local: bool, list: seq<string>, most: nat, mask: string) {
    if local then |list| >= most || exists k | 0 <= k < |list| :: Match.Matches(list[k], mask)
    else HasMask(list, mask)
  }

  lemma SparedAre(masks: seq<string>, nick: string, user: string, host: string, ip: string)
    ensures forall m :: m in Spared(masks, Hit(nick, user, host, ip)) <==>
              (m in masks && !Match.Matches(m, Masks.NickUserHost(nick, user, host)) && !Match.Matches(m, Masks.NickUserHost(nick, user, ip)))
  {
    hide Match.Matches, Masks.NickUserHost;
    var hit := Hit(nick, user, host, ip);
    HitsFacts(masks, m => !hit(m));
  }

  /** No two masks are the same under mycmp. */
  ghost predicate Unique(masks: seq<string>) {
    forall i, j | 0 <= i < j < |masks| :: !SameName(masks[i], masks[j])
  }

  /** A mask that is not refused is not there yet: match() would have found an equal one. */
  lemma NotThere(local: bool, list: seq<string>, most: nat, mask: string)
    requires !Refused(local, list, most, mask) && |mask| <= MASK_LEN
    ensures forall m | m in list :: !SameName(m, mask) && !SameName(mask, m)
    ensures !HasMask(list, mask)
  {
    forall k | 0 <= k < |list|
      ensures !SameName(list[k], mask) && !SameName(mask, list[k])
    {
      if SameName(list[k], mask) || SameName(mask, list[k]) {
        Match.EqualMatches(list[k], mask);
      }
    }
  }

  lemma StaysUnique(list: seq<string>, mask: string)
    requires Unique(list) && forall m | m in list :: !SameName(m, mask) && !SameName(mask, m)
    ensures Unique([mask] + list)
  {
  }

  /** Does a mask match the client under its host, or under its address? */
  function Hit(nick: string, user: string, host: string, ip: string): string -> bool {
    var targhost, targip := Masks.NickUserHost(nick, user, host), Masks.NickUserHost(nick, user, ip);
    m => Match.Matches(m, targhost) || Match.Matches(m, targip)
  }

  /** The masks that are hit, and those that are not, in list order. */
  function Hits(masks: seq<string>, hit: string -> bool): seq<string> {
    if masks == [] then []
    else Hits(masks[..|masks| - 1], hit) + if hit(masks[|masks| - 1]) then [masks[|masks| - 1]] else []
  }

  function Spared(masks: seq<string>, hit: string -> bool): seq<string> {
    Hits(masks, m => !hit(m))
  }

  lemma {:induction false} HitsFacts(masks: seq<string>, hit: string -> bool)
    ensures forall m :: m in Hits(masks, hit) <==> m in masks && hit(m)
  {
    if masks != [] {
      var init := masks[..|masks| - 1];
      HitsFacts(init, hit);
      assert masks == init + [masks[|masks| - 1]];
    }
  }

  lemma {:induction false} HitOrSpared(masks: seq<string>, hit: string -> bool)
    ensures |Hits(masks, hit)| + |Spared(masks, hit)| == |masks|
    ensures Hits(masks, hit) == [] ==> Spared(masks, hit) == masks
  {
    if masks != [] {
      HitOrSpared(masks[..|masks| - 1], hit);
      assert masks == masks[..|masks| - 1] + [masks[|masks| - 1]];
    }
  }

  lemma {:induction false} DropPlace(masks: seq<string>, m: string, i: nat)
    requires i < |masks| && SameName(masks[i], m) && forall j | 0 <= j < i :: !SameName(masks[j], m)
    ensures DropMask(masks, m) == masks[..i] + masks[i + 1..]
  {
    hide SameName;
    if i > 0 {
      assert forall j | 0 <= j < i - 1 :: masks[1..][j] == masks[j + 1];
      DropPlace(masks[1..], m, i - 1);
      assert masks[1..][i..] == masks[i + 1..];
    }
  }

  lemma {:induction false} DropNone(masks: seq<string>, m: string)
    requires !HasMask(masks, m)
    ensures DropMask(masks, m) == masks
  {
    hide SameName;
    if masks != [] {
      assert forall j | 0 <= j < |masks| - 1 :: masks[1..][j] == masks[j + 1];
      DropNone(masks[1..], m);
    }
  }

  /** The loop that unlinks the first mask that is the same. */
  method Unlink(masks: seq<string>, m: string) returns (r: seq<string>, found: bool)
    ensures r == DropMask(masks, m) && (found <==> HasMask(masks, m)) && (found <==> r != masks)
  {
    hide SameName;
    for i := 0 to |masks|
      invariant forall j | 0 <= j < i :: !SameName(masks[j], m)
    {
      if SameName(masks[i], m) {
        DropPlace(masks, m, i);
        r := masks[..i] + masks[i + 1..];
        assert |r| == |masks| - 1;
        return r, true;
      }
    }
    DropNone(masks, m);
    return masks, false;
  }

  lemma UniqueDrop(masks: seq<string>, m: string)
    requires Unique(masks)
    ensures Unique(DropMask(masks, m))
  {
    hide SameName;
    if HasMask(masks, m) {
      var i := FirstSame(masks, m);
      DropPlace(masks, m, i);
    } else {
      DropNone(masks, m);
    }
  }

  lemma {:induction false} FirstSame(masks: seq<string>, m: string) returns (i: nat)
    requires HasMask(masks, m)
    ensures i < |masks| && SameName(masks[i], m) && forall j | 0 <= j < i :: !SameName(masks[j], m)
  {
    hide SameName;
    if SameName(masks[0], m) {
      i := 0;
    } else {
      var k :| 0 <= k < |masks| && SameName(masks[k], m);
      assert masks[1..][k - 1] == masks[k];
      var j := FirstSame(masks[1..], m);
      i := j + 1;
    }
  }

  /** What changes the lists a ban test looks at. */
  datatype Edit =
    | AddBan(local: bool, mask: string)
    | AddExempt(local: bool, mask: string)
    | DelBan(mask: string)
    | DelExempt(mask: string)
    | RemoveMatching(nick: string, user: string, host: string, ip: string)
    | KillLists

  datatype Tested = Tested(bans: seq<string>, exempts: seq<string>)

  predicate Legal(e: Edit) {
    e.AddBan? || e.AddExempt? ==> IsWord(e.mask) && |e.mask| <= MASK_LEN
  }

  function Edited(l: Tested, e: Edit): Tested {
    match e
    case AddBan(local, mask) => if Refused(local, l.bans, MAXBANS, mask) then l else l.(bans := [mask] + l.bans)
    case AddExempt(local, mask) => if Refused(local, l.exempts, MAXEXEMPTLIST, mask) then l else l.(exempts := [mask] + l.exempts)
    case DelBan(mask) => l.(bans := DropMask(l.bans, mask))
    case DelExempt(mask) => l.(exempts := DropMask(l.exempts, mask))
    case RemoveMatching(nick, user, host, ip) => l.(bans := Spared(l.bans, Hit(nick, user, host, ip)))
    case KillLists => Tested([], [])
  }

  function EditedAll(l: Tested, run: seq<Edit>): Tested
    decreases |run|
  {
    if run == [] then l else EditedAll(Edited(l, run[0]), run[1..])
  }

  lemma LegalAdd(masks: seq<string>, m: string)
    requires LegalMasks(masks) && IsWord(m) && |m| <= MASK_LEN
    ensures LegalMasks([m] + masks)
  {
  }

  lemma {:induction false} LegalDrop(masks: seq<string>, m: string)
    requires LegalMasks(masks)
    ensures LegalMasks(DropMask(masks, m))
  {
    hide IsWord, SameName;
    if masks != [] {
      LegalDrop(masks[1..], m);
    }
  }

  lemma LegalSpared(masks: seq<string>, hit: string -> bool)
    requires LegalMasks(masks)
    ensures LegalMasks(Spared(masks, hit))
  {
    HitsFacts(masks, m => !hit(m));
  }

  /** The four masks a person is looked up under. */
  type Person = seq<string>

  predicate Matched(list: seq<string>, who: Person) {
    exists i, j :: 0 <= i < |list| && 0 <= j < |who| && Match.Matches(list[i], who[j])
  }

  /** The full search of is_banned: a ban matches, and no exempt does. */
  predicate Banned(bans: seq<string>, exempts: seq<string>, who: Person) {
    !Matched(exempts, who) && Matched(bans, who)
  }

  /** Some mask of the list, read as a mask, stands for one of the person's four. */
  ghost predicate Meets(list: seq<string>, who: Person) {
    exists i, j :: 0 <= i < |list| && 0 <= j < |who| && Match.Glob(list[i], who[j])
  }

  /** The matcher has calls enough, and one separator of each kind to look for. */
  ghost predicate Decided(list: seq<string>, who: Person) {
    forall i, j :: 0 <= i < |list| && 0 <= j < |who| ==>
      Match.Separated(who[j]) && Match.Try(list[i], who[j], 0).1 <= Match.MAX_CALLS + 1
  }

  lemma MatchedMeans(list: seq<string>, who: Person)
    ensures Matched(list, who) ==> Meets(list, who)
    ensures Decided(list, who) ==> (Matched(list, who) <==> Meets(list, who))
  {
    forall i, j | 0 <= i < |list| && 0 <= j < |who|
      ensures Match.Matches(list[i], who[j]) ==> Match.Glob(list[i], who[j])
      ensures Decided(list, who) ==> (Match.Matches(list[i], who[j]) <==> Match.Glob(list[i], who[j]))
    {
      Match.MatchesMeans(list[i], who[j]);
    }
    hide Match.Matches, Match.Glob, Match.Try, Match.Separated;
  }

  /** The masks of a person whose nick, user and host hold no separator have one of each. */
  lemma PersonSeparated(nick: string, user: string, host: string)
    requires '!' !in nick && '@' !in nick && '!' !in user && '@' !in user && '!' !in host && '@' !in host
    ensures Match.Separated(Masks.NickUserHost(nick, user, host))
  {
    hide Masks.NickUserHost;
    var n, u, h := Masks.MaskParts(nick, user, host);
    NoSeparator(n, nick, Masks.NICK_LEN);
    NoSeparator(u, user, Masks.USER_LEN);
    NoSeparator(h, host, Masks.HOST_LEN);
  }

  lemma NoSeparator(part: string, s: string, most: nat)
    requires Masks.IsCut(part, s, most) && '!' !in s && '@' !in s
    ensures '!' !in part && '@' !in part
  {
    if s != "" && !IsSpace(s[0]) {
      assert part == s[..|part|];
    }
  }

  /** chanMember, for a person whose masks stay the same. */
  class Seat {
    const who: Person
    var banserial: nat
    var banned: bool
    /** The channel's edits when the entry was last set. */
    ghost var edits: nat

    constructor (who: Person)
      ensures this.who == who
    {
      this.who := who;
      banserial, banned, edits := 0, false, 0;
    }
  }

  class Channel {
    var bans: seq<string>
    var exempts: seq<string>
    var invites: seq<string>
    /** An unsigned int. */
    var banserial: nat
    /** How often the bans or exempts were changed. */
    ghost var edits: nat

    ghost predicate Valid()
      reads this
    {
      && Unique(bans) && Unique(exempts) && Unique(invites)
      && banserial == edits % UINT
    }

    /** The entry is what the full search said after that many edits. */
    ghost predicate Cached(s: Seat)
      reads this, s
    {
      && s.edits <= edits && s.banserial == s.edits % UINT
      && (s.edits == edits ==> s.banned == Banned(bans, exempts, s.who))
    }

    constructor ()
      ensures Valid() && bans == [] && exempts == [] && invites == []
    {
      bans, exempts, invites, banserial, edits := [], [], [], 0, 0;
    }

    /** The loop at the start of the add functions: may the mask be added? */
    method MayAdd(list: seq<string>, local: bool, mask: string, most: nat) returns (ok: bool)
      requires most > 0
      ensures ok <==> !Refused(local, list, most, mask)
    {
      var cnt := 0;
      for i := 0 to |list|
        invariant cnt == if local then i else 0
        invariant local ==> i < most && forall j | 0 <= j < i :: !Match.Matches(list[j], mask)
        invariant !local ==> forall j | 0 <= j < i :: !SameName(list[j], mask)
      {
        if local {
          cnt := cnt + 1;
          if cnt >= most {
            return false;
          }
          if Match.Matches(list[i], mask) {
            return false;
          }
        } else if SameName(list[i], mask) {
          return false;
        }
      }
      ok := true;
    }

    /** add_banid: 0 when added */
    method AddBan(local: bool, mask: string) returns (ok: bool)
      requires Valid() && |mask| <= MASK_LEN
      modifies this
      ensures Valid() && exempts == old(exempts) && invites == old(invites)
      ensures ok ==> bans == [mask] + old(bans) && !HasMask(old(bans), mask) && edits == old(edits) + 1
      ensures !ok ==> bans == old(bans) && edits == old(edits)
      ensures ok <==> !Refused(local, old(bans), MAXBANS, mask)
    {
      hide Refused, HasMask, SameName, Unique;
      ok := MayAdd(bans, local, mask, MAXBANS);
      if ok {
        NotThere(local, bans, MAXBANS, mask);
        StaysUnique(bans, mask);
        bans := [mask] + bans;
        banserial := (banserial + 1) % UINT;
        edits := edits + 1;
      }
    }

    /** add_exempt_id */
    method AddExempt(local: bool, mask: string) returns (ok: bool)
      requires Valid() && |mask| <= MASK_LEN
      modifies this
      ensures Valid() && bans == old(bans) && invites == old(invites)
      ensures ok ==> exempts == [mask] + old(exempts) && !HasMask(old(exempts), mask) && edits == old(edits) + 1
      ensures !ok ==> exempts == old(exempts) && edits == old(edits)
      ensures ok <==> !Refused(local, old(exempts), MAXEXEMPTLIST, mask)
    {
      hide Refused, HasMask, SameName, Unique;
      ok := MayAdd(exempts, local, mask, MAXEXEMPTLIST);
      if ok {
        NotThere(local, exempts, MAXEXEMPTLIST, mask);
        StaysUnique(exempts, mask);
        exempts := [mask] + exempts;
        banserial := (banserial + 1) % UINT;
        edits := edits + 1;
      }
    }

    /** del_banid: a change is counted exactly when there is one. */
    method DelBan(mask: string)
      requires Valid()
      modifies this
      ensures Valid() && bans == DropMask(old(bans), mask) && exempts == old(exempts) && invites == old(invites)
      ensures edits == old(edits) + if HasMask(old(bans), mask) then 1 else 0
      ensures edits == old(edits) <==> bans == old(bans)
    {
      hide HasMask, SameName, Unique, DropMask;
      UniqueDrop(bans, mask);
      var found;
      bans, found := Unlink(bans, mask);
      if found {
        banserial := (banserial + 1) % UINT;
        edits := edits + 1;
      }
    }

    /** del_exempt_id */
    method DelExempt(mask: string)
      requires Valid()
      modifies this
      ensures Valid() && exempts == DropMask(old(exempts), mask) && bans == old(bans) && invites == old(invites)
      ensures edits == old(edits) + if HasMask(old(exempts), mask) then 1 else 0
      ensures edits == old(edits) <==> exempts == old(exempts)
    {
      hide HasMask, SameName, Unique, DropMask;
      UniqueDrop(exempts, mask);
      var found;
      exempts, found := Unlink(exempts, mask);
      if found {
        banserial := (banserial + 1) % UINT;
        edits := edits + 1;
      }
    }

    /** The end of kill_ban_list: all three lists are freed. */
    method FreeLists()
      requires Valid()
      modifies this
      ensures Valid() && bans == [] && exempts == [] && invites == [] && edits == old(edits) + 1
    {
      bans, exempts, invites := [], [], [];
      banserial := (banserial + 1) % UINT;
      edits := edits + 1;
    }

    /** The loops over exempts and bans. */
    method AnyMatch(list: seq<string>, who: Person) returns (r: bool)
      ensures r <==> Matched(list, who)
    {
      for i := 0 to |list|
        invariant forall k, j | 0 <= k < i && 0 <= j < |who| :: !Match.Matches(list[k], who[j])
      {
        for j := 0 to |who|
          invariant forall l | 0 <= l < j :: !Match.Matches(list[i], who[l])
        {
          if Match.Matches(list[i], who[j]) {
            return true;
          }
        }
      }
      r := false;
    }

    /** is_banned with a null member: the full search. */
    method Search(who: Person) returns (r: bool)
      ensures r == Banned(bans, exempts, who)
      ensures r ==> Meets(bans, who)
      ensures Decided(bans, who) && Decided(exempts, who) ==> (r <==> Meets(bans, who) && !Meets(exempts, who))
    {
      MatchedMeans(bans, who);
      MatchedMeans(exempts, who);
      hide Matched, Meets, Decided;
      var exempt := AnyMatch(exempts, who);
      if exempt {
        return false;
      }
      r := AnyMatch(bans, who);
    }

    /**
     is_banned with a member's entry: what the full search returns, unless a multiple of 2^32 edits
     (and not none) lie between now and when the entry was set.
     */
    method IsBanned(s: Seat) returns (r: bool)
      requires Valid() && Cached(s)
      modifies s
      ensures Cached(s)
      ensures r == if (edits - old(s.edits)) % UINT == 0 then old(s.banned) else Banned(bans, exempts, s.who)
      ensures edits - old(s.edits) < UINT ==> r == Banned(bans, exempts, s.who)
    {
      hide Banned;
      if s.banserial == banserial {
        SameSerial(s.edits, edits);
        return s.banned;
      }
      r := Search(s.who);
      s.banserial := banserial;
      s.banned := r;
      s.edits := edits;
    }

    ghost function Lists(): Tested
      reads this
    {
      Tested(bans, exempts)
    }

    /** Any edit: what the lists are afterwards, and that none that changes them goes uncounted. */
    method Apply(e: Edit)
      requires Valid() && LegalMasks(bans) && Legal(e)
      modifies this
      ensures Valid() && LegalMasks(bans) && Lists() == Edited(old(Lists()), e)
      ensures edits >= old(edits) && (edits == old(edits) ==> Lists() == old(Lists()))
    {
      hide Refused, LegalMasks, IsWord, DropMask, HasMask, Hits, Spared, Hit, Unique;
      ghost var before := bans;
      match e
      case AddBan(local, mask) =>
        var ok := AddBan(local, mask);
        if ok {
          LegalAdd(before, mask);
        }
      case AddExempt(local, mask) =>
        var _ := AddExempt(local, mask);
      case DelBan(mask) =>
        LegalDrop(bans, mask);
        DelBan(mask);
      case DelExempt(mask) =>
        DelExempt(mask);
      case RemoveMatching(nick, user, host, ip) =>
        LegalSpared(bans, Hit(nick, user, host, ip));
        var _ := RemoveMatchingBans(nick, user, host, ip);
      case KillLists =>
        FreeLists();
        NoneLegal();
    }

    lemma NoneLegal()
      ensures LegalMasks([])
    {
    }

    /** Any edits, one after another: every member's entry still is what the search said at its time. */
    method Run(run: seq<Edit>, ghost seats: set<Seat>)
      requires Valid() && LegalMasks(bans) && (forall e | e in run :: Legal(e)) && forall s | s in seats :: Cached(s)
      modifies this
      ensures Valid() && LegalMasks(bans) && Lists() == EditedAll(old(Lists()), run)
      ensures edits >= old(edits) && forall s | s in seats :: Cached(s)
    {
      hide LegalMasks, Legal, Edited, Valid, Banned;
      assert run[0..] == run;
      for i := 0 to |run|
        invariant Valid() && LegalMasks(bans) && EditedAll(Lists(), run[i..]) == EditedAll(old(Lists()), run)
        invariant edits >= old(edits) && forall s | s in seats :: Cached(s)
      {
        assert run[i] in run && run[i..][0] == run[i] && run[i..][1..] == run[i + 1..];
        Apply(run[i]);
      }
    }

    /** A test after any edits: the answer the lists then give, but for a multiple of 2^32 edits in between. */
    method TestAfter(run: seq<Edit>, s: Seat) returns (r: bool)
      requires Valid() && LegalMasks(bans) && (forall e | e in run :: Legal(e)) && Cached(s)
      modifies this, s
      ensures Cached(s) && Lists() == EditedAll(old(Lists()), run)
      ensures var now := EditedAll(old(Lists()), run);
              r == if (edits - old(s.edits)) % UINT == 0 then old(s.banned) else Banned(now.bans, now.exempts, s.who)
      ensures var now := EditedAll(old(Lists()), run);
              edits - old(s.edits) < UINT ==> r == Banned(now.bans, now.exempts, s.who)
    {
      hide LegalMasks, Legal, EditedAll, Valid, Banned;
      Run(run, {s});
      r := IsBanned(s);
    }

    /** add_user_to_channel stamps a new member as not banned, without a search: right exactly when that is so. */
    method Stamp(s: Seat)
      requires Valid()
      modifies s
      ensures Cached(s) <==> !Banned(bans, exempts, s.who)
    {
      s.banserial := banserial;
      s.banned := false;
      s.edits := edits;
    }

    /**
     remove_matching_bans: exactly the bans that match the client's host or address go, each is reported
     once, in list order, as -b on lines within the limits.
     */
    method RemoveMatchingBans(nick: string, user: string, host: string, ip: string) returns (lines: seq<Line>)
      requires Valid() && LegalMasks(bans)
      modifies this
      ensures var hit := Hit(nick, user, host, ip);
              && Valid() && bans == Spared(old(bans), hit) && exempts == old(exempts) && invites == old(invites)
              && edits == old(edits) + |Hits(old(bans), hit)| && (edits == old(edits) <==> bans == old(bans))
              && Lines(lines) && AllItems(lines) == ListItems('b', Hits(old(bans), hit))
      ensures forall l | l in lines :: WithinLimits(l, '-', MAX_TS_MODE_PARAMS)
      ensures forall m :: m in bans <==>
                (m in old(bans) && !Match.Matches(m, Masks.NickUserHost(nick, user, host)) && !Match.Matches(m, Masks.NickUserHost(nick, user, ip)))
    {
      ghost var before := bans;
      SparedAre(before, nick, user, host, ip);
      lines := RemoveHits(Hit(nick, user, host, ip));
      HitOrSpared(before, Hit(nick, user, host, ip));
      hide *;
    }

    /** The loop, for bans that are hit. */
    method RemoveHits(hit: string -> bool) returns (lines: seq<Line>)
      requires Valid() && LegalMasks(bans)
      modifies this
      ensures Valid() && bans == Spared(old(bans), hit) && exempts == old(exempts) && invites == old(invites)
      ensures edits == old(edits) + |Hits(old(bans), hit)|
      ensures Lines(lines) && AllItems(lines) == ListItems('b', Hits(old(bans), hit))
      ensures forall l | l in lines :: WithinLimits(l, '-', MAX_TS_MODE_PARAMS)
    {
      hide *;
      var printer := StartLine();
      var nodes := bans;
      Start(hit, printer);
      for i := 0 to |nodes|
        invariant Removing(nodes, i, hit, printer, old(edits)) && fresh(printer)
        invariant exempts == old(exempts) && invites == old(invites)
      {
        OneNode(nodes, i, hit, printer, old(edits));
      }
      AllRemoved(nodes, hit, printer, old(edits));
      printer.Flush();
      lines := printer.sent;
    }

    /** The first i of the nodes are done: those hit are reported and gone. */
    ghost predicate Removing(nodes: seq<string>, i: nat, hit: string -> bool, printer: Printer, edits0: nat)
      reads this, printer
    {
      && i <= |nodes| && Valid() && printer.Valid() && Unique(nodes) && LegalMasks(nodes)
      && bans == Spared(nodes[..i], hit) + nodes[i..]
      && printer.printed == ListItems('b', Hits(nodes[..i], hit))
      && edits == edits0 + |Hits(nodes[..i], hit)|
    }

    /** One round of the loop. */
    method OneNode(nodes: seq<string>, i: nat, hit: string -> bool, printer: Printer, ghost edits0: nat)
      requires i < |nodes| && Removing(nodes, i, hit, printer, edits0)
      modifies this, printer
      ensures Removing(nodes, i + 1, hit, printer, edits0) && exempts == old(exempts) && invites == old(invites)
    {
      hide Printer.Valid, Valid, Unique, Hits, Spared, ListItems, IsWord;
      NextItem(nodes, i, hit);
      if hit(nodes[i]) {
        LegalMask(nodes, i);
        ReportAndDelete(printer, nodes[i], nodes, i, hit);
      }
    }

    lemma AllRemoved(nodes: seq<string>, hit: string -> bool, printer: Printer, edits0: nat)
      requires Removing(nodes, |nodes|, hit, printer, edits0)
      ensures Valid() && printer.Valid() && bans == Spared(nodes, hit) && printer.printed == ListItems('b', Hits(nodes, hit))
      ensures edits == edits0 + |Hits(nodes, hit)|
    {
      assert nodes[..|nodes|] == nodes && nodes[|nodes|..] == [];
      assert Spared(nodes, hit) + [] == Spared(nodes, hit);
    }

    lemma LegalMask(masks: seq<string>, i: nat)
      requires LegalMasks(masks) && i < |masks|
      ensures IsWord(masks[i]) && |masks[i]| <= MASK_LEN
    {
      assert masks[i] in masks;
    }

    /** A ban that matches is reported, and deleted by its text. */
    method ReportAndDelete(printer: Printer, m: string, ghost all: seq<string>, ghost i: nat, ghost hit: string -> bool)
      requires Valid() && printer.Valid() && IsWord(m) && |m| <= MASK_LEN
      requires Unique(all) && i < |all| && all[i] == m && bans == Spared(all[..i], hit) + all[i..]
      modifies this, printer
      ensures Valid() && printer.Valid() && exempts == old(exempts) && invites == old(invites)
      ensures printer.printed == old(printer.printed) + [Item('b', m)]
      ensures bans == Spared(all[..i], hit) + all[i + 1..] && edits == old(edits) + 1
    {
      hide *;
      KeptThenHit(all, i, hit);
      AMaskLetter();
      printer.Put('b', m);
      DelBan(m);
    }

    /** The buffers before the loop: a minus sign, and no parameters. */
    method StartLine() returns (printer: Printer)
      ensures fresh(printer) && printer.Valid() && printer.printed == [] && printer.sent == []
      ensures printer.sign == '-' && printer.most == MAX_TS_MODE_PARAMS
    {
      printer := new Printer('-', 10, MAX_TS_MODE_PARAMS);
    }

    lemma AMaskLetter()
      ensures MaskLetter('b')
    {
    }

    lemma Start(hit: string -> bool, printer: Printer)
      requires Valid() && LegalMasks(bans) && printer.Valid() && printer.printed == []
      ensures Removing(bans, 0, hit, printer, edits)
    {
      assert Spared(bans[..0], hit) + bans[0..] == bans;
    }
  }

  lemma SameSerial(a: nat, b: nat)
    requires a % UINT == b % UINT && a <= b
    ensures (b - a) % UINT == 0 && (b - a < UINT ==> a == b)
  {
  }

  lemma ItemsGrow(letter: char, masks: seq<string>, m: string)
    ensures ListItems(letter, masks + [m]) == ListItems(letter, masks) + [Item(letter, m)]
  {
  }

  /** With masks unique, dropping the mask at hand drops that very one: nothing before it is the same. */
  lemma KeptThenHit(all: seq<string>, i: nat, hit: string -> bool)
    requires Unique(all) && i < |all|
    ensures var bans := Spared(all[..i], hit) + all[i..];
            HasMask(bans, all[i]) && DropMask(bans, all[i]) == Spared(all[..i], hit) + all[i + 1..]
  {
    hide SameName, DropMask;
    var kept := Spared(all[..i], hit);
    var bans, k := kept + all[i..], |kept|;
    HitsFacts(all[..i], m => !hit(m));
    assert bans[k] == all[i];
    SelfSame(all[i]);
    forall j | 0 <= j < k
      ensures !SameName(bans[j], all[i])
    {
      assert bans[j] in all[..i];
    }
    DropPlace(bans, all[i], k);
    assert bans[k + 1..] == all[i + 1..] && bans[..k] == kept;
  }

  lemma SelfSame(m: string)
    ensures SameName(m, m)
  {
  }

  lemma DropLast(v: View, items: seq<Item>, m: string)
    ensures var w := FoldItems(v, false, items);
            FoldItems(v, false, items + [Item('b', m)]) == w.(bans := DropMask(w.bans, m))
  {
    hide DropMask;
    var all := items + [Item('b', m)];
    assert all[..|all| - 1] == items;
  }

  lemma NextItem(all: seq<string>, i: nat, hit: string -> bool)
    requires i < |all|
    ensures var before, after := Hits(all[..i], hit), Hits(all[..i + 1], hit);
            if hit(all[i])
            then ListItems('b', after) == ListItems('b', before) + [Item('b', all[i])] && |after| == |before| + 1 && Spared(all[..i + 1], hit) == Spared(all[..i], hit)
            else after == before && Spared(all[..i + 1], hit) + all[i + 1..] == Spared(all[..i], hit) + all[i..]
  {
    hide Hits, Spared, ListItems;
    HitsNext(all, i, hit);
    ItemsGrow('b', Hits(all[..i], hit), all[i]);
  }

  lemma HitsNext(all: seq<string>, i: nat, hit: string -> bool)
    requires i < |all|
    ensures Hits(all[..i + 1], hit) == Hits(all[..i], hit) + if hit(all[i]) then [all[i]] else []
    ensures Spared(all[..i + 1], hit) == Spared(all[..i], hit) + if hit(all[i]) then [] else [all[i]]
    ensures !hit(all[i]) ==> Hits(all[..i + 1], hit) == Hits(all[..i], hit) && Spared(all[..i], hit) + all[i..] == Spared(all[..i + 1], hit) + all[i + 1..]
  {
    assert all[..i + 1][..i] == all[..i];
  }

  /** A server or client with the same bans that obeys the reported removals keeps the same bans. */
  lemma {:induction false} RemovalObeyed(v: View, all: seq<string>, i: nat, hit: string -> bool)
    requires Unique(all) && i <= |all| && v.bans == all
    ensures FoldItems(v, false, ListItems('b', Hits(all[..i], hit))) == v.(bans := Spared(all[..i], hit) + all[i..])
  {
    hide *;
    if i == 0 {
      NothingRemoved(v, all, hit);
    } else {
      RemovalObeyed(v, all, i - 1, hit);
      HitsNext(all, i - 1, hit);
      var gone := Hits(all[..i - 1], hit);
      if hit(all[i - 1]) {
        ItemsGrow('b', gone, all[i - 1]);
        DropLast(v, ListItems('b', gone), all[i - 1]);
        KeptThenHit(all, i - 1, hit);
      } else {
        assert gone + [] == gone;
      }
    }
  }

  lemma NothingRemoved(v: View, all: seq<string>, hit: string -> bool)
    requires v.bans == all
    ensures FoldItems(v, false, ListItems('b', Hits(all[..0], hit))) == v.(bans := Spared(all[..0], hit) + all[0..])
  {
    assert Spared(all[..0], hit) + all[0..] == all;
  }

  lemma LinesRemove(v: View, bans: seq<string>, lines: seq<Line>, hit: string -> bool)
    requires Unique(bans) && v.bans == bans
    requires forall l | l in lines :: MaskLine(l, '-')
    requires Lines(lines) && AllItems(lines) == ListItems('b', Hits(bans, hit))
    ensures Replay(v, AsEvents(lines)) == v.(bans := Spared(bans, hit))
  {
    hide Replay, AllItems, ListItems;
    ReplayMaskLines(v, lines, '-');
    RemovalObeyed(v, bans, |bans|, hit);
    assert bans[..|bans|] == bans;
    assert Spared(bans, hit) + bans[|bans|..] == Spared(bans, hit);
  }
}
