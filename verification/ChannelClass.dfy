/**
 struct Channel and the step-by-step run of m_sjoin on it, with the MODE and JOIN lines it sends
 to the channel's local clients.
 */
module ChannelClass {
  import opened Text
  import opened ModeLine
  import opened Merge
  import opened MaskBatch
  import opened Drafts
  import opened Options
  import opened Sjoin
  import opened Relay

  /* ---------- what clients know of a channel ---------- */

  function StatusMap(members: seq<Member>): map<string, Status> {
    if members == [] then map[] else StatusMap(members[1..])[members[0].nick := members[0].status]
  }

  function RateOf(m: Mode): Rate {
    if m.rated then MakeRate(m.joinNum, m.joinTime) else NoRate
  }

  function ViewOf(c: Chan): View {
    View(c.mode.flags, c.mode.limit, c.mode.key, RateOf(c.mode), StatusMap(c.members), c.bans, c.exempts, c.invites)
  }

  ghost predicate Distinct(members: seq<Member>) {
    forall i, j | 0 <= i < j < |members| :: members[i].nick != members[j].nick
  }

  ghost predicate GoodChan(c: Chan) {
    && Printable(c.mode)
    && Distinct(c.members) && (forall m | m in c.members :: IsWord(m.nick))
    && LegalMasks(c.bans) && LegalMasks(c.exempts) && LegalMasks(c.invites)
  }

  lemma {:induction false} StatusMapKeys(members: seq<Member>)
    ensures forall n :: n in StatusMap(members) <==> IsMember(members, n)
    ensures Distinct(members) ==>
              forall k | 0 <= k < |members| :: members[k].nick in StatusMap(members)
                                               && StatusMap(members)[members[k].nick] == members[k].status
  {
    if members != [] {
      StatusMapKeys(members[1..]);
      forall n
        ensures n in StatusMap(members) <==> IsMember(members, n)
      {
        if IsMember(members[1..], n) {
          var k :| 0 <= k < |members[1..]| && members[1..][k].nick == n;
          assert members[k + 1].nick == n;
        }
        if IsMember(members, n) {
          var k :| 0 <= k < |members| && members[k].nick == n;
          assert k > 0 ==> members[1..][k - 1].nick == n;
        }
      }
      if Distinct(members) {
        forall k | 0 <= k < |members|
          ensures members[k].nick in StatusMap(members) && StatusMap(members)[members[k].nick] == members[k].status
        {
          if k > 0 {
            assert members[1..][k - 1] == members[k];
          }
        }
      }
    }
  }

  lemma {:induction false} SetStatus(members: seq<Member>, i: nat, s: Status)
    requires i < |members| && Distinct(members)
    ensures StatusMap(members[i := Member(members[i].nick, s)]) == StatusMap(members)[members[i].nick := s]
  {
    var after := members[i := Member(members[i].nick, s)];
    if i == 0 {
      assert after[1..] == members[1..];
    } else {
      assert after[1..] == members[1..][i - 1 := Member(members[i].nick, s)];
      SetStatus(members[1..], i - 1, s);
      assert members[1..][i - 1].nick == members[i].nick != members[0].nick;
    }
  }

  /** What the clients are told about a listed nick, by JOIN and by the +o, +h and +v that follow. */
  function AnnounceOne(st: map<string, Status>, w: string, behind: set<string>, theirs: bool): map<string, Status> {
    var n := Strip(w);
    if n in behind then st[n := (if n in st then st[n] else PLAIN).Or(Granted(w, theirs))] else st
  }

  function Announce(st: map<string, Status>, words: seq<string>, behind: set<string>, theirs: bool): map<string, Status>
    decreases |words|
  {
    if words == [] then st else Announce(AnnounceOne(st, words[0], behind, theirs), words[1..], behind, theirs)
  }

  /* ---------- facts about the loops below ---------- */

  /** The view of a channel under other modes. */
  function WithModes(v: View, m: Mode): View {
    v.(flags := m.flags, limit := m.limit, key := m.key, rate := RateOf(m))
  }

  lemma AllPrinted(flags: set<char>)
    requires forall c | c in flags :: CarriedFlag(c)
    ensures forall c | c in flags :: c in DIFF_LETTERS
    ensures forall c | c in DIFF_LETTERS :: CarriedFlag(c)
  {
    var s := DIFF_LETTERS;
    assert s[0] == 'p' && s[1] == 's' && s[2] == 'm' && s[3] == 'n' && s[4] == 't' && s[5] == 'i' && s[6] == 'r';
    assert s[7] == 'R' && s[8] == 'M' && s[9] == 'c' && s[10] == 'O' && s[11] == 'S' && s[12] == 'N';
  }

  lemma {:induction false} ParsedPrintable(letters: string, args: seq<string>, m: Mode, used: nat)
    requires used < |args| && Printable(m) && forall k | 0 <= k < |args| - 1 :: IsWord(args[k])
    ensures var r := ParseModes(letters, args, m, used); r.Parsed? ==> Printable(r.mode)
    decreases |letters|
  {
    if letters != "" {
      var c, rest := letters[0], letters[1..];
      if CarriedFlag(c) {
        ParsedPrintable(rest, args, m.(flags := m.flags + {c}), used);
      } else if c == 'k' || c == 'j' || c == 'l' {
        if used + 1 < |args| {
          ParsedPrintable(rest, args, TakeParam(m, c, args[used]), used + 1);
        }
      } else {
        ParsedPrintable(rest, args, m, used);
      }
    }
  }

  function Entered(v: View, nick: string): View {
    v.(status := v.status[nick := PLAIN])
  }

  lemma ReadOneJoin(r: Reader, c: char, nick: string)
    requires nick !in r.rest && (SignChar(c) || StatusLetter(c))
    ensures ReadOne(r.(view := Entered(r.view, nick)), c)
         == ReadOne(r, c).(view := Entered(ReadOne(r, c).view, nick))
    ensures forall p | p in ReadOne(r, c).rest :: p in r.rest
  {
  }

  /** A JOIN does not disturb status letters still waiting to be sent about other nicks. */
  lemma {:induction false} ReadJoin(v: View, ps: seq<string>, letters: string, nick: string)
    requires nick !in ps && forall c | c in letters :: SignChar(c) || StatusLetter(c)
    ensures var r := Read(Reader(v, true, ps), letters);
            && Read(Reader(Entered(v, nick), true, ps), letters) == r.(view := Entered(r.view, nick))
            && forall p | p in r.rest :: p in ps
  {
    hide ReadOne;
    if letters != "" {
      ReadJoin(v, ps, letters[..|letters| - 1], nick);
      ReadOneJoin(Read(Reader(v, true, ps), letters[..|letters| - 1]), letters[|letters| - 1], nick);
    }
  }

  class Channel {
    /** Whether the name is in the channel table. */
    var present: bool
    var ts: int
    var mode: Mode
    var members: seq<Member>
    var bans: seq<string>
    var exempts: seq<string>
    var invites: seq<string>

    function Value(): Chan
      reads this
    {
      Chan(ts, mode, members, bans, exempts, invites)
    }

    function State(): Option<Chan>
      reads this
    {
      if present then Some(Value()) else None
    }

    constructor ()
      ensures State() == None
    {
      present := false;
      ts, mode, members, bans, exempts, invites := 0, NO_MODE, [], [], [], [];
    }

    /** get_channel with CREATE. */
    method Create(now: int)
      modifies this
      ensures present && Value() == old(Sender(State(), now))
    {
      if !present {
        present, ts, mode, members := true, now, NO_MODE, [];
        bans, exempts, invites := [], [], [];
      }
    }

    /** kill_ban_list: every mask is announced as removed, then the lists are dropped. */
    method KillBanList() returns (lines: seq<Line>)
      requires GoodChan(Value())
      modifies `bans, `exempts, `invites
      ensures Value() == old(Value()).(bans := [], exempts := [], invites := [])
      ensures forall l | l in lines :: Standalone(l, MAX_MODE_PARAMS)
      ensures Replay(ViewOf(old(Value())), AsEvents(lines)) == ViewOf(Value())
    {
      lines := PrintLists('-', 10, MAX_MODE_PARAMS, bans, exempts, invites);
      KilledView(ViewOf(Value()), lines);
      bans := [];
      exempts := [];
      invites := [];
    }

    /** The letters of parv[3], each taking its parameters from parv[4] on. */
    static method ReadLetters(letters: string, args: seq<string>) returns (r: Parsed)
      requires args != []
      ensures r == ParseModes(letters, args, NO_MODE, 0)
    {
      var m, used, i := NO_MODE, 0, 0;
      while i < |letters|
        invariant i <= |letters| && used < |args|
        invariant ParseModes(letters, args, NO_MODE, 0) == ParseModes(letters[i..], args, m, used)
      {
        var c := letters[i];
        i := i + 1;
        if CarriedFlag(c) {
          m := m.(flags := m.flags + {c});
        } else if c == 'k' || c == 'j' || c == 'l' {
          m := TakeParam(m, c, args[used]);
          used := used + 1;
          if |args| < 1 + used {
            return Short;
          }
        }
      }
      r := Parsed(m, used);
    }

    static method PutFlag(draft: Draft, plus: bool, c: char)
      requires draft.Valid() && CarriedFlag(c)
      modifies draft`modebuf, draft`what, draft`seen
      ensures draft.Valid() && |draft.modebuf| >= 2
      ensures draft.seen == old(draft.seen).(flags := old(draft.seen.flags) + if plus then {c} else {})
           || draft.seen == old(draft.seen).(flags := old(draft.seen.flags) - {c})
      ensures plus == (c in draft.seen.flags)
      ensures NoSigns(draft.modebuf) == NoSigns(old(draft.modebuf)) + [c]
    {
      draft.Put(plus, c);
    }

    /** The flag letters gained, then the ones lost: those that differ, each once, and no others. */
    method PrintFlags(draft: Draft, next: Mode)
      requires draft.Valid() && Printable(mode) && Printable(next)
      requires draft.seen.flags == mode.flags
      modifies draft`modebuf, draft`what, draft`seen
      ensures draft.Valid()
      ensures draft.seen == old(draft.seen).(flags := next.flags)
      ensures NoSigns(draft.modebuf) == NoSigns(old(draft.modebuf))
                + ShowFlags(next.flags - mode.flags, DIFF_LETTERS) + ShowFlags(mode.flags - next.flags, DIFF_LETTERS)
      ensures |draft.modebuf| >= 2 || draft.modebuf == old(draft.modebuf)
    {
      AllPrinted(mode.flags);
      AllPrinted(next.flags);
      hide Draft.Valid, CarriedFlag, NoSigns, ShowFlags;
      PrintChanges(draft, true, next.flags - mode.flags);
      PrintChanges(draft, false, mode.flags - next.flags);
      assert mode.flags + (next.flags - mode.flags) - (mode.flags - next.flags) == next.flags;
    }

    /** Those of the letters that are to change, under one sign. */
    static method PrintChanges(draft: Draft, plus: bool, flags: set<char>)
      requires draft.Valid() && (forall c | c in DIFF_LETTERS :: CarriedFlag(c)) && (forall c | c in flags :: c in DIFF_LETTERS)
      modifies draft`modebuf, draft`what, draft`seen
      ensures draft.Valid()
      ensures draft.seen == old(draft.seen).(flags := if plus then old(draft.seen).flags + flags else old(draft.seen).flags - flags)
      ensures NoSigns(draft.modebuf) == NoSigns(old(draft.modebuf)) + ShowFlags(flags, DIFF_LETTERS)
      ensures |draft.modebuf| >= 2 || draft.modebuf == old(draft.modebuf)
    {
      hide Draft.Valid, CarriedFlag, NoSigns, ShowFlags;
      NothingShown(flags);
      ghost var v, shown := draft.seen, NoSigns(draft.modebuf);
      for i := 0 to |DIFF_LETTERS|
        invariant draft.Valid() && draft.seen == v.(flags := draft.seen.flags)
        invariant forall c :: c in draft.seen.flags <==>
                    if c in flags && c in DIFF_LETTERS[..i] then plus else c in v.flags
        invariant NoSigns(draft.modebuf) == shown + ShowFlags(flags, DIFF_LETTERS[..i])
        invariant |draft.modebuf| >= 2 || draft.modebuf == old(draft.modebuf)
      {
        ShowNext(flags, DIFF_LETTERS, i);
        if DIFF_LETTERS[i] in flags {
          PutFlag(draft, plus, DIFF_LETTERS[i]);
        }
      }
    }

    static lemma NothingShown(flags: set<char>)
      ensures ShowFlags(flags, DIFF_LETTERS[..0]) == "" && DIFF_LETTERS[..|DIFF_LETTERS|] == DIFF_LETTERS
    {
    }

    /** One letter more of the list is looked at. */
    static lemma {:induction false} ShowNext(flags: set<char>, letters: string, i: nat)
      requires i < |letters|
      ensures ShowFlags(flags, letters[..i + 1]) == ShowFlags(flags, letters[..i]) + if letters[i] in flags then [letters[i]] else ""
    {
      if i > 0 {
        ShowNext(flags, letters[1..], i - 1);
        assert letters[..i][1..] == letters[1..][..i - 1] && letters[..i + 1][1..] == letters[1..][..i];
      }
    }

    /** The difference between the channel's modes and the next ones, as one pending MODE line. */
    method PrintDiff(draft: Draft, next: Mode)
      requires draft.Valid() && draft.pargs == 0 && draft.modebuf == ""
      requires Printable(mode) && Printable(next)
      requires WithModes(draft.seen, mode) == draft.seen
      modifies draft`modebuf, draft`parabuf, draft`pargs, draft`what, draft`seen
      ensures draft.Valid()
      ensures draft.seen == WithModes(old(draft.seen), next)
      ensures draft.modebuf == "" || |draft.modebuf| >= 2
    {
      hide Draft.Valid;
      if next.flags != mode.flags || next.rated != mode.rated {
        PrintFlags(draft, next);
      }
      PrintRate(draft, next);
      PrintLimit(draft, next);
      PrintKey(draft, next);
    }

    method PrintRate(draft: Draft, next: Mode)
      requires draft.Valid() && draft.pargs == 0 && (draft.modebuf == "" || |draft.modebuf| >= 2)
      requires Printable(next) && draft.seen.rate == RateOf(mode)
      modifies draft`modebuf, draft`parabuf, draft`pargs, draft`what, draft`seen
      ensures draft.Valid() && draft.pargs <= 1 && (draft.modebuf == "" || |draft.modebuf| >= 2)
      ensures draft.seen == old(draft.seen).(rate := RateOf(next))
    {
      hide Draft.Valid, RateNumbers, RateText, MakeRate;
      RateBack(next.joinNum, next.joinTime);
      if mode.rated && !next.rated {
        draft.Put(false, 'j');
      }
      if next.rated && (!mode.rated || mode.joinNum != next.joinNum || mode.joinTime != next.joinTime) {
        draft.PutWith(true, 'j', RateText(next.joinNum, next.joinTime));
      }
    }

    method PrintLimit(draft: Draft, next: Mode)
      requires draft.Valid() && draft.pargs <= 1 && (draft.modebuf == "" || |draft.modebuf| >= 2)
      requires Printable(next) && draft.seen.limit == mode.limit
      modifies draft`modebuf, draft`parabuf, draft`pargs, draft`what, draft`seen
      ensures draft.Valid() && draft.pargs <= 2 && (draft.modebuf == "" || |draft.modebuf| >= 2)
      ensures draft.seen == old(draft.seen).(limit := next.limit)
    {
      hide Draft.Valid, Itoa, Atoi;
      if mode.limit != 0 && next.limit == 0 {
        draft.Put(false, 'l');
      }
      if next.limit != 0 && mode.limit != next.limit {
        AtoiItoa(next.limit);
        draft.PutWith(true, 'l', Itoa(next.limit));
      }
    }

    method PrintKey(draft: Draft, next: Mode)
      requires draft.Valid() && draft.pargs <= 2 && (draft.modebuf == "" || |draft.modebuf| >= 2)
      requires (mode.key == "" || IsWord(mode.key)) && (next.key == "" || IsWord(next.key))
      requires draft.seen.key == mode.key
      modifies draft`modebuf, draft`parabuf, draft`pargs, draft`what, draft`seen
      ensures draft.Valid() && (draft.modebuf == "" || |draft.modebuf| >= 2)
      ensures draft.seen == old(draft.seen).(key := next.key)
    {
      hide Draft.Valid;
      if mode.key != "" && next.key == "" {
        draft.PutWith(false, 'k', mode.key);
      }
      if next.key != "" && mode.key != next.key {
        draft.PutWith(true, 'k', next.key);
      }
    }

    /** Every member loses op, halfop and voice, each announced on a line of bounded length. */
    method DeopAll(draft: Draft)
      requires draft.Valid() && draft.what == 0 && (draft.modebuf == "" || |draft.modebuf| >= 2)
      requires Distinct(members) && forall m | m in members :: IsWord(m.nick)
      requires draft.seen.status == StatusMap(members)
      modifies draft, `members
      ensures draft.Valid() && (draft.modebuf == "" || |draft.modebuf| >= 2)
      ensures members == Cleared(old(members))
      ensures draft.seen == old(draft.seen).(status := StatusMap(members))
    {
      hide Draft.Valid, StatusMap;
      ghost var v, was := draft.seen, members;
      for i := 0 to |members|
        invariant draft.Valid() && (draft.modebuf == "" || |draft.modebuf| >= 2)
        invariant |members| == |was|
        invariant forall k | 0 <= k < i :: members[k] == Member(was[k].nick, PLAIN)
        invariant forall k | i <= k < |was| :: members[k] == was[k]
        invariant draft.seen == v.(status := StatusMap(members))
      {
        assert was[i] in was;
        StripStatus(draft, i, 'o');
        StripStatus(draft, i, 'h');
        StripStatus(draft, i, 'v');
      }
    }

    /** One of DeopAll's three tests on one member. */
    method StripStatus(draft: Draft, i: nat, letter: char)
      requires draft.Valid() && (draft.modebuf == "" || |draft.modebuf| >= 2) && StatusLetter(letter)
      requires i < |members| && Distinct(members) && IsWord(members[i].nick)
      requires draft.seen.status == StatusMap(members)
      modifies draft, `members
      ensures draft.Valid() && (draft.modebuf == "" || |draft.modebuf| >= 2)
      ensures members == old(members)[i := Member(old(members[i].nick), ChangeStatus(old(members[i].status), false, letter))]
      ensures draft.seen == old(draft.seen).(status := StatusMap(members))
    {
      hide Draft.Valid, StatusMap;
      var m := members[i];
      StatusMapKeys(members);
      SetStatus(members, i, ChangeStatus(m.status, false, letter));
      if (letter == 'o' && m.status.op) || (letter == 'h' && m.status.halfop) || (letter == 'v' && m.status.voice) {
        draft.PutStatus(false, letter, m.nick);
      }
      members := members[i := Member(m.nick, ChangeStatus(m.status, false, letter))];
      StatusMapKeys(members);
    }

    /** add_user_to_channel for a listed nick, and the JOIN the clients see. */
    method Enter(draft: Draft, nick: string, status: Status)
      requires draft.Valid() && (draft.modebuf == "" || |draft.modebuf| >= 2) && draft.OnlyStatus()
      requires !IsMember(members, nick) && Distinct(members)
      requires forall w | w in Words(draft.parabuf) :: IsMember(members, w)
      modifies draft`events, draft`seen, `members
      ensures draft.Valid() && draft.OnlyStatus()
      ensures members == [Member(nick, status)] + old(members) && Distinct(members)
      ensures draft.seen == old(draft.seen).(status := old(draft.seen.status)[nick := PLAIN])
      ensures forall w | w in Words(draft.parabuf) :: IsMember(members, w)
    {
      ghost var v, line := Replay(draft.before, draft.events), Line(draft.modebuf, draft.parabuf);
      ReadJoin(v, Words(draft.parabuf), draft.modebuf, nick);
      ReplaySnoc(draft.before, draft.events, Joined(nick));
      assert Apply(v.(status := v.status[nick := PLAIN]), line)
          == Apply(v, line).(status := Apply(v, line).status[nick := PLAIN]);
      hide Words, Apply, Replay, Need;
      draft.events := draft.events + [Joined(nick)];
      draft.seen := draft.seen.(status := draft.seen.status[nick := PLAIN]);
      members := [Member(nick, status)] + members;
      forall w | w in Words(draft.parabuf)
        ensures IsMember(members, w)
      {
        var k :| 0 <= k < |old(members)| && old(members)[k].nick == w;
        assert members[k + 1].nick == w;
      }
    }

    /** The status letters announced for one listed nick. */
    method Grant(draft: Draft, nick: string, s: Status)
      requires draft.Valid() && (draft.modebuf == "" || |draft.modebuf| >= 2) && draft.OnlyStatus()
      requires draft.pargs > 0 || draft.modebuf == ""
      requires IsWord(nick) && nick in draft.seen.status && IsMember(members, nick)
      requires forall w | w in Words(draft.parabuf) :: IsMember(members, w)
      modifies draft
      ensures draft.Valid() && (draft.modebuf == "" || |draft.modebuf| >= 2) && draft.OnlyStatus()
      ensures draft.pargs > 0 || draft.modebuf == ""
      ensures draft.seen == old(draft.seen).(status := old(draft.seen.status)[nick := old(draft.seen.status[nick]).Or(s)])
      ensures forall w | w in Words(draft.parabuf) :: IsMember(members, w)
    {
      hide Draft.Valid, Draft.OnlyStatus, Words, IsMember;
      if s.op {
        draft.PutStatus(true, 'o', nick);
      }
      if s.halfop {
        draft.PutStatus(true, 'h', nick);
      }
      if s.voice {
        draft.PutStatus(true, 'v', nick);
      }
    }

    /** What holds of channel and draft between two words of the nick list. */
    ghost predicate Listing(draft: Draft)
      reads this, draft
    {
      && draft.Valid() && (draft.modebuf == "" || |draft.modebuf| >= 2) && draft.OnlyStatus()
      && (draft.pargs > 0 || draft.modebuf == "")
      && Distinct(members) && (forall m | m in members :: IsWord(m.nick))
      && (forall w | w in Words(draft.parabuf) :: IsMember(members, w))
      && draft.seen.status.Keys == StatusMap(members).Keys
    }

    /** One word of the nick list. */
    method AddNick(draft: Draft, w: string, behind: set<string>, theirs: bool)
      requires Listing(draft) && ValidNicks(behind)
      modifies draft, `members
      ensures Listing(draft)
      ensures members == AddOne(old(members), w, behind, theirs)
      ensures draft.seen == old(draft.seen).(status := AnnounceOne(old(draft.seen.status), w, behind, theirs))
    {
      hide Draft.Valid, Draft.OnlyStatus, Words, Granted, Strip, StatusMap, IsMember, Distinct, IsWord, Status.Or;
      var n := Strip(w);
      KeysAreMembers(members, n);
      if n in behind {
        var s := Granted(w, theirs);
        NickIsWord(behind, n);
        if !IsMember(members, n) {
          Enter(draft, n, s);
          KeysAfterEntry(members, n, s);
        }
        Grant(draft, n, s);
      }
    }

    /** The nick list: members enter, status letters follow, and the list to pass on is rebuilt in sjbuf. */
    method AddNicks(draft: Draft, words: seq<string>, behind: set<string>, theirs: bool)
      returns (sjbuf: string, people: nat)
      requires Listing(draft) && ValidNicks(behind)
      modifies draft, `members
      ensures Listing(draft)
      ensures members == AddListed(old(members), words, behind, theirs)
      ensures sjbuf == Join(Accepted(words, behind, theirs)) && people == |Accepted(words, behind, theirs)|
      ensures draft.seen == old(draft.seen).(status := Announce(old(draft.seen.status), words, behind, theirs))
    {
      hide Listing, AddOne, AnnounceOne, Strip, AcceptOne;
      ghost var v, was, accepted := draft.seen, members, [];
      sjbuf, people := "", 0;
      for i := 0 to |words|
        invariant Listing(draft)
        invariant AddListed(was, words, behind, theirs) == AddListed(members, words[i..], behind, theirs)
        invariant Accepted(words, behind, theirs) == accepted + Accepted(words[i..], behind, theirs)
        invariant sjbuf == Join(accepted) && people == |accepted|
        invariant draft.seen == v.(status := draft.seen.status)
        invariant Announce(v.status, words, behind, theirs) == Announce(draft.seen.status, words[i..], behind, theirs)
      {
        var w := words[i];
        assert words[i..][0] == w && words[i..][1..] == words[i + 1..];
        AddNick(draft, w, behind, theirs);
        var one := AcceptOne(w, behind, theirs);
        AcceptOneShape(w, behind, theirs);
        if one != [] {
          people := people + 1;
          assert (accepted + one)[..|accepted|] == accepted;
          sjbuf := AddPara(sjbuf, one[0]);
        }
        assert one == [] ==> accepted + one == accepted;
        accepted := accepted + one;
      }
      assert words[|words|..] == [] && accepted + [] == accepted;
    }

    /** Everything before the nick list: timestamp, masks, modes and the mass deop. */
    method SettleModes(v: Verdict, theirs: Mode) returns (draft: Draft)
      requires GoodChan(Value()) && Printable(theirs)
      modifies this`ts, `mode, `members, `bans, `exempts, `invites
      ensures fresh(draft) && Listing(draft) && draft.before == ViewOf(old(Value()))
      ensures Value() == Settled(old(Value()), v, theirs) && GoodChan(Value())
      ensures draft.seen == ViewOf(Value())
    {
      hide StatusMap, Replay, MergeModes, Draft.Valid, Draft.Pending, Distinct, IsWord, Words;
      ghost var was := Value();
      var lines := [];
      if !v.ours {
        lines := KillBanList();
      }
      assert Replay(ViewOf(was), AsEvents(lines)) == ViewOf(Value()) by {
        ReplayNothing(ViewOf(was), lines);
      }
      ts := v.ts;
      var next := Settle(v, mode, theirs);
      SettlePrintable(v, mode, theirs);
      draft := new Draft(ViewOf(was), AsEvents(lines));
      PrintDiff(draft, next);
      mode := next;
      if !v.ours {
        draft.ForgetSign();
        DeopAll(draft);
      }
      draft.ValidIsPending();
      if draft.modebuf != "" {
        draft.Send();
      }
      ApplyEmpty(draft.seen);
      ClearedGood(was.members);
    }

    /** After the nick list: the pending status line goes out. */
    method LastLine(draft: Draft)
      requires Listing(draft)
      modifies draft
      ensures AllStandalone(draft.events)
      ensures Replay(draft.before, draft.events) == old(draft.seen)
    {
      if draft.pargs > 0 {
        draft.Send();
      }
      ApplyEmpty(Replay(draft.before, draft.events));
    }

    /** m_sjoin once the modes are read: settle, list, announce, and build the message to pass on. */
    method Receive(msg: Message, v: Verdict, theirs: Mode, words: seq<string>, behind: set<string>)
      returns (events: seq<Event>, relay: Option<Message>)
      requires GoodChan(Value()) && Printable(theirs) && ValidNicks(behind)
      modifies this`ts, `mode, `members, `bans, `exempts, `invites
      ensures Value() == Received(old(Value()), v, theirs, words, behind) && GoodChan(Value())
      ensures relay == RelayOf(msg, v, mode, Accepted(words, behind, v.theirs))
      ensures AllStandalone(events)
      ensures Replay(ViewOf(old(Value())), events)
           == ViewOf(Value()).(status := Announce(StatusMap(Settled(old(Value()), v, theirs).members),
                                                  words, behind, v.theirs))
    {
      hide Draft.Valid, StatusMap, Words, ShowParams, ShowLetters, Settled, Announce, Replay, AddListed, Accepted, Join;
      hide Distinct, IsWord, Printable, ValidNicks, LegalMasks, Draft.OnlyStatus;
      var draft := SettleModes(v, theirs);
      var letters, params := "0", "";
      if CharAt(msg.letters, 0) != '0' && v.theirs {
        letters, params := ShowLetters(mode), ShowParams(mode);
      }
      var sjbuf, people := AddNicks(draft, words, behind, v.theirs);
      LastLine(draft);
      events := draft.events;
      if people == 0 {
        return events, None;
      }
      NoWords();
      assert [] + [sjbuf] == [sjbuf];
      relay := Some(Message(v.ts, letters, Words(params) + [sjbuf]));
    }

    /**
     m_sjoin. The channel and the message passed on are those of Step; the lines sent to the local
     clients take their old view of the channel to the new one, with each listed nick as announced.
     */
    method MSjoin(msg: Message, behind: set<string>, now: int) returns (events: seq<Event>, relay: Option<Message>)
      requires msg.args != [] && forall k | 0 <= k < |msg.args| - 1 :: IsWord(msg.args[k])
      requires GoodChan(Sender(State(), now)) && ValidNicks(behind)
      modifies this
      ensures Outcome(State(), relay) == Step(old(State()), msg, behind, now)
      ensures present ==> GoodChan(Value())
      ensures AllStandalone(events)
      ensures present && ReadModes(msg).Parsed? ==>
                Replay(ViewOf(old(Sender(State(), now))), events)
                == Announced(old(Sender(State(), now)), Value(), msg, behind, old(State()).None?)
    {
      hide GoodChan, ParseModes, StatusMap, Words, Settle, Printable, Replay, Announce, AddListed, Accepted;
      hide AllStandalone, ValidNicks, RelayOf;
      ghost var was := Sender(State(), now);
      var isNew := !present;
      Create(now);
      var parsed := ReadLetters(msg.letters, msg.args);
      if parsed.Short? {
        NoEvents();
        return [], None;
      }
      PrintableParse(msg);
      var v := Judge(isNew, ts, msg.ts);
      var words := Words(msg.args[parsed.used]);
      events, relay := Receive(msg, v, parsed.mode, words, behind);
      RelayNone(msg, v, mode, Accepted(words, behind, v.theirs));
      if relay.None? && isNew {
        NoneAccepted(Settled(was, v, parsed.mode).members, words, behind, v.theirs);
        if members == [] {
          present := false;
        }
      }
    }
  }

  lemma NoWords()
    ensures Words("") == []
  {
  }

  lemma NoEvents()
    ensures AllStandalone([])
  {
  }

  lemma RelayNone(msg: Message, v: Verdict, mode: Mode, accepted: seq<string>)
    ensures RelayOf(msg, v, mode, accepted).None? <==> accepted == []
  {
  }

  lemma PrintableParse(msg: Message)
    requires msg.args != [] && forall k | 0 <= k < |msg.args| - 1 :: IsWord(msg.args[k])
    ensures ReadModes(msg).Parsed? ==> Printable(ReadModes(msg).mode)
  {
    ParsedPrintable(msg.letters, msg.args, NO_MODE, 0);
  }

  lemma ReplayNothing(v: View, lines: seq<Line>)
    ensures lines == [] ==> Replay(v, AsEvents(lines)) == v && AllStandalone(AsEvents(lines))
    ensures (forall l | l in lines :: Standalone(l, MAX_MODE_PARAMS)) ==> AllStandalone(AsEvents(lines))
  {
  }

  lemma ClearedGood(members: seq<Member>)
    requires Distinct(members) && forall m | m in members :: IsWord(m.nick)
    ensures Distinct(Cleared(members)) && forall m | m in Cleared(members) :: IsWord(m.nick)
  {
  }

  lemma SettlePrintable(v: Verdict, ours: Mode, theirs: Mode)
    requires Printable(ours) && Printable(theirs)
    ensures Printable(Settle(v, ours, theirs))
  {
  }

  /** What the clients make of an SJOIN: the new channel, with the listed nicks' status as announced. */
  function Announced(was: Chan, after: Chan, msg: Message, behind: set<string>, isNew: bool): View
    requires msg.args != [] && ReadModes(msg).Parsed?
  {
    var v := Judge(isNew, was.ts, msg.ts);
    ViewOf(after).(status := Announce(StatusMap(Settled(was, v, ReadModes(msg).mode).members),
                                      Words(msg.args[ReadModes(msg).used]), behind, v.theirs))
  }

  lemma AcceptOneShape(w: string, behind: set<string>, theirs: bool)
    ensures |AcceptOne(w, behind, theirs)| <= 1
  {
  }

  lemma KeysAfterEntry(members: seq<Member>, n: string, s: Status)
    requires members != [] && members[0] == Member(n, s)
    ensures StatusMap(members).Keys == StatusMap(members[1..]).Keys + {n}
    ensures IsMember(members, n)
  {
  }

  lemma KeysAreMembers(members: seq<Member>, n: string)
    ensures n in StatusMap(members).Keys <==> IsMember(members, n)
  {
    StatusMapKeys(members);
  }

  lemma NickIsWord(nicks: set<string>, n: string)
    requires ValidNicks(nicks) && n in nicks
    ensures IsWord(n)
  {
  }

  lemma KilledView(v: View, lines: seq<Line>)
    requires Lines(lines)
    requires forall l | l in lines :: WithinLimits(l, '-', MAX_MODE_PARAMS)
    requires AllItems(lines) == ThreeLists(v.bans, v.exempts, v.invites)
    ensures Replay(v, AsEvents(lines)) == v.(bans := [], exempts := [], invites := [])
    ensures forall l | l in lines :: Standalone(l, MAX_MODE_PARAMS)
  {
    var b, e, i := ListItems('b', v.bans), ListItems('e', v.exempts), ListItems('I', v.invites);
    ReplayMaskLines(v, lines, '-');
    FoldItemsAppend(v, false, b + e, i);
    FoldItemsAppend(v, false, b, e);
    DropAll(v, 'b', v.bans);
    DropAll(v.(bans := []), 'e', v.exempts);
    DropAll(v.(bans := [], exempts := []), 'I', v.invites);
    forall l | l in lines
      ensures Standalone(l, MAX_MODE_PARAMS)
    {
      ApplyMaskLine(v, l, '-');
    }
  }
}
