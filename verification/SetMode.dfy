/**
 set_mode: the edits a MODE line makes to a channel, and the echo of them that is sent on.
 Edit is the switch on one letter; Channel's method in this module's second half runs the loop.
 */
module SetMode {
  import opened Text
  import opened ModeLine
  import opened Merge
  import opened MaskBatch
  import opened Masks
  import BanLists
  import opened Options
  import opened Sjoin
  import opened ChannelClass

  const REAL_MODE_BUF_LEN: nat := 512

  /** Who sends the line: IsServer, MyClient, IsULine, IsOper and IsUmodez, and the level m_mode computed. */
  datatype Source = Source(server: bool, local: bool, uline: bool, oper: bool, secure: bool, level: int)

  /**
   What set_mode looks up elsewhere: find_chasing (nick text to the client's own name), and the part of
   the final line's length that does not depend on the edits.
   */
  datatype World = World(who: map<string, string>, prelen: nat)

  /** The locals of the loop. echo is mbuf and pbuf, args the number of parameters used up. */
  datatype Edits = Edits(chan: Chan, echo: Line, plus: bool, args: nat, nparams: nat, nmodes: nat, seen: set<char>)

  function Start(c: Chan): Edits {
    Edits(c, Line("+", ""), true, 0, 0, 0, {})
  }

  function MaxParams(src: Source): nat {
    if src.server || src.uline then 512 else 6
  }

  /** check_level */
  predicate Denied(src: Source, needed: int) {
    src.level < needed && !src.server
  }

  predicate Overflows(w: World, e: Edits, extra: nat) {
    w.prelen + |e.echo.letters| + |e.echo.params| + extra > REAL_MODE_BUF_LEN
  }

  /* ---------- printing ---------- */

  /** '+' or '-': a sign nobody used is overwritten, a repeated one ignored. */
  function TurnSign(e: Edits, plus: bool): Edits {
    var ls := e.echo.letters;
    var sign, other := if plus then '+' else '-', if plus then '-' else '+';
    if ls != "" && ls[|ls| - 1] == other then
      e.(echo := e.echo.(letters := ls[..|ls| - 1] + [sign]), plus := plus)
    else if e.plus == plus then e
    else e.(echo := e.echo.(letters := ls + [sign]), plus := plus)
  }

  function Print(e: Edits, letter: char): Edits {
    e.(echo := e.echo.(letters := e.echo.letters + [letter]), nmodes := e.nmodes + 1)
  }

  function PrintWith(e: Edits, letter: char, p: string): Edits {
    e.(echo := Line(e.echo.letters + [letter], AddPara(e.echo.params, p)), nmodes := e.nmodes + 1, args := e.args + 1)
  }

  function SetFlag(e: Edits, letter: char): Edits {
    var m := e.chan.mode;
    e.(chan := e.chan.(mode := m.(flags := if e.plus then m.flags + {letter} else m.flags - {letter})))
  }

  function Seen(e: Edits, letter: char): Edits {
    e.(seen := e.seen + {letter})
  }

  function SkipArg(e: Edits): Edits {
    e.(args := e.args + 1)
  }

  /* ---------- the letters ---------- */

  /** o, h and v. */
  function EditStatus(src: Source, w: World, e: Edits, pv: seq<string>, letter: char): Edits {
    if Denied(src, if letter == 'v' then 1 else 2) || e.args >= |pv| then e
    else
      var e1 := e.(nparams := e.nparams + 1);
      if e1.nparams > MaxParams(src) || pv[e.args] !in w.who then SkipArg(e1)
      else
        var nick := w.who[pv[e.args]];
        if nick !in StatusMap(e.chan.members) || Overflows(w, e, NICK_LEN + 1) then SkipArg(e1)
        else
          var e2 := e1.(chan := e.chan.(members := GiveStatus(e.chan.members, nick, e.plus, letter)));
          var e3 := PrintWith(e2, letter, nick);
          if src.server && e.plus && letter != 'v' then e3.(chan := e3.chan.(ts := 0)) else e3
  }

  /** find_user_member, then the flag of the member found. */
  function GiveStatus(members: seq<Member>, nick: string, plus: bool, letter: char): seq<Member> {
    if members == [] then []
    else if members[0].nick == nick then [Member(nick, ChangeStatus(members[0].status, plus, letter))] + members[1..]
    else [members[0]] + GiveStatus(members[1..], nick, plus, letter)
  }

  function MasksOf(c: Chan, letter: char): seq<string> {
    if letter == 'b' then c.bans else if letter == 'e' then c.exempts else c.invites
  }

  function WithMasks(c: Chan, letter: char, masks: seq<string>): Chan {
    if letter == 'b' then c.(bans := masks) else if letter == 'e' then c.(exempts := masks) else c.(invites := masks)
  }

  function MaxMasks(letter: char): nat {
    if letter == 'b' then BanLists.MAXBANS else if letter == 'e' then BanLists.MAXEXEMPTLIST else BanLists.MAXINVITELIST
  }

  /** add_banid, add_exempt_id and add_invite_id refuse. */
  predicate Refused(src: Source, masks: seq<string>, letter: char, mask: string) {
    BanLists.Refused(src.local, masks, MaxMasks(letter), mask)
  }

  /** b, e and I. */
  function EditMask(src: Source, w: World, e: Edits, pv: seq<string>, letter: char): Edits {
    if e.args >= |pv| || Denied(src, 1) then e
    else
      var e1 := e.(nparams := e.nparams + 1);
      if e1.nparams > MaxParams(src) || CharAt(pv[e.args], 0) == ':' || pv[e.args] == "" then SkipArg(e1)
      else
        var mask, masks := Canon(pv[e.args]), MasksOf(e.chan, letter);
        if Overflows(w, e, |mask| + 1) || (e.plus && Refused(src, masks, letter, mask)) then SkipArg(e1)
        else
          var masks' := if e.plus then [mask] + masks else DropMask(masks, mask);
          PrintWith(e1.(chan := WithMasks(e.chan, letter, masks')), letter, mask)
  }

  /** The two numbers of +j, or nothing when the text is no pair of numbers. */
  function ParseRate(p: string): Option<(int, int)> {
    var i := IndexOf(p, ':');
    var t := if i < |p| then Strtol(p[i + 1..]) else (0, "");
    var n := Strtol(p[..i]);
    if t.1 != "" || ToInt32(t.0) < 0 || n.1 != "" || ToInt32(n.0) < 0 then None
    else Some((ToInt32(n.0), ToInt32(t.0)))
  }

  /** The range limits for local clients that are not operators; C division truncates. */
  function LimitRate(n: int, t: int): (r: (int, int))
    requires n >= 0 && t >= 0
    ensures r.0 >= 4 && 1 < r.1 <= 60
  {
    var t1 := if t > 60 then 60 else t;
    var n1 := if n > 60 then 60 else n;
    var n2 := if n1 < 4 then 4 else n1;
    var least := if t1 >= 1 then (t1 - 1) / 8 + 1 else 1;
    var n3 := if n2 < least then least else n2;
    (n3, if t1 < n3 / 2 then n3 / 2 else t1)
  }

  function EditRate(src: Source, w: World, e: Edits, pv: seq<string>): Edits {
    if Denied(src, 1) then e
    else if !e.plus then
      if (src.local && 'j' in e.seen) || Overflows(w, e, 1) then Seen(e, 'j')
      else Print(Seen(e, 'j').(chan := e.chan.(mode := e.chan.mode.(rated := false, joinNum := 0, joinTime := 0))), 'j')
    else if e.args >= |pv| then e
    else
      var e1 := e.(nparams := e.nparams + 1);
      if e1.nparams > MaxParams(src) || (src.local && 'j' in e.seen) then SkipArg(e1)
      else
        var e2, parsed := Seen(e1, 'j'), ParseRate(pv[e.args]);
        if parsed.None? then SkipArg(e2)
        else
          var (n, t) := if src.local && src.level < 2 then LimitRate(parsed.value.0, parsed.value.1) else parsed.value;
          var joins, seconds := if n == 0 || t == 0 then 0 else n, if n == 0 || t == 0 then 0 else t;
          if Overflows(w, e, |RateText(joins, seconds)|) then SkipArg(e2)
          else
            PrintWith(e2.(chan := e.chan.(mode := e.chan.mode.(rated := true, joinNum := joins, joinTime := seconds))),
                      'j', RateText(joins, seconds))
  }

  function EditLimit(src: Source, w: World, e: Edits, pv: seq<string>): Edits {
    if Denied(src, 1) then e
    else if !e.plus then
      if (src.local && 'l' in e.seen) || Overflows(w, e, 1) then Seen(e, 'l')
      else Print(Seen(e, 'l').(chan := e.chan.(mode := e.chan.mode.(limit := 0))), 'l')
    else if e.args >= |pv| then e
    else
      var e1 := e.(nparams := e.nparams + 1);
      if e1.nparams > MaxParams(src) || (src.local && 'l' in e.seen) then SkipArg(e1)
      else
        var e2, n := Seen(e1, 'l'), Atoi(pv[e.args]);
        if Overflows(w, e, 16) || n < 1 then SkipArg(e2)
        else PrintWith(e2.(chan := e.chan.(mode := e.chan.mode.(limit := n))), 'l', Itoa(n))
  }

  predicate BadKey(k: string) {
    k == "" || k[0] == ':' || ' ' in k || '*' in k || ',' in k
  }

  function EditKey(src: Source, w: World, e: Edits, pv: seq<string>): Edits {
    if Denied(src, 1) || e.args >= |pv| then e
    else
      var e1 := e.(nparams := e.nparams + 1);
      if e1.nparams > MaxParams(src) || (src.local && 'k' in e.seen) then SkipArg(e1)
      else
        var e2, arg := Seen(e1, 'k'), pv[e.args];
        if BadKey(arg) || Overflows(w, e, KEY_LEN + 2) then SkipArg(e2)
        else
          var key := if e.plus then Truncate(arg, KEY_LEN) else "";
          var printed := if e.plus then key else if e.chan.mode.key == "" then arg else e.chan.mode.key;
          PrintWith(e2.(chan := e.chan.(mode := e.chan.mode.(key := key))), 'k', printed)
  }

  /** S and O, for which neither the length nor a repetition is checked. */
  function EditSpecial(src: Source, e: Edits, letter: char): Edits {
    var allowed :=
      if letter == 'S' then src.uline || (!Denied(src, 1) && src.secure)
      else (src.uline || (src.level >= 2 && src.oper)) && (src.local ==> src.oper);
    if allowed then Print(SetFlag(e, letter), letter) else e
  }

  /** r and L. */
  function EditServices(src: Source, w: World, e: Edits, letter: char): Edits {
    if src.local && letter in e.seen then e
    else if (if letter == 'r' then !src.server && !src.uline else src.local) || Overflows(w, e, 1) then Seen(e, letter)
    else Print(SetFlag(Seen(e, letter), letter), letter)
  }

  predicate SimpleFlag(c: char) {
    match c
    case 'p' | 's' | 'm' | 'n' | 't' | 'R' | 'i' | 'c' | 'M' | 'N' => true
    case _ => false
  }

  /** The flag table; i needs the higher level, and unknown letters are dropped. */
  function EditFlag(src: Source, w: World, e: Edits, letter: char): Edits {
    if Denied(src, if letter == 'i' then 2 else 1) || !SimpleFlag(letter) || Overflows(w, e, 1) then e
    else if src.local && letter in e.seen then e
    else Print(SetFlag(Seen(e, letter), letter), letter)
  }

  /** The switch. */
  function Edit(src: Source, w: World, e: Edits, pv: seq<string>, letter: char): Edits {
    if letter == '+' || letter == '-' then TurnSign(e, letter == '+')
    else if StatusLetter(letter) then EditStatus(src, w, e, pv, letter)
    else if MaskLetter(letter) then EditMask(src, w, e, pv, letter)
    else if letter == 'j' then EditRate(src, w, e, pv)
    else if letter == 'l' then EditLimit(src, w, e, pv)
    else if letter == 'k' then EditKey(src, w, e, pv)
    else if letter == 'S' || letter == 'O' then EditSpecial(src, e, letter)
    else if letter == 'r' || letter == 'L' then EditServices(src, w, e, letter)
    else EditFlag(src, w, e, letter)
  }

  function EditAll(src: Source, w: World, e: Edits, pv: seq<string>, modes: string): Edits
    decreases |modes|
  {
    if modes == "" then e else EditAll(src, w, Edit(src, w, e, pv, modes[0]), pv, modes[1..])
  }

  /** A sign with nothing behind it is cut off. */
  function Trim(echo: Line): Line {
    var ls := echo.letters;
    if ls != "" && SignChar(ls[|ls| - 1]) then echo.(letters := ls[..|ls| - 1]) else echo
  }

  /* ---------- the echo is faithful ---------- */

  predicate NoTwoSigns(letters: string) {
    forall k | 0 <= k < |letters| - 1 :: !(SignChar(letters[k]) && SignChar(letters[k + 1]))
  }

  /** A channel set_mode may be run on. */
  ghost predicate Sound(c: Chan) {
    Distinct(c.members) && (c.mode.key == "" || IsWord(c.mode.key))
  }

  /** Client names are words. */
  ghost predicate Proper(w: World) {
    forall n | n in w.who :: IsWord(w.who[n])
  }

  /** Read from the view before, the echo so far gives the view now, and its last sign is the current one. */
  ghost predicate Faithful(e: Edits, v0: View) {
    && Sound(e.chan)
    && Balanced(e.echo) && Apply(v0, e.echo) == ViewOf(e.chan)
    && e.echo.letters != "" && SignChar(e.echo.letters[0]) && NoTwoSigns(e.echo.letters)
    && Sign(e.echo.letters) == e.plus
  }

  lemma StartFaithful(c: Chan)
    requires Sound(c)
    ensures Faithful(Start(c), ViewOf(c))
  {
    var line := Line("+", "");
    assert line.letters[..0] == "";
    ApplyEmpty(ViewOf(c));
    ApplyPlain(ViewOf(c), Line("", ""), '+');
    assert "" + ['+'] == "+";
  }

  /** Overwriting or cutting off a final sign changes no meaning. */
  lemma DropSign(v: View, line: Line)
    requires Balanced(line) && line.letters != "" && SignChar(line.letters[|line.letters| - 1])
    ensures var cut := line.(letters := line.letters[..|line.letters| - 1]);
            Balanced(cut) && Apply(v, cut) == Apply(v, line)
  {
  }

  lemma LastSign(letters: string)
    requires letters != ""
    ensures var c := letters[|letters| - 1]; SignChar(c) ==> Sign(letters) == (c == '+')
  {
  }

  lemma TurnSignFaithful(e: Edits, v0: View, plus: bool)
    requires Faithful(e, v0)
    ensures Faithful(TurnSign(e, plus), v0)
  {
    var ls := e.echo.letters;
    var sign, other := if plus then '+' else '-', if plus then '-' else '+';
    var last := |ls| - 1;
    if ls[last] == other {
      DropSign(v0, e.echo);
      var cut := e.echo.(letters := ls[..last]);
      ApplyPlain(v0, cut, sign);
      SnocString(ls[..last], sign);
    } else if e.plus != plus {
      ApplyPlain(v0, e.echo, sign);
      SnocString(ls, sign);
      LastSign(ls);
    }
  }

  /** One edit without parameter: state and echo change alike. */
  lemma PrintFaithful(e: Edits, e': Edits, v0: View, letter: char)
    requires Faithful(e, v0) && !SignChar(letter) && !Takes(e.plus, letter)
    requires Sound(e'.chan) && e'.plus == e.plus && e'.echo == e.echo
    requires ViewOf(e'.chan) == ChangePlain(ViewOf(e.chan), e.plus, letter)
    ensures Faithful(Print(e', letter), v0)
  {
    ApplyPlain(v0, e.echo, letter);
    SnocString(e.echo.letters, letter);
  }

  /** One edit with its parameter. */
  lemma PrintWithFaithful(e: Edits, e': Edits, v0: View, letter: char, p: string)
    requires Faithful(e, v0) && !SignChar(letter) && Takes(e.plus, letter) && IsWord(p)
    requires Sound(e'.chan) && e'.plus == e.plus && e'.echo == e.echo
    requires ViewOf(e'.chan) == ChangeWith(ViewOf(e.chan), e.plus, letter, p)
    ensures Faithful(PrintWith(e', letter, p), v0)
  {
    ApplyWith(v0, e.echo, letter, p);
    SnocString(e.echo.letters, letter);
  }

  lemma {:induction false} GiveStatusView(members: seq<Member>, nick: string, plus: bool, letter: char)
    requires Distinct(members) && nick in StatusMap(members)
    ensures Distinct(GiveStatus(members, nick, plus, letter))
    ensures |GiveStatus(members, nick, plus, letter)| == |members|
    ensures forall k | 0 <= k < |members| :: GiveStatus(members, nick, plus, letter)[k].nick == members[k].nick
    ensures StatusMap(GiveStatus(members, nick, plus, letter))
         == StatusMap(members)[nick := ChangeStatus(StatusMap(members)[nick], plus, letter)]
  {
    var after := GiveStatus(members, nick, plus, letter);
    if members[0].nick == nick {
      assert after[1..] == members[1..];
    } else {
      GiveStatusView(members[1..], nick, plus, letter);
      assert after[1..] == GiveStatus(members[1..], nick, plus, letter);
      forall k | 0 <= k < |members|
        ensures after[k].nick == members[k].nick
      {
        if k > 0 {
          assert after[k] == after[1..][k - 1] && members[k] == members[1..][k - 1];
        }
      }
    }
  }

  lemma StatusSign(letter: char)
    ensures StatusLetter(letter) ==> !SignChar(letter)
  {
  }

  lemma EditStatusFaithful(src: Source, w: World, e: Edits, pv: seq<string>, letter: char, v0: View)
    requires Faithful(e, v0) && Proper(w) && StatusLetter(letter)
    ensures Faithful(EditStatus(src, w, e, pv, letter), v0)
  {
    hide Apply, Balanced, NoTwoSigns, StatusMap, Sign, Overflows, MaxParams, ChangeStatus, SignChar;
    if !Denied(src, if letter == 'v' then 1 else 2) && e.args < |pv| && pv[e.args] in w.who {
      assert !SignChar(letter) by {
        StatusSign(letter);
      }
      var nick := w.who[pv[e.args]];
      if nick in StatusMap(e.chan.members) {
        GiveStatusView(e.chan.members, nick, e.plus, letter);
        var e2 := e.(nparams := e.nparams + 1,
                     chan := e.chan.(members := GiveStatus(e.chan.members, nick, e.plus, letter)));
        PrintWithFaithful(e, e2, v0, letter, nick);
      }
    }
  }

  /** A mask that is not refused is added as the interpreter adds it. */
  lemma MasksEdited(src: Source, masks: seq<string>, plus: bool, letter: char, mask: string)
    requires |mask| <= MASK_LEN && !(plus && Refused(src, masks, letter, mask))
    ensures (if plus then [mask] + masks else DropMask(masks, mask)) == ChangeMask(masks, plus, mask)
  {
    hide DropMask, HasMask, BanLists.Refused;
    if plus {
      BanLists.NotThere(src.local, masks, MaxMasks(letter), mask);
    }
  }

  lemma WithMasksSound(c: Chan, letter: char, masks: seq<string>)
    requires Sound(c)
    ensures Sound(WithMasks(c, letter, masks))
  {
    hide Distinct, IsWord;
  }

  lemma LetterTakes(letter: char, plus: bool)
    requires MaskLetter(letter)
    ensures Takes(plus, letter) && !SignChar(letter)
  {
  }

  predicate SameButArgs(e: Edits, e': Edits) {
    e'.chan == e.chan && e'.plus == e.plus && e'.echo == e.echo
  }

  lemma SkippedFaithful(e: Edits, e': Edits, v0: View)
    requires Faithful(e, v0) && SameButArgs(e, e')
    ensures Faithful(e', v0)
  {
  }

  /** Either the argument is passed over, or its canonical mask is added or dropped, and printed. */
  lemma CanonShort(mask: string)
    ensures |Canon(mask)| <= MASK_LEN
  {
    hide Canon;
    CanonShape(mask);
  }

  lemma EditMaskCases(src: Source, w: World, e: Edits, pv: seq<string>, letter: char)
    ensures var e' := EditMask(src, w, e, pv, letter);
            SameButArgs(e, e') ||
            (e.args < |pv| &&
              var mask := Canon(pv[e.args]);
              var masks := ChangeMask(MasksOf(e.chan, letter), e.plus, mask);
              e' == PrintWith(e.(nparams := e.nparams + 1, chan := WithMasks(e.chan, letter, masks)), letter, mask))
  {
    hide Canon, Refused, DropMask, ChangeMask, WithMasks, MasksOf, Overflows, MaxParams, Denied, Proper, PrintWith;
    if e.args < |pv| {
      var mask, masks := Canon(pv[e.args]), MasksOf(e.chan, letter);
      CanonShort(pv[e.args]);
      if !(e.plus && Refused(src, masks, letter, mask)) {
        MasksEdited(src, masks, e.plus, letter, mask);
      }
    }
  }

  lemma FaithfulSound(e: Edits, v0: View)
    requires Faithful(e, v0)
    ensures Sound(e.chan)
  {
  }

  lemma EditMaskFaithful(src: Source, w: World, e: Edits, pv: seq<string>, letter: char, v0: View)
    requires Faithful(e, v0) && Proper(w) && MaskLetter(letter)
    ensures Faithful(EditMask(src, w, e, pv, letter), v0)
  {
    hide *;
    EditMaskCases(src, w, e, pv, letter);
    var e' := EditMask(src, w, e, pv, letter);
    if SameButArgs(e, e') {
      SkippedFaithful(e, e', v0);
    } else {
      var mask := Canon(pv[e.args]);
      var masks := ChangeMask(MasksOf(e.chan, letter), e.plus, mask);
      CanonShape(pv[e.args]);
      LetterTakes(letter, e.plus);
      MaskView(e.chan, e.plus, letter, mask);
      FaithfulSound(e, v0);
      WithMasksSound(e.chan, letter, masks);
      PrintWithFaithful(e, e.(nparams := e.nparams + 1, chan := WithMasks(e.chan, letter, masks)), v0, letter, mask);
    }
  }

  lemma EditRateFaithful(src: Source, w: World, e: Edits, pv: seq<string>, v0: View)
    requires Faithful(e, v0)
    ensures Faithful(EditRate(src, w, e, pv), v0)
  {
    KeyTakes(true);
    hide Apply, Balanced, NoTwoSigns, StatusMap, Sign, Distinct, Overflows, MaxParams, Denied, SignChar, Takes;
    hide ParseRate, LimitRate, RateText, RateNumbers, MakeRate, IsWord;
    var m := e.chan.mode;
    if !e.plus {
      PrintFaithful(e, Seen(e, 'j').(chan := e.chan.(mode := m.(rated := false, joinNum := 0, joinTime := 0))), v0, 'j');
    } else if e.args < |pv| && ParseRate(pv[e.args]).Some? {
      var parsed := ParseRate(pv[e.args]);
      RateInRange(src, pv[e.args]);
      var (n, t) := if src.local && src.level < 2 then LimitRate(parsed.value.0, parsed.value.1) else parsed.value;
      var joins, seconds := if n == 0 || t == 0 then 0 else n, if n == 0 || t == 0 then 0 else t;
      RateBack(joins, seconds);
      PrintWithFaithful(e, Seen(e, 'j').(nparams := e.nparams + 1,
                                         chan := e.chan.(mode := m.(rated := true, joinNum := joins, joinTime := seconds))),
                        v0, 'j', RateText(joins, seconds));
    }
  }

  lemma RateInRange(src: Source, p: string)
    requires ParseRate(p).Some?
    ensures var parsed := ParseRate(p).value;
            && Int32(parsed.0) && Int32(parsed.1) && parsed.0 >= 0 && parsed.1 >= 0
            && var (n, t) := if src.local && src.level < 2 then LimitRate(parsed.0, parsed.1) else parsed;
               Int32(n) && Int32(t)
  {
  }

  lemma EditLimitFaithful(src: Source, w: World, e: Edits, pv: seq<string>, v0: View)
    requires Faithful(e, v0)
    ensures Faithful(EditLimit(src, w, e, pv), v0)
  {
    var m := e.chan.mode;
    if !e.plus {
      PrintFaithful(e, Seen(e, 'l').(chan := e.chan.(mode := m.(limit := 0))), v0, 'l');
    } else if e.args < |pv| {
      var n := Atoi(pv[e.args]);
      AtoiItoa(n);
      PrintWithFaithful(e, Seen(e, 'l').(nparams := e.nparams + 1, chan := e.chan.(mode := m.(limit := n))), v0, 'l', Itoa(n));
    }
  }

  lemma KeyTakes(plus: bool)
    ensures Takes(plus, 'k') && !SignChar('k') && Takes(true, 'j') && !SignChar('j') && !Takes(false, 'j')
  {
  }

  lemma EditKeyFaithful(src: Source, w: World, e: Edits, pv: seq<string>, v0: View)
    requires Faithful(e, v0)
    ensures Faithful(EditKey(src, w, e, pv), v0)
  {
    hide Apply, Balanced, NoTwoSigns, StatusMap, Sign, Distinct, Overflows, MaxParams, Denied, SignChar;
    if e.args < |pv| && !BadKey(pv[e.args]) {
      assert Takes(e.plus, 'k') && !SignChar('k') by {
        KeyTakes(e.plus);
      }
      var arg := pv[e.args];
      var key := if e.plus then Truncate(arg, KEY_LEN) else "";
      var printed := if e.plus then key else if e.chan.mode.key == "" then arg else e.chan.mode.key;
      PrintWithFaithful(e, Seen(e, 'k').(nparams := e.nparams + 1, chan := e.chan.(mode := e.chan.mode.(key := key))),
                        v0, 'k', printed);
    }
  }

  lemma EditFlagsFaithful(src: Source, w: World, e: Edits, letter: char, v0: View)
    requires Faithful(e, v0)
    ensures letter == 'S' || letter == 'O' ==> Faithful(EditSpecial(src, e, letter), v0)
    ensures letter == 'r' || letter == 'L' ==> Faithful(EditServices(src, w, e, letter), v0)
    ensures Faithful(EditFlag(src, w, e, letter), v0)
  {
    if FlagLetter(letter) {
      PrintFaithful(e, SetFlag(e, letter), v0, letter);
      PrintFaithful(e, SetFlag(Seen(e, letter), letter), v0, letter);
    }
  }

  /** Every turn of the switch keeps the echo in step with the channel. */
  lemma EditFaithful(src: Source, w: World, e: Edits, pv: seq<string>, letter: char, v0: View)
    requires Faithful(e, v0) && Proper(w)
    ensures Faithful(Edit(src, w, e, pv, letter), v0)
  {
    hide Faithful, Proper, EditStatus, EditMask, EditRate, EditLimit, EditKey, EditSpecial, EditServices, EditFlag, TurnSign;
    if letter == '+' || letter == '-' {
      TurnSignFaithful(e, v0, letter == '+');
    } else if StatusLetter(letter) {
      EditStatusFaithful(src, w, e, pv, letter, v0);
    } else if MaskLetter(letter) {
      EditMaskFaithful(src, w, e, pv, letter, v0);
    } else {
      EditRateFaithful(src, w, e, pv, v0);
      EditLimitFaithful(src, w, e, pv, v0);
      EditKeyFaithful(src, w, e, pv, v0);
      EditFlagsFaithful(src, w, e, letter, v0);
    }
  }

  lemma {:induction false} EditAllFaithful(src: Source, w: World, e: Edits, pv: seq<string>, modes: string, v0: View)
    requires Faithful(e, v0) && Proper(w)
    ensures Faithful(EditAll(src, w, e, pv, modes), v0)
    decreases |modes|
  {
    if modes != "" {
      EditFaithful(src, w, e, pv, modes[0], v0);
      EditAllFaithful(src, w, Edit(src, w, e, pv, modes[0]), pv, modes[1..], v0);
    }
  }

  /* ---------- who may do what ---------- */

  /** Everything an Edit may not touch without privileges. */
  predicate SameChannel(e: Edits, e': Edits) {
    e'.chan == e.chan && e'.nmodes == e.nmodes
  }

  /** A local client without status, not U-lined, changes nothing and is not echoed. */
  lemma {:induction false} Powerless(src: Source, w: World, e: Edits, pv: seq<string>, modes: string)
    requires src.local && !src.server && !src.uline && src.level < 1
    ensures SameChannel(e, EditAll(src, w, e, pv, modes))
    decreases |modes|
  {
    if modes != "" {
      Powerless(src, w, Edit(src, w, e, pv, modes[0]), pv, modes[1..]);
    }
  }

  /** Operator and half-operator status, and invite-only, as they stand. */
  ghost predicate SameCommand(c: Chan, c': Chan) {
    && |c'.members| == |c.members|
    && (forall k | 0 <= k < |c.members| ::
          && c'.members[k].nick == c.members[k].nick
          && c'.members[k].status.op == c.members[k].status.op
          && c'.members[k].status.halfop == c.members[k].status.halfop)
    && ('i' in c'.mode.flags <==> 'i' in c.mode.flags)
    && c'.ts == c.ts
  }

  lemma {:induction false} VoiceOnly(members: seq<Member>, nick: string, plus: bool)
    ensures |GiveStatus(members, nick, plus, 'v')| == |members|
    ensures forall k | 0 <= k < |members| ::
              var m := GiveStatus(members, nick, plus, 'v')[k];
              && m.nick == members[k].nick
              && m.status.op == members[k].status.op && m.status.halfop == members[k].status.halfop
  {
    if members != [] {
      VoiceOnly(members[1..], nick, plus);
    }
  }

  lemma CommandKept(src: Source, w: World, e: Edits, pv: seq<string>, letter: char)
    requires !src.server && src.level < 2
    ensures SameCommand(e.chan, Edit(src, w, e, pv, letter).chan)
  {
    hide Canon, StatusMap, Overflows, ParseRate, RateText, Refused;
    if letter == 'v' && e.args < |pv| && pv[e.args] in w.who {
      VoiceOnly(e.chan.members, w.who[pv[e.args]], e.plus);
    }
  }

  /** Below operator level nobody but a server changes who commands the channel. */
  lemma {:induction false} HalfopLimits(src: Source, w: World, e: Edits, pv: seq<string>, modes: string)
    requires !src.server && src.level < 2
    ensures SameCommand(e.chan, EditAll(src, w, e, pv, modes).chan)
    decreases |modes|
  {
    hide Edit;
    if modes != "" {
      CommandKept(src, w, e, pv, modes[0]);
      HalfopLimits(src, w, Edit(src, w, e, pv, modes[0]), pv, modes[1..]);
    }
  }


  /** The parameter an edit has appended. */
  function Appended(e: Edits, e': Edits): string {
    if e.echo.params == "" then e'.echo.params
    else if |e'.echo.params| <= |e.echo.params| then ""
    else e'.echo.params[|e.echo.params| + 1..]
  }

  lemma AppendedBack(params: string, p: string)
    ensures params != "" ==> AddPara(params, p)[|params| + 1..] == p
  {
  }

  ghost predicate OneMore(src: Source, e: Edits, e': Edits) {
    && e.nparams <= e'.nparams
    && (e'.echo.params == e.echo.params
        || (&& IsWord(Appended(e, e')) && e'.echo.params == AddPara(e.echo.params, Appended(e, e'))
            && e'.nparams == e.nparams + 1 <= MaxParams(src)))
  }

  lemma PrintWithOneMore(src: Source, e: Edits, e': Edits, letter: char, p: string)
    requires IsWord(p) && e'.echo == e.echo && e'.nparams == e.nparams + 1 <= MaxParams(src)
    ensures OneMore(src, e, PrintWith(e', letter, p))
  {
    AppendedBack(e.echo.params, p);
  }

  lemma StatusOneMore(src: Source, w: World, e: Edits, pv: seq<string>, letter: char)
    requires Proper(w)
    ensures OneMore(src, e, EditStatus(src, w, e, pv, letter))
  {
    hide StatusMap, Overflows, GiveStatus, Denied, AddPara, IsWord;
    if e.args < |pv| && pv[e.args] in w.who && e.nparams < MaxParams(src) {
      var nick := w.who[pv[e.args]];
      var e1 := e.(nparams := e.nparams + 1, chan := e.chan.(members := GiveStatus(e.chan.members, nick, e.plus, letter)));
      PrintWithOneMore(src, e, e1, letter, nick);
    }
  }

  lemma MaskOneMore(src: Source, w: World, e: Edits, pv: seq<string>, letter: char)
    ensures OneMore(src, e, EditMask(src, w, e, pv, letter))
  {
    hide Canon, Overflows, Refused, Denied, DropMask, AddPara, IsWord, WithMasks, MasksOf;
    if e.args < |pv| && e.nparams < MaxParams(src) {
      CanonShape(pv[e.args]);
      var mask, masks := Canon(pv[e.args]), MasksOf(e.chan, letter);
      var masks' := if e.plus then [mask] + masks else DropMask(masks, mask);
      PrintWithOneMore(src, e, e.(nparams := e.nparams + 1, chan := WithMasks(e.chan, letter, masks')), letter, mask);
    }
  }

  lemma PlainOneMore(src: Source, w: World, e: Edits, letter: char)
    ensures OneMore(src, e, TurnSign(e, letter == '+'))
    ensures OneMore(src, e, EditSpecial(src, e, letter))
    ensures OneMore(src, e, EditServices(src, w, e, letter))
    ensures OneMore(src, e, EditFlag(src, w, e, letter))
  {
    hide Overflows, Denied, AddPara, IsWord, Appended;
  }

  lemma NumberOneMore(src: Source, w: World, e: Edits, pv: seq<string>)
    ensures OneMore(src, e, EditRate(src, w, e, pv))
    ensures OneMore(src, e, EditLimit(src, w, e, pv))
  {
    hide Overflows, ParseRate, RateText, LimitRate, Atoi, Itoa, Denied, IsWord, AddPara;
    if e.nparams < MaxParams(src) {
      var e1 := e.(nparams := e.nparams + 1);
      forall c, s, p | IsWord(p)
        ensures OneMore(src, e, PrintWith(e1.(chan := c, seen := s), 'j', p))
        ensures OneMore(src, e, PrintWith(e1.(chan := c, seen := s), 'l', p))
      {
        PrintWithOneMore(src, e, e1.(chan := c, seen := s), 'j', p);
        PrintWithOneMore(src, e, e1.(chan := c, seen := s), 'l', p);
      }
    }
  }

  lemma KeyOneMore(src: Source, w: World, e: Edits, pv: seq<string>)
    requires Sound(e.chan)
    ensures OneMore(src, e, EditKey(src, w, e, pv))
  {
    hide Overflows, Denied, Distinct, StatusMap;
    if e.args < |pv| && !BadKey(pv[e.args]) && e.nparams < MaxParams(src) {
      var arg := pv[e.args];
      var key := if e.plus then Truncate(arg, KEY_LEN) else "";
      var printed := if e.plus then key else if e.chan.mode.key == "" then arg else e.chan.mode.key;
      PrintWithOneMore(src, e, Seen(e, 'k').(nparams := e.nparams + 1, chan := e.chan.(mode := e.chan.mode.(key := key))),
                       'k', printed);
    }
  }

  /** An edit prints at most one parameter, and only after counting it against the limit. */
  lemma EditOneMore(src: Source, w: World, e: Edits, pv: seq<string>, letter: char)
    requires Sound(e.chan) && Proper(w)
    ensures OneMore(src, e, Edit(src, w, e, pv, letter))
  {
    NumberOneMore(src, w, e, pv);
    KeyOneMore(src, w, e, pv);
    StatusOneMore(src, w, e, pv, letter);
    MaskOneMore(src, w, e, pv, letter);
    PlainOneMore(src, w, e, letter);
    EditCases(src, w, e, pv, letter);
    hide *;
  }

  lemma EditCases(src: Source, w: World, e: Edits, pv: seq<string>, letter: char)
    ensures var e' := Edit(src, w, e, pv, letter);
            || e' == TurnSign(e, letter == '+') || e' == EditStatus(src, w, e, pv, letter)
            || e' == EditMask(src, w, e, pv, letter) || e' == EditRate(src, w, e, pv)
            || e' == EditLimit(src, w, e, pv) || e' == EditKey(src, w, e, pv)
            || e' == EditSpecial(src, e, letter) || e' == EditServices(src, w, e, letter)
            || e' == EditFlag(src, w, e, letter)
  {
    hide EditRate, EditLimit, EditKey, EditStatus, EditMask, TurnSign, EditSpecial, EditServices, EditFlag;
  }

  /** The echo never carries more parameters than the sender is allowed: six for a client. */
  lemma {:induction false} EchoLimited(src: Source, w: World, e: Edits, pv: seq<string>, modes: string, v0: View)
    requires Faithful(e, v0) && Proper(w) && |Words(e.echo.params)| <= e.nparams
    requires |Words(e.echo.params)| <= MaxParams(src)
    ensures |Words(EditAll(src, w, e, pv, modes).echo.params)| <= MaxParams(src)
    decreases |modes|
  {
    hide Edit, Words;
    if modes != "" {
      var e' := Edit(src, w, e, pv, modes[0]);
      EditFaithful(src, w, e, pv, modes[0], v0);
      EditOneMore(src, w, e, pv, modes[0]);
      if e'.echo.params != e.echo.params {
        WordsAddPara(e.echo.params, Appended(e, e'));
      }
      EchoLimited(src, w, e', pv, modes[1..], v0);
    }
  }

  /* ---------- a server is obeyed to the letter ---------- */

  /** A parameter already in the form in which set_mode keeps or prints it. */
  predicate GoodArg(w: World, c: Chan, plus: bool, letter: char, p: string) {
    if StatusLetter(letter) then
      if p in w.who then w.who[p] == p else p !in StatusMap(c.members)
    else if MaskLetter(letter) then p != "" && p[0] != ':' && Canon(p) == p
    else if letter == 'k' then !BadKey(p) && |p| <= KEY_LEN
    else if letter == 'l' then Atoi(p) >= 1
    else ParseRate(p).Some?
  }

  /** Every letter finds its parameter, and only a U-lined server uses S and O. */
  predicate GoodLine(src: Source, w: World, c: Chan, plus: bool, modes: string, ps: seq<string>)
    decreases |modes|
  {
    if modes == "" then true
    else
      var letter := modes[0];
      if SignChar(letter) then GoodLine(src, w, c, letter == '+', modes[1..], ps)
      else if Takes(plus, letter) then
        ps != [] && GoodArg(w, c, plus, letter, ps[0]) && GoodLine(src, w, c, plus, modes[1..], ps[1..])
      else (letter == 'S' || letter == 'O' ==> src.uline) && GoodLine(src, w, c, plus, modes[1..], ps)
  }

  /** The most an echoed parameter takes up. */
  function Cost(letter: char, p: string): nat {
    1 + if StatusLetter(letter) || MaskLetter(letter) then |p| else KEY_LEN
  }

  function LineCost(plus: bool, modes: string, ps: seq<string>): nat
    decreases |modes|
  {
    if modes == "" then 0
    else
      var letter := modes[0];
      if SignChar(letter) then 1 + LineCost(letter == '+', modes[1..], ps)
      else if Takes(plus, letter) && ps != [] then 1 + Cost(letter, ps[0]) + LineCost(plus, modes[1..], ps[1..])
      else 1 + LineCost(plus, modes[1..], ps)
  }

  /** The buffer test cannot fail: its largest demand is one mask and a separator. */
  predicate Room(w: World, e: Edits, cost: nat) {
    w.prelen + |e.echo.letters| + |e.echo.params| + cost + MASK_LEN + 1 <= REAL_MODE_BUF_LEN
  }

  /** One step of the reader and one turn of the switch, side by side. */
  ghost predicate InStep(src: Source, w: World, e: Edits, pv: seq<string>, letter: char, e': Edits, cost: nat) {
    && e.args <= e'.args <= |pv|
    && Reader(ViewOf(e'.chan), e'.plus, pv[e'.args..]) == ReadOne(Reader(ViewOf(e.chan), e.plus, pv[e.args..]), letter)
    && |e'.echo.letters| + |e'.echo.params| <= |e.echo.letters| + |e.echo.params| + cost
    && e'.nparams - e.nparams <= e'.args - e.args
    && SameNicks(e.chan, e'.chan)
  }

  ghost predicate SameNicks(c: Chan, c': Chan) {
    StatusMap(c'.members).Keys == StatusMap(c.members).Keys
  }

  ghost predicate Obeying(src: Source, w: World, e: Edits, pv: seq<string>, v0: View) {
    && src.server && !src.local && Proper(w) && Faithful(e, v0)
    && e.args <= |pv| && e.nparams <= e.args && |pv| <= 512
  }

  lemma StatusInStep(src: Source, w: World, e: Edits, pv: seq<string>, letter: char, v0: View)
    requires Obeying(src, w, e, pv, v0) && StatusLetter(letter) && e.args < |pv|
    requires GoodArg(w, e.chan, e.plus, letter, pv[e.args]) && Room(w, e, 1 + Cost(letter, pv[e.args]))
    ensures InStep(src, w, e, pv, letter, EditStatus(src, w, e, pv, letter), 1 + Cost(letter, pv[e.args]))
  {
    hide Apply, Balanced, Sign, NoTwoSigns, ChangeStatus;
    var p := pv[e.args];
    assert pv[e.args..][0] == p && pv[e.args..][1..] == pv[e.args + 1..];
    if p in w.who && p in StatusMap(e.chan.members) {
      GiveStatusView(e.chan.members, p, e.plus, letter);
    }
  }

  /** A mask from a server is stored in its canonical form, whatever it was. */
  lemma MaskEdited(src: Source, w: World, e: Edits, pv: seq<string>, letter: char)
    requires src.server && !src.local && MaskLetter(letter) && e.args < |pv| && e.nparams < 512
    requires pv[e.args] != "" && pv[e.args][0] != ':' && |Canon(pv[e.args])| <= |pv[e.args]|
    requires Room(w, e, 1 + Cost(letter, pv[e.args]))
    ensures var e', p := EditMask(src, w, e, pv, letter), pv[e.args];
            && e'.chan == WithMasks(e.chan, letter, ChangeMask(MasksOf(e.chan, letter), e.plus, Canon(p)))
            && e'.plus == e.plus && e'.args == e.args + 1 && e'.nparams == e.nparams + 1
            && |e'.echo.letters| + |e'.echo.params| <= |e.echo.letters| + |e.echo.params| + 1 + Cost(letter, p)
  {
    hide Canon, HasMask, DropMask;
  }

  /** A canonical mask is stored as it is. */
  lemma GoodMaskEdited(src: Source, w: World, e: Edits, pv: seq<string>, letter: char)
    requires src.server && !src.local && MaskLetter(letter) && e.args < |pv| && e.nparams < 512
    requires GoodArg(w, e.chan, e.plus, letter, pv[e.args]) && Room(w, e, 1 + Cost(letter, pv[e.args]))
    ensures var e', p := EditMask(src, w, e, pv, letter), pv[e.args];
            && e'.chan == WithMasks(e.chan, letter, ChangeMask(MasksOf(e.chan, letter), e.plus, p))
            && e'.plus == e.plus && e'.args == e.args + 1 && e'.nparams == e.nparams + 1
            && |e'.echo.letters| + |e'.echo.params| <= |e.echo.letters| + |e.echo.params| + 1 + Cost(letter, p)
  {
    hide EditMask, Canon, HasMask, DropMask;
    MaskEdited(src, w, e, pv, letter);
  }

  lemma MaskInStep(src: Source, w: World, e: Edits, pv: seq<string>, letter: char, v0: View)
    requires Obeying(src, w, e, pv, v0) && MaskLetter(letter) && e.args < |pv|
    requires GoodArg(w, e.chan, e.plus, letter, pv[e.args]) && Room(w, e, 1 + Cost(letter, pv[e.args]))
    ensures InStep(src, w, e, pv, letter, EditMask(src, w, e, pv, letter), 1 + Cost(letter, pv[e.args]))
  {
    hide EditMask, WithMasks, ViewOf, ReadOne, ChangeWith, ChangeMask, MaskLetter, StatusLetter, GoodArg, Faithful;
    hide Cost, Room, StatusMap, Proper;
    var p := pv[e.args];
    assert pv[e.args..][0] == p && pv[e.args..][1..] == pv[e.args + 1..];
    GoodMaskEdited(src, w, e, pv, letter);
    MaskView(e.chan, e.plus, letter, p);
    ReadMask(Reader(ViewOf(e.chan), e.plus, pv[e.args..]), letter);
  }

  lemma MaskView(c: Chan, plus: bool, letter: char, p: string)
    requires MaskLetter(letter)
    ensures ViewOf(WithMasks(c, letter, ChangeMask(MasksOf(c, letter), plus, p))) == ChangeWith(ViewOf(c), plus, letter, p)
    ensures WithMasks(c, letter, ChangeMask(MasksOf(c, letter), plus, p)).members == c.members
  {
    hide StatusMap, ChangeMask;
  }

  lemma ReadMask(r: Reader, letter: char)
    requires MaskLetter(letter) && r.rest != []
    ensures ReadOne(r, letter) == Reader(ChangeWith(r.view, r.plus, letter, r.rest[0]), r.plus, r.rest[1..])
  {
    hide ChangeWith;
  }

  lemma KeyInStep(src: Source, w: World, e: Edits, pv: seq<string>, v0: View)
    requires Obeying(src, w, e, pv, v0) && e.args < |pv| && |e.chan.mode.key| <= KEY_LEN
    requires GoodArg(w, e.chan, e.plus, 'k', pv[e.args]) && Room(w, e, 1 + Cost('k', pv[e.args]))
    ensures InStep(src, w, e, pv, 'k', EditKey(src, w, e, pv), 1 + Cost('k', pv[e.args]))
  {
    hide Apply, Balanced, Sign, NoTwoSigns, StatusMap;
    assert pv[e.args..][1..] == pv[e.args + 1..];
  }

  lemma LimitInStep(src: Source, w: World, e: Edits, pv: seq<string>, v0: View)
    requires Obeying(src, w, e, pv, v0)
    requires if e.plus then e.args < |pv| && GoodArg(w, e.chan, true, 'l', pv[e.args]) && Room(w, e, 1 + Cost('l', pv[e.args]))
             else Room(w, e, 1)
    ensures InStep(src, w, e, pv, 'l', EditLimit(src, w, e, pv), if e.plus then 1 + Cost('l', pv[e.args]) else 1)
  {
    hide Apply, Balanced, Sign, NoTwoSigns, StatusMap, Atoi, Itoa;
    if e.plus {
      assert pv[e.args..][1..] == pv[e.args + 1..];
      NumberLength(Atoi(pv[e.args]));
    }
  }

  lemma RateInStep(src: Source, w: World, e: Edits, pv: seq<string>, v0: View)
    requires Obeying(src, w, e, pv, v0)
    requires if e.plus then e.args < |pv| && GoodArg(w, e.chan, true, 'j', pv[e.args]) && Room(w, e, 1 + Cost('j', pv[e.args]))
             else Room(w, e, 1)
    ensures InStep(src, w, e, pv, 'j', EditRate(src, w, e, pv), if e.plus then 1 + Cost('j', pv[e.args]) else 1)
  {
    hide Apply, Balanced, Sign, NoTwoSigns, StatusMap, Strtol;
    if e.plus {
      var p := pv[e.args];
      assert pv[e.args..][1..] == pv[e.args + 1..];
      SameNumbers(p);
      RateInRange(src, p);
      var (n, t) := ParseRate(p).value;
      RateLength(if n == 0 || t == 0 then 0 else n, if n == 0 || t == 0 then 0 else t);
      hide ParseRate, RateNumbers, RateText;
    }
  }

  lemma SameNumbers(p: string)
    requires ParseRate(p).Some?
    ensures RateNumbers(p) == ParseRate(p).value
  {
    if IndexOf(p, ':') == |p| {
      assert p[..|p|] == p;
    }
  }

  lemma FlagInStep(src: Source, w: World, e: Edits, pv: seq<string>, letter: char, v0: View)
    requires Obeying(src, w, e, pv, v0) && Room(w, e, 1)
    requires !SignChar(letter) && !Takes(e.plus, letter) && letter != 'l' && letter != 'j'
    requires letter == 'S' || letter == 'O' ==> src.uline
    ensures InStep(src, w, e, pv, letter, Edit(src, w, e, pv, letter), 1)
  {
    hide Apply, Balanced, Sign, NoTwoSigns, StatusMap;
  }

  lemma SignInStep(src: Source, w: World, e: Edits, pv: seq<string>, letter: char, v0: View)
    requires Obeying(src, w, e, pv, v0) && SignChar(letter)
    ensures InStep(src, w, e, pv, letter, Edit(src, w, e, pv, letter), 1)
  {
    hide Apply, Balanced, NoTwoSigns, StatusMap;
  }

  lemma {:induction false} ReadCons(r: Reader, c: char, rest: string)
    ensures Read(r, [c] + rest) == Read(ReadOne(r, c), rest)
  {
    hide ReadOne;
    var whole := [c] + rest;
    if rest == "" {
      assert whole[..0] == "";
    } else {
      assert whole[..|whole| - 1] == [c] + rest[..|rest| - 1];
      ReadCons(r, c, rest[..|rest| - 1]);
    }
  }

  lemma KeyKept(src: Source, w: World, e: Edits, pv: seq<string>, letter: char)
    requires |e.chan.mode.key| <= KEY_LEN
    ensures |Edit(src, w, e, pv, letter).chan.mode.key| <= KEY_LEN
  {
    hide Canon, StatusMap, Overflows, ParseRate, RateText, Refused, GiveStatus, Denied, DropMask;
  }

  /** The cost of the letter at the front of a line. */
  function HeadCost(plus: bool, letter: char, ps: seq<string>): nat {
    if !SignChar(letter) && Takes(plus, letter) && ps != [] then 1 + Cost(letter, ps[0]) else 1
  }

  lemma HeadInStep(src: Source, w: World, e: Edits, pv: seq<string>, modes: string, v0: View)
    requires Obeying(src, w, e, pv, v0) && |e.chan.mode.key| <= KEY_LEN && modes != ""
    requires GoodLine(src, w, e.chan, e.plus, modes, pv[e.args..]) && Room(w, e, HeadCost(e.plus, modes[0], pv[e.args..]))
    ensures InStep(src, w, e, pv, modes[0], Edit(src, w, e, pv, modes[0]), HeadCost(e.plus, modes[0], pv[e.args..]))
  {
    var letter := modes[0];
    hide InStep, Obeying, Room, GoodArg, Cost, EditStatus, EditMask, EditRate, EditLimit, EditKey;
    if SignChar(letter) {
      SignInStep(src, w, e, pv, letter, v0);
    } else if Takes(e.plus, letter) {
      assert pv[e.args..][0] == pv[e.args];
      if StatusLetter(letter) {
        StatusInStep(src, w, e, pv, letter, v0);
      } else if MaskLetter(letter) {
        MaskInStep(src, w, e, pv, letter, v0);
      } else if letter == 'k' {
        KeyInStep(src, w, e, pv, v0);
      } else if letter == 'l' {
        LimitInStep(src, w, e, pv, v0);
      } else {
        RateInStep(src, w, e, pv, v0);
      }
    } else if letter == 'l' {
      LimitInStep(src, w, e, pv, v0);
    } else if letter == 'j' {
      RateInStep(src, w, e, pv, v0);
    } else {
      FlagInStep(src, w, e, pv, letter, v0);
    }
  }

  /** What makes a parameter good depends on the channel only through who is in it. */
  lemma {:induction false} GoodLineKept(src: Source, w: World, c: Chan, c': Chan, plus: bool, modes: string, ps: seq<string>)
    requires SameNicks(c, c') && GoodLine(src, w, c, plus, modes, ps)
    ensures GoodLine(src, w, c', plus, modes, ps)
    decreases |modes|
  {
    hide StatusMap, Canon, BadKey, ParseRate, Atoi;
    if modes != "" {
      var letter := modes[0];
      if SignChar(letter) {
        GoodLineKept(src, w, c, c', letter == '+', modes[1..], ps);
      } else if Takes(plus, letter) {
        GoodLineKept(src, w, c, c', plus, modes[1..], ps[1..]);
      } else {
        GoodLineKept(src, w, c, c', plus, modes[1..], ps);
      }
    }
  }

  /** The tail of a line, after its first letter has been read. */
  lemma TailOf(src: Source, w: World, v: View, c: Chan, plus: bool, modes: string, ps: seq<string>)
    requires modes != "" && GoodLine(src, w, c, plus, modes, ps)
    ensures var r := ReadOne(Reader(v, plus, ps), modes[0]);
            && GoodLine(src, w, c, r.plus, modes[1..], r.rest)
            && LineCost(plus, modes, ps) == HeadCost(plus, modes[0], ps) + LineCost(r.plus, modes[1..], r.rest)
  {
    hide ChangePlain, ChangeWith, GoodArg, Cost;
  }

  /**
   A well-formed line from a server that fits the buffer does to the channel what its text says:
   nothing is refused, dropped or cut short.
   */
  lemma {:induction false} ServerObeyed(src: Source, w: World, e: Edits, pv: seq<string>, modes: string, v0: View)
    requires Obeying(src, w, e, pv, v0) && |e.chan.mode.key| <= KEY_LEN
    requires GoodLine(src, w, e.chan, e.plus, modes, pv[e.args..])
    requires Room(w, e, LineCost(e.plus, modes, pv[e.args..]))
    ensures ViewOf(EditAll(src, w, e, pv, modes).chan) == Read(Reader(ViewOf(e.chan), e.plus, pv[e.args..]), modes).view
    decreases |modes|
  {
    if modes != "" {
      var letter, e' := modes[0], Edit(src, w, e, pv, modes[0]);
      TailOf(src, w, ViewOf(e.chan), e.chan, e.plus, modes, pv[e.args..]);
      HeadInStep(src, w, e, pv, modes, v0);
      EditFaithful(src, w, e, pv, letter, v0);
      KeyKept(src, w, e, pv, letter);
      GoodLineKept(src, w, e.chan, e'.chan, e'.plus, modes[1..], pv[e'.args..]);
      assert modes == [letter] + modes[1..];
      ReadCons(Reader(ViewOf(e.chan), e.plus, pv[e.args..]), letter, modes[1..]);
      hide Edit, GoodLine, LineCost, HeadCost, Faithful, ReadOne, ViewOf, Read, Proper, SameNicks;
      ServerObeyed(src, w, e', pv, modes[1..], v0);
    }
  }

  /* ---------- the method ---------- */

  /** set_mode on a channel: the loop over the mode string, the echo it leaves and the number of edits made. */
  method RunSetMode(channel: Channel, src: Source, w: World, modes: string, pv: seq<string>)
    returns (echo: Line, nmodes: nat)
    requires Sound(channel.Value()) && Proper(w)
    modifies channel
    ensures var done := EditAll(src, w, Start(old(channel.Value())), pv, modes);
            channel.Value() == done.chan && echo == Trim(done.echo) && nmodes == done.nmodes
    ensures channel.present == old(channel.present) && Sound(channel.Value())
    ensures Balanced(echo) && Apply(ViewOf(old(channel.Value())), echo) == ViewOf(channel.Value())
    ensures NoTwoSigns(echo.letters) && |Words(echo.params)| <= MaxParams(src)
  {
    ghost var v0, e0 := ViewOf(channel.Value()), Start(channel.Value());
    StartFaithful(channel.Value());
    NoWords();
    EchoLimited(src, w, e0, pv, modes, v0);
    var e := Start(channel.Value());
    var i := 0;
    assert modes[0..] == modes;
    while i < |modes|
      invariant 0 <= i <= |modes|
      invariant Faithful(e, v0) && channel.Value() == e.chan && channel.present == old(channel.present)
      invariant EditAll(src, w, e0, pv, modes) == EditAll(src, w, e, pv, modes[i..])
    {
      hide Faithful, Edit, Words, ViewOf, Proper;
      EditFaithful(src, w, e, pv, modes[i], v0);
      assert modes[i..][0] == modes[i] && modes[i..][1..] == modes[i + 1..];
      e := Edit(src, w, e, pv, modes[i]);
      channel.ts, channel.mode, channel.members := e.chan.ts, e.chan.mode, e.chan.members;
      channel.bans, channel.exempts, channel.invites := e.chan.bans, e.chan.exempts, e.chan.invites;
      i := i + 1;
    }
    if SignChar(e.echo.letters[|e.echo.letters| - 1]) {
      DropSign(v0, e.echo);
    }
    echo, nmodes := Trim(e.echo), e.nmodes;
  }
}
