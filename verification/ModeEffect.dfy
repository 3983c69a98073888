/** When set_mode makes a change, for every sender, letter by letter, and what the channel looks like then. */
module ModeEffect {
  import opened Text
  import opened ModeLine
  import opened MaskBatch
  import opened Masks
  import BanLists
  import Match
  import opened Options
  import opened Sjoin
  import opened ChannelClass
  import opened SetMode
  import opened ModeRelay

  /* ---------- the tests, as tables ---------- */

  predicate Known(letter: char) {
    match letter
    case 'o' | 'h' | 'v' | 'b' | 'e' | 'I' | 'j' | 'l' | 'k' | 'S' | 'O' | 'r' | 'L' => true
    case 'p' | 's' | 'm' | 'n' | 't' | 'R' | 'i' | 'c' | 'M' | 'N' => true
    case _ => false
  }

  /** Who may use a letter. */
  predicate HasRight(src: Source, letter: char) {
    match letter
    case 'S' => src.uline || (src.secure && (src.server || src.level >= 1))
    case 'O' => (src.uline || (src.level >= 2 && src.oper)) && (!src.local || src.oper)
    case 'r' => src.server || src.uline
    case 'L' => !src.local
    case 'o' | 'h' | 'i' => src.server || src.level >= 2
    case _ => src.server || src.level >= 1
  }

  /** A local client may use these letters once in a line: all but those for status and masks, S and O. */
  predicate NotYet(src: Source, seen: set<char>, letter: char) {
    match letter
    case 'o' | 'h' | 'v' | 'b' | 'e' | 'I' | 'S' | 'O' => true
    case _ => src.local ==> letter !in seen
  }

  /** Six parameters for a client, and 512 for a server or services. */
  predicate OneMoreParam(src: Source, nparams: nat) {
    nparams < 6 || ((src.server || src.uline) && nparams < 512)
  }

  /** The mask may go on its list: for a local client it is not full and nothing on it matches, for others the mask is not there. */
  predicate MaskAddable(src: Source, masks: seq<string>, letter: char, mask: string) {
    if src.local then |masks| < (if letter == 'e' then 45 else 100) && forall m | m in masks :: !Match.Matches(m, mask)
    else forall m | m in masks :: !SameName(m, mask)
  }

  predicate GoodParam(src: Source, w: World, c: Chan, plus: bool, letter: char, arg: string) {
    match letter
    case 'o' | 'h' | 'v' => arg in w.who && exists k | 0 <= k < |c.members| :: c.members[k].nick == w.who[arg]
    case 'b' => GoodMask(src, c.bans, plus, letter, arg)
    case 'e' => GoodMask(src, c.exempts, plus, letter, arg)
    case 'I' => GoodMask(src, c.invites, plus, letter, arg)
    case 'k' => arg != "" && arg[0] != ':' && ' ' !in arg && '*' !in arg && ',' !in arg
    case 'l' => Atoi(arg) >= 1
    case _ => ParseRate(arg).Some?
  }

  predicate GoodMask(src: Source, masks: seq<string>, plus: bool, letter: char, arg: string) {
    arg != "" && arg[0] != ':' && (plus ==> MaskAddable(src, masks, letter, Canon(arg)))
  }

  /** The rate that is set: below operator level a local client gets one within limits. */
  function RateFor(src: Source, arg: string): string
    requires ParseRate(arg).Some?
  {
    var (n, t) := ParseRate(arg).value;
    var (joins, seconds) := if src.local && src.level < 2 then LimitRate(n, t) else (n, t);
    if joins == 0 || seconds == 0 then "0" else Itoa(joins) + ":" + Itoa(seconds)
  }

  /** The parameter that is printed, and stands for what is set. */
  function ParamFor(src: Source, w: World, c: Chan, plus: bool, letter: char, arg: string): string {
    match letter
    case 'o' | 'h' | 'v' => if arg in w.who then w.who[arg] else ""
    case 'b' | 'e' | 'I' => Canon(arg)
    case 'k' =>
      if !plus then if c.mode.key != "" then c.mode.key else arg
      else if |arg| > 23 then arg[..23] else arg
    case 'l' => Itoa(Atoi(arg))
    case _ => if ParseRate(arg).Some? then RateFor(src, arg) else ""
  }

  /** The change a letter asks for. */
  function Asked(src: Source, w: World, e: Edits, pv: seq<string>, letter: char): Change {
    Change(e.plus, letter,
           if Takes(e.plus, letter) && e.args < |pv| then ParamFor(src, w, e.chan, e.plus, letter, pv[e.args]) else "")
  }

  /** How much of the buffer must be free. */
  function Asks(ch: Change): nat {
    match ch.letter
    case 'o' | 'h' | 'v' => 31
    case 'b' | 'e' | 'I' => |ch.param| + 1
    case 'k' => 25
    case 'l' => if ch.plus then 16 else 1
    case 'j' => if ch.plus then |ch.param| else 1
    case _ => 1
  }

  predicate Fits(w: World, line: Line, ch: Change) {
    ch.letter == 'S' || ch.letter == 'O' || w.prelen + |line.letters| + |line.params| + Asks(ch) <= 512
  }

  /** All tests together. */
  predicate IsMade(src: Source, w: World, e: Edits, pv: seq<string>, letter: char) {
    && Known(letter) && HasRight(src, letter) && NotYet(src, e.seen, letter)
    && (Takes(e.plus, letter) ==>
          e.args < |pv| && OneMoreParam(src, e.nparams) && GoodParam(src, w, e.chan, e.plus, letter, pv[e.args]))
    && Fits(w, e.echo, Asked(src, w, e, pv, letter))
  }

  /* ---------- letter by letter ---------- */

  ghost predicate Effect(src: Source, w: World, e: Edits, pv: seq<string>, letter: char, e': Edits) {
    && Progress(src, w, e, pv, letter, e')
    && if IsMade(src, w, e, pv, letter) then e'.echo == PrintOn(e.echo, Asked(src, w, e, pv, letter))
       else e'.echo == e.echo && e'.chan == e.chan
  }

  /** A parameter is used up by whoever has the right to the letter, whether the change is made or not. */
  predicate TakesParam(src: Source, e: Edits, pv: seq<string>, letter: char) {
    Takes(e.plus, letter) && HasRight(src, letter) && e.args < |pv|
  }

  /** When a letter is noted as seen. */
  predicate Noted(src: Source, w: World, e: Edits, pv: seq<string>, letter: char) {
    match letter
    case 'r' | 'L' => true
    case 'k' => TakesParam(src, e, pv, letter) && OneMoreParam(src, e.nparams)
    case 'j' | 'l' => HasRight(src, letter) && (e.plus ==> e.args < |pv| && OneMoreParam(src, e.nparams))
    case 'p' | 's' | 'm' | 'n' | 't' | 'R' | 'i' | 'c' | 'M' | 'N' => IsMade(src, w, e, pv, letter)
    case _ => false
  }

  /** What the loop carries on: the sign, the parameters used up and counted, the letters seen, and the changes made. */
  predicate Progress(src: Source, w: World, e: Edits, pv: seq<string>, letter: char, e': Edits) {
    var n := if TakesParam(src, e, pv, letter) then 1 else 0;
    && e'.plus == e.plus && e'.args == e.args + n && e'.nparams == e.nparams + n
    && (src.local ==> e'.seen == if Noted(src, w, e, pv, letter) then e.seen + {letter} else e.seen)
    && e'.nmodes == e.nmodes + if IsMade(src, w, e, pv, letter) then 1 else 0
  }

  lemma StatusEffect(src: Source, w: World, e: Edits, pv: seq<string>, letter: char)
    requires StatusLetter(letter)
    ensures Effect(src, w, e, pv, letter, EditStatus(src, w, e, pv, letter))
  {
    hide GiveStatus, AddPara, ParseRate, Canon, Match.Matches, StatusMap, LimitRate, Atoi, Itoa;
    StatusMapKeys(e.chan.members);
    if Denied(src, if letter == 'v' then 1 else 2) || e.args >= |pv| {
    } else if e.nparams + 1 > MaxParams(src) || pv[e.args] !in w.who {
    } else if w.who[pv[e.args]] !in StatusMap(e.chan.members) || Overflows(w, e, NICK_LEN + 1) {
    } else {
      assert IsMade(src, w, e, pv, letter);
    }
  }

  lemma MaskEffect(src: Source, w: World, e: Edits, pv: seq<string>, letter: char)
    requires MaskLetter(letter)
    ensures Effect(src, w, e, pv, letter, EditMask(src, w, e, pv, letter))
  {
    hide AddPara, ParseRate, Canon, Match.Matches, DropMask, SameName, LimitRate, Atoi, Itoa;
    if e.args < |pv| {
      NotRefused(src, MasksOf(e.chan, letter), letter, Canon(pv[e.args]));
    }
    hide BanLists.Refused, MaskAddable, Refused;
  }

  lemma NotRefused(src: Source, masks: seq<string>, letter: char, mask: string)
    requires MaskLetter(letter)
    ensures MaskAddable(src, masks, letter, mask) <==> !Refused(src, masks, letter, mask)
  {
    hide Match.Matches, SameName;
    assert forall k | 0 <= k < |masks| :: masks[k] in masks;
    forall m | m in masks
      ensures exists k :: 0 <= k < |masks| && masks[k] == m
    {
    }
  }

  lemma LimitEffect(src: Source, w: World, e: Edits, pv: seq<string>)
    ensures Effect(src, w, e, pv, 'l', EditLimit(src, w, e, pv))
  {
    hide AddPara, ParseRate, Canon, Match.Matches, LimitRate, Atoi, Itoa;
  }

  lemma RateEffect(src: Source, w: World, e: Edits, pv: seq<string>)
    ensures Effect(src, w, e, pv, 'j', EditRate(src, w, e, pv))
  {
    hide AddPara, ParseRate, Canon, Match.Matches, LimitRate, Atoi;
    assert Itoa(0) == "0";
    hide Itoa;
  }

  lemma KeyEffect(src: Source, w: World, e: Edits, pv: seq<string>)
    ensures Effect(src, w, e, pv, 'k', EditKey(src, w, e, pv))
  {
    hide AddPara, ParseRate, Canon, Match.Matches, LimitRate, Atoi, Itoa;
  }

  lemma FlagEffect(src: Source, w: World, e: Edits, pv: seq<string>, letter: char)
    requires !SignChar(letter) && !StatusLetter(letter) && !MaskLetter(letter) && letter != 'j' && letter != 'l' && letter != 'k'
    ensures Effect(src, w, e, pv, letter, Edit(src, w, e, pv, letter))
  {
    hide AddPara, ParseRate, Canon, Match.Matches, LimitRate, Atoi, Itoa;
  }

  lemma SomeEffect(src: Source, w: World, e: Edits, pv: seq<string>, letter: char)
    requires !SignChar(letter)
    ensures Effect(src, w, e, pv, letter, Edit(src, w, e, pv, letter))
  {
    hide Effect, EditStatus, EditMask, EditRate, EditLimit, EditKey, EditSpecial, EditServices, EditFlag;
    if StatusLetter(letter) {
      StatusEffect(src, w, e, pv, letter);
    } else if MaskLetter(letter) {
      MaskEffect(src, w, e, pv, letter);
    } else if letter == 'j' {
      RateEffect(src, w, e, pv);
    } else if letter == 'l' {
      LimitEffect(src, w, e, pv);
    } else if letter == 'k' {
      KeyEffect(src, w, e, pv);
    } else {
      FlagEffect(src, w, e, pv, letter);
    }
  }

  /**
   In any state a run reaches, for every sender and letter: the change the letter asks for is made and
   printed exactly when all tests of the table pass, and otherwise nothing is.
   */
  lemma MadeExactlyWhen(src: Source, w: World, e: Edits, pv: seq<string>, letter: char, v0: View)
    requires RunSoFar(w, e, v0) && Proper(w) && !SignChar(letter)
    ensures var e', ch := Edit(src, w, e, pv, letter), Asked(src, w, e, pv, letter);
            Progress(src, w, e, pv, letter, e') &&
            if IsMade(src, w, e, pv, letter)
            then e'.echo == PrintOn(e.echo, ch) && ViewOf(e'.chan) == ChangeOne(ViewOf(e.chan), ch)
            else e'.echo == e.echo && e'.chan == e.chan
  {
    hide *;
    RunParts(w, e, v0);
    var e' := Edit(src, w, e, pv, letter);
    SomeEffect(src, w, e, pv, letter);
    EffectIs(src, w, e, pv, letter, e');
    EditFaithful(src, w, e, pv, letter, v0);
    FaithfulTold(e, v0);
    FaithfulTold(e', v0);
    var ch := ToldStep(src, w, e, pv, letter, v0);
    if IsMade(src, w, e, pv, letter) {
      var asked := Asked(src, w, e, pv, letter);
      Longer(e.echo, asked);
      SamePrint(src, w, e, pv, letter, ch, asked);
      ChangeSnoc(v0, Told(e.echo), ch);
    }
  }

  lemma EffectIs(src: Source, w: World, e: Edits, pv: seq<string>, letter: char, e': Edits)
    requires Effect(src, w, e, pv, letter, e')
    ensures Progress(src, w, e, pv, letter, e')
    ensures if IsMade(src, w, e, pv, letter) then e'.echo == PrintOn(e.echo, Asked(src, w, e, pv, letter))
            else e'.echo == e.echo && e'.chan == e.chan
  {
  }

  /** A sign turns the reader, and nothing else but the sign on the line. */
  lemma SignsTurn(src: Source, w: World, e: Edits, pv: seq<string>, plus: bool)
    ensures var e' := Edit(src, w, e, pv, if plus then '+' else '-');
            e'.plus == plus && e' == e.(plus := plus, echo := e'.echo) && Told(e'.echo) == Told(e.echo)
  {
    ToldTurned(e, plus);
    hide Told;
  }

  /** Below operator level a local client's rate is brought within 4 to 60 joins, a join in 8 seconds at least and 2 a second at most. */
  lemma LimitRateMeans(n: int, t: int)
    requires n >= 0 && t >= 0
    ensures var r := LimitRate(n, t);
            && 4 <= r.0 <= 60 && r.1 <= 60 && r.1 <= 8 * r.0 && r.0 <= 2 * r.1 + 1
            && (4 <= n <= 60 && t <= 60 && t <= 8 * n && n <= 2 * t + 1 ==> r == (n, t))
            && (n > 60 ==> r.0 == 60) && (t >= 60 ==> r.1 == 60)
            && (n < 4 && t <= 32 ==> r.0 == 4) && (n < r.0 && n >= 4 ==> 8 * (r.0 - 1) < r.1) && (t < r.1 ==> r.1 == r.0 / 2)
  {
  }

  /** A line shows what was printed on it last. */
  lemma SamePrint(src: Source, w: World, e: Edits, pv: seq<string>, letter: char, ch: Change, asked: Change)
    requires asked == Asked(src, w, e, pv, letter) && ch.plus == e.plus && ch.letter == letter
    requires PrintOn(e.echo, ch) == PrintOn(e.echo, asked) && WellFormed(ch)
    ensures ch == asked
  {
    hide ParamFor, IsWord;
    if Takes(e.plus, letter) {
      AppendedBack(e.echo.params, ch.param);
      AppendedBack(e.echo.params, asked.param);
    }
  }
}
