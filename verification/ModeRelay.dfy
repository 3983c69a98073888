/** The echo of set_mode, read by set_mode on the next server: when it says and does the same there. */
module ModeRelay {
  import opened Text
  import opened ModeLine
  import BanLists
  import opened MaskBatch
  import opened Masks
  import opened Options
  import opened Sjoin
  import opened ChannelClass
  import opened SetMode

  /* ---------- what a line says ---------- */

  /** One letter with its sign, and its parameter if it takes one. */
  datatype Change = Change(plus: bool, letter: char, param: string)

  datatype Teller = Teller(items: seq<Change>, plus: bool, rest: seq<string>)

  function TellOne(t: Teller, letter: char): Teller {
    if letter == '+' then t.(plus := true)
    else if letter == '-' then t.(plus := false)
    else if !Takes(t.plus, letter) then t.(items := t.items + [Change(t.plus, letter, "")])
    else if t.rest == [] then t
    else Teller(t.items + [Change(t.plus, letter, t.rest[0])], t.plus, t.rest[1..])
  }

  function Tell(t: Teller, letters: string): Teller {
    if letters == "" then t else TellOne(Tell(t, letters[..|letters| - 1]), letters[|letters| - 1])
  }

  /** The changes of a line, without regard to signs that are printed for nothing. */
  function Told(line: Line): seq<Change> {
    Tell(Teller([], true, Words(line.params)), line.letters).items
  }

  function ChangeOne(v: View, ch: Change): View {
    if Takes(ch.plus, ch.letter) then ChangeWith(v, ch.plus, ch.letter, ch.param) else ChangePlain(v, ch.plus, ch.letter)
  }

  function ChangeAll(v: View, items: seq<Change>): View {
    if items == [] then v else ChangeOne(ChangeAll(v, items[..|items| - 1]), items[|items| - 1])
  }

  lemma ChangeSnoc(v: View, items: seq<Change>, ch: Change)
    ensures ChangeAll(v, items + [ch]) == ChangeOne(ChangeAll(v, items), ch)
  {
    assert (items + [ch])[..|items|] == items;
  }

  lemma {:induction false} TellReads(v: View, ps: seq<string>, letters: string)
    ensures var t := Tell(Teller([], true, ps), letters);
            Read(Reader(v, true, ps), letters) == Reader(ChangeAll(v, t.items), t.plus, t.rest)
  {
    if letters != "" {
      var init, c := letters[..|letters| - 1], letters[|letters| - 1];
      TellReads(v, ps, init);
      var t := Tell(Teller([], true, ps), init);
      ChangeSnoc(v, t.items, Change(t.plus, c, ""));
      if t.rest != [] {
        ChangeSnoc(v, t.items, Change(t.plus, c, t.rest[0]));
      }
      hide ChangeAll, ChangeWith, ChangePlain;
    }
  }

  /** Reading a line is making its changes. */
  lemma ToldApplies(v: View, line: Line)
    ensures Apply(v, line) == ChangeAll(v, Told(line))
  {
    TellReads(v, Words(line.params), line.letters);
  }

  function Count(letters: string): nat {
    if letters == "" then 0 else (if SignChar(letters[0]) then 0 else 1) + Count(letters[1..])
  }

  lemma {:induction false} CountSnoc(letters: string, c: char)
    ensures Count(letters + [c]) == Count(letters) + if SignChar(c) then 0 else 1
  {
    if letters != "" {
      assert (letters + [c])[1..] == letters[1..] + [c];
      CountSnoc(letters[1..], c);
    }
  }

  /** With parameters enough every letter is told. */
  lemma {:induction false} TellShape(ps: seq<string>, letters: string)
    requires Need(letters) <= |ps|
    ensures var t := Tell(Teller([], true, ps), letters);
            t.plus == Sign(letters) && t.rest == ps[Need(letters)..] && |t.items| == Count(letters)
  {
    if letters != "" {
      var init, c := letters[..|letters| - 1], letters[|letters| - 1];
      TellShape(ps, init);
      CountSnoc(init, c);
      assert letters == init + [c];
    }
  }

  lemma {:induction false} TellMore(ps: seq<string>, more: seq<string>, letters: string)
    requires Need(letters) <= |ps|
    ensures var t, u := Tell(Teller([], true, ps), letters), Tell(Teller([], true, ps + more), letters);
            u == t.(rest := t.rest + more)
  {
    if letters != "" {
      var init := letters[..|letters| - 1];
      TellMore(ps, more, init);
      TellShape(ps, init);
      TellShape(ps + more, init);
    }
  }

  /** A line with one more change on it. */
  function PrintOn(line: Line, ch: Change): Line {
    Line(line.letters + [ch.letter], if Takes(ch.plus, ch.letter) then AddPara(line.params, ch.param) else line.params)
  }

  predicate WellFormed(ch: Change) {
    !SignChar(ch.letter) && if Takes(ch.plus, ch.letter) then IsWord(ch.param) else ch.param == ""
  }

  lemma ToldPrint(line: Line, ch: Change)
    requires Balanced(line) && Sign(line.letters) == ch.plus && WellFormed(ch)
    ensures Told(PrintOn(line, ch)) == Told(line) + [ch]
  {
    var ps := Words(line.params);
    SnocString(line.letters, ch.letter);
    TellShape(ps, line.letters);
    if Takes(ch.plus, ch.letter) {
      WordsAddPara(line.params, ch.param);
      TellMore(ps, [ch.param], line.letters);
    }
    hide Takes, Words, Need, Sign, IsWord;
  }

  lemma ToldSign(line: Line, sign: char)
    requires SignChar(sign)
    ensures Told(line.(letters := line.letters + [sign])) == Told(line)
  {
    SnocString(line.letters, sign);
  }

  lemma ToldTurned(e: Edits, plus: bool)
    ensures Told(TurnSign(e, plus).echo) == Told(e.echo)
  {
    var ls := e.echo.letters;
    var sign := if plus then '+' else '-';
    if ls != "" {
      var cut := e.echo.(letters := ls[..|ls| - 1]);
      if SignChar(ls[|ls| - 1]) {
        ToldSign(cut, ls[|ls| - 1]);
        ToldSign(cut, sign);
        assert cut.letters + [ls[|ls| - 1]] == ls;
        assert cut.(letters := cut.letters + [ls[|ls| - 1]]) == e.echo;
      }
    }
    ToldSign(e.echo, sign);
    hide Told;
  }

  lemma ToldTrim(line: Line)
    ensures Told(Trim(line)) == Told(line)
  {
    var ls := line.letters;
    if ls != "" && SignChar(ls[|ls| - 1]) {
      ToldSign(Trim(line), ls[|ls| - 1]);
      assert ls[..|ls| - 1] + [ls[|ls| - 1]] == ls;
    }
  }

  /* ---------- what set_mode prints ---------- */

  function MasksIn(v: View, letter: char): seq<string> {
    if letter == 'b' then v.bans else if letter == 'e' then v.exempts else v.invites
  }

  /** What an echoed change is known to be, whoever made it: the nick is a member, the mask is new, a number is as printed. */
  predicate Made(v: View, ch: Change) {
    && WellFormed(ch)
    && (StatusLetter(ch.letter) ==> ch.param in v.status)
    && (MaskLetter(ch.letter) ==> ch.param != "" && ch.param[0] != ':' && (ch.plus ==> !HasMask(MasksIn(v, ch.letter), ch.param)))
    && (ch.letter == 'k' ==> if ch.plus then !BadKey(ch.param) && |ch.param| <= KEY_LEN else v.key != "" ==> ch.param == v.key)
    && (ch.letter == 'l' && ch.plus ==> Atoi(ch.param) >= 1 && Itoa(Atoi(ch.param)) == ch.param)
    && (ch.letter == 'j' && ch.plus ==> ParseRate(ch.param).Some? && ShownRate(ch.param) == ch.param)
    && (!Takes(ch.plus, ch.letter) ==> FlagLetter(ch.letter) || ch.letter == 'l' || ch.letter == 'j')
  }

  /** A rate as it is printed again. */
  function ShownRate(p: string): string
    requires ParseRate(p).Some?
  {
    var (n, t) := ParseRate(p).value;
    RateText(if n == 0 || t == 0 then 0 else n, if n == 0 || t == 0 then 0 else t)
  }

  /** The room a change asks for in the buffer; S and O do not ask. */
  function Extra(ch: Change): nat {
    if StatusLetter(ch.letter) then NICK_LEN + 1
    else if MaskLetter(ch.letter) then |ch.param| + 1
    else if ch.letter == 'k' then KEY_LEN + 2
    else if ch.letter == 'l' && ch.plus then 16
    else if ch.letter == 'j' && ch.plus then |ch.param|
    else 1
  }

  predicate HasRoom(prelen: nat, line: Line, ch: Change) {
    ch.letter == 'S' || ch.letter == 'O' || prelen + |line.letters| + |line.params| + Extra(ch) <= REAL_MODE_BUF_LEN
  }

  /** An edit leaves the echo alone, or puts one change of this sign and letter on it. */
  ghost predicate Tells(w: World, e: Edits, e': Edits, letter: char, ch: Change) {
    && e'.plus == e.plus
    && (e'.echo == e.echo
        || (&& e'.echo == PrintOn(e.echo, ch) && ch.plus == e.plus && ch.letter == letter
            && Made(ViewOf(e.chan), ch) && HasRoom(w.prelen, e.echo, ch)))
  }

  lemma StatusTells(src: Source, w: World, e: Edits, pv: seq<string>, letter: char) returns (ch: Change)
    requires Proper(w) && StatusLetter(letter)
    ensures Tells(w, e, EditStatus(src, w, e, pv, letter), letter, ch)
  {
    hide StatusMap, GiveStatus, Denied, MaxParams, IsWord, AddPara;
    ch := Change(e.plus, letter, if e.args < |pv| && pv[e.args] in w.who then w.who[pv[e.args]] else "");
  }

  lemma MaskTells(src: Source, w: World, e: Edits, pv: seq<string>, letter: char) returns (ch: Change)
    requires MaskLetter(letter)
    ensures Tells(w, e, EditMask(src, w, e, pv, letter), letter, ch)
  {
    hide Canon, StatusMap, DropMask, Denied, MaxParams, AddPara, BanLists.Refused, HasMask, Stored;
    ch := Change(e.plus, letter, if e.args < |pv| then Canon(pv[e.args]) else "");
    if e.args < |pv| && CharAt(pv[e.args], 0) != ':' && pv[e.args] != "" {
      StoredStart(pv[e.args]);
      var masks := MasksOf(e.chan, letter);
      if e.plus && !Refused(src, masks, letter, ch.param) {
        BanLists.NotThere(src.local, masks, MaxMasks(letter), ch.param);
      }
    }
    hide IsWord;
  }

  lemma StoredStart(param: string)
    requires param != "" && param[0] != ':'
    ensures IsWord(Canon(param)) && Canon(param) != "" && Canon(param)[0] != ':' && |Canon(param)| <= MASK_LEN
  {
    hide Canon, PrettyMask;
    CanonStored(param);
    CanonShape(param);
  }

  lemma LimitTells(src: Source, w: World, e: Edits, pv: seq<string>) returns (ch: Change)
    ensures Tells(w, e, EditLimit(src, w, e, pv), 'l', ch)
  {
    hide StatusMap, Denied, MaxParams, AddPara, Atoi, Itoa;
    ch := Change(e.plus, 'l', if e.plus && e.args < |pv| then Itoa(Atoi(pv[e.args])) else "");
    if e.plus && e.args < |pv| {
      AtoiItoa(Atoi(pv[e.args]));
    }
    hide IsWord;
  }

  /** A printed rate is parsed and printed as itself. */
  lemma RateAgain(n: int, t: int)
    requires n >= 0 && t >= 0 && Int32(n) && Int32(t) && (n == 0 <==> t == 0)
    ensures ParseRate(RateText(n, t)) == Some((n, t)) && ShownRate(RateText(n, t)) == RateText(n, t)
  {
    hide Strtol;
    AtoiItoa(n);
    AtoiItoa(t);
    if n == 0 {
      assert Itoa(0) == "0" && IndexOf("0", ':') == 1 && "0"[..1] == "0";
    } else {
      IndexOfSplit(Itoa(n), ':', Itoa(t));
      var s := RateText(n, t);
      assert s == Itoa(n) + [':'] + Itoa(t);
      assert s[..|Itoa(n)|] == Itoa(n) && s[|Itoa(n)| + 1..] == Itoa(t);
    }
  }

  lemma RateTells(src: Source, w: World, e: Edits, pv: seq<string>) returns (ch: Change)
    ensures Tells(w, e, EditRate(src, w, e, pv), 'j', ch)
  {
    hide StatusMap, Denied, MaxParams, AddPara, RateText, IndexOf, Strtol;
    ch := Change(e.plus, 'j', "");
    if e.plus && e.args < |pv| && ParseRate(pv[e.args]).Some? {
      var parsed := ParseRate(pv[e.args]).value;
      var (n, t) := if src.local && src.level < 2 then LimitRate(parsed.0, parsed.1) else parsed;
      var joins, seconds := if n == 0 || t == 0 then 0 else n, if n == 0 || t == 0 then 0 else t;
      RateAgain(joins, seconds);
      ch := Change(true, 'j', RateText(joins, seconds));
      hide ParseRate, ShownRate, LimitRate;
    }
    hide IsWord;
  }

  lemma KeyTells(src: Source, w: World, e: Edits, pv: seq<string>) returns (ch: Change)
    requires Sound(e.chan)
    ensures Tells(w, e, EditKey(src, w, e, pv), 'k', ch)
  {
    hide StatusMap, Denied, MaxParams, AddPara, Distinct;
    ch := Change(e.plus, 'k', "");
    if e.args < |pv| && !BadKey(pv[e.args]) {
      var arg := pv[e.args];
      ch := Change(e.plus, 'k', if e.plus then Truncate(arg, KEY_LEN) else if e.chan.mode.key == "" then arg else e.chan.mode.key);
    }
  }

  lemma FlagTells(src: Source, w: World, e: Edits, letter: char)
    requires !SignChar(letter) && !Takes(e.plus, letter)
    ensures Tells(w, e, EditSpecial(src, e, letter), letter, Change(e.plus, letter, "")) || (letter != 'S' && letter != 'O')
    ensures Tells(w, e, EditServices(src, w, e, letter), letter, Change(e.plus, letter, "")) || (letter != 'r' && letter != 'L')
    ensures Tells(w, e, EditFlag(src, w, e, letter), letter, Change(e.plus, letter, ""))
  {
    hide StatusMap, Denied;
  }

  /** Every turn of the switch but that on a sign. */
  lemma EditTells(src: Source, w: World, e: Edits, pv: seq<string>, letter: char) returns (ch: Change)
    requires Proper(w) && Sound(e.chan) && !SignChar(letter)
    ensures Tells(w, e, Edit(src, w, e, pv, letter), letter, ch)
  {
    hide Tells, EditStatus, EditMask, EditRate, EditLimit, EditKey, EditSpecial, EditServices, EditFlag, Proper, Sound;
    if StatusLetter(letter) {
      ch := StatusTells(src, w, e, pv, letter);
    } else if MaskLetter(letter) {
      ch := MaskTells(src, w, e, pv, letter);
    } else if letter == 'j' {
      ch := RateTells(src, w, e, pv);
    } else if letter == 'l' {
      ch := LimitTells(src, w, e, pv);
    } else if letter == 'k' {
      ch := KeyTells(src, w, e, pv);
    } else {
      ch := Change(e.plus, letter, "");
      FlagTells(src, w, e, letter);
    }
  }

  /** Every change was made in the channel as the ones before it left it. */
  ghost predicate AllMade(v: View, items: seq<Change>) {
    forall j | 0 <= j < |items| :: Made(ChangeAll(v, items[..j]), items[j])
  }

  lemma AllMadeSnoc(v: View, items: seq<Change>, ch: Change)
    requires AllMade(v, items) && Made(ChangeAll(v, items), ch)
    ensures AllMade(v, items + [ch])
  {
    hide Made, ChangeAll;
    var all := items + [ch];
    forall j | 0 <= j < |all|
      ensures Made(ChangeAll(v, all[..j]), all[j])
    {
      if j < |items| {
        assert all[..j] == items[..j];
      } else {
        assert all[..j] == items;
      }
    }
  }

  /* ---------- how a reader prints it again ---------- */

  /** The sign in force after some changes. */
  function SignOf(items: seq<Change>): bool {
    if items == [] then true else items[|items| - 1].plus
  }

  /** A sign is printed when it is new; the first one takes the place of the plus. */
  function WithSign(letters: string, was: bool, plus: bool): string {
    var sign := if plus then '+' else '-';
    if was == plus then letters else if letters == "+" then [sign] else letters + [sign]
  }

  /** The changes on a line without needless signs. */
  function Written(items: seq<Change>): Line
    decreases |items|, 0
  {
    if items == [] then Line("+", "")
    else
      var init, ch := items[..|items| - 1], items[|items| - 1];
      PrintOn(Turned(init, ch.plus), ch)
  }

  /** The line so far, ready for a change of this sign. */
  function Turned(items: seq<Change>, plus: bool): Line
    decreases |items|, 1
  {
    var line := Written(items);
    line.(letters := WithSign(line.letters, SignOf(items), plus))
  }

  lemma WrittenShape(items: seq<Change>)
    requires forall ch | ch in items :: WellFormed(ch)
    ensures Written(items).letters != ""
    ensures if items == [] then Written(items).letters == "+" else !SignChar(Written(items).letters[|Written(items).letters| - 1])
    ensures items != [] ==> |Written(items).letters| >= 2
  {
    hide IsWord, Takes;
    if items != [] {
      var init, ch := items[..|items| - 1], items[|items| - 1];
      WrittenShape(init);
      assert ch in items;
    }
  }

  /** The buffer of the first server is nowhere shorter than the line without needless signs. */
  ghost predicate NoShorter(e: Edits, items: seq<Change>) {
    && e.echo.params == Written(items).params
    && |Turned(items, e.plus).letters| <= |e.echo.letters| && |Written(items).letters| <= |e.echo.letters|
    && (items != [] && e.echo.letters != "" && SignChar(e.echo.letters[|e.echo.letters| - 1]) ==> |Written(items).letters| < |e.echo.letters|)
  }

  /** Every change found room there. */
  ghost predicate AllFit(prelen: nat, items: seq<Change>) {
    forall j | 0 <= j < |items| :: HasRoom(prelen, Turned(items[..j], items[j].plus), items[j])
  }

  lemma NoShorterTurn(e: Edits, items: seq<Change>, plus: bool)
    requires NoShorter(e, items) && (forall ch | ch in items :: WellFormed(ch))
    ensures NoShorter(TurnSign(e, plus), items)
  {
    hide WellFormed;
    WrittenShape(items);
    hide Written, SignOf;
  }

  lemma NoShorterPrint(prelen: nat, e: Edits, e': Edits, items: seq<Change>, ch: Change)
    requires NoShorter(e, items) && WellFormed(ch) && (forall x | x in items :: WellFormed(x))
    requires AllFit(prelen, items) && HasRoom(prelen, e.echo, ch) && ch.plus == e.plus == e'.plus && e'.echo == PrintOn(e.echo, ch)
    ensures NoShorter(e', items + [ch]) && AllFit(prelen, items + [ch])
  {
    hide AddPara, IsWord;
    var all := items + [ch];
    assert all[..|items|] == items;
    WrittenShape(items);
    assert Written(all) == PrintOn(Turned(items, ch.plus), ch);
    forall j | 0 <= j < |all|
      ensures HasRoom(prelen, Turned(all[..j], all[j].plus), all[j])
    {
      if j < |items| {
        assert all[..j] == items[..j];
      }
    }
  }

  /** What holds all through a run of set_mode. */
  ghost predicate RunSoFar(w: World, e: Edits, v0: View) {
    && Faithful(e, v0) && AllMade(v0, Told(e.echo)) && AllFit(w.prelen, Told(e.echo)) && NoShorter(e, Told(e.echo))
  }

  lemma MadeWell(v: View, items: seq<Change>)
    requires AllMade(v, items)
    ensures forall ch | ch in items :: WellFormed(ch)
  {
    hide WellFormed, ChangeAll;
    forall ch | ch in items
      ensures WellFormed(ch)
    {
      var j :| 0 <= j < |items| && items[j] == ch;
      assert Made(ChangeAll(v, items[..j]), items[j]);
    }
  }

  lemma FaithfulTold(e: Edits, v0: View)
    requires Faithful(e, v0)
    ensures ViewOf(e.chan) == ChangeAll(v0, Told(e.echo)) && Sound(e.chan) && Balanced(e.echo) && Sign(e.echo.letters) == e.plus
  {
    ToldApplies(v0, e.echo);
  }

  lemma MadeForm(v: View, ch: Change)
    requires Made(v, ch)
    ensures WellFormed(ch)
  {
  }

  lemma EditRuns(src: Source, w: World, e: Edits, pv: seq<string>, letter: char, v0: View)
    requires RunSoFar(w, e, v0) && Proper(w)
    ensures RunSoFar(w, Edit(src, w, e, pv, letter), v0)
  {
    hide *;
    RunParts(w, e, v0);
    var e', items := Edit(src, w, e, pv, letter), Told(e.echo);
    EditFaithful(src, w, e, pv, letter, v0);
    FaithfulTold(e, v0);
    MadeWell(v0, items);
    if SignChar(letter) {
      SignTurns(src, w, e, pv, letter);
      ToldTurned(e, letter == '+');
      NoShorterTurn(e, items, letter == '+');
    } else {
      var ch := EditTells(src, w, e, pv, letter);
      TellsParts(w, e, e', letter, ch);
      if e'.echo == e.echo {
        NoShorterSame(e, e', items);
      } else {
        MadeForm(ViewOf(e.chan), ch);
        ToldPrint(e.echo, ch);
        AllMadeSnoc(v0, items, ch);
        NoShorterPrint(w.prelen, e, e', items, ch);
      }
    }
    RunWhole(w, e', v0);
  }

  lemma RunParts(w: World, e: Edits, v0: View)
    requires RunSoFar(w, e, v0)
    ensures Faithful(e, v0) && AllMade(v0, Told(e.echo)) && AllFit(w.prelen, Told(e.echo)) && NoShorter(e, Told(e.echo))
  {
  }

  lemma RunWhole(w: World, e: Edits, v0: View)
    requires Faithful(e, v0) && AllMade(v0, Told(e.echo)) && AllFit(w.prelen, Told(e.echo)) && NoShorter(e, Told(e.echo))
    ensures RunSoFar(w, e, v0)
  {
  }

  lemma NoShorterSame(e: Edits, e': Edits, items: seq<Change>)
    requires NoShorter(e, items) && e'.echo == e.echo && e'.plus == e.plus
    ensures NoShorter(e', items)
  {
  }

  lemma SignTurns(src: Source, w: World, e: Edits, pv: seq<string>, letter: char)
    requires SignChar(letter)
    ensures Edit(src, w, e, pv, letter) == TurnSign(e, letter == '+')
  {
  }

  lemma TellsParts(w: World, e: Edits, e': Edits, letter: char, ch: Change)
    requires Tells(w, e, e', letter, ch)
    ensures e'.plus == e.plus
    ensures e'.echo == e.echo || (e'.echo == PrintOn(e.echo, ch) && ch.plus == e.plus && ch.letter == letter
                                  && Made(ViewOf(e.chan), ch) && HasRoom(w.prelen, e.echo, ch))
  {
  }

  /** Whoever sends it, the echo tells changes that were made one after the other and that fit. */
  lemma {:induction false} EchoMade(src: Source, w: World, e: Edits, pv: seq<string>, modes: string, v0: View)
    requires RunSoFar(w, e, v0) && Proper(w)
    ensures RunSoFar(w, EditAll(src, w, e, pv, modes), v0)
    decreases |modes|
  {
    hide RunSoFar, Edit, Proper;
    if modes != "" {
      EditRuns(src, w, e, pv, modes[0], v0);
      EchoMade(src, w, Edit(src, w, e, pv, modes[0]), pv, modes[1..], v0);
    }
  }

  lemma StartRuns(w: World, c: Chan)
    requires Sound(c)
    ensures RunSoFar(w, Start(c), ViewOf(c)) && Told(Line("+", "")) == []
  {
    StartFaithful(c);
    assert "+"[..0] == "";
    assert Told(Line("+", "")) == [];
  }

  /* ---------- the next server ---------- */

  /** The sender may make this change there: what each letter asks of somebody who is not local. */
  predicate Allowed(src: Source, ch: Change) {
    match ch.letter
    case 'S' => src.uline || (!Denied(src, 1) && src.secure)
    case 'O' => src.uline || (src.level >= 2 && src.oper)
    case 'r' => src.server || src.uline
    case 'L' => true
    case 'o' | 'h' | 'i' => !Denied(src, 2)
    case _ => !Denied(src, 1)
  }

  /** The parameter is taken as it is: a mask is stable, and a key is one set_mode accepts. */
  predicate Acceptable(ch: Change) {
    (MaskLetter(ch.letter) ==> Canon(ch.param) == ch.param) && (ch.letter == 'k' ==> !BadKey(ch.param))
  }

  /** With a line like this behind it, and so many parameters, a change is made and printed. */
  predicate OnceMore(src: Source, prelen: nat, line: Line, nparams: nat, ch: Change) {
    && Allowed(src, ch) && Acceptable(ch) && HasRoom(prelen, line, ch)
    && (Takes(ch.plus, ch.letter) ==> nparams < MaxParams(src))
  }

  /** The members are known by their names. */
  ghost predicate Knows(w: World, v: View) {
    forall n | n in v.status :: n in w.who && w.who[n] == n
  }

  /** Step b' makes the change and prints it, exactly when it may; otherwise something else comes out. */
  ghost predicate Heard(src: Source, w: World, b: Edits, b': Edits, ch: Change) {
    && b'.plus == b.plus
    && (b'.echo == PrintOn(b.echo, ch) <==> OnceMore(src, w.prelen, b.echo, b.nparams, ch))
    && (b'.echo == PrintOn(b.echo, ch) ==>
          var n := if Takes(ch.plus, ch.letter) then 1 else 0; b'.args == b.args + n && b'.nparams == b.nparams + n)
  }

  ghost predicate Ready(src: Source, w: World, b: Edits, pv: seq<string>, ch: Change) {
    && !src.local && Knows(w, ViewOf(b.chan)) && Made(ViewOf(b.chan), ch) && ch.plus == b.plus
    && (Takes(ch.plus, ch.letter) ==> b.args < |pv| && pv[b.args] == ch.param)
  }

  lemma Longer(line: Line, ch: Change)
    ensures PrintOn(line, ch) != line
  {
    assert |PrintOn(line, ch).letters| == |line.letters| + 1;
  }

  lemma HearStatus(src: Source, w: World, b: Edits, pv: seq<string>, ch: Change)
    requires Ready(src, w, b, pv, ch) && StatusLetter(ch.letter)
    ensures Heard(src, w, b, EditStatus(src, w, b, pv, ch.letter), ch)
  {
    hide StatusMap, GiveStatus, Denied, MaxParams, IsWord, AddPara;
    Longer(b.echo, ch);
  }

  lemma OtherMask(line: Line, ch: Change, p: string)
    requires Takes(ch.plus, ch.letter) && p != "" && ch.param != ""
    ensures PrintOn(line, ch) == PrintOn(line, ch.(param := p)) <==> p == ch.param
  {
    AppendedBack(line.params, p);
    AppendedBack(line.params, ch.param);
  }

  lemma HearMask(src: Source, w: World, b: Edits, pv: seq<string>, ch: Change)
    requires Ready(src, w, b, pv, ch) && MaskLetter(ch.letter)
    ensures Heard(src, w, b, EditMask(src, w, b, pv, ch.letter), ch)
  {
    hide Canon, StatusMap, DropMask, Denied, MaxParams, AddPara, HasMask, IsWord;
    Longer(b.echo, ch);
    StoredStart(ch.param);
    OtherMask(b.echo, ch, Canon(ch.param));
  }

  lemma HearLimit(src: Source, w: World, b: Edits, pv: seq<string>, ch: Change)
    requires Ready(src, w, b, pv, ch) && ch.letter == 'l'
    ensures Heard(src, w, b, EditLimit(src, w, b, pv), ch)
  {
    hide Heard, Ready, EditLimit;
    LimitReady(src, w, b, pv, ch);
    if ch.plus {
      HearLimitOn(src, w, b, pv, ch);
    } else {
      HearLimitOff(src, w, b, pv, ch);
    }
  }

  lemma HearLimitOn(src: Source, w: World, b: Edits, pv: seq<string>, ch: Change)
    requires Ready(src, w, b, pv, ch) && ch.letter == 'l' && ch.plus
    ensures Heard(src, w, b, EditLimit(src, w, b, pv), ch)
  {
    Longer(b.echo, ch);
    LimitReady(src, w, b, pv, ch);
    LimitOnAgain(src, w, b, pv);
    hide Denied, MaxParams, AddPara, Ready, Canon, BadKey, EditLimit;
  }

  lemma HearLimitOff(src: Source, w: World, b: Edits, pv: seq<string>, ch: Change)
    requires Ready(src, w, b, pv, ch) && ch.letter == 'l' && !ch.plus
    ensures Heard(src, w, b, EditLimit(src, w, b, pv), ch)
  {
    Longer(b.echo, ch);
    LimitReady(src, w, b, pv, ch);
    hide Denied, MaxParams, AddPara, Ready, Canon, BadKey, ParseRate, RateText, Atoi, Itoa;
  }

  lemma LimitReady(src: Source, w: World, b: Edits, pv: seq<string>, ch: Change)
    requires Ready(src, w, b, pv, ch) && ch.letter == 'l'
    ensures !src.local && ch.plus == b.plus
    ensures ch.plus ==> b.args < |pv| && pv[b.args] == ch.param && Atoi(ch.param) >= 1 && Itoa(Atoi(ch.param)) == ch.param
  {
    hide Atoi, Itoa, IsWord;
  }

  /** Setting a limit that is printed as it came, for somebody who is not local. */
  lemma LimitOnAgain(src: Source, w: World, b: Edits, pv: seq<string>)
    requires !src.local && b.plus && b.args < |pv| && Atoi(pv[b.args]) >= 1 && Itoa(Atoi(pv[b.args])) == pv[b.args]
    ensures var b', p := EditLimit(src, w, b, pv), pv[b.args];
            if Denied(src, 1) || b.nparams >= MaxParams(src) || Overflows(w, b, 16) then b'.echo == b.echo && b'.plus == b.plus
            else b'.echo == Line(b.echo.letters + ['l'], AddPara(b.echo.params, p)) && b'.plus == b.plus
                 && b'.args == b.args + 1 && b'.nparams == b.nparams + 1
  {
    hide Denied, MaxParams, AddPara, Atoi, Itoa, Overflows;
  }

  lemma HearRate(src: Source, w: World, b: Edits, pv: seq<string>, ch: Change)
    requires Ready(src, w, b, pv, ch) && ch.letter == 'j'
    ensures Heard(src, w, b, EditRate(src, w, b, pv), ch)
  {
    hide Heard, Ready, EditRate;
    RateReady(src, w, b, pv, ch);
    if ch.plus {
      HearRateOn(src, w, b, pv, ch);
    } else {
      HearRateOff(src, w, b, pv, ch);
    }
  }

  lemma HearRateOn(src: Source, w: World, b: Edits, pv: seq<string>, ch: Change)
    requires Ready(src, w, b, pv, ch) && ch.letter == 'j' && ch.plus
    ensures Heard(src, w, b, EditRate(src, w, b, pv), ch)
  {
    Longer(b.echo, ch);
    RateReady(src, w, b, pv, ch);
    RateOnAgain(src, w, b, pv);
    hide Denied, MaxParams, AddPara, Ready, Canon, BadKey, EditRate;
  }

  lemma HearRateOff(src: Source, w: World, b: Edits, pv: seq<string>, ch: Change)
    requires Ready(src, w, b, pv, ch) && ch.letter == 'j' && !ch.plus
    ensures Heard(src, w, b, EditRate(src, w, b, pv), ch)
  {
    Longer(b.echo, ch);
    RateReady(src, w, b, pv, ch);
    hide Denied, MaxParams, AddPara, Ready, Canon, BadKey, ParseRate, RateText, Atoi, Itoa;
  }

  /** Setting a rate that is printed as it came, for somebody who is not local. */
  lemma RateOnAgain(src: Source, w: World, b: Edits, pv: seq<string>)
    requires !src.local && b.plus && b.args < |pv| && ParseRate(pv[b.args]).Some? && ShownRate(pv[b.args]) == pv[b.args]
    ensures var b', p := EditRate(src, w, b, pv), pv[b.args];
            if Denied(src, 1) || b.nparams >= MaxParams(src) || Overflows(w, b, |p|) then b'.echo == b.echo && b'.plus == b.plus
            else b'.echo == Line(b.echo.letters + ['j'], AddPara(b.echo.params, p)) && b'.plus == b.plus
                 && b'.args == b.args + 1 && b'.nparams == b.nparams + 1
  {
    hide Denied, MaxParams, AddPara, ParseRate, RateText, LimitRate, Overflows;
  }

  lemma RateReady(src: Source, w: World, b: Edits, pv: seq<string>, ch: Change)
    requires Ready(src, w, b, pv, ch) && ch.letter == 'j'
    ensures !src.local && ch.plus == b.plus
    ensures ch.plus ==> b.args < |pv| && pv[b.args] == ch.param && ParseRate(ch.param).Some? && ShownRate(ch.param) == ch.param
  {
    hide ParseRate, ShownRate, IsWord;
  }

  lemma HearKey(src: Source, w: World, b: Edits, pv: seq<string>, ch: Change)
    requires Ready(src, w, b, pv, ch) && ch.letter == 'k'
    ensures Heard(src, w, b, EditKey(src, w, b, pv), ch)
  {
    hide StatusMap, Denied, MaxParams, AddPara, IsWord;
    Longer(b.echo, ch);
  }

  lemma HearFlag(src: Source, w: World, b: Edits, pv: seq<string>, ch: Change)
    requires Ready(src, w, b, pv, ch) && !Takes(ch.plus, ch.letter) && FlagLetter(ch.letter)
    ensures Heard(src, w, b, Edit(src, w, b, pv, ch.letter), ch)
  {
    hide StatusMap, Denied;
    Longer(b.echo, ch);
  }

  lemma HearOne(src: Source, w: World, b: Edits, pv: seq<string>, ch: Change)
    requires Ready(src, w, b, pv, ch)
    ensures Heard(src, w, b, Edit(src, w, b, pv, ch.letter), ch)
  {
    ReadyLetter(src, w, b, pv, ch);
    hide Heard, Ready, EditStatus, EditMask, EditRate, EditLimit, EditKey, EditSpecial, EditServices, EditFlag;
    if StatusLetter(ch.letter) {
      HearStatus(src, w, b, pv, ch);
    } else if MaskLetter(ch.letter) {
      HearMask(src, w, b, pv, ch);
    } else if ch.letter == 'j' {
      HearRate(src, w, b, pv, ch);
    } else if ch.letter == 'l' {
      HearLimit(src, w, b, pv, ch);
    } else if ch.letter == 'k' {
      HearKey(src, w, b, pv, ch);
    } else {
      HearFlag(src, w, b, pv, ch);
    }
  }

  lemma ReadyLetter(src: Source, w: World, b: Edits, pv: seq<string>, ch: Change)
    requires Ready(src, w, b, pv, ch)
    ensures !SignChar(ch.letter)
    ensures Takes(ch.plus, ch.letter) || FlagLetter(ch.letter) || ch.letter == 'j' || ch.letter == 'l'
  {
    hide IsWord, HasMask, Atoi, Itoa, ParseRate, BadKey;
  }

  function Params(items: seq<Change>): nat {
    if items == [] then 0
    else
      var ch := items[|items| - 1];
      Params(items[..|items| - 1]) + if Takes(ch.plus, ch.letter) then 1 else 0
  }

  /** Change j passes, once those before it have. */
  predicate Passes(src: Source, prelen: nat, items: seq<Change>, j: nat)
    requires j < |items|
  {
    OnceMore(src, prelen, Turned(items[..j], items[j].plus), Params(items[..j]), items[j])
  }

  lemma {:induction false} TellCons(t: Teller, c: char, rest: string)
    ensures Tell(t, [c] + rest) == Tell(TellOne(t, c), rest)
  {
    hide TellOne;
    var whole := [c] + rest;
    if rest == "" {
      assert whole[..0] == "";
    } else {
      assert whole[..|whole| - 1] == [c] + rest[..|rest| - 1];
      TellCons(t, c, rest[..|rest| - 1]);
    }
  }

  lemma {:induction false} TellGrows(t: Teller, letters: string)
    ensures t.items <= Tell(t, letters).items && |Tell(t, letters).items| <= |t.items| + Count(letters)
  {
    if letters != "" {
      var init, c := letters[..|letters| - 1], letters[|letters| - 1];
      TellGrows(t, init);
      CountSnoc(init, c);
      assert letters == init + [c];
    }
  }

  /** The echo keeps what it has told, and tells no more than a change a letter. */
  lemma {:induction false} EchoGrows(src: Source, w: World, b: Edits, pv: seq<string>, letters: string, v0: View)
    requires Faithful(b, v0) && Proper(w)
    ensures var after := Told(EditAll(src, w, b, pv, letters).echo);
            Told(b.echo) <= after && |after| <= |Told(b.echo)| + Count(letters)
    decreases |letters|
  {
    hide Edit, Told, Proper, Faithful;
    if letters != "" {
      var b' := Edit(src, w, b, pv, letters[0]);
      EditFaithful(src, w, b, pv, letters[0], v0);
      var _ := ToldStep(src, w, b, pv, letters[0], v0);
      EchoGrows(src, w, b', pv, letters[1..], v0);
    }
  }

  lemma ToldStep(src: Source, w: World, b: Edits, pv: seq<string>, letter: char, v0: View) returns (ch: Change)
    requires Faithful(b, v0) && Proper(w)
    ensures var b' := Edit(src, w, b, pv, letter);
            && (SignChar(letter) ==> Told(b'.echo) == Told(b.echo))
            && (!SignChar(letter) ==>
                  || (b'.echo == b.echo && Told(b'.echo) == Told(b.echo))
                  || (b'.echo == PrintOn(b.echo, ch) && Told(b'.echo) == Told(b.echo) + [ch]
                      && ch.plus == b.plus && ch.letter == letter && WellFormed(ch)))
  {
    hide *;
    FaithfulTold(b, v0);
    ch := Change(true, '+', "");
    var b' := Edit(src, w, b, pv, letter);
    if SignChar(letter) {
      SignTurns(src, w, b, pv, letter);
      ToldTurned(b, letter == '+');
    } else {
      ch := EditTells(src, w, b, pv, letter);
      TellsParts(w, b, b', letter, ch);
      if b'.echo != b.echo {
        MadeForm(ViewOf(b.chan), ch);
        ToldPrint(b.echo, ch);
      }
    }
  }

  lemma {:induction false} KnowsKept(w: World, v: View, items: seq<Change>)
    requires Knows(w, v)
    ensures Knows(w, ChangeAll(v, items))
  {
    if items != [] {
      var init, ch := items[..|items| - 1], items[|items| - 1];
      KnowsKept(w, v, init);
      SameStatusKeys(ChangeAll(v, init), ch);
      hide ChangeOne;
    }
  }

  lemma SameStatusKeys(v: View, ch: Change)
    ensures ChangeOne(v, ch).status.Keys == v.status.Keys
  {
    hide RateNumbers, MakeRate, ChangeMask, Atoi;
  }

  /** Where the next server stands: the first k changes were made and printed, without needless signs. */
  ghost predicate Reached(src: Source, w: World, b: Edits, pv: seq<string>, letters: string, all: seq<Change>, k: nat, v0: View) {
    && !src.local && Proper(w) && Knows(w, v0) && Faithful(b, v0) && AllMade(v0, all)
    && k <= |all| && b.args <= |pv| && Told(b.echo) == all[..k]
    && b.echo == Turned(all[..k], b.plus) && b.nparams == Params(all[..k])
    && Tell(Teller(all[..k], b.plus, pv[b.args..]), letters).items == all
    && Count(letters) == |all| - k && NoTwoSigns(letters)
    && (k > 0 && b.plus != SignOf(all[..k]) && letters != "" ==> !SignChar(letters[0]))
  }

  lemma ReachedIs(src: Source, w: World, b: Edits, pv: seq<string>, letters: string, all: seq<Change>, k: nat, v0: View)
    ensures Reached(src, w, b, pv, letters, all, k, v0) <==>
            && !src.local && Proper(w) && Knows(w, v0) && Faithful(b, v0) && AllMade(v0, all)
            && k <= |all| && b.args <= |pv| && Told(b.echo) == all[..k]
            && b.echo == Turned(all[..k], b.plus) && b.nparams == Params(all[..k])
            && Tell(Teller(all[..k], b.plus, pv[b.args..]), letters).items == all
            && Count(letters) == |all| - k && NoTwoSigns(letters)
            && (k > 0 && b.plus != SignOf(all[..k]) && letters != "" ==> !SignChar(letters[0]))
  {
    hide Turned, Tell, Told, Made, Faithful;
  }

  lemma SignReached(src: Source, w: World, b: Edits, pv: seq<string>, letters: string, all: seq<Change>, k: nat, v0: View)
    requires Reached(src, w, b, pv, letters, all, k, v0) && letters != "" && SignChar(letters[0])
    ensures Reached(src, w, Edit(src, w, b, pv, letters[0]), pv, letters[1..], all, k, v0)
  {
    hide *;
    var plus, b' := letters[0] == '+', Edit(src, w, b, pv, letters[0]);
    ReachedIs(src, w, b, pv, letters, all, k, v0);
    EditFaithful(src, w, b, pv, letters[0], v0);
    SignTurns(src, w, b, pv, letters[0]);
    ToldTurned(b, plus);
    SignSplit(letters, Teller(all[..k], b.plus, pv[b.args..]));
    MadeWell(v0, all);
    PrefixWell(all, k);
    WrittenShape(all[..k]);
    SignPlaced(b, all[..k], plus);
    ReachedIs(src, w, b', pv, letters[1..], all, k, v0);
  }

  lemma PrefixWell(all: seq<Change>, k: nat)
    requires k <= |all| && forall ch | ch in all :: WellFormed(ch)
    ensures forall ch | ch in all[..k] :: WellFormed(ch)
    ensures k > 0 <==> all[..k] != []
  {
  }

  lemma SignSplit(letters: string, t: Teller)
    requires letters != "" && SignChar(letters[0]) && NoTwoSigns(letters)
    ensures Tell(t, letters) == Tell(t.(plus := letters[0] == '+'), letters[1..])
    ensures Count(letters[1..]) == Count(letters) && NoTwoSigns(letters[1..])
    ensures letters[1..] != "" ==> !SignChar(letters[1..][0])
  {
    hide Tell;
    assert letters == [letters[0]] + letters[1..];
    TellCons(t, letters[0], letters[1..]);
  }

  lemma SignPlaced(b: Edits, items: seq<Change>, plus: bool)
    requires b.echo == Turned(items, b.plus) && (items != [] ==> b.plus == SignOf(items))
    requires Written(items).letters != ""
    requires if items == [] then Written(items).letters == "+" else !SignChar(Written(items).letters[|Written(items).letters| - 1])
    requires items != [] ==> |Written(items).letters| >= 2
    ensures TurnSign(b, plus).echo == Turned(items, plus) && TurnSign(b, plus).plus == plus
    ensures TurnSign(b, plus).args == b.args && TurnSign(b, plus).nparams == b.nparams
  {
  }

  /** The next letter is that of the next change. */
  lemma LetterSplit(t: Teller, letters: string, all: seq<Change>, k: nat)
    requires letters != "" && !SignChar(letters[0]) && k <= |all| && t.items == all[..k]
    requires Tell(t, letters).items == all && Count(letters) == |all| - k
    ensures k < |all| && all[k].plus == t.plus && all[k].letter == letters[0] && Count(letters[1..]) == |all| - k - 1
    ensures Takes(t.plus, letters[0]) ==> t.rest != [] && all[k].param == t.rest[0]
    ensures Tell(Teller(all[..k + 1], t.plus, if Takes(t.plus, letters[0]) then t.rest[1..] else t.rest), letters[1..]).items == all
  {
    hide Tell, Takes;
    var u := TellOne(t, letters[0]);
    assert letters == [letters[0]] + letters[1..];
    TellCons(t, letters[0], letters[1..]);
    TellGrows(u, letters[1..]);
    assert |u.items| == k + 1;
    assert u.items[k] == all[k] && u.items == all[..k + 1];
  }

  lemma NextChange(src: Source, w: World, b: Edits, pv: seq<string>, letters: string, all: seq<Change>, k: nat, v0: View)
    requires Reached(src, w, b, pv, letters, all, k, v0) && letters != "" && !SignChar(letters[0])
    ensures k < |all| && all[k].letter == letters[0] && Ready(src, w, b, pv, all[k]) && ViewOf(b.chan) == ChangeAll(v0, all[..k])
    ensures var n := if Takes(all[k].plus, all[k].letter) then 1 else 0;
            b.args + n <= |pv| && Tell(Teller(all[..k + 1], b.plus, pv[b.args + n..]), letters[1..]).items == all
    ensures Count(letters[1..]) == |all| - k - 1
  {
    hide *;
    ReachedIs(src, w, b, pv, letters, all, k, v0);
    LetterSplit(Teller(all[..k], b.plus, pv[b.args..]), letters, all, k);
    FaithfulTold(b, v0);
    KnowsKept(w, v0, all[..k]);
    MadeAt(v0, all, k);
    if Takes(b.plus, letters[0]) {
      assert pv[b.args..][0] == pv[b.args] && pv[b.args..][1..] == pv[b.args + 1..];
    }
    IsReady(src, w, b, pv, all[k]);
  }

  lemma MadeAt(v: View, all: seq<Change>, k: nat)
    requires AllMade(v, all) && k < |all|
    ensures Made(ChangeAll(v, all[..k]), all[k])
  {
  }

  lemma IsReady(src: Source, w: World, b: Edits, pv: seq<string>, ch: Change)
    requires !src.local && Knows(w, ViewOf(b.chan)) && Made(ViewOf(b.chan), ch) && ch.plus == b.plus
    requires Takes(ch.plus, ch.letter) ==> b.args < |pv| && pv[b.args] == ch.param
    ensures Ready(src, w, b, pv, ch)
  {
  }

  lemma ChangeReached(src: Source, w: World, b: Edits, pv: seq<string>, letters: string, all: seq<Change>, k: nat, v0: View)
    requires Reached(src, w, b, pv, letters, all, k, v0) && letters != "" && !SignChar(letters[0])
    requires k < |all| && Passes(src, w.prelen, all, k)
    ensures Reached(src, w, Edit(src, w, b, pv, letters[0]), pv, letters[1..], all, k + 1, v0)
  {
    var b' := Edit(src, w, b, pv, letters[0]);
    NextChange(src, w, b, pv, letters, all, k, v0);
    HearOne(src, w, b, pv, all[k]);
    EditFaithful(src, w, b, pv, letters[0], v0);
    FaithfulTold(b, v0);
    ReadyMade(src, w, b, pv, all[k]);
    ToldPrint(b.echo, all[k]);
    PrefixNext(all, k);
    hide Proper, Knows, Faithful, AllMade, Told, Edit, Tell, WellFormed, Made, Ready, OnceMore, Takes, ChangeAll, Balanced, Sign;
  }

  lemma PrefixNext(all: seq<Change>, k: nat)
    requires k < |all|
    ensures all[..k + 1] == all[..k] + [all[k]] && all[..k + 1][..k] == all[..k]
    ensures Params(all[..k + 1]) == Params(all[..k]) + if Takes(all[k].plus, all[k].letter) then 1 else 0
    ensures Turned(all[..k + 1], all[k].plus) == PrintOn(Turned(all[..k], all[k].plus), all[k]) && SignOf(all[..k + 1]) == all[k].plus
  {
    assert all[..k + 1][..k] == all[..k];
  }

  lemma ReadyMade(src: Source, w: World, b: Edits, pv: seq<string>, ch: Change)
    requires Ready(src, w, b, pv, ch)
    ensures WellFormed(ch) && ch.plus == b.plus
  {
  }

  /** A change that does not pass is missing, or another is in its place: what is told in the end differs. */
  lemma LostForGood(src: Source, w: World, b: Edits, pv: seq<string>, letters: string, all: seq<Change>, k: nat, v0: View)
    requires Reached(src, w, b, pv, letters, all, k, v0) && letters != "" && !SignChar(letters[0])
    requires k < |all| && !Passes(src, w.prelen, all, k)
    ensures Told(EditAll(src, w, b, pv, letters).echo) != all
  {
    var b' := Edit(src, w, b, pv, letters[0]);
    NextChange(src, w, b, pv, letters, all, k, v0);
    HearOne(src, w, b, pv, all[k]);
    EditFaithful(src, w, b, pv, letters[0], v0);
    var ch := ToldStep(src, w, b, pv, letters[0], v0);
    EchoGrows(src, w, b', pv, letters[1..], v0);
    hide Proper, Knows, Faithful, AllMade, Told, Edit, Tell, WellFormed, Made, Ready, OnceMore, Takes, ChangeAll, PrintOn, Params, Count, NoTwoSigns;
    var after := Told(EditAll(src, w, b, pv, letters).echo);
    assert after == Told(EditAll(src, w, b', pv, letters[1..]).echo);
    if Told(b'.echo) != Told(b.echo) {
      assert ch != all[k] && Told(b'.echo)[k] == ch && after[k] == ch;
    }
  }

  lemma FirstLetter(src: Source, w: World, b: Edits, pv: seq<string>, letters: string)
    ensures EditAll(src, w, b, pv, letters)
         == if letters == "" then b else EditAll(src, w, Edit(src, w, b, pv, letters[0]), pv, letters[1..])
  {
    hide Edit;
  }

  /** Letter by letter: the same is told in the end exactly when every change passes. */
  lemma {:induction false} AllHeard(src: Source, w: World, b: Edits, pv: seq<string>, letters: string, all: seq<Change>, k: nat, v0: View)
    requires Reached(src, w, b, pv, letters, all, k, v0)
    ensures Told(EditAll(src, w, b, pv, letters).echo) == all <==> forall j | k <= j < |all| :: Passes(src, w.prelen, all, j)
    decreases |letters|
  {
    hide *;
    FirstLetter(src, w, b, pv, letters);
    if letters == "" {
      NothingLeft(src, w, b, pv, all, k, v0);
    } else if SignChar(letters[0]) {
      SignReached(src, w, b, pv, letters, all, k, v0);
      AllHeard(src, w, Edit(src, w, b, pv, letters[0]), pv, letters[1..], all, k, v0);
    } else {
      MoreChanges(src, w, b, pv, letters, all, k, v0);
      if Passes(src, w.prelen, all, k) {
        ChangeReached(src, w, b, pv, letters, all, k, v0);
        AllHeard(src, w, Edit(src, w, b, pv, letters[0]), pv, letters[1..], all, k + 1, v0);
      } else {
        LostForGood(src, w, b, pv, letters, all, k, v0);
      }
    }
  }

  lemma NothingLeft(src: Source, w: World, b: Edits, pv: seq<string>, all: seq<Change>, k: nat, v0: View)
    requires Reached(src, w, b, pv, "", all, k, v0)
    ensures Told(b.echo) == all && k == |all|
  {
  }

  lemma MoreChanges(src: Source, w: World, b: Edits, pv: seq<string>, letters: string, all: seq<Change>, k: nat, v0: View)
    requires Reached(src, w, b, pv, letters, all, k, v0) && letters != "" && !SignChar(letters[0])
    ensures k < |all|
  {
    NextChange(src, w, b, pv, letters, all, k, v0);
  }

  /* ---------- the result ---------- */

  lemma NoTwoSignsCut(letters: string)
    requires NoTwoSigns(letters)
    ensures letters != "" ==> NoTwoSigns(letters[..|letters| - 1])
  {
  }

  /** The echo as it is sent: whole, and with its sign first. */
  lemma EchoSent(e: Edits, v0: View)
    requires Faithful(e, v0)
    ensures var echo := Trim(e.echo);
            && Told(echo) == Told(e.echo) && NoTwoSigns(echo.letters) && Balanced(echo)
            && Count(echo.letters) == |Told(echo)|
  {
    var ls := e.echo.letters;
    ToldTrim(e.echo);
    NoTwoSignsCut(ls);
    if SignChar(ls[|ls| - 1]) {
      DropSign(v0, e.echo);
    }
    TellShape(Words(Trim(e.echo).params), Trim(e.echo).letters);
    hide Tell, Need, Words, Sign;
  }

  lemma StartReached(src: Source, w: World, c: Chan, echo: Line)
    requires !src.local && Proper(w) && Knows(w, ViewOf(c)) && Sound(c)
    requires AllMade(ViewOf(c), Told(echo)) && NoTwoSigns(echo.letters) && Count(echo.letters) == |Told(echo)|
    ensures Reached(src, w, Start(c), Words(echo.params), echo.letters, Told(echo), 0, ViewOf(c))
  {
    StartRuns(w, c);
    assert Words(echo.params)[0..] == Words(echo.params);
    assert Told(echo)[..0] == [];
    hide AllMade, Tell, NoTwoSigns, Count, Proper, Faithful, Words;
  }

  /** A server that gives operator or half-operator status sets the timestamp to zero. */
  predicate Blasts(ch: Change) {
    ch.plus && (ch.letter == 'o' || ch.letter == 'h')
  }

  ghost predicate Stamped(src: Source, ts: int, e: Edits) {
    e.chan.ts == if src.server && exists ch | ch in Told(e.echo) :: Blasts(ch) then 0 else ts
  }

  lemma StampStep(src: Source, w: World, e: Edits, pv: seq<string>, letter: char)
    ensures var e' := Edit(src, w, e, pv, letter);
            SignChar(letter) || e'.chan.ts == if e'.echo != e.echo && src.server && e.plus && (letter == 'o' || letter == 'h') then 0 else e.chan.ts
    ensures SignChar(letter) ==> Edit(src, w, e, pv, letter).chan == e.chan
  {
    hide StatusMap, GiveStatus, Canon, ParseRate, RateText, AddPara, BanLists.Refused, DropMask;
  }

  lemma StampKept(src: Source, w: World, e: Edits, pv: seq<string>, letter: char, ts: int, v0: View)
    requires Faithful(e, v0) && Proper(w) && Stamped(src, ts, e)
    ensures Stamped(src, ts, Edit(src, w, e, pv, letter))
  {
    var e' := Edit(src, w, e, pv, letter);
    StampStep(src, w, e, pv, letter);
    var ch := ToldStep(src, w, e, pv, letter, v0);
    Longer(e.echo, ch);
    if !SignChar(letter) && e'.echo != e.echo {
      OneMoreBlast(Told(e.echo), ch);
    }
    hide Told, Edit, Faithful, Proper, PrintOn;
  }

  lemma OneMoreBlast(items: seq<Change>, ch: Change)
    ensures (exists x | x in items + [ch] :: Blasts(x)) <==> (exists x | x in items :: Blasts(x)) || Blasts(ch)
  {
    hide Blasts;
    assert ch in items + [ch];
    assert forall x | x in items :: x in items + [ch];
  }

  lemma {:induction false} StampTold(src: Source, w: World, e: Edits, pv: seq<string>, modes: string, ts: int, v0: View)
    requires Faithful(e, v0) && Proper(w) && Stamped(src, ts, e)
    ensures Stamped(src, ts, EditAll(src, w, e, pv, modes))
    decreases |modes|
  {
    hide Edit, Stamped, Faithful, Proper;
    if modes != "" {
      EditFaithful(src, w, e, pv, modes[0], v0);
      StampKept(src, w, e, pv, modes[0], ts, v0);
      StampTold(src, w, Edit(src, w, e, pv, modes[0]), pv, modes[1..], ts, v0);
    }
  }

  lemma StampStart(src: Source, w: World, c: Chan)
    requires Sound(c)
    ensures Stamped(src, c.ts, Start(c))
  {
    StartRuns(w, c);
  }

  lemma SameStamp(src: Source, there: Source, ts: int, e: Edits, e': Edits)
    requires Stamped(src, ts, e) && Stamped(there, ts, e') && Told(e.echo) == Told(e'.echo) && src.server == there.server
    ensures e.chan.ts == e'.chan.ts
  {
  }

  /**
   The echo set_mode leaves, read by a server that holds the same channel: it passes on the same
   changes if and only if every one of them passes there, and then its channel is the same.
   */
  lemma EchoTravels(src: Source, w: World, c: Chan, pv: seq<string>, modes: string, there: Source, wThere: World)
    requires Sound(c) && Proper(w) && Proper(wThere) && !there.local && Knows(wThere, ViewOf(c))
    ensures var here := EditAll(src, w, Start(c), pv, modes);
            var echo := Trim(here.echo);
            var next := EditAll(there, wThere, Start(c), Words(echo.params), echo.letters);
            && (Told(Trim(next.echo)) == Told(echo) <==> forall j | 0 <= j < |Told(echo)| :: Passes(there, wThere.prelen, Told(echo), j))
            && (Told(Trim(next.echo)) == Told(echo) ==>
                  ViewOf(next.chan) == ViewOf(here.chan) && (src.server == there.server ==> next.chan.ts == here.chan.ts))
  {
    hide *;
    var v0 := ViewOf(c);
    var here := EditAll(src, w, Start(c), pv, modes);
    StartRuns(w, c);
    EchoMade(src, w, Start(c), pv, modes, v0);
    RunParts(w, here, v0);
    EchoSent(here, v0);
    FaithfulTold(here, v0);
    var echo := Trim(here.echo);
    StartReached(there, wThere, c, echo);
    AllHeard(there, wThere, Start(c), Words(echo.params), echo.letters, Told(echo), 0, v0);
    var next := EditAll(there, wThere, Start(c), Words(echo.params), echo.letters);
    StartFaithful(c);
    EditAllFaithful(there, wThere, Start(c), Words(echo.params), echo.letters, v0);
    FaithfulTold(next, v0);
    ToldTrim(next.echo);
    StampStart(src, w, c);
    StampTold(src, w, Start(c), pv, modes, c.ts, v0);
    StampStart(there, wThere, c);
    StampTold(there, wThere, Start(c), Words(echo.params), echo.letters, c.ts, v0);
    if Told(next.echo) == Told(here.echo) && src.server == there.server {
      SameStamp(src, there, c.ts, here, next);
    }
  }

  /**
   For a sender with the same rights there, behind a link whose name is no longer than theirs, only
   masks that change and keys set_mode refuses keep the echo from having the same effect.
   */
  lemma EchoTravelsAlike(src: Source, w: World, c: Chan, pv: seq<string>, modes: string, there: Source, wThere: World)
    requires Sound(c) && Proper(w) && Proper(wThere) && !there.local && Knows(wThere, ViewOf(c))
    requires wThere.prelen <= w.prelen
    ensures var items := Told(Trim(EditAll(src, w, Start(c), pv, modes).echo));
            (forall j | 0 <= j < |items| :: Passes(there, wThere.prelen, items, j))
            <==> (forall ch | ch in items :: Allowed(there, ch) && Acceptable(ch)) && Params(items) <= MaxParams(there)
  {
    hide *;
    var v0 := ViewOf(c);
    var here := EditAll(src, w, Start(c), pv, modes);
    StartRuns(w, c);
    EchoMade(src, w, Start(c), pv, modes, v0);
    RunParts(w, here, v0);
    ToldTrim(here.echo);
    RoomThere(there, w.prelen, wThere.prelen, Told(here.echo));
  }

  lemma RoomThere(there: Source, prelen: nat, prelenThere: nat, items: seq<Change>)
    requires AllFit(prelen, items) && prelenThere <= prelen
    ensures (forall j | 0 <= j < |items| :: Passes(there, prelenThere, items, j))
       <==> (forall ch | ch in items :: Allowed(there, ch) && Acceptable(ch)) && Params(items) <= MaxParams(there)
  {
    hide Allowed, Acceptable, Turned, Extra, Params, MaxParams;
    forall j | 0 <= j < |items|
      ensures Passes(there, prelenThere, items, j)
         <==> Allowed(there, items[j]) && Acceptable(items[j]) && (Takes(items[j].plus, items[j].letter) ==> Params(items[..j]) < MaxParams(there))
    {
      assert HasRoom(prelen, Turned(items[..j], items[j].plus), items[j]);
    }
    ParamsCounted(items, MaxParams(there));
    hide Passes, Takes;
    forall j | 0 <= j < |items|
      ensures items[j] in items
    {
    }
  }

  /** No parameter is one too many exactly when there are not too many in all. */
  lemma {:induction false} ParamsCounted(items: seq<Change>, most: nat)
    ensures Params(items) <= most
       <==> forall j | 0 <= j < |items| :: Takes(items[j].plus, items[j].letter) ==> Params(items[..j]) < most
  {
    hide Takes;
    if items != [] {
      var n := |items| - 1;
      var init := items[..n];
      ParamsCounted(init, most);
      assert forall j | 0 <= j < n :: init[j] == items[j] && init[..j] == items[..j];
    }
  }
}
