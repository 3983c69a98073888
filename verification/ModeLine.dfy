/**
 The meaning of a MODE line: a sign and letters, taking their parameters in order.
 It is the one reader against which every mode printer of the server is judged.
 */
module ModeLine {
  import opened Text

  /** The letters whose whole meaning is one bit of mode.mode. */
  predicate FlagLetter(c: char) {
    match c
    case 's' | 'p' | 'm' | 't' | 'i' | 'n' | 'r' | 'R' | 'c' | 'O' | 'S' | 'N' | 'M' | 'L' => true
    case _ => false
  }

  predicate SignChar(c: char) {
    c == '+' || c == '-'
  }

  predicate StatusLetter(c: char) {
    c == 'o' || c == 'h' || c == 'v'
  }

  predicate MaskLetter(c: char) {
    c == 'b' || c == 'e' || c == 'I'
  }

  /** What a member may do. */
  datatype Status = Status(op: bool, halfop: bool, voice: bool) {
    function Or(that: Status): Status {
      Status(op || that.op, halfop || that.halfop, voice || that.voice)
    }
    predicate Within(that: Status) {
      (op ==> that.op) && (halfop ==> that.halfop) && (voice ==> that.voice)
    }
  }

  const PLAIN := Status(false, false, false)

  /** The +j setting as a channel acts on it. */
  datatype Rate = NoRate | RateOff | Limited(joins: int, seconds: int)

  /** Everything a MODE line can change about a channel; the mask lists are newest first. */
  datatype View = View(flags: set<char>, limit: int, key: string, rate: Rate, status: map<string, Status>,
                       bans: seq<string>, exempts: seq<string>, invites: seq<string>)

  /* ---------- one change ---------- */

  predicate HasMask(masks: seq<string>, m: string) {
    exists k | 0 <= k < |masks| :: SameName(masks[k], m)
  }

  function AddMask(masks: seq<string>, m: string): seq<string> {
    if HasMask(masks, m) then masks else [m] + masks
  }

  /** Drops the first mask equal to m up to case. */
  function DropMask(masks: seq<string>, m: string): seq<string> {
    if masks == [] then []
    else if SameName(masks[0], m) then masks[1..]
    else [masks[0]] + DropMask(masks[1..], m)
  }

  function ChangeMask(masks: seq<string>, plus: bool, m: string): seq<string> {
    if plus then AddMask(masks, m) else DropMask(masks, m)
  }

  function ChangeStatus(s: Status, plus: bool, letter: char): Status {
    match letter
    case 'o' => s.(op := plus)
    case 'h' => s.(halfop := plus)
    case _ => s.(voice := plus)
  }

  /** The two numbers of a +j parameter: joins, then the seconds after the colon if there is one. */
  function RateNumbers(p: string): (int, int) {
    var i := IndexOf(p, ':');
    if i < |p| then (Atoi(p[..i]), Atoi(p[i + 1..])) else (Atoi(p), 0)
  }

  function MakeRate(joins: int, seconds: int): Rate {
    if joins == 0 || seconds == 0 then RateOff else Limited(joins, seconds)
  }

  /** The parameter channel_modes, m_sjoin and set_mode print for +j. */
  function RateText(joins: int, seconds: int): (s: string)
    ensures IsWord(s)
  {
    if joins == 0 || seconds == 0 then "0" else Itoa(joins) + ":" + Itoa(seconds)
  }

  predicate Takes(plus: bool, letter: char) {
    StatusLetter(letter) || MaskLetter(letter) || letter == 'k' || (plus && (letter == 'l' || letter == 'j'))
  }

  function ChangePlain(v: View, plus: bool, letter: char): View {
    if FlagLetter(letter) then v.(flags := if plus then v.flags + {letter} else v.flags - {letter})
    else if letter == 'l' && !plus then v.(limit := 0)
    else if letter == 'j' && !plus then v.(rate := NoRate)
    else v
  }

  function ChangeWith(v: View, plus: bool, letter: char, p: string): View {
    match letter
    case 'b' => v.(bans := ChangeMask(v.bans, plus, p))
    case 'e' => v.(exempts := ChangeMask(v.exempts, plus, p))
    case 'I' => v.(invites := ChangeMask(v.invites, plus, p))
    case 'k' => v.(key := if plus then p else "")
    case 'l' => v.(limit := Atoi(p))
    case 'j' => v.(rate := var n := RateNumbers(p); MakeRate(n.0, n.1))
    case _ => if p in v.status then v.(status := v.status[p := ChangeStatus(v.status[p], plus, letter)]) else v
  }

  /* ---------- reading a line ---------- */

  datatype Reader = Reader(view: View, plus: bool, rest: seq<string>)

  function ReadOne(r: Reader, letter: char): Reader {
    if letter == '+' then r.(plus := true)
    else if letter == '-' then r.(plus := false)
    else if !Takes(r.plus, letter) then r.(view := ChangePlain(r.view, r.plus, letter))
    else if r.rest == [] then r
    else Reader(ChangeWith(r.view, r.plus, letter, r.rest[0]), r.plus, r.rest[1..])
  }

  function Read(r: Reader, letters: string): Reader {
    if letters == "" then r else ReadOne(Read(r, letters[..|letters| - 1]), letters[|letters| - 1])
  }

  /** The sign in force after the letters. */
  function Sign(letters: string): bool {
    if letters == "" then true
    else
      var c := letters[|letters| - 1];
      if c == '+' then true else if c == '-' then false else Sign(letters[..|letters| - 1])
  }

  /** How many parameters the letters take. */
  function Need(letters: string): nat {
    if letters == "" then 0
    else
      var init, c := letters[..|letters| - 1], letters[|letters| - 1];
      Need(init) + if c != '+' && c != '-' && Takes(Sign(init), c) then 1 else 0
  }

  /** modebuf and parabuf as they are printed into one MODE line. */
  datatype Line = Line(letters: string, params: string)

  function Apply(v: View, line: Line): View {
    Read(Reader(v, true, Words(line.params)), line.letters).view
  }

  /** Every parameter is taken by a letter and every letter finds its parameter. */
  predicate Balanced(line: Line) {
    Need(line.letters) == |Words(line.params)|
  }

  /** A line a client can read on its own: its own sign first, no more parameters than allowed. */
  predicate Standalone(line: Line, maxParams: nat) {
    && Balanced(line)
    && |Words(line.params)| <= maxParams
    && |line.letters| >= 2
    && SignChar(line.letters[0])
  }

  /** The sign in force when reading stops does not depend on the view. */
  lemma {:induction false} ReadShape(r: Reader, letters: string)
    requires r.plus && Need(letters) <= |r.rest|
    ensures Read(r, letters).plus == Sign(letters)
    ensures Read(r, letters).rest == r.rest[Need(letters)..]
  {
    if letters != "" {
      var init := letters[..|letters| - 1];
      ReadShape(r, init);
    }
  }

  /** Parameters that come later do not change what was read before them. */
  lemma {:induction false} ReadMore(v: View, ps: seq<string>, more: seq<string>, letters: string)
    requires Need(letters) <= |ps|
    ensures Read(Reader(v, true, ps + more), letters).view == Read(Reader(v, true, ps), letters).view
    ensures Read(Reader(v, true, ps + more), letters).rest == Read(Reader(v, true, ps), letters).rest + more
  {
    if letters != "" {
      var init := letters[..|letters| - 1];
      ReadMore(v, ps, more, init);
      ReadShape(Reader(v, true, ps + more), init);
      ReadShape(Reader(v, true, ps), init);
    }
  }

  lemma SnocString(s: string, c: char)
    ensures (s + [c])[..|s + [c]| - 1] == s && (s + [c])[|s + [c]| - 1] == c
  {
  }

  /** Printing one more letter without a parameter. */
  lemma ApplyPlain(v: View, line: Line, letter: char)
    requires Balanced(line)
    requires SignChar(letter) || !Takes(Sign(line.letters), letter)
    ensures var line' := line.(letters := line.letters + [letter]);
            && Balanced(line')
            && Apply(v, line') == if SignChar(letter) then Apply(v, line)
                                  else ChangePlain(Apply(v, line), Sign(line.letters), letter)
  {
    SnocString(line.letters, letter);
    ReadShape(Reader(v, true, Words(line.params)), line.letters);
  }

  /** Printing one more letter with its parameter. */
  lemma ApplyWith(v: View, line: Line, letter: char, p: string)
    requires Balanced(line) && IsWord(p) && !SignChar(letter) && Takes(Sign(line.letters), letter)
    ensures var line' := Line(line.letters + [letter], AddPara(line.params, p));
            && Balanced(line')
            && |Words(line'.params)| == |Words(line.params)| + 1
            && Apply(v, line') == ChangeWith(Apply(v, line), Sign(line.letters), letter, p)
  {
    var ps := Words(line.params);
    WordsAddPara(line.params, p);
    SnocString(line.letters, letter);
    ReadMore(v, ps, [p], line.letters);
    ReadShape(Reader(v, true, ps), line.letters);
    ReadShape(Reader(v, true, ps + [p]), line.letters);
  }

  /* ---------- what the clients of a channel see ---------- */

  datatype Event = Sent(line: Line) | Joined(nick: string)

  function ReplayOne(v: View, e: Event): View {
    match e
    case Sent(line) => Apply(v, line)
    case Joined(nick) => v.(status := v.status[nick := PLAIN])
  }

  function Replay(v: View, events: seq<Event>): View {
    if events == [] then v else ReplayOne(Replay(v, events[..|events| - 1]), events[|events| - 1])
  }

  lemma ReplaySnoc(v: View, events: seq<Event>, e: Event)
    ensures Replay(v, events + [e]) == ReplayOne(Replay(v, events), e)
  {
    assert (events + [e])[..|events|] == events;
  }

  lemma {:induction false} ReplayAppend(v: View, xs: seq<Event>, ys: seq<Event>)
    ensures Replay(v, xs + ys) == Replay(Replay(v, xs), ys)
  {
    if ys == [] {
      assert xs + ys == xs;
    } else {
      var init, e := ys[..|ys| - 1], ys[|ys| - 1];
      ReplayAppend(v, xs, init);
      assert (xs + ys)[..|xs + ys| - 1] == xs + init;
    }
  }

  /* ---------- the +j parameter survives printing ---------- */

  lemma RateBack(joins: int, seconds: int)
    requires Int32(joins) && Int32(seconds)
    ensures var n := RateNumbers(RateText(joins, seconds));
            && MakeRate(n.0, n.1) == MakeRate(joins, seconds)
            && n == if joins == 0 || seconds == 0 then (0, 0) else (joins, seconds)
  {
    var t := RateText(joins, seconds);
    if joins == 0 || seconds == 0 {
      AtoiItoa(0);
      assert Itoa(0) == "0";
    } else {
      AtoiItoa(joins);
      AtoiItoa(seconds);
      IndexOfSplit(Itoa(joins), ':', Itoa(seconds));
      assert t == Itoa(joins) + [':'] + Itoa(seconds);
      assert t[..|Itoa(joins)|] == Itoa(joins);
      assert t[|Itoa(joins)| + 1..] == Itoa(seconds);
    }
  }

  /** The line with nothing on it. */
  lemma ApplyEmpty(v: View)
    ensures Apply(v, Line("", "")) == v && Balanced(Line("", ""))
    ensures Sign("") && Need("") == 0 && Words("") == []
  {
  }

  /** The letters of a line without its signs. */
  function NoSigns(letters: string): string {
    if letters == "" then ""
    else
      var init, c := letters[..|letters| - 1], letters[|letters| - 1];
      NoSigns(init) + if SignChar(c) then "" else [c]
  }
}
