/**
 How ban, exempt and invite masks are packed into MODE lines by kill_ban_list, send_channel_lists
 and the remove_matching functions: the same loop over the shared modebuf and parabuf.
 */
module MaskBatch {
  import opened Text
  import opened ModeLine

  const MODE_BUF_LEN: nat := 200
  const MAX_MODE_PARAMS: nat := 11
  const MAX_TS_MODE_PARAMS: nat := 10
  /** NICKLEN + USERLEN + HOSTLEN and the two separators: the longest mask make_nick_user_host builds. */
  const MASK_LEN: nat := 105

  /** One mask with the letter of its list. */
  datatype Item = Item(letter: char, mask: string)

  /** sign, then one mask letter per parameter. */
  predicate MaskLine(line: Line, sign: char) {
    && line.letters != "" && line.letters[0] == sign
    && |line.letters| == 1 + |Words(line.params)|
    && forall i | 1 <= i < |line.letters| :: MaskLetter(line.letters[i])
  }

  /** The masks of a line, each under its letter. */
  function Items(line: Line): seq<Item>
    requires |line.letters| == 1 + |Words(line.params)|
  {
    Zip(line.letters[1..], Words(line.params))
  }

  function Zip(letters: string, masks: seq<string>): (r: seq<Item>)
    requires |letters| == |masks|
    ensures |r| == |masks|
    ensures forall i | 0 <= i < |r| :: r[i] == Item(letters[i], masks[i])
  {
    if masks == [] then [] else [Item(letters[0], masks[0])] + Zip(letters[1..], masks[1..])
  }

  predicate Lines(lines: seq<Line>) {
    forall l | l in lines :: |l.letters| == 1 + |Words(l.params)|
  }

  function AllItems(lines: seq<Line>): seq<Item>
    requires Lines(lines)
  {
    if lines == [] then [] else AllItems(lines[..|lines| - 1]) + Items(lines[|lines| - 1])
  }

  lemma AllItemsSnoc(lines: seq<Line>, line: Line)
    requires Lines(lines) && |line.letters| == 1 + |Words(line.params)|
    ensures AllItems(lines + [line]) == AllItems(lines) + Items(line)
  {
    assert (lines + [line])[..|lines|] == lines;
  }

  lemma ItemsSnoc(line: Line, letter: char, mask: string)
    requires |line.letters| == 1 + |Words(line.params)| && IsWord(mask)
    ensures var line' := Line(line.letters + [letter], AddPara(line.params, mask));
            && |line'.letters| == 1 + |Words(line'.params)|
            && Items(line') == Items(line) + [Item(letter, mask)]
  {
    WordsAddPara(line.params, mask);
  }

  lemma EmptyLine(sign: char)
    ensures MaskLine(Line([sign], ""), sign) && Items(Line([sign], "")) == []
  {
  }

  function ListItems(letter: char, masks: seq<string>): (r: seq<Item>)
    ensures |r| == |masks|
    ensures forall i | 0 <= i < |r| :: r[i] == Item(letter, masks[i])
  {
    if masks == [] then [] else [Item(letter, masks[0])] + ListItems(letter, masks[1..])
  }

  lemma ListItemsSnoc(letter: char, masks: seq<string>, i: nat)
    requires i < |masks|
    ensures ListItems(letter, masks[..i + 1]) == ListItems(letter, masks[..i]) + [Item(letter, masks[i])]
  {
  }

  /* ---------- what the lines mean ---------- */

  function FoldItems(v: View, plus: bool, items: seq<Item>): View {
    if items == [] then v
    else
      var it := items[|items| - 1];
      ChangeWith(FoldItems(v, plus, items[..|items| - 1]), plus, it.letter, it.mask)
  }

  lemma {:induction false} FoldItemsAppend(v: View, plus: bool, xs: seq<Item>, ys: seq<Item>)
    ensures FoldItems(v, plus, xs + ys) == FoldItems(FoldItems(v, plus, xs), plus, ys)
  {
    if ys == [] {
      assert xs + ys == xs;
    } else {
      FoldItemsAppend(v, plus, xs, ys[..|ys| - 1]);
      assert (xs + ys)[..|xs + ys| - 1] == xs + ys[..|ys| - 1];
    }
  }

  lemma {:induction false} ReadMasks(v: View, line: Line, sign: char, k: nat)
    requires MaskLine(line, sign) && SignChar(sign) && k < |line.letters|
    ensures Read(Reader(v, true, Words(line.params)), line.letters[..k + 1])
         == Reader(FoldItems(v, sign == '+', Items(line)[..k]), sign == '+', Words(line.params)[k..])
    ensures Need(line.letters[..k + 1]) == k && Sign(line.letters[..k + 1]) == (sign == '+')
  {
    hide ChangePlain, ChangeWith, FlagLetter, StatusLetter, Words;
    var upto := line.letters[..k + 1];
    assert upto[..k] == line.letters[..k];
    if k > 0 {
      ReadMasks(v, line, sign, k - 1);
      assert Items(line)[..k][..k - 1] == Items(line)[..k - 1];
      assert MaskLetter(line.letters[k]);
    }
  }

  /** Reading a mask line adds or removes its masks one by one, in order. */
  lemma ApplyMaskLine(v: View, line: Line, sign: char)
    requires MaskLine(line, sign) && SignChar(sign)
    ensures Balanced(line)
    ensures Apply(v, line) == FoldItems(v, sign == '+', Items(line))
  {
    var k := |line.letters| - 1;
    ReadMasks(v, line, sign, k);
    assert line.letters[..k + 1] == line.letters;
    assert Items(line)[..k] == Items(line);
  }

  /** Removing the masks of a list in list order empties it. */
  lemma {:induction false} DropAll(v: View, letter: char, masks: seq<string>)
    requires MaskLetter(letter)
    requires masks == match letter case 'b' => v.bans case 'e' => v.exempts case _ => v.invites
    ensures FoldItems(v, false, ListItems(letter, masks))
         == match letter case 'b' => v.(bans := []) case 'e' => v.(exempts := []) case _ => v.(invites := [])
  {
    DropFirst(v, letter, masks, |masks|);
    assert ListItems(letter, masks)[..|masks|] == ListItems(letter, masks);
  }

  lemma {:induction false} DropFirst(v: View, letter: char, masks: seq<string>, k: nat)
    requires MaskLetter(letter) && k <= |masks|
    requires masks == match letter case 'b' => v.bans case 'e' => v.exempts case _ => v.invites
    ensures FoldItems(v, false, ListItems(letter, masks)[..k])
         == match letter
            case 'b' => v.(bans := masks[k..])
            case 'e' => v.(exempts := masks[k..])
            case _ => v.(invites := masks[k..])
  {
    if k > 0 {
      DropFirst(v, letter, masks, k - 1);
      assert ListItems(letter, masks)[..k][..k - 1] == ListItems(letter, masks)[..k - 1];
      assert masks[k - 1..][1..] == masks[k..];
    }
  }

  function AsEvents(lines: seq<Line>): seq<Event> {
    seq(|lines|, i requires 0 <= i < |lines| => Sent(lines[i]))
  }

  /** However the masks were packed, the lines together do what the plain list of items does. */
  lemma {:induction false} ReplayMaskLines(v: View, lines: seq<Line>, sign: char)
    requires SignChar(sign) && forall l | l in lines :: MaskLine(l, sign)
    ensures Lines(lines)
    ensures Replay(v, AsEvents(lines)) == FoldItems(v, sign == '+', AllItems(lines))
  {
    hide Items, Apply, Words, ChangeWith;
    if lines != [] {
      var init, last := lines[..|lines| - 1], lines[|lines| - 1];
      ReplayMaskLines(v, init, sign);
      ApplyMaskLine(Replay(v, AsEvents(init)), last, sign);
      FoldItemsAppend(v, sign == '+', AllItems(init), Items(last));
      assert AsEvents(lines) == AsEvents(init) + [Sent(last)];
      ReplaySnoc(v, AsEvents(init), Sent(last));
    }
  }

  /** A line that may be sent: at least one mask, no more than most, and short enough. */
  predicate WithinLimits(l: Line, sign: char, most: nat) {
    && MaskLine(l, sign)
    && 1 <= |Words(l.params)| <= most
    && |l.params| < MODE_BUF_LEN
  }

  /** The batching loop's buffers. slack and most are the two constants each caller compiles in. */
  class Printer {
    const sign: char
    const slack: nat
    const most: nat
    var modebuf: string
    var parabuf: string
    var count: nat
    var sent: seq<Line>
    /** Every mask printed so far, in order. */
    ghost var printed: seq<Item>

    /** Lines are well formed and within the limits; the buffers hold the line being built. */
    ghost predicate Valid()
      reads this
    {
      && MaskLine(Line(modebuf, parabuf), sign)
      && count == |Words(parabuf)| < most
      && (parabuf == "" <==> count == 0)
      && |parabuf| < MODE_BUF_LEN
      && most > 1 && 0 < slack < MODE_BUF_LEN - MASK_LEN
      && (forall l | l in sent :: WithinLimits(l, sign, most))
      && printed == AllItems(sent) + Items(Line(modebuf, parabuf))
    }

    constructor (sign: char, slack: nat, most: nat)
      requires most > 1 && 0 < slack < MODE_BUF_LEN - MASK_LEN
      ensures Valid() && printed == [] && sent == []
      ensures this.sign == sign && this.slack == slack && this.most == most
    {
      this.sign, this.slack, this.most := sign, slack, most;
      modebuf, parabuf, count, sent, printed := [sign], "", 0, [], [];
    }

    /** One turn of the loop: the mask joins the line, or starts the next one. */
    method Put(letter: char, mask: string)
      requires Valid() && MaskLetter(letter) && IsWord(mask) && |mask| <= MASK_LEN
      modifies this
      ensures Valid()
      ensures printed == old(printed) + [Item(letter, mask)]
    {
      EmptyLine(sign);
      hide Words, WordLen, AllItems, Zip;
      var send := false;
      printed := printed + [Item(letter, mask)];
      if |parabuf| + |mask| + slack < MODE_BUF_LEN {
        ItemsSnoc(Line(modebuf, parabuf), letter, mask);
        WordsAddPara(parabuf, mask);
        parabuf := AddPara(parabuf, mask);
        count := count + 1;
        modebuf := modebuf + [letter];
      } else if parabuf != "" {
        send := true;
      }
      if count == most {
        send := true;
      }
      if send {
        AllItemsSnoc(sent, Line(modebuf, parabuf));
        sent := sent + [Line(modebuf, parabuf)];
        parabuf := "";
        modebuf := [sign];
        if count != most {
          ItemsSnoc(Line([sign], ""), letter, mask);
          WordsOfWord(mask);
          parabuf := mask;
          modebuf := modebuf + [letter];
          count := 1;
        } else {
          count := 0;
        }
      }
    }

    /** After the loops: the line being built goes out if it holds anything. */
    method Flush()
      requires Valid()
      modifies this
      ensures forall l | l in sent :: WithinLimits(l, sign, most)
      ensures Lines(sent) && AllItems(sent) == old(printed)
    {
      if parabuf != "" {
        AllItemsSnoc(sent, Line(modebuf, parabuf));
        sent := sent + [Line(modebuf, parabuf)];
      }
    }

    /** One of the three loops, over a list whose masks all have a legal length. */
    method PutAll(letter: char, masks: seq<string>)
      requires Valid() && MaskLetter(letter)
      requires forall m | m in masks :: IsWord(m) && |m| <= MASK_LEN
      modifies this
      ensures Valid()
      ensures printed == old(printed) + ListItems(letter, masks)
    {
      hide Valid, IsWord, ListItems;
      assert ListItems(letter, masks[..0]) == [];
      for i := 0 to |masks|
        invariant Valid()
        invariant printed == old(printed) + ListItems(letter, masks[..i])
      {
        ListItemsSnoc(letter, masks, i);
        Put(letter, masks[i]);
      }
      assert masks[..|masks|] == masks;
    }
  }

  predicate LegalMasks(masks: seq<string>) {
    forall m | m in masks :: IsWord(m) && |m| <= MASK_LEN
  }

  /** The three lists as kill_ban_list (sign '-') or send_channel_lists (sign '+') walk them. */
  function ThreeLists(bans: seq<string>, exempts: seq<string>, invites: seq<string>): seq<Item> {
    ListItems('b', bans) + ListItems('e', exempts) + ListItems('I', invites)
  }

  /** Every mask of the three lists is printed once, in order, on lines within both limits. */
  method PrintLists(sign: char, slack: nat, most: nat, bans: seq<string>, exempts: seq<string>, invites: seq<string>)
    returns (lines: seq<Line>)
    requires most > 1 && 0 < slack < MODE_BUF_LEN - MASK_LEN
    requires LegalMasks(bans) && LegalMasks(exempts) && LegalMasks(invites)
    ensures forall l | l in lines :: WithinLimits(l, sign, most)
    ensures Lines(lines) && AllItems(lines) == ThreeLists(bans, exempts, invites)
  {
    hide Printer.Valid, WithinLimits, ListItems, AllItems, MaskLine, Words;
    var printer := new Printer(sign, slack, most);
    printer.PutAll('b', bans);
    printer.PutAll('e', exempts);
    printer.PutAll('I', invites);
    printer.Flush();
    lines := printer.sent;
  }
}
