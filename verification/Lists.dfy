/** The mask lists of a burst, read by m_mode and set_mode on the other side. */
module Lists {
  import opened Text
  import opened ModeLine
  import opened MaskBatch
  import opened Masks
  import opened Options
  import opened Sjoin
  import opened ChannelClass
  import opened SetMode

  /** The server a burst comes from: not local, not U-lined. */
  const A_SERVER := Source(true, false, false, false, false, 2)

  predicate AllStored(masks: seq<string>) {
    forall m | m in masks :: Stored(m)
  }

  /** The lists hold masks as set_mode stores them. */
  ghost predicate StoredLists(c: Chan) {
    AllStored(c.bans) && AllStored(c.exempts) && AllStored(c.invites)
  }

  predicate AllStable(masks: seq<string>) {
    forall m | m in masks :: Canon(m) == m
  }

  /** Every mask of the lists is stored by the next server as it is. */
  ghost predicate StableLists(c: Chan) {
    AllStable(c.bans) && AllStable(c.exempts) && AllStable(c.invites)
  }

  lemma EditKeepsStored(src: Source, w: World, e: Edits, pv: seq<string>, letter: char)
    requires StoredLists(e.chan)
    ensures StoredLists(Edit(src, w, e, pv, letter).chan)
  {
    hide Stored, Canon, StatusMap, Overflows, ParseRate, RateText, Refused, GiveStatus, DropMask;
    if MaskLetter(letter) && e.args < |pv| && CharAt(pv[e.args], 0) != ':' && pv[e.args] != "" {
      CanonStored(pv[e.args]);
      DropKeepsStored(MasksOf(e.chan, letter), Canon(pv[e.args]));
    }
  }

  lemma {:induction false} DropKeepsStored(masks: seq<string>, m: string)
    requires AllStored(masks)
    ensures AllStored(DropMask(masks, m))
  {
    hide Stored, SameName;
    if masks != [] {
      DropKeepsStored(masks[1..], m);
    }
  }

  /** Whoever sends a MODE line, the lists keep that form. */
  lemma {:induction false} LineKeepsStored(src: Source, w: World, e: Edits, pv: seq<string>, modes: string)
    requires StoredLists(e.chan)
    ensures StoredLists(EditAll(src, w, e, pv, modes).chan)
    decreases |modes|
  {
    hide Edit, StoredLists;
    if modes != "" {
      EditKeepsStored(src, w, e, pv, modes[0]);
      LineKeepsStored(src, w, Edit(src, w, e, pv, modes[0]), pv, modes[1..]);
    }
  }

  /** So does an SJOIN, which leaves the lists or clears them. */
  lemma StepKeepsStored(c: Option<Chan>, msg: Message, behind: set<string>, now: int)
    requires msg.args != [] && (c.Some? ==> StoredLists(c.value))
    ensures var after := Step(c, msg, behind, now).chan; after.Some? ==> StoredLists(after.value)
  {
  }

  /** m_mode from a server: a line stamped later than the channel is ignored. */
  function ModeFromServer(c: Chan, ts: int, line: Line, w: World): Chan {
    if ts != 0 && ts > c.ts then c
    else EditAll(A_SERVER, w, Start(c), Words(line.params), line.letters).chan
  }

  /** The reader puts a mask into canonical form before it adds it. */
  function AddItem(c: Chan, it: Item): Chan {
    WithMasks(c, it.letter, AddMask(MasksOf(c, it.letter), Canon(it.mask)))
  }

  function AddItems(c: Chan, items: seq<Item>): Chan {
    if items == [] then c else AddItem(AddItems(c, items[..|items| - 1]), items[|items| - 1])
  }

  lemma {:induction false} AddItemsAppend(c: Chan, xs: seq<Item>, ys: seq<Item>)
    ensures AddItems(c, xs + ys) == AddItems(AddItems(c, xs), ys)
  {
    hide AddItem;
    if ys == [] {
      assert xs + ys == xs;
    } else {
      AddItemsAppend(c, xs, ys[..|ys| - 1]);
      assert (xs + ys)[..|xs + ys| - 1] == xs + ys[..|ys| - 1];
    }
  }

  /** Letters and parameters still to be printed. */
  function MaskCost(ps: seq<string>): nat {
    if ps == [] then 0 else 2 + |ps[0]| + MaskCost(ps[1..])
  }

  lemma {:induction false} MaskLettersObeyed(w: World, e: Edits, pv: seq<string>, letters: string)
    requires e.plus && e.args + |letters| == |pv| && e.nparams + |letters| <= 512
    requires (forall c | c in letters :: MaskLetter(c)) && AllStored(pv)
    requires w.prelen + |e.echo.letters| + |e.echo.params| + MaskCost(pv[e.args..]) + MASK_LEN + 1 <= REAL_MODE_BUF_LEN
    ensures EditAll(A_SERVER, w, e, pv, letters).chan == AddItems(e.chan, Zip(letters, pv[e.args..]))
    decreases |letters|
  {
    var ps := pv[e.args..];
    if letters == "" {
      assert Zip(letters, ps) == [];
    } else {
      var letter, p, it := letters[0], pv[e.args], Item(letters[0], pv[e.args]);
      assert ps[0] == p && ps[1..] == pv[e.args + 1..];
      assert MaskLetter(letter) && Stored(p);
      StoredShape(p);
      hide Stored, Canon;
      MaskEdited(A_SERVER, w, e, pv, letter);
      var e' := Edit(A_SERVER, w, e, pv, letter);
      EditIsMask(w, e, pv, letter);
      assert e'.chan == AddItem(e.chan, it);
      MaskLettersObeyed(w, e', pv, letters[1..]);
      assert [it][..0] == [];
      AddItemsAppend(e.chan, [it], Zip(letters[1..], ps[1..]));
    }
  }

  lemma EditIsMask(w: World, e: Edits, pv: seq<string>, letter: char)
    requires MaskLetter(letter)
    ensures Edit(A_SERVER, w, e, pv, letter) == EditMask(A_SERVER, w, e, pv, letter)
  {
    hide EditMask, Canon;
  }

  /** The words of a buffer are no longer than the buffer, one separator each. */
  lemma {:induction false} WordsFit(s: string)
    ensures Words(s) != [] ==> MaskCost(Words(s)) <= |s| + 1 + |Words(s)|
    decreases |s|
  {
    if s == "" {
    } else if s[0] == ' ' {
      WordsFit(s[1..]);
    } else {
      var n := WordLen(s);
      WordsFit(s[n..]);
      assert Words(s) == [s[..n]] + Words(s[n..]);
      if Words(s[n..]) != [] {
        SpaceFirst(s[n..]);
      }
    }
  }

  /** After a separator, the words fit without counting it. */
  lemma SpaceFirst(s: string)
    requires s != "" && s[0] == ' ' && Words(s) != []
    ensures MaskCost(Words(s)) <= |s| + |Words(s)|
    decreases |s|
  {
    WordsFit(s[1..]);
  }

  /** The other server's own name and the channel's fit the allowance m_mode makes for them. */
  predicate SmallWorld(w: World) {
    w.prelen <= 122
  }

  /** One list line of a burst adds exactly its masks. */
  lemma ListLineObeyed(c: Chan, ts: int, line: Line, w: World)
    requires WithinLimits(line, '+', MAX_TS_MODE_PARAMS) && AllStored(Words(line.params)) && SmallWorld(w)
    ensures ModeFromServer(c, ts, line, w) == if ts != 0 && ts > c.ts then c else AddItems(c, Items(line))
  {
    var pv, letters := Words(line.params), line.letters;
    WordsFit(line.params);
    assert pv[0..] == pv;
    var e := Start(c);
    assert Edit(A_SERVER, w, e, pv, '+') == e;
    MaskLettersObeyed(w, e, pv, letters[1..]);
  }

  /* ---------- all three lists ---------- */

  function AddMasks(had: seq<string>, masks: seq<string>): seq<string>
    decreases |masks|
  {
    if masks == [] then had else AddMasks(AddMask(had, Canon(masks[0])), masks[1..])
  }

  lemma {:induction false} AddList(c: Chan, letter: char, masks: seq<string>)
    requires MaskLetter(letter)
    ensures AddItems(c, ListItems(letter, masks)) == WithMasks(c, letter, AddMasks(MasksOf(c, letter), masks))
    decreases |masks|
  {
    if masks != [] {
      var it := Item(letter, masks[0]);
      assert [it][..0] == [];
      AddItemsAppend(c, [it], ListItems(letter, masks[1..]));
      AddList(AddItem(c, it), letter, masks[1..]);
    }
  }

  function WithLists(c: Chan, src: Chan): Chan {
    c.(bans := AddMasks(c.bans, src.bans), exempts := AddMasks(c.exempts, src.exempts),
       invites := AddMasks(c.invites, src.invites))
  }

  lemma AddThreeLists(c: Chan, src: Chan)
    ensures AddItems(c, ThreeLists(src.bans, src.exempts, src.invites)) == WithLists(c, src)
  {
    hide AddItems, ListItems, AddMasks;
    var b, x, i := ListItems('b', src.bans), ListItems('e', src.exempts), ListItems('I', src.invites);
    AddItemsAppend(c, b + x, i);
    AddItemsAppend(c, b, x);
    AddList(c, 'b', src.bans);
    AddList(AddItems(c, b), 'e', src.exempts);
    AddList(AddItems(AddItems(c, b), x), 'I', src.invites);
  }

  function HearLines(c: Chan, ts: int, lines: seq<Line>, w: World): Chan {
    if lines == [] then c else ModeFromServer(HearLines(c, ts, lines[..|lines| - 1], w), ts, lines[|lines| - 1], w)
  }

  lemma AddItemsTs(c: Chan, items: seq<Item>)
    ensures AddItems(c, items).ts == c.ts
  {
  }

  lemma {:induction false} LinesObeyed(c: Chan, ts: int, lines: seq<Line>, w: World)
    requires SmallWorld(w)
    requires forall l | l in lines :: WithinLimits(l, '+', MAX_TS_MODE_PARAMS) && AllStored(Words(l.params))
    ensures Lines(lines)
    ensures HearLines(c, ts, lines, w) == if ts != 0 && ts > c.ts then c else AddItems(c, AllItems(lines))
  {
    if lines != [] {
      var init, last := lines[..|lines| - 1], lines[|lines| - 1];
      LinesObeyed(c, ts, init, w);
      AddItemsTs(c, AllItems(init));
      ListLineObeyed(HearLines(c, ts, init, w), ts, last, w);
      AddItemsAppend(c, AllItems(init), Items(last));
    }
  }

  /** The masks on the lines are those of the lists. */
  lemma {:induction false} LineMasks(lines: seq<Line>, masks: seq<Item>)
    requires Lines(lines) && AllItems(lines) == masks
    ensures forall l, p | l in lines && p in Words(l.params) :: exists it :: it in masks && it.mask == p
  {
    if lines != [] {
      var init, last := lines[..|lines| - 1], lines[|lines| - 1];
      LineMasks(init, AllItems(init));
      forall l, p | l in lines && p in Words(l.params)
        ensures exists it :: it in masks && it.mask == p
      {
        if l in init {
          var it :| it in AllItems(init) && it.mask == p;
          assert it in masks;
        } else {
          var ps := Words(last.params);
          var k :| 0 <= k < |ps| && ps[k] == p;
          assert Items(last)[k].mask == p && Items(last)[k] in masks;
        }
      }
    }
  }

  /**
   The list lines of a burst, packed in whatever way, add the three lists, each mask in canonical form,
   or nothing when they come too late.
   */
  lemma ListsArrive(c: Chan, src: Chan, lines: seq<Line>, w: World)
    requires SmallWorld(w) && StoredLists(src)
    requires (forall l | l in lines :: WithinLimits(l, '+', MAX_TS_MODE_PARAMS)) && Lines(lines)
    requires AllItems(lines) == ThreeLists(src.bans, src.exempts, src.invites)
    ensures HearLines(c, src.ts, lines, w) == if src.ts != 0 && src.ts > c.ts then c else WithLists(c, src)
  {
    LineMasks(lines, ThreeLists(src.bans, src.exempts, src.invites));
    forall l | l in lines
      ensures AllStored(Words(l.params))
    {
      forall p | p in Words(l.params)
        ensures Stored(p)
      {
        var it :| it in ThreeLists(src.bans, src.exempts, src.invites) && it.mask == p;
        ItemOfList(src, it);
      }
    }
    LinesObeyed(c, src.ts, lines, w);
    AddThreeLists(c, src);
  }

  lemma ItemOfList(src: Chan, it: Item)
    requires it in ThreeLists(src.bans, src.exempts, src.invites)
    ensures it.mask in src.bans || it.mask in src.exempts || it.mask in src.invites
  {
    hide ListItems;
    var b, x, i := ListItems('b', src.bans), ListItems('e', src.exempts), ListItems('I', src.invites);
    var all := ThreeLists(src.bans, src.exempts, src.invites);
    var k :| 0 <= k < |all| && all[k] == it;
    if k < |b| {
      assert b[k] == it;
    } else if k < |b| + |x| {
      assert x[k - |b|] == it;
    } else {
      assert i[k - |b| - |x|] == it;
    }
  }

  /** The same masks up to case, in any order. */
  ghost predicate SameMasks(xs: seq<string>, ys: seq<string>) {
    forall m :: HasMask(xs, m) <==> HasMask(ys, m)
  }

  function Canons(masks: seq<string>): (r: seq<string>)
    ensures |r| == |masks| && forall k | 0 <= k < |r| :: r[k] == Canon(masks[k])
  {
    seq(|masks|, k requires 0 <= k < |masks| => Canon(masks[k]))
  }

  /** What a list holds after another's masks were added: its own, and the others in canonical form. */
  lemma {:induction false} AddMasksHas(had: seq<string>, masks: seq<string>, m: string)
    ensures HasMask(AddMasks(had, masks), m) <==> HasMask(had, m) || HasMask(Canons(masks), m)
    decreases |masks|
  {
    hide Canon, SameName;
    if masks != [] {
      AddMasksHas(AddMask(had, Canon(masks[0])), masks[1..], m);
      AddMaskHas(had, Canon(masks[0]), m);
      assert Canons(masks)[1..] == Canons(masks[1..]);
      ConsHas(Canons(masks), m);
    }
  }

  lemma ConsHas(masks: seq<string>, m: string)
    requires masks != []
    ensures HasMask(masks, m) <==> SameName(masks[0], m) || HasMask(masks[1..], m)
  {
    if HasMask(masks, m) {
      var k :| 0 <= k < |masks| && SameName(masks[k], m);
      assert k > 0 ==> SameName(masks[1..][k - 1], m);
    }
    if HasMask(masks[1..], m) {
      var k :| 0 <= k < |masks[1..]| && SameName(masks[1..][k], m);
      assert SameName(masks[k + 1], m);
    }
  }

  lemma AddMaskHas(had: seq<string>, x: string, m: string)
    ensures HasMask(AddMask(had, x), m) <==> HasMask(had, m) || SameName(x, m)
  {
    if HasMask(had, x) {
      var k :| 0 <= k < |had| && SameName(had[k], x);
      assert SameName(x, m) ==> SameName(had[k], m);
    } else {
      assert ([x] + had)[1..] == had;
      ConsHas([x] + had, m);
    }
  }

  /* ---------- which lists survive ---------- */

  lemma CanonsOfStable(masks: seq<string>)
    requires AllStable(masks)
    ensures Canons(masks) == masks
  {
    hide Canon;
    assert forall k | 0 <= k < |masks| :: masks[k] in masks;
  }

  /**
   A list whose changing masks all are canonical forms of its masks holds nothing that changes: such a
   mask would have to come from another, longer one that changes too.
   */
  lemma {:induction false} SameSoStable(masks: seq<string>, k: nat)
    requires AllStored(masks) && k < |masks|
    requires forall j | 0 <= j < |masks| && Canon(masks[j]) != masks[j] :: HasMask(Canons(masks), masks[j])
    ensures Canon(masks[k]) == masks[k]
    decreases MASK_LEN - |masks[k]|
  {
    hide Canon, Stored, SameName;
    var m := masks[k];
    assert m in masks;
    StoredShape(m);
    if Canon(m) != m {
      var j :| 0 <= j < |masks| && SameName(Canons(masks)[j], m);
      assert masks[j] in masks;
      StoredShape(masks[j]);
      SameLengths(Canon(masks[j]), m);
      if |Canon(masks[j])| < |masks[j]| {
        SameSoStable(masks, j);
      }
      StableTogether(masks[j], m);
    }
  }

  lemma SameAsItself(m: string)
    ensures SameName(m, m)
  {
  }

  /** Exactly the lists all of whose masks are stable come through unchanged. */
  lemma SameWhenStable(masks: seq<string>)
    requires AllStored(masks)
    ensures SameMasks(Canons(masks), masks) <==> AllStable(masks)
  {
    hide Canon, Stored, SameName;
    if AllStable(masks) {
      CanonsOfStable(masks);
    }
    if SameMasks(Canons(masks), masks) {
      forall j | 0 <= j < |masks|
        ensures HasMask(Canons(masks), masks[j])
      {
        SameAsItself(masks[j]);
        assert HasMask(masks, masks[j]);
      }
      forall m | m in masks
        ensures Canon(m) == m
      {
        var k :| 0 <= k < |masks| && masks[k] == m;
        SameSoStable(masks, k);
      }
    }
  }
}
