/** The K-line journal: lines that are written, read back, and replayed after a restart. */
module Klines {
  import opened Text

  const KLINE_MIN_STORE_TIME := 180
  const KLINE_STORE_COMPACT_THRESH := 1000

  /** A local ban: user and host as they are printed, and for a temporary one when it was set and for how long. */
  datatype Ban = Ban(user: string, host: string, reason: string, temporary: bool, timeset: int, duration: int)

  /** Bans are the same mask when mycmp says so of both parts. */
  type Mask = (string, string)

  function MaskOf(user: string, host: string): Mask {
    (Fold(user), Fold(host))
  }

  function Key(b: Ban): Mask {
    MaskOf(b.user, b.host)
  }

  /** When the ban ends, and 0 for a permanent one. */
  function Expiry(b: Ban): int {
    if b.temporary then b.timeset + b.duration else 0
  }

  /** A ban that can be printed: no space in the mask, no end of line, and an end before 2^31 seconds. */
  predicate GoodBan(b: Ban) {
    && ' ' !in b.user && ' ' !in b.host
    && (b.temporary ==> 0 < b.duration && 0 < Expiry(b) < 0x8000_0000)
    && (!b.temporary ==> b.timeset == 0 && b.duration == 0)
  }

  /* ---------- strtol with base 0 ---------- */

  function HexValue(c: char): int {
    if '0' <= c <= '9' then c as int - '0' as int
    else if 'a' <= c <= 'f' then c as int - 'a' as int + 10
    else if 'A' <= c <= 'F' then c as int - 'A' as int + 10
    else 99
  }

  function ReadBase(s: string, base: nat, acc: nat): (nat, string) {
    if s != "" && 0 <= HexValue(s[0]) < base then ReadBase(s[1..], base, acc * base + HexValue(s[0])) else (acc, s)
  }

  /** strtol(s, &s, 0): 0x starts a hexadecimal number, and 0 an octal one. */
  function StrtolAuto(s: string): (int, string) {
    var t := SkipSpace(s);
    var neg := CharAt(t, 0) == '-';
    var u := if CharAt(t, 0) == '-' || CharAt(t, 0) == '+' then t[1..] else t;
    if CharAt(u, 0) != '0' then Strtol(s)
    else
      var hex := |u| > 2 && (u[1] == 'x' || u[1] == 'X') && HexValue(u[2]) < 16;
      var r := if hex then ReadBase(u[2..], 16, 0) else ReadBase(u, 8, 0);
      var v: int := r.0;
      (Saturate(if neg then -v else v), r.1)
  }

  lemma {:induction false} LeadingDigit(n: nat)
    requires n > 0
    ensures Digits(n)[0] != '0'
  {
    if n >= 10 {
      LeadingDigit(n / 10);
    }
  }

  /** Numbers printed in decimal never look octal or hexadecimal. */
  lemma StrtolAutoBack(n: int, rest: string)
    requires Int32(n) && rest != "" && rest[0] == ' '
    ensures StrtolAuto(Itoa(n) + rest) == (n, rest)
  {
    StrtolBack(n, rest);
    var s := Itoa(n) + rest;
    var m := if n < 0 then -n else n;
    assert Digits(m)[0] in Digits(m);
    if n < 0 {
      assert s[0] == '-' && s[1..][0] == Digits(m)[0];
      LeadingDigit(m);
    } else if n > 0 {
      assert s[0] == Digits(m)[0] && IsDigit(s[0]);
      LeadingDigit(n);
    } else {
      assert s == "0" + rest && s[1..] == rest;
      assert ReadBase(s, 8, 0) == ReadBase(rest, 8, 0);
    }
  }

  /* ---------- what base 0 means ---------- */

  lemma HexDigits(k: nat)
    requires k < 16
    ensures HexValue("0123456789abcdef"[k]) == k == HexValue("0123456789ABCDEF"[k])
  {
  }

  ghost predicate DigitsIn(ds: string, base: nat) {
    forall i | 0 <= i < |ds| :: 0 <= HexValue(ds[i]) < base
  }

  /** The value of digits in a base: the last counts once, the others base times. */
  ghost function BaseValue(ds: string, base: nat): nat
    requires DigitsIn(ds, base)
  {
    if ds == "" then 0 else base * BaseValue(ds[..|ds| - 1], base) + HexValue(ds[|ds| - 1])
  }

  lemma {:induction false} ReadBaseSnoc(ds: string, rest: string, base: nat)
    requires DigitsIn(ds, base)
    ensures ReadBase(ds + rest, base, 0) == ReadBase(rest, base, BaseValue(ds, base))
  {
    if ds == "" {
      assert ds + rest == rest;
    } else {
      var init, d := ds[..|ds| - 1], ds[|ds| - 1];
      ReadBaseSnoc(init, [d] + rest, base);
      assert ds + rest == init + ([d] + rest) && ([d] + rest)[1..] == rest;
    }
  }

  /** strtol with base 0 on octal and hexadecimal text. */
  lemma StrtolAutoMeans(octal: string, hex: string, rest: string)
    requires DigitsIn(octal, 8) && DigitsIn(hex, 16) && hex != ""
    requires rest == "" || rest[0] == ' '
    ensures StrtolAuto("0" + (octal + rest)) == (Saturate(BaseValue(octal, 8)), rest)
    ensures StrtolAuto("0x" + (hex + rest)) == StrtolAuto("0X" + (hex + rest)) == (Saturate(BaseValue(hex, 16)), rest)
  {
    var s, t, u := "0" + (octal + rest), "0x" + (hex + rest), "0X" + (hex + rest);
    assert u[2..] == hex + rest && u[2] == hex[0];
    assert s == ("0" + octal) + rest && s[1..] == octal + rest;
    ReadBaseSnoc(octal, rest, 8);
    ReadBaseSnoc(hex, rest, 16);
    assert t[2..] == hex + rest && t[2] == hex[0];
    assert ReadBase(s, 8, 0) == ReadBase(s[1..], 8, 0);
    assert ReadBase(rest, 8, BaseValue(octal, 8)) == (BaseValue(octal, 8), rest);
    assert ReadBase(rest, 16, BaseValue(hex, 16)) == (BaseValue(hex, 16), rest);
  }

  /* ---------- one line ---------- */

  /** ks_write, without the newline: the end of a temporary ban goes through a 32-bit int. */
  function KsWrite(add: bool, b: Ban): string {
    if add then "+ " + Itoa(ToInt32(Expiry(b))) + " " + b.user + " " + b.host + " " + b.reason
    else "- " + b.user + " " + b.host
  }

  /** What a line says: malformed, a ban already over, one to add, or one to remove. */
  datatype Entry = Malformed | Over | Added(ban: Ban) | Removed(user: string, host: string)

  /** ks_read */
  function KsRead(s: string, now: int): Entry {
    if CharAt(s, 0) != '+' && CharAt(s, 0) != '-' then Malformed
    else if CharAt(s, 1) != ' ' then Malformed
    else if s[0] == '-' then
      var n := WordLen(s[2..]);
      if CharAt(s[2..], n) != ' ' then Malformed
      else Removed(s[2..][..n], s[2..][n + 1..])
    else
      var (expiry, rest) := StrtolAuto(s[2..]);
      if expiry != 0 && now >= expiry then Over
      else if CharAt(rest, 0) != ' ' then Malformed
      else ReadMask(rest[1..], if expiry != 0 then expiry - now else 0, now)
  }

  /** The masks and the reason of a line that adds. */
  function ReadMask(s: string, duration: int, now: int): Entry {
    var n := WordLen(s);
    if CharAt(s, n) != ' ' then Malformed
    else
      var t := s[n + 1..];
      var k := WordLen(t);
      if CharAt(t, k) != ' ' then Malformed
      else Added(Ban(s[..n], t[..k], t[k + 1..], duration != 0, if duration != 0 then now else 0, duration))
  }

  /** The forms a line must have: a sign, a space, and words set apart by single spaces. */
  lemma LineForms(s: string, now: int)
    ensures var e := KsRead(s, now);
            && (e.Removed? ==> ' ' !in e.user && s == "- " + (e.user + " " + e.host))
            && (e.Over? ==> |s| >= 2 && s[..2] == "+ " && StrtolAuto(s[2..]).0 != 0 && now >= StrtolAuto(s[2..]).0)
            && (e.Added? ==>
                  && ' ' !in e.ban.user && ' ' !in e.ban.host && |s| >= 2 && s[..2] == "+ "
                  && StrtolAuto(s[2..]).1 == " " + (e.ban.user + " " + (e.ban.host + " " + e.ban.reason))
                  && var end := StrtolAuto(s[2..]).0;
                     e.ban.temporary == (end != 0) && (end != 0 ==> now < end && Expiry(e.ban) == end && e.ban.timeset == now))
  {
    hide StrtolAuto;
    if CharAt(s, 1) == ' ' && CharAt(s, 0) == '-' {
      var t := s[2..];
      var n := WordLen(t);
      assert s == "- " + t;
      if n < |t| {
        assert t == t[..n] + " " + t[n + 1..];
      }
    } else if CharAt(s, 1) == ' ' && CharAt(s, 0) == '+' {
      assert s[..2] == "+ ";
      var rest := StrtolAuto(s[2..]).1;
      if CharAt(rest, 0) == ' ' {
        assert rest == " " + rest[1..];
        MaskForms(rest[1..]);
      }
    }
  }

  lemma MaskForms(s: string)
    ensures forall d, now :: var e := ReadMask(s, d, now);
              e.Added? ==> ' ' !in e.ban.user && ' ' !in e.ban.host && s == e.ban.user + " " + (e.ban.host + " " + e.ban.reason)
                           && e.ban.temporary == (d != 0) && e.ban.duration == d && (d != 0 ==> e.ban.timeset == now)
    ensures forall d, now :: ReadMask(s, d, now).Added? || ReadMask(s, d, now).Malformed?
  {
    var n := WordLen(s);
    if n < |s| {
      var t := s[n + 1..];
      var k := WordLen(t);
      assert s == s[..n] + " " + t;
      if k < |t| {
        assert t == t[..k] + " " + t[k + 1..];
      }
    }
  }

  /** What is left of a ban that is read at a later time: its end stays, its time and duration move. */
  function Resumed(b: Ban, now: int): (r: Ban)
    ensures b.temporary ==> Expiry(r) == Expiry(b)
  {
    if b.temporary then b.(timeset := now, duration := Expiry(b) - now) else b
  }

  predicate Alive(b: Ban, now: int) {
    !b.temporary || now < Expiry(b)
  }

  lemma {:induction false} WordThenSpace(w: string, rest: string)
    requires ' ' !in w
    ensures WordLen(w + " " + rest) == |w| && (w + " " + rest)[..|w|] == w && (w + " " + rest)[|w| + 1..] == rest
  {
    var s := w + " " + rest;
    if w != "" {
      assert s[1..] == w[1..] + " " + rest;
      assert s[0] == w[0] && w[0] in w;
      assert forall c | c in w[1..] :: c in w;
      WordThenSpace(w[1..], rest);
    }
  }

  lemma ReadMaskBack(b: Ban, duration: int, now: int)
    requires ' ' !in b.user && ' ' !in b.host
    ensures ReadMask(b.user + " " + (b.host + " " + b.reason), duration, now)
         == Added(Ban(b.user, b.host, b.reason, duration != 0, if duration != 0 then now else 0, duration))
  {
    WordThenSpace(b.user, b.host + " " + b.reason);
    WordThenSpace(b.host, b.reason);
  }

  lemma Regroup(e: string, user: string, host: string, reason: string)
    ensures "+ " + e + " " + user + " " + host + " " + reason == "+ " + (e + (" " + (user + " " + (host + " " + reason))))
  {
    var mask := user + " " + (host + " " + reason);
    assert user + " " + host + " " + reason == mask;
    assert " " + user + " " + host + " " + reason == " " + mask;
  }

  lemma LineText(b: Ban)
    ensures var s := KsWrite(true, b);
            && |s| > 2 && s[0] == '+' && s[1] == ' '
            && s[2..] == Itoa(ToInt32(Expiry(b))) + (" " + (b.user + " " + (b.host + " " + b.reason)))
  {
    Regroup(Itoa(ToInt32(Expiry(b))), b.user, b.host, b.reason);
  }

  /** A line that adds restores user, host and reason, and as the end what is left of it in 32 bits. */
  lemma WrittenReads(b: Ban, now: int)
    requires ' ' !in b.user && ' ' !in b.host
    ensures var end := ToInt32(Expiry(b));
            KsRead(KsWrite(true, b), now)
            == if end != 0 && now >= end then Over
               else Added(Ban(b.user, b.host, b.reason, end != 0, if end != 0 then now else 0, if end != 0 then end - now else 0))
  {
    hide KsWrite, StrtolAuto, ReadMask, Itoa, ToInt32;
    var end, mask := ToInt32(Expiry(b)), b.user + " " + (b.host + " " + b.reason);
    LineText(b);
    StrtolAutoBack(end, " " + mask);
    assert (" " + mask)[1..] == mask;
    ReadMaskBack(b, if end != 0 then end - now else 0, now);
  }

  /** A line that adds restores user, host, reason and end of the ban, unless the end has come. */
  lemma WriteRead(b: Ban, now: int)
    requires GoodBan(b)
    ensures KsRead(KsWrite(true, b), now) == if Alive(b, now) then Added(Resumed(b, now)) else Over
  {
    WrittenReads(b, now);
    hide KsRead, KsWrite;
  }

  /** A temporary ban that is alive is restored exactly when it ends before 2^31 seconds. */
  lemma RestoredWhen(b: Ban, now: int)
    requires ' ' !in b.user && ' ' !in b.host && b.temporary && Expiry(b) > 0 && Alive(b, now)
    ensures KsRead(KsWrite(true, b), now) == Added(Resumed(b, now)) <==> Expiry(b) < 0x8000_0000
  {
    WrittenReads(b, now);
    hide KsRead, KsWrite;
  }

  /**
   What becomes of a ban that ends later: one that ends before 2^32 is printed with a negative end and
   read back as over, and one that ends at 2^32 is printed with the end 0 and comes back as permanent.
   */
  lemma EndsTooLate(b: Ban, now: int)
    requires ' ' !in b.user && ' ' !in b.host && b.temporary && now >= 0
    ensures 0x8000_0000 <= Expiry(b) < 0x1_0000_0000 ==> KsRead(KsWrite(true, b), now) == Over
    ensures Expiry(b) == 0x1_0000_0000 ==>
              KsRead(KsWrite(true, b), now) == Added(Ban(b.user, b.host, b.reason, false, 0, 0))
  {
    WrittenReads(b, now);
    hide KsRead, KsWrite;
  }

  lemma WriteReadRemoval(b: Ban, now: int)
    requires GoodBan(b)
    ensures KsRead(KsWrite(false, b), now) == Removed(b.user, b.host)
  {
    var s := KsWrite(false, b);
    assert s == "- " + (b.user + " " + b.host);
    assert s[2..] == b.user + " " + b.host;
    WordThenSpace(b.user, b.host);
  }

  /* ---------- replay ---------- */

  type Bans = map<Mask, Ban>

  /** What one line does to the table. */
  function Replayed(bans: Bans, e: Entry): Bans {
    match e
      case Malformed => bans
      case Over => bans
      case Added(b) => bans[Key(b) := b]
      case Removed(user, host) => bans - {MaskOf(user, host)}
  }

  /** The loop of klinestore_init: line after line, up to the first malformed one. */
  function Replay(bans: Bans, lines: seq<string>, now: int): Bans
    decreases |lines|
  {
    if lines == [] || KsRead(lines[0], now).Malformed? then bans
    else Replay(Replayed(bans, KsRead(lines[0], now)), lines[1..], now)
  }

  /** The journal holds only lines that can be read. */
  ghost predicate Readable(lines: seq<string>, now: int) {
    forall s | s in lines :: !KsRead(s, now).Malformed?
  }

  lemma {:induction false} ReplayAppend(bans: Bans, lines: seq<string>, last: string, now: int)
    requires Readable(lines, now)
    ensures Replay(bans, lines + [last], now) == Replayed(Replay(bans, lines, now), KsRead(last, now))
    decreases |lines|
  {
    hide KsRead, Replayed;
    if lines == [] {
      assert (lines + [last])[1..] == [];
      assert Replayed(bans, Malformed) == bans by {
        MalformedIsIgnored(bans);
      }
    } else {
      assert lines[0] in lines;
      assert (lines + [last])[1..] == lines[1..] + [last];
      assert Readable(lines[1..], now);
      ReplayAppend(Replayed(bans, KsRead(lines[0], now)), lines[1..], last, now);
    }
  }

  lemma MalformedIsIgnored(bans: Bans)
    ensures Replayed(bans, Malformed) == bans
  {
  }

  /** The bans of a table that are alive at a time, as they are when they are read then. */
  ghost function Living(stored: Bans, now: int): (r: Bans)
    ensures forall m :: m in r <==> m in stored && Alive(stored[m], now)
    ensures forall m | m in r :: r[m] == Resumed(stored[m], now)
  {
    map m | m in stored && Alive(stored[m], now) :: Resumed(stored[m], now)
  }

  /** Replaying the journal at any time from now on gives the stored bans then alive. */
  ghost predicate Recovers(journal: seq<string>, stored: Bans, now: int) {
    && (forall t | t >= now :: Readable(journal, t) && Replay(map[], journal, t) == Living(stored, t))
    && (forall m | m in stored :: GoodBan(stored[m]) && Key(stored[m]) == m)
  }

  /** A ban that is written joins the stored ones, in the place of one of the same mask that is over. */
  lemma RecoversAdd(journal: seq<string>, stored: Bans, b: Ban, now: int)
    requires Recovers(journal, stored, now) && GoodBan(b)
    requires Key(b) in stored ==> !Alive(stored[Key(b)], now)
    ensures Recovers(journal + [KsWrite(true, b)], stored[Key(b) := b], now)
  {
    hide KsRead, KsWrite, GoodBan, Fold;
    var line := KsWrite(true, b);
    forall t | t >= now
      ensures Readable(journal + [line], t) && Replay(map[], journal + [line], t) == Living(stored[Key(b) := b], t)
    {
      WriteRead(b, t);
      assert Readable(journal, t);
      ReplayAppend(map[], journal, line, t);
      assert Replayed(Living(stored, t), KsRead(line, t)) == Living(stored[Key(b) := b], t);
    }
  }

  /** A removal that is written takes the mask out of the stored ones. */
  lemma RecoversRemove(journal: seq<string>, stored: Bans, b: Ban, now: int)
    requires Recovers(journal, stored, now) && GoodBan(b)
    ensures Recovers(journal + [KsWrite(false, b)], stored - {Key(b)}, now)
  {
    hide KsRead, KsWrite, GoodBan, Fold;
    var line := KsWrite(false, b);
    forall t | t >= now
      ensures Readable(journal + [line], t) && Replay(map[], journal + [line], t) == Living(stored - {Key(b)}, t)
    {
      WriteReadRemoval(b, t);
      assert Readable(journal, t);
      ReplayAppend(map[], journal, line, t);
      assert Replayed(Living(stored, t), KsRead(line, t)) == Living(stored - {Key(b)}, t);
    }
  }

  /** The journal also stands for the bans as they were just read. */
  lemma LivingRecovers(journal: seq<string>, stored: Bans, now: int)
    requires Recovers(journal, stored, now)
    ensures Replay(map[], journal, now) == Living(stored, now) && Readable(journal, now)
    ensures Recovers(journal, Living(stored, now), now)
  {
    var living := Living(stored, now);
    forall m | m in living
      ensures GoodBan(living[m]) && Key(living[m]) == m
    {
      assert GoodBan(stored[m]) && Key(stored[m]) == m;
    }
    hide GoodBan, Key, Readable, Replay;
    forall t | t >= now
      ensures Readable(journal, t) && Replay(map[], journal, t) == Living(living, t)
    {
      LivingTwice(stored, now, t);
    }
  }

  /** Reading bans later gives the same as reading them in between as well. */
  lemma LivingTwice(stored: Bans, now: int, t: int)
    requires now <= t
    ensures Living(Living(stored, now), t) == Living(stored, t)
  {
    var a, b := Living(Living(stored, now), t), Living(stored, t);
    assert forall m | m in stored && Alive(stored[m], t) :: Alive(stored[m], now);
    assert forall m :: m in a <==> m in b;
  }

  /** Long enough to be kept: permanent, or set for three hours or more. */
  predicate Storable(b: Ban) {
    !b.temporary || b.duration >= KLINE_MIN_STORE_TIME * 60
  }

  ghost function Kept(bans: Bans): (r: Bans)
    ensures forall m :: m in r <==> m in bans && Storable(bans[m])
    ensures forall m | m in r :: r[m] == bans[m]
  {
    map m | m in bans && Storable(bans[m]) :: bans[m]
  }

  /* ---------- what the store is told to do ---------- */

  /** m_kline, m_unkline, the timer, and the two entry points of the journal. */
  datatype Order = Kline(ban: Ban) | Unkline(mask: Mask) | ExpireBans | CompactStore | Restart

  datatype Timed = Timed(at: int, order: Order)

  predicate Proper(order: Order) {
    order.Kline? ==> GoodBan(order.ban)
  }

  /** The table after an order: a second ban for a mask is refused, and a restart keeps the rest of the long bans. */
  ghost function Ordered(bans: Bans, x: Timed): Bans {
    match x.order
    case Kline(b) => if Key(b) in bans then bans else bans[Key(b) := b]
    case Unkline(m) => bans - {m}
    case ExpireBans => map m | m in bans && Alive(bans[m], x.at) :: bans[m]
    case CompactStore => bans
    case Restart => Living(Kept(bans), x.at)
  }

  ghost function OrderedAll(bans: Bans, run: seq<Timed>): Bans
    decreases |run|
  {
    if run == [] then bans else OrderedAll(Ordered(bans, run[0]), run[1..])
  }

  predicate InTime(now: int, run: seq<Timed>)
    decreases |run|
  {
    run == [] || (now <= run[0].at && InTime(run[0].at, run[1..]))
  }

  function EndTime(now: int, run: seq<Timed>): int
    decreases |run|
  {
    if run == [] then now else EndTime(run[0].at, run[1..])
  }

  /** No order of the run is about the mask itself. */
  predicate LeftAlone(m: Mask, run: seq<Timed>) {
    forall i | 0 <= i < |run| :: !(run[i].order.Unkline? && run[i].order.mask == m) && !(run[i].order.Kline? && Key(run[i].order.ban) == m)
  }

  /** Alive whenever the table is expired or read back, long enough at first, and with three hours left at every restart but the last. */
  ghost predicate Survives(b: Ban, run: seq<Timed>) {
    && (forall i | 0 <= i < |run| && (run[i].order.ExpireBans? || run[i].order.Restart?) :: Alive(b, run[i].at))
    && (forall i | 0 <= i < |run| && run[i].order.Restart? :: Storable(b))
    && (forall i, j | 0 <= i < j < |run| && run[i].order.Restart? && run[j].order.Restart? :: Storable(Resumed(b, run[i].at)))
  }

  /**
   However many restarts there are, a ban nobody touches is in the table in the end exactly when it
   survives them all; and then with its old end.
   */
  lemma {:induction false} BackExactlyWhen(bans: Bans, run: seq<Timed>, m: Mask)
    requires m in bans && LeftAlone(m, run)
    ensures m in OrderedAll(bans, run) <==> Survives(bans[m], run)
    ensures m in OrderedAll(bans, run) ==>
              var b := OrderedAll(bans, run)[m]; b.temporary == bans[m].temporary && Expiry(b) == Expiry(bans[m])
    decreases |run|
  {
    if run != [] {
      var b, next, rest := bans[m], Ordered(bans, run[0]), run[1..];
      assert LeftAlone(m, rest) by {
        assert forall i | 0 <= i < |rest| :: rest[i] == run[i + 1];
      }
      if m in next {
        BackExactlyWhen(next, rest, m);
        OneOrderMore(b, run);
      } else {
        GoneForGood(next, rest, m);
      }
    }
  }

  lemma OneOrderMore(b: Ban, run: seq<Timed>)
    requires run != []
    ensures var x, rest := run[0], run[1..];
            Survives(b, run) <==>
              if x.order.Restart? then Alive(b, x.at) && Storable(b) && Survives(Resumed(b, x.at), rest)
              else (x.order.ExpireBans? ==> Alive(b, x.at)) && Survives(b, rest)
  {
    hide Storable;
    var x, rest := run[0], run[1..];
    assert forall i | 0 <= i < |rest| :: rest[i] == run[i + 1];
  }

  lemma {:induction false} GoneForGood(bans: Bans, run: seq<Timed>, m: Mask)
    requires m !in bans && LeftAlone(m, run)
    ensures m !in OrderedAll(bans, run)
    decreases |run|
  {
    if run != [] {
      assert forall i | 0 <= i < |run| - 1 :: run[1..][i] == run[i + 1];
      GoneForGood(Ordered(bans, run[0]), run[1..], m);
    }
  }

  /* ---------- told by user and host ---------- */

  /** The same user and host, but for case. */
  predicate SamePlace(user: string, host: string, b: Ban) {
    SameName(user, b.user) && SameName(host, b.host)
  }

  lemma MaskMeans(user: string, host: string, b: Ban)
    ensures MaskOf(user, host) == Key(b) <==> SamePlace(user, host, b)
  {
  }

  /** Every ban is kept under its own mask. */
  ghost predicate Tidy(bans: Bans) {
    forall m | m in bans :: Key(bans[m]) == m
  }

  ghost predicate Holds(bans: Bans, b: Ban) {
    exists m | m in bans :: bans[m] == b
  }

  lemma HoldsAt(bans: Bans, b: Ban)
    requires Tidy(bans)
    ensures Holds(bans, b) <==> Key(b) in bans && bans[Key(b)] == b
  {
  }

  /**
   A K-line is added exactly when no ban is on its user and host, and an order to remove one takes out
   what is on that user and host; every ban on another user or host stays, and nothing else comes.
   */
  lemma OrdersByPlace(bans: Bans, at: int, b: Ban, user: string, host: string, other: Ban)
    requires Tidy(bans)
    ensures var added, removed := Ordered(bans, Timed(at, Kline(b))), Ordered(bans, Timed(at, Unkline(MaskOf(user, host))));
            && Tidy(added) && Tidy(removed)
            && (Holds(added, other) <==>
                  Holds(bans, other) || (other == b && forall x | Holds(bans, x) :: !SamePlace(b.user, b.host, x)))
            && (Holds(removed, other) <==> Holds(bans, other) && !SamePlace(user, host, other))
  {
    var added, removed := Ordered(bans, Timed(at, Kline(b))), Ordered(bans, Timed(at, Unkline(MaskOf(user, host))));
    MaskMeans(user, host, other);
    HoldsAt(bans, other);
    HoldsAt(added, other);
    HoldsAt(removed, other);
    forall x | Holds(bans, x)
      ensures Key(x) in bans && (SamePlace(b.user, b.host, x) <==> Key(x) == Key(b))
    {
      HoldsAt(bans, x);
      MaskMeans(b.user, b.host, x);
    }
    if Key(b) in bans {
      assert Holds(bans, bans[Key(b)]);
    }
    hide SamePlace, MaskOf;
  }

  /** A restart brings a ban back exactly when it was long enough and is alive, whatever is on other users and hosts. */
  lemma RestartByPlace(bans: Bans, at: int, other: Ban)
    requires Tidy(bans)
    ensures var back := Ordered(bans, Timed(at, Restart));
            && Tidy(back)
            && (Holds(back, other) <==> exists b | Holds(bans, b) :: Storable(b) && Alive(b, at) && other == Resumed(b, at))
  {
    var back := Ordered(bans, Timed(at, Restart));
    hide Storable, Alive, Fold;
    forall m | m in back
      ensures Key(back[m]) == m
    {
      assert back[m] == Resumed(bans[m], at) && Key(bans[m]) == m;
    }
    HoldsAt(back, other);
    if Holds(back, other) {
      var m :| m in back && back[m] == other;
      assert Holds(bans, bans[m]);
    }
    if b :| Holds(bans, b) && Storable(b) && Alive(b, at) && other == Resumed(b, at) {
      HoldsAt(bans, b);
      assert Key(b) in back && back[Key(b)] == other;
    }
  }

  class Store {
    var bans: Bans
    var journal: seq<string>
    var journalcount: nat
    /** What the journal stands for. */
    ghost var stored: Bans

    /**
     The journal recovers the stored bans; those alive are in the table, and of the table the ones long
     enough are stored.
     */
    ghost predicate Agrees(now: int)
      reads this
    {
      && Recovers(journal, stored, now)
      && (forall m | m in bans :: GoodBan(bans[m]) && Key(bans[m]) == m)
      && (forall m | m in stored && Alive(stored[m], now) :: m in bans && bans[m] == stored[m])
      && (forall m | m in bans && Storable(bans[m]) :: m in stored && stored[m] == bans[m])
    }

    /** And only such are stored. */
    ghost predicate Valid(now: int)
      reads this
    {
      Agrees(now) && forall m | m in stored :: Storable(stored[m])
    }

    constructor ()
      ensures forall now :: Valid(now)
      ensures bans == map[] && stored == map[]
    {
      bans, journal, journalcount, stored := map[], [], 0, map[];
    }

    /** klinestore_compact: every ban of the table that is long enough, in the order of the hash table. */
    method Compact(now: int)
      requires Agrees(now)
      modifies `journal, `journalcount, `stored
      ensures Valid(now) && stored == Kept(bans) && journalcount == 0
      ensures old(Valid(now)) ==> forall t | t >= now :: Living(stored, t) == Living(old(stored), t)
    {
      hide GoodBan, Recovers, Living;
      KeptLives(now);
      journalcount := 0;
      var newfile := Dump(now);
      journal := newfile;
      stored := Kept(bans);
    }

    /** ks_dumpklines: a line for every ban that is long enough, in any order. */
    method Dump(now: int) returns (newfile: seq<string>)
      requires forall m | m in bans :: GoodBan(bans[m]) && Key(bans[m]) == m
      ensures Recovers(newfile, Kept(bans), now)
    {
      hide GoodBan, Recovers, KsWrite, Key;
      newfile := [];
      var todo := bans.Keys;
      ghost var dumped: Bans := map[];
      RecoversNothing(now);
      while todo != {}
        invariant todo <= bans.Keys && Recovers(newfile, dumped, now)
        invariant forall m :: m in dumped <==> m in bans && m !in todo && Storable(bans[m])
        invariant forall m | m in dumped :: dumped[m] == bans[m]
        decreases |todo|
      {
        var m :| m in todo;
        var ub := bans[m];
        todo := todo - {m};
        if !ub.temporary || ub.duration >= KLINE_MIN_STORE_TIME * 60 {
          RecoversAdd(newfile, dumped, ub, now);
          newfile := newfile + [KsWrite(true, ub)];
          dumped := dumped[m := ub];
        }
      }
      assert dumped == Kept(bans);
    }

    lemma RecoversNothing(now: int)
      ensures Recovers([], map[], now)
    {
    }

    /** When all stored bans are long enough, dumping the table loses none that is alive. */
    lemma KeptLives(now: int)
      requires Agrees(now)
      ensures Valid(now) ==> forall t | t >= now :: Living(Kept(bans), t) == Living(stored, t)
    {
      hide Recovers, GoodBan;
      if Valid(now) {
        forall t | t >= now
          ensures Living(Kept(bans), t) == Living(stored, t)
        {
          forall m
            ensures m in Living(Kept(bans), t) <==> m in Living(stored, t)
          {
            if m in stored && Alive(stored[m], t) {
              assert Alive(stored[m], now);
            }
          }
        }
      }
    }

    lemma TimePasses(now: int, later: int)
      requires Valid(now) && now <= later
      ensures Valid(later)
    {
    }

    /** m_kline's store: a ban for a mask that has none. */
    method Add(b: Ban, now: int)
      requires Valid(now) && GoodBan(b) && Key(b) !in bans
      modifies this
      ensures Valid(now) && bans == old(bans)[Key(b) := b]
      ensures forall t | t >= now :: Living(stored, t) == Living(if Storable(b) then old(stored)[Key(b) := b] else old(stored), t)
    {
      hide GoodBan, Recovers, KsWrite;
      bans := bans[Key(b) := b];
      if Storable(b) {
        RecoversAdd(journal, stored, b, now);
        journal := journal + [KsWrite(true, b)];
        stored := stored[Key(b) := b];
        CompactIfLong(now);
      }
    }

    method CompactIfLong(now: int)
      requires Valid(now)
      modifies `journal, `journalcount, `stored
      ensures Valid(now) && journalcount == if old(journalcount) < KLINE_STORE_COMPACT_THRESH then old(journalcount) + 1 else 0
      ensures forall t | t >= now :: Living(stored, t) == Living(old(stored), t)
    {
      hide GoodBan, Recovers;
      journalcount := journalcount + 1;
      if journalcount > KLINE_STORE_COMPACT_THRESH {
        Compact(now);
      }
    }

    /** m_unkline's removal, of a ban that is there. */
    method Remove(m: Mask, now: int)
      requires Valid(now) && m in bans
      modifies this
      ensures Valid(now) && bans == old(bans) - {m}
      ensures forall t | t >= now :: Living(stored, t) == Living(old(stored) - {m}, t)
    {
      hide GoodBan, Recovers, KsWrite;
      var existing := bans[m];
      bans := bans - {m};
      RecoversRemove(journal, stored, existing, now);
      journal := journal + [KsWrite(false, existing)];
      stored := stored - {m};
      CompactIfLong(now);
    }

    /** expire_userbans: bans that are over go from the table, and nothing is written. */
    method Expire(now: int)
      requires Valid(now)
      modifies `bans
      ensures Valid(now) && forall m :: m in bans <==> m in old(bans) && Alive(old(bans)[m], now)
      ensures forall m | m in bans :: bans[m] == old(bans)[m]
    {
      hide GoodBan, Recovers;
      bans := map m | m in bans && Alive(bans[m], now) :: bans[m];
    }

    /** klinestore_init after a restart, or a reload: the journal is replayed into an empty table, and compacted. */
    method Init(now: int)
      requires Valid(now)
      modifies this
      ensures Valid(now) && bans == Living(old(stored), now) == Living(Kept(old(bans)), now) && stored == Kept(bans)
    {
      hide GoodBan, KsRead, Replayed;
      KeptLives(now);
      bans := map[];
      var i := 0;
      while i < |journal|
        invariant 0 <= i <= |journal|
        invariant Replay(bans, journal[i..], now) == Replay(map[], journal, now)
        invariant unchanged(`journal) && unchanged(`stored)
      {
        assert journal[i..][1..] == journal[i + 1..];
        var entry := KsRead(journal[i], now);
        if entry.Malformed? {
          break;
        }
        bans := Replayed(bans, entry);
        i := i + 1;
      }
      LivingRecovers(journal, stored, now);
      assert bans == Living(stored, now);
      stored := bans;
      Compact(now);
    }

    /** One order, at its time. */
    method Obey(x: Timed)
      requires Valid(x.at) && Proper(x.order)
      modifies this
      ensures Valid(x.at) && bans == Ordered(old(bans), x)
    {
      hide Agrees, GoodBan, Storable;
      match x.order
      case Kline(b) =>
        if Key(b) !in bans {
          Add(b, x.at);
        }
      case Unkline(m) =>
        if m in bans {
          Remove(m, x.at);
        }
      case ExpireBans =>
        ghost var was := bans;
        Expire(x.at);
        assert bans == Ordered(was, x);
      case CompactStore => Compact(x.at);
      case Restart => Init(x.at);
    }

    /**
     Any orders at any times, restarts among them: the table is what the orders alone say, so a restart
     brings back exactly the long bans of the table that are alive.
     */
    method Run(now: int, run: seq<Timed>)
      requires Valid(now) && InTime(now, run) && forall x | x in run :: Proper(x.order)
      modifies this
      ensures Valid(EndTime(now, run)) && bans == OrderedAll(old(bans), run)
    {
      hide Valid, Proper, Ordered;
      ghost var time := now;
      assert run[0..] == run;
      for i := 0 to |run|
        invariant Valid(time) && InTime(time, run[i..]) && EndTime(time, run[i..]) == EndTime(now, run)
        invariant OrderedAll(bans, run[i..]) == OrderedAll(old(bans), run)
      {
        assert run[i] in run && run[i..][0] == run[i] && run[i..][1..] == run[i + 1..];
        TimePasses(time, run[i].at);
        Obey(run[i]);
        time := run[i].at;
      }
    }

    /** Two restarts in a row: a stored ban is back if and only if it is alive, and the first found three hours of it left. */
    method RestartTwice(first: int, second: int)
      requires Valid(first) && first <= second
      modifies this
      ensures Valid(second)
      ensures forall m :: m in bans <==>
                m in old(stored) && Alive(old(stored)[m], second)
                && (!old(stored)[m].temporary || Expiry(old(stored)[m]) - first >= KLINE_MIN_STORE_TIME * 60)
    {
      hide Recovers, GoodBan;
      Init(first);
      TimePasses(first, second);
      Init(second);
      forall m
        ensures m in bans <==> m in Living(Kept(Living(old(stored), first)), second)
      {
      }
    }
  }

  /** A ban is back after a second restart exactly when it is still alive and the first one found three hours left of it. */
  lemma AfterTwoRestarts(stored: Bans, first: int, second: int, m: Mask)
    requires first <= second
    ensures m in Living(Kept(Living(stored, first)), second) <==>
            m in stored && Alive(stored[m], second)
            && (!stored[m].temporary || Expiry(stored[m]) - first >= KLINE_MIN_STORE_TIME * 60)
  {
  }
}
