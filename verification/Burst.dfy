/** send_channel_modes: a channel printed as SJOIN and MODE lines for a newly linked server. */
module Burst {
  import opened Text
  import opened ModeLine
  import opened Merge
  import opened MaskBatch
  import Masks
  import opened Options
  import opened Sjoin
  import opened Relay
  import opened ChannelClass

  const BUF_SIZE: nat := 512

  /* ---------- the order of the walk ---------- */

  predicate Leads(m: Member) {
    m.status.op || m.status.halfop
  }

  /** Position of the first operator or half-operator, or |members|. */
  function FirstLeader(members: seq<Member>): (k: nat)
    ensures k <= |members| && (k < |members| ==> Leads(members[k]))
    ensures forall j | 0 <= j < k :: !Leads(members[j])
  {
    if members == [] || Leads(members[0]) then 0 else 1 + FirstLeader(members[1..])
  }

  /** The leader first, then everybody else in list order. */
  function WalkOrder(members: seq<Member>): seq<Member> {
    var k := FirstLeader(members);
    if k < |members| then [members[k]] + members[..k] + members[k + 1..] else members
  }

  /** The walk lists each member exactly once. */
  lemma WalkListsAll(members: seq<Member>)
    ensures multiset(WalkOrder(members)) == multiset(members)
    ensures members != [] ==> WalkOrder(members) != []
  {
    var k := FirstLeader(members);
    if k < |members| {
      assert members == members[..k] + [members[k]] + members[k + 1..];
    }
  }

  /** The first operator or half-operator goes first; nobody does when there is none. */
  lemma LeaderFirst(members: seq<Member>, k: nat)
    requires k < |members| && (members[k].status.op || members[k].status.halfop)
    requires forall j | 0 <= j < k :: !members[j].status.op && !members[j].status.halfop
    ensures WalkOrder(members) == [members[k]] + members[..k] + members[k + 1..]
  {
    var l := FirstLeader(members);
    assert !(l < k) && !(k < l);
  }

  function PrefixWord(m: Member): string {
    (if m.status.op then "@" else "") + (if m.status.halfop then "%" else "")
    + (if m.status.voice then "+" else "") + m.nick
  }

  function PrefixWords(members: seq<Member>): seq<string> {
    if members == [] then [] else PrefixWords(members[..|members| - 1]) + [PrefixWord(members[|members| - 1])]
  }

  /* ---------- the lines ---------- */

  /** What the header of a line is made of, besides the modes. */
  datatype Names = Names(me: string, chname: string)

  function FirstHeader(n: Names, c: Chan): string {
    ":" + n.me + " SJOIN " + Itoa(c.ts) + " " + n.chname + " " + ShowLetters(c.mode) + " " + ShowParams(c.mode) + " :"
  }

  function NextHeader(n: Names, c: Chan): string {
    ":" + n.me + " SJOIN " + Itoa(c.ts) + " " + n.chname + " 0 :"
  }

  /** The k-th line of the burst as its receiver parses it, with the given nick list. */
  function BurstMessage(c: Chan, first: bool, nicks: string): Message {
    if first then Message(c.ts, ShowLetters(c.mode), Words(ShowParams(c.mode)) + [nicks])
    else Message(c.ts, "0", [nicks])
  }

  function NicksOf(msg: Message): string
    requires msg.args != []
  {
    msg.args[|msg.args| - 1]
  }

  /** All words of all lines. */
  function AllWords(msgs: seq<Message>): seq<string>
    requires forall m | m in msgs :: m.args != []
  {
    if msgs == [] then [] else AllWords(msgs[..|msgs| - 1]) + Words(NicksOf(msgs[|msgs| - 1]))
  }

  /** The first line carries the modes, every other "0", and no line is without a nick. */
  ghost predicate BurstLines(c: Chan, msgs: seq<Message>) {
    forall k | 0 <= k < |msgs| ::
      && msgs[k].args != [] && msgs[k] == BurstMessage(c, k == 0, NicksOf(msgs[k]))
      && Words(NicksOf(msgs[k])) != []
  }

  /** The lines so far, and the words on them together with those in the buffer. */
  ghost predicate Printed(c: Chan, msgs: seq<Message>, t: string, words: seq<string>) {
    && BurstLines(c, msgs)
    && AllWords(msgs) + Words(t) == words
  }

  lemma PrintedNext(c: Chan, msgs: seq<Message>, t: string, words: seq<string>, w: string)
    requires BurstLines(c, msgs) && (forall m | m in msgs :: m.args != []) && Printed(c, msgs, t, words) && IsWord(w)
    requires t == "" || t[|t| - 1] == ' '
    ensures Printed(c, msgs, t + w + " ", words + [w]) && Words(t + w + " ") != []
  {
    WordsOfSpaced(t + w);
    if t == "" {
      WordsOfWord(w);
      assert t + w == w;
    } else {
      var init := t[..|t| - 1];
      assert t == init + " ";
      WordsOfSpaced(init);
      WordsAppend(init, w);
      assert t + w == init + " " + w;
    }
  }

  lemma PrintedFlush(c: Chan, msgs: seq<Message>, t: string, words: seq<string>)
    requires (forall m | m in msgs :: m.args != []) && Printed(c, msgs, t, words) && Words(t) != []
    ensures Printed(c, msgs + [BurstMessage(c, msgs == [], t)], "", words)
  {
    var msg := BurstMessage(c, msgs == [], t);
    assert NicksOf(msg) == t;
    assert (msgs + [msg])[..|msgs|] == msgs;
    NoWords();
    forall k | 0 <= k < |msgs + [msg]|
      ensures (msgs + [msg])[k].args != []
           && (msgs + [msg])[k] == BurstMessage(c, k == 0, NicksOf((msgs + [msg])[k]))
           && Words(NicksOf((msgs + [msg])[k])) != []
    {
    }
  }

  lemma PrefixWordShape(m: Member)
    requires IsWord(m.nick)
    ensures IsWord(PrefixWord(m)) && |PrefixWord(m)| <= 3 + |m.nick|
  {
  }

  /* ---------- the walk ---------- */

  /** Where the walk stands after listing done members: the position listed last. */
  ghost predicate At(members: seq<Member>, l: nat, skip: nat, done: nat) {
    var none := |members|;
    && done <= none
    && if done == 0 then l == none && skip == none
       else
         && l < none && skip == FirstLeader(members)
         && done - 1 == if skip == none then l else if l == skip then 0 else if l < skip then l + 1 else l
  }

  lemma AtOrder(members: seq<Member>, l: nat, skip: nat, done: nat)
    requires At(members, l, skip, done) && done > 0
    ensures |WalkOrder(members)| == |members| && WalkOrder(members)[done - 1] == members[l]
  {
  }

  /** The three pointer tests that find the next member; |members| is the null pointer. */
  method Advance(members: seq<Member>, l: nat, skip: nat, ghost done: nat) returns (next: nat)
    requires At(members, l, skip, done)
    requires done == 0 ==> FirstLeader(members) == |members|
    ensures next < |members| ==> done < |members| && At(members, next, skip, done + 1)
    ensures next >= |members| ==> done == |members|
  {
    var none := |members|;
    if l == none || l == skip {
      next := 0;
    } else {
      next := l + 1;
    }
    if next < none && next == skip {
      next := next + 1;
    }
  }

  /** The buffer the lines are built in. */
  class LineBuffer {
    const c: Chan
    const first: nat
    const later: nat
    const nickLen: nat
    var msgs: seq<Message>
    var t: string
    var n: nat
    ghost var words: seq<string>

    ghost predicate Valid()
      reads this
    {
      && (forall m | m in msgs :: m.args != []) && Printed(c, msgs, t, words)
      && (t == "" <==> n == 0)
      && (t != "" ==> t[|t| - 1] == ' ' && Words(t) != [] && Header(|msgs|) + |t| <= BUF_SIZE - 80)
      && forall k | 0 <= k < |msgs| :: Fits(k, |NicksOf(msgs[k])|)
    }

    function Header(k: nat): nat {
      if k == 0 then first else later
    }

    /** A line is cut as soon as it passes BUFSIZE - 80, so only its last nick can lie beyond. */
    ghost predicate Fits(k: nat, len: nat) {
      len <= nickLen + 4 || Header(k) + len <= BUF_SIZE - 80 + nickLen + 4
    }

    constructor (c: Chan, first: nat, later: nat, nickLen: nat)
      ensures Valid() && words == [] && this.c == c && this.nickLen == nickLen
      ensures this.first == first && this.later == later
    {
      this.c, this.first, this.later, this.nickLen := c, first, later, nickLen;
      msgs, t, n, words := [], "", 0, [];
      new;
      NoWords();
    }

    lemma InBuffer(names: Names, k: nat, len: nat)
      requires first == |FirstHeader(names, c)| && later == |NextHeader(names, c)| && nickLen == Masks.NICK_LEN && Fits(k, len)
      ensures LineFits(names, c, k, len)
    {
      hide FirstHeader, NextHeader;
      if Sized(names, c) {
        HeaderLength(names, c, k);
      }
    }

    method Flush()
      requires (forall m | m in msgs :: m.args != []) && Printed(c, msgs, t, words)
      requires t != "" && Words(t) != [] && Fits(|msgs|, |t|)
      requires forall k | 0 <= k < |msgs| :: Fits(k, |NicksOf(msgs[k])|)
      modifies `msgs, `t, `n
      ensures Valid() && t == ""
    {
      hide Words, AllWords, BurstLines;
      PrintedFlush(c, msgs, t, words);
      FlushedNicks(c, msgs == [], t);
      msgs := msgs + [BurstMessage(c, msgs == [], t)];
      t, n := "", 0;
    }

    /** After the walk: what is left in the buffer goes out. */
    method Finish()
      requires Valid()
      modifies `msgs, `t, `n
      ensures BurstLines(c, msgs) && (forall m | m in msgs :: m.args != [])
      ensures AllWords(msgs) == words
      ensures forall k | 0 <= k < |msgs| :: Fits(k, |NicksOf(msgs[k])|)
    {
      if n > 0 {
        Flush();
      }
      NoWords();
    }

    /** One member: prefixes, nick and a space, then the length test. */
    method Put(m: Member)
      requires Valid() && IsWord(m.nick) && |m.nick| <= nickLen
      modifies `msgs, `t, `n, `words
      ensures Valid() && words == old(words) + [PrefixWord(m)]
    {
      hide Words, AllWords, BurstLines, PrefixWord;
      var w := PrefixWord(m);
      PrefixWordShape(m);
      PrintedNow(c, msgs, t, words);
      PrintedNext(c, msgs, t, words, w);
      t := t + w + " ";
      words := words + [w];
      n := n + 1;
      if Header(|msgs|) + |t| > BUF_SIZE - 80 {
        Flush();
      }
    }
  }

  lemma PrintedNow(c: Chan, msgs: seq<Message>, t: string, words: seq<string>)
    ensures Printed(c, msgs, t, words) ==> BurstLines(c, msgs)
  {
  }

  lemma FlushedNicks(c: Chan, first: bool, t: string)
    ensures BurstMessage(c, first, t).args != [] && NicksOf(BurstMessage(c, first, t)) == t
  {
  }

  function HeaderOf(n: Names, c: Chan, k: nat): string {
    if k == 0 then FirstHeader(n, c) else NextHeader(n, c)
  }

  /** Names within their limits, and a channel stamped with a long. */
  ghost predicate Sized(n: Names, c: Chan) {
    |n.me| <= Masks.HOST_LEN && |n.chname| <= CHANNELLEN && 0 <= c.ts < 0x8000_0000_0000_0000 && GoodMode(c.mode)
  }

  lemma {:induction false} FlagsLength(flags: set<char>, letters: string)
    ensures |ShowFlags(flags, letters)| <= |letters|
  {
    if letters != "" {
      FlagsLength(flags, letters[1..]);
    }
  }

  lemma ModesLength(m: Mode)
    requires GoodMode(m)
    ensures |ShowLetters(m)| <= 17 && |ShowParams(m)| <= 58
  {
    hide Itoa, RateText;
    FlagsLength(m.flags, SHOW_LETTERS);
    NumberLength(m.limit);
    RateLength(m.joinNum, m.joinTime);
  }

  lemma StampLength(ts: int)
    requires 0 <= ts < 0x8000_0000_0000_0000
    ensures |Itoa(ts)| <= 20
  {
    assert Pow10(5) == 100_000;
    assert Pow10(10) == 10_000_000_000;
    assert Pow10(15) == 1_000_000_000_000_000;
    assert Pow10(20) == 100_000_000_000_000_000_000;
    DigitsLength(ts, 20);
  }

  /** Read word by word, a line's header is the sender, the command, the stamp, the channel, the modes and a colon. */
  lemma HeaderReads(n: Names, c: Chan)
    requires IsWord(n.me) && IsWord(n.chname) && GoodMode(c.mode)
    ensures Words(FirstHeader(n, c)) ==
              [":" + n.me, "SJOIN", Itoa(c.ts), n.chname, ShowLetters(c.mode)] + Words(ShowParams(c.mode)) + [":"]
    ensures Words(NextHeader(n, c)) == [":" + n.me, "SJOIN", Itoa(c.ts), n.chname, "0", ":"]
  {
    LettersWord(c.mode);
    ItoaWord(c.ts);
    var letters, params, stamp := ShowLetters(c.mode), ShowParams(c.mode), Itoa(c.ts);
    HeaderText(n, c);
    hide *;
    CommonReads(n.me, stamp, n.chname);
    var common := Common(n.me, stamp, n.chname);
    ZeroWord();
    WordsAppend(common, "0");
    WordsAppend(common + " " + "0", ":");
    WordsAppend(common, letters);
    WordsJoined(common + " " + letters, params);
    WordsAppend(common + " " + letters + " " + params, ":");
  }

  function Common(me: string, stamp: string, chname: string): string {
    ":" + me + " " + "SJOIN" + " " + stamp + " " + chname
  }

  lemma HeaderText(n: Names, c: Chan)
    ensures var common := Common(n.me, Itoa(c.ts), n.chname);
            && FirstHeader(n, c) == common + " " + ShowLetters(c.mode) + " " + ShowParams(c.mode) + " " + ":"
            && NextHeader(n, c) == common + " " + "0" + " " + ":"
  {
    hide Itoa, ShowLetters, ShowParams;
  }

  lemma ZeroWord()
    ensures IsWord("0") && IsWord(":") && IsWord("SJOIN")
  {
  }

  lemma CommonReads(me: string, stamp: string, chname: string)
    requires IsWord(me) && IsWord(stamp) && IsWord(chname)
    ensures Words(Common(me, stamp, chname)) == [":" + me, "SJOIN", stamp, chname]
  {
    hide Words;
    ZeroWord();
    WordsOfWord(":" + me);
    WordsAppend(":" + me, "SJOIN");
    WordsAppend(":" + me + " " + "SJOIN", stamp);
    WordsAppend(":" + me + " " + "SJOIN" + " " + stamp, chname);
  }

  lemma ItoaWord(n: int)
    ensures IsWord(Itoa(n))
  {
    var m := if n < 0 then -n else n;
    assert forall c | c in Digits(m) :: IsDigit(c);
  }

  lemma LettersWord(m: Mode)
    requires GoodMode(m)
    ensures IsWord(ShowLetters(m))
  {
    AllShown(m.flags);
    var flags := ShowFlags(m.flags, SHOW_LETTERS);
    NoSpaceIn(SHOW_LETTERS);
    FlagsWord(m.flags, SHOW_LETTERS);
    var l, k, j := if m.limit != 0 then "l" else "", if m.key != "" then "k" else "", if m.rated then "j" else "";
    assert ShowLetters(m) == "+" + flags + l + k + j;
    hide *;
    NoSpaceJoin("+", flags);
    NoSpaceJoin("+" + flags, l);
    NoSpaceJoin("+" + flags + l, k);
    NoSpaceJoin("+" + flags + l + k, j);
    OneWord("+" + flags + l + k + j);
  }

  lemma NoSpaceIn(letters: string)
    requires forall c | c in letters :: CarriedFlag(c)
    ensures ' ' !in letters
  {
    assert !CarriedFlag(' ');
  }

  lemma NoSpaceJoin(a: string, b: string)
    requires ' ' !in a && ' ' !in b
    ensures ' ' !in a + b
  {
  }

  lemma OneWord(s: string)
    requires s != "" && ' ' !in s
    ensures IsWord(s)
  {
  }

  lemma {:induction false} FlagsWord(flags: set<char>, letters: string)
    ensures ' ' !in letters ==> ' ' !in ShowFlags(flags, letters)
  {
    if letters != "" {
      FlagsWord(flags, letters[1..]);
    }
  }

  lemma {:induction false} WordsJoined(a: string, b: string)
    ensures Words(a + " " + b) == Words(a) + Words(b)
    decreases |b|
  {
    if b == "" {
      assert a + " " + b == a + " ";
      WordsOfSpaced(a);
    } else {
      var init, c := b[..|b| - 1], b[|b| - 1];
      assert b == init + [c];
      if c == ' ' {
        WordsJoined(a, init);
        WordsOfSpaced(init);
        WordsOfSpaced(a + " " + init);
        assert a + " " + b == a + " " + init + " ";
      } else {
        var k := LastWord(b);
        if k == 0 {
          assert b[0..] == b;
          WordsAppend(a, b);
          WordsOfWord(b);
        } else {
          var front, last := b[..k - 1], b[k..];
          assert b == front + " " + last;
          WordsJoined(a, front);
          WordsAppend(front, last);
          WordsAppend(a + " " + front, last);
          assert a + " " + b == a + " " + front + " " + last;
        }
      }
    }
  }

  /** Where the last word starts. */
  lemma {:induction false} LastWord(b: string) returns (k: nat)
    requires b != "" && b[|b| - 1] != ' '
    ensures k < |b| && IsWord(b[k..]) && (k > 0 ==> b[k - 1] == ' ')
  {
    if |b| == 1 || b[|b| - 2] == ' ' {
      k := |b| - 1;
    } else {
      var init := b[..|b| - 1];
      k := LastWord(init);
      assert b[k..] == init[k..] + [b[|b| - 1]];
    }
  }

  /** However long the names and modes are, the header leaves room for any nick. */
  lemma HeaderLength(n: Names, c: Chan, k: nat)
    requires Sized(n, c)
    ensures |HeaderOf(n, c, k)| <= 203
  {
    hide Itoa, ShowLetters, ShowParams, GoodMode;
    ModesLength(c.mode);
    StampLength(c.ts);
  }

  /** Line k of a burst, with a nick list of this length, stays inside the buffer. */
  ghost predicate LineFits(n: Names, c: Chan, k: nat, len: nat) {
    Sized(n, c) ==> |HeaderOf(n, c, k)| + len <= BUF_SIZE
  }

  /**
   The member loop of send_channel_modes, on list positions instead of pointers: nobody is left out
   or listed twice, and every line fits the buffer.
   */
  method SendMembers(c: Chan, names: Names) returns (msgs: seq<Message>)
    requires forall m | m in c.members :: IsWord(m.nick) && |m.nick| <= Masks.NICK_LEN
    ensures BurstLines(c, msgs) && (forall m | m in msgs :: m.args != [])
    ensures AllWords(msgs) == PrefixWords(WalkOrder(c.members))
    ensures forall k | 0 <= k < |msgs| :: LineFits(names, c, k, |NicksOf(msgs[k])|)
  {
    var members := c.members;
    var anop := FirstLeader(members);
    var l: nat, skip: nat := |members|, |members|;
    ghost var order, done: nat := WalkOrder(members), 0;
    assert |order| == |members| && At(members, l, skip, 0) && PrefixWords(order[..0]) == [];
    hide AllWords, Words, BurstLines, ShowLetters, ShowParams, Itoa, PrefixWord, LineBuffer.Valid, At, WalkOrder, PrefixWords, LineFits, FirstHeader, NextHeader, LineBuffer.Fits;
    var line := new LineBuffer(c, |FirstHeader(names, c)|, |NextHeader(names, c)|, Masks.NICK_LEN);
    while true
      invariant |order| == |members| && At(members, l, skip, done) && done <= |members|
      invariant line.Valid() && fresh(line) && line.words == PrefixWords(order[..done])
      invariant if done == 0 then anop == FirstLeader(members) else anop == |members|
      decreases |members| - done
    {
      if anop < |members| {
        AtLeader(members);
        l, skip := anop, anop;
        anop := |members|;
      } else {
        l := Advance(members, l, skip, done);
        if l >= |members| {
          break;
        }
      }
      AtOrder(members, l, skip, done + 1);
      assert members[l] in members;
      PrefixWordsSnoc(order, done);
      line.Put(members[l]);
      done := done + 1;
    }
    assert order[..done] == order;
    line.Finish();
    msgs := line.msgs;
    forall k | 0 <= k < |msgs|
      ensures LineFits(names, c, k, |NicksOf(msgs[k])|)
    {
      line.InBuffer(names, k, |NicksOf(msgs[k])|);
    }
  }

  lemma AtLeader(members: seq<Member>)
    requires FirstLeader(members) < |members|
    ensures At(members, FirstLeader(members), FirstLeader(members), 1)
  {
  }

  lemma PrefixWordsSnoc(order: seq<Member>, k: nat)
    requires k < |order|
    ensures PrefixWords(order[..k + 1]) == PrefixWords(order[..k]) + [PrefixWord(order[k])]
  {
    assert order[..k + 1][..k] == order[..k];
  }

  /* ---------- the length of a message that is passed on ---------- */

  /** What a line to a server may hold before its end; send_to cuts the rest off. */
  const LINE_LEN: nat := 510

  /** The line that is sent to the other servers. */
  function PassedOn(n: Names, msg: Message): string
    requires msg.args != []
  {
    var params := msg.args[..|msg.args| - 1];
    ":" + n.me + " SJOIN " + Itoa(msg.ts) + " " + n.chname + " " + msg.letters
    + (if params == [] then "" else " " + Join(params)) + " :" + NicksOf(msg)
  }

  /** Read word by word up to the colon, the line passed on is what a receiver takes as the same message. */
  lemma PassedOnReads(n: Names, msg: Message)
    requires IsWord(n.me) && IsWord(n.chname) && IsWord(msg.letters) && msg.args != []
    requires forall i | 0 <= i < |msg.args| - 1 :: IsWord(msg.args[i])
    ensures PassedOn(n, msg) == HeadOf(n, msg) + " :" + NicksOf(msg)
    ensures Words(HeadOf(n, msg)) == [":" + n.me, "SJOIN", Itoa(msg.ts), n.chname, msg.letters] + msg.args[..|msg.args| - 1]
  {
    hide *;
    ItoaWord(msg.ts);
    ParamsRead(msg.args);
    PassedOnText(n, msg);
    var stamp, params := Itoa(msg.ts), msg.args[..|msg.args| - 1];
    CommonReads(n.me, stamp, n.chname);
    var common := Common(n.me, stamp, n.chname);
    WordsAppend(common, msg.letters);
    var five := [":" + n.me, "SJOIN", stamp, n.chname, msg.letters];
    assert Words(common + " " + msg.letters) == five;
    if params == [] {
      assert five + params == five;
    } else {
      WordsJoined(common + " " + msg.letters, Join(params));
    }
  }

  lemma ParamsRead(args: seq<string>)
    requires args != [] && forall i | 0 <= i < |args| - 1 :: IsWord(args[i])
    ensures Words(Join(args[..|args| - 1])) == args[..|args| - 1]
  {
    hide Words, Join;
    assert forall w | w in args[..|args| - 1] :: IsWord(w);
    WordsOfJoin(args[..|args| - 1]);
  }

  function HeadOf(n: Names, msg: Message): string
    requires msg.args != []
  {
    var head, params := Common(n.me, Itoa(msg.ts), n.chname) + " " + msg.letters, msg.args[..|msg.args| - 1];
    if params == [] then head else head + " " + Join(params)
  }

  lemma PassedOnText(n: Names, msg: Message)
    requires msg.args != []
    ensures PassedOn(n, msg) == HeadOf(n, msg) + " :" + NicksOf(msg)
    ensures var head, params := Common(n.me, Itoa(msg.ts), n.chname) + " " + msg.letters, msg.args[..|msg.args| - 1];
            HeadOf(n, msg) == if params == [] then head else head + " " + Join(params)
  {
    hide Itoa, Join;
    var params := msg.args[..|msg.args| - 1];
    if params == [] {
      assert PassedOn(n, msg) == ":" + n.me + " SJOIN " + Itoa(msg.ts) + " " + n.chname + " " + msg.letters + "" + " :" + NicksOf(msg);
    } else {
      var p := Join(params);
      assert HeadOf(n, msg) == ":" + n.me + " SJOIN " + Itoa(msg.ts) + " " + n.chname + " " + msg.letters + (" " + p);
    }
  }

  /** The characters of some words, with a separator after each. */
  function Spread(words: seq<string>): nat {
    if words == [] then 0 else |words[0]| + 1 + Spread(words[1..])
  }

  lemma {:induction false} SpreadSnoc(words: seq<string>, w: string)
    ensures Spread(words + [w]) == Spread(words) + |w| + 1
  {
    if words != [] {
      assert (words + [w])[1..] == words[1..] + [w];
      SpreadSnoc(words[1..], w);
    }
  }

  lemma {:induction false} JoinLength(words: seq<string>)
    ensures |Join(words)| <= Spread(words) && (words != [] ==> |Join(words)| < Spread(words))
  {
    if words != [] {
      var init := words[..|words| - 1];
      JoinLength(init);
      SpreadSnoc(init, words[|words| - 1]);
      assert words == init + [words[|words| - 1]];
    }
  }

  lemma {:induction false} WordsSpread(s: string)
    ensures Spread(Words(s)) <= |s| + 1
    decreases |s|
  {
    if s == "" {
    } else if s[0] == ' ' {
      WordsSpread(s[1..]);
    } else {
      var n := WordLen(s);
      assert Words(s) == [s[..n]] + Words(s[n..]);
      if n < |s| {
        assert s[n] == ' ';
        WordsSpread(s[n + 1..]);
        assert s[n..][1..] == s[n + 1..];
        assert Words(s[n..]) == Words(s[n + 1..]);
      } else {
        assert Words(s[n..]) == [];
      }
    }
  }

  lemma StripLength(w: string)
    ensures |Strip(w)| <= |w|
  {
  }

  lemma {:induction false} AcceptedSpread(words: seq<string>, behind: set<string>, theirs: bool)
    ensures Spread(Accepted(words, behind, theirs)) <= Spread(words)
    decreases |words|
  {
    if words != [] {
      AcceptedSpread(words[1..], behind, theirs);
      StripLength(words[0]);
      var one, rest := AcceptOne(words[0], behind, theirs), Accepted(words[1..], behind, theirs);
      if one == [] {
        assert one + rest == rest;
      } else {
        assert one + rest == [one[0]] + rest && ([one[0]] + rest)[1..] == rest;
      }
    }
  }

  /** The rewritten nick list is no longer than the one that came. */
  lemma ListShrinks(s: string, behind: set<string>, theirs: bool)
    ensures |Join(Accepted(Words(s), behind, theirs))| <= |s|
  {
    var accepted := Accepted(Words(s), behind, theirs);
    WordsSpread(s);
    AcceptedSpread(Words(s), behind, theirs);
    JoinLength(accepted);
  }

  /**
   The line passed on is at most 203 characters longer than the nick list that came, so it goes out
   whole when that list has no more than 307. The modes may have grown by the merge.
   */
  lemma RelayLength(n: Names, c: Option<Chan>, msg: Message, behind: set<string>, now: int)
    requires GoodState(c) && GoodMessage(msg)
    ensures var here := Step(c, msg, behind, now);
            here.relay.Some? && here.chan.Some? && Sized(n, here.chan.value) ==>
              var nicks, line := msg.args[ReadModes(msg).used], PassedOn(n, here.relay.value);
              && |line| <= 203 + |nicks|
              && (|nicks| <= LINE_LEN - 203 ==> |line| <= LINE_LEN)
  {
    var here := Step(c, msg, behind, now);
    if here.relay.Some? && here.chan.Some? && Sized(n, here.chan.value) {
      var v := Judge(c.None?, Sender(c, now).ts, msg.ts);
      var nicks, mode := msg.args[ReadModes(msg).used], here.chan.value.mode;
      var accepted := Accepted(Words(nicks), behind, v.theirs);
      ListShrinks(nicks, behind, v.theirs);
      ModesLength(mode);
      StampLength(v.ts);
      WordsSpread(ShowParams(mode));
      JoinLength(Words(ShowParams(mode)));
      assert (Words(ShowParams(mode)) + [Join(accepted)])[..|Words(ShowParams(mode))|] == Words(ShowParams(mode));
      hide Join, ShowParams, ShowLetters, Itoa, Words, Accepted, GoodMode;
    }
  }
}
