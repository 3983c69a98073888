/**
 m_sjoin as a function of the channel and the message: the timestamp rule, the modes, the
 members and the message passed on. Class Channel below runs it step by step.
 */
module Sjoin {
  import opened Options
  import opened Text
  import opened ModeLine
  import opened Merge

  const KEY_LEN: nat := 23
  const CHANNELLEN: nat := 32

  /** The letters m_sjoin accepts: all flags but MODE_LISTED, which this build does not carry. */
  predicate CarriedFlag(c: char) {
    FlagLetter(c) && c != 'L'
  }

  /** The carried letters in the order m_sjoin prints differences. */
  const DIFF_LETTERS: string := "psmntirRMcOSN"
  /** The same letters in the order of channel_modes. */
  const SHOW_LETTERS: string := "spmtinrRcOSNM"

  datatype Member = Member(nick: string, status: Status)

  /** The part of struct Channel that travels between servers; lists and members newest first. */
  datatype Chan = Chan(ts: int, mode: Mode, members: seq<Member>,
                       bans: seq<string>, exempts: seq<string>, invites: seq<string>)

  /** An SJOIN for one channel: parv[1], parv[3] and parv[4..]; the last argument is the nick list. */
  datatype Message = Message(ts: int, letters: string, args: seq<string>)

  /* ---------- reading the modes ---------- */

  datatype Parsed = Parsed(mode: Mode, used: nat) | Short

  /** args counts the parameters taken so far; Short is the early return for a missing one. */
  function ParseModes(letters: string, args: seq<string>, m: Mode, used: nat): (r: Parsed)
    requires used < |args|
    ensures r.Parsed? ==> r.used < |args|
  {
    if letters == "" then Parsed(m, used)
    else
      var c, rest := letters[0], letters[1..];
      if CarriedFlag(c) then ParseModes(rest, args, m.(flags := m.flags + {c}), used)
      else if c == 'k' || c == 'j' || c == 'l' then
        if used + 1 < |args| then ParseModes(rest, args, TakeParam(m, c, args[used]), used + 1) else Short
      else ParseModes(rest, args, m, used)
  }

  /** How many letters take a parameter. */
  function Takers(letters: string): nat {
    if letters == "" then 0
    else (if letters[0] == 'k' || letters[0] == 'j' || letters[0] == 'l' then 1 else 0) + Takers(letters[1..])
  }

  /** The early return is taken exactly when no parameter is left for the nick list. */
  lemma {:induction false} ShortWhen(letters: string, args: seq<string>, m: Mode, used: nat)
    requires used < |args|
    ensures ParseModes(letters, args, m, used).Short? <==> used + Takers(letters) >= |args|
  {
    if letters != "" {
      var c, rest := letters[0], letters[1..];
      if CarriedFlag(c) {
        ShortWhen(rest, args, m.(flags := m.flags + {c}), used);
      } else if c == 'k' || c == 'j' || c == 'l' {
        if used + 1 < |args| {
          ShortWhen(rest, args, TakeParam(m, c, args[used]), used + 1);
        }
      } else {
        ShortWhen(rest, args, m, used);
      }
    }
  }

  /** Join-rate numbers come only with +j. */
  lemma {:induction false} ParsedIsRaw(letters: string, args: seq<string>, m: Mode, used: nat)
    requires used < |args| && Raw(m)
    ensures var r := ParseModes(letters, args, m, used); r.Parsed? ==> Raw(r.mode)
  {
    if letters != "" {
      var c, rest := letters[0], letters[1..];
      if CarriedFlag(c) {
        ParsedIsRaw(rest, args, m.(flags := m.flags + {c}), used);
      } else if c == 'k' || c == 'j' || c == 'l' {
        if used + 1 < |args| {
          ParsedIsRaw(rest, args, TakeParam(m, c, args[used]), used + 1);
        }
      } else {
        ParsedIsRaw(rest, args, m, used);
      }
    }
  }

  function Truncate(s: string, n: nat): string {
    if |s| <= n then s else s[..n]
  }

  function TakeParam(m: Mode, c: char, p: string): Mode {
    if c == 'k' then m.(key := Truncate(p, KEY_LEN))
    else if c == 'l' then m.(limit := Atoi(p))
    else
      var n := RateNumbers(p);
      m.(rated := true, joinNum := n.0, joinTime := n.1)
  }

  /* ---------- who wins ---------- */

  /** The channel timestamp afterwards, and which side's modes survive. */
  datatype Verdict = Verdict(ts: int, ours: bool, theirs: bool)

  function Judge(isNew: bool, oldTs: int, newTs: int): Verdict {
    if isNew then Verdict(newTs, true, true)
    else if newTs == 0 || oldTs == 0 then Verdict(0, true, true)
    else if newTs == oldTs then Verdict(oldTs, true, true)
    else if newTs < oldTs then Verdict(newTs, false, true)
    else Verdict(oldTs, true, false)
  }

  function Settle(v: Verdict, ours: Mode, theirs: Mode): Mode {
    if !v.theirs then ours else if v.ours then MergeModes(ours, theirs) else theirs
  }

  /** The older side wins, and both do with one timestamp or with a zero; the sender wins a channel that is new. */
  lemma JudgeMeans(isNew: bool, oldTs: int, newTs: int, ours: Mode, theirs: Mode)
    requires oldTs >= 0 && newTs >= 0
    ensures var v, m := Judge(isNew, oldTs, newTs), Settle(Judge(isNew, oldTs, newTs), ours, theirs);
            && v.ts == (if isNew then newTs else if oldTs == 0 || newTs == 0 then 0 else if oldTs < newTs then oldTs else newTs)
            && (v.ours <==> isNew || oldTs == 0 || newTs == 0 || oldTs <= newTs)
            && (v.theirs <==> isNew || oldTs == 0 || newTs == 0 || newTs <= oldTs)
            && (!isNew && 0 < oldTs < newTs ==> m == ours) && (!isNew && 0 < newTs < oldTs ==> m == theirs)
            && (isNew || oldTs == 0 || newTs == 0 || oldTs == newTs ==> m == MergeModes(ours, theirs))
  {
  }

  /* ---------- the nick list ---------- */

  predicate IsPrefix(c: char) {
    c == '@' || c == '%' || c == '+'
  }

  /** Only the first two characters of a word are looked at. */
  function Prefixed(w: string): Status {
    Status(CharAt(w, 0) == '@' || CharAt(w, 1) == '@',
           CharAt(w, 0) == '%' || CharAt(w, 1) == '%',
           CharAt(w, 0) == '+' || CharAt(w, 1) == '+')
  }

  function Granted(w: string, theirs: bool): Status {
    if theirs then Prefixed(w) else PLAIN
  }

  function Strip(w: string): string {
    if w != "" && IsPrefix(w[0]) then Strip(w[1..]) else w
  }

  predicate IsMember(members: seq<Member>, nick: string) {
    exists k | 0 <= k < |members| :: members[k].nick == nick
  }

  /** behind: the clients known to sit behind the link the message came from. */
  function AddOne(members: seq<Member>, w: string, behind: set<string>, theirs: bool): seq<Member> {
    var n := Strip(w);
    if n in behind && !IsMember(members, n) then [Member(n, Granted(w, theirs))] + members else members
  }

  function AddListed(members: seq<Member>, words: seq<string>, behind: set<string>, theirs: bool): seq<Member>
    decreases |words|
  {
    if words == [] then members
    else AddListed(AddOne(members, words[0], behind, theirs), words[1..], behind, theirs)
  }

  /** The words passed on, with their prefixes only when the sender's modes count. */
  function Accepted(words: seq<string>, behind: set<string>, theirs: bool): seq<string> {
    if words == [] then []
    else
      AcceptOne(words[0], behind, theirs) + Accepted(words[1..], behind, theirs)
  }

  lemma {:induction false} NoneAccepted(members: seq<Member>, words: seq<string>, behind: set<string>, theirs: bool)
    requires Accepted(words, behind, theirs) == []
    ensures AddListed(members, words, behind, theirs) == members
    decreases |words|
  {
    if words != [] {
      NoneAccepted(members, words[1..], behind, theirs);
    }
  }

  function AcceptOne(w: string, behind: set<string>, theirs: bool): seq<string> {
    if Strip(w) in behind then [if theirs then w else Strip(w)] else []
  }

  function Cleared(members: seq<Member>): (r: seq<Member>)
    ensures |r| == |members|
    ensures forall k | 0 <= k < |r| :: r[k] == Member(members[k].nick, PLAIN)
  {
    seq(|members|, k requires 0 <= k < |members| => Member(members[k].nick, PLAIN))
  }

  /* ---------- channel_modes ---------- */

  function ShowFlags(flags: set<char>, letters: string): string {
    if letters == "" then ""
    else (if letters[0] in flags then [letters[0]] else "") + ShowFlags(flags, letters[1..])
  }

  function ShowLetters(m: Mode): string {
    "+" + ShowFlags(m.flags, SHOW_LETTERS)
    + (if m.limit != 0 then "l" else "") + (if m.key != "" then "k" else "") + (if m.rated then "j" else "")
  }

  function ShowParams(m: Mode): string {
    var p0 := if m.limit != 0 then Itoa(m.limit) else "";
    var p1 := if m.key != "" then AddPara(p0, m.key) else p0;
    if m.rated then AddPara(p1, RateText(m.joinNum, m.joinTime)) else p1
  }

  lemma RateLength(joins: int, seconds: int)
    requires 0 <= joins && 0 <= seconds && Int32(joins) && Int32(seconds)
    ensures |RateText(joins, seconds)| <= KEY_LEN
  {
    NumberLength(joins);
    NumberLength(seconds);
  }

  function Join(words: seq<string>): string {
    if words == [] then "" else AddPara(Join(words[..|words| - 1]), words[|words| - 1])
  }

  /* ---------- the whole message ---------- */

  /** The channel afterwards (None: it does not exist) and the message sent to the other servers. */
  datatype Outcome = Outcome(chan: Option<Chan>, relay: Option<Message>)

  /** get_channel's new channel, stamped with the current time. */
  function NewChan(now: int): Chan {
    Chan(now, NO_MODE, [], [], [], [])
  }

  function Sender(c: Option<Chan>, now: int): Chan {
    if c.Some? then c.value else NewChan(now)
  }

  /** The channel when the nick list is reached. */
  function Settled(c: Chan, v: Verdict, theirs: Mode): Chan {
    if v.ours then c.(ts := v.ts, mode := Settle(v, c.mode, theirs))
    else Chan(v.ts, Settle(v, c.mode, theirs), Cleared(c.members), [], [], [])
  }

  /** The channel after the nick list. */
  function Received(c: Chan, v: Verdict, theirs: Mode, words: seq<string>, behind: set<string>): Chan {
    var s := Settled(c, v, theirs);
    s.(members := AddListed(s.members, words, behind, v.theirs))
  }

  function RelayOf(msg: Message, v: Verdict, mode: Mode, accepted: seq<string>): Option<Message> {
    if accepted == [] then None
    else if CharAt(msg.letters, 0) != '0' && v.theirs
    then Some(Message(v.ts, ShowLetters(mode), Words(ShowParams(mode)) + [Join(accepted)]))
    else Some(Message(v.ts, "0", [Join(accepted)]))
  }

  function Step(c: Option<Chan>, msg: Message, behind: set<string>, now: int): Outcome
    requires msg.args != []
  {
    var ch := Sender(c, now);
    match ParseModes(msg.letters, msg.args, NO_MODE, 0)
    case Short => Outcome(Some(ch), None)
    case Parsed(theirs, used) =>
      var v := Judge(c.None?, ch.ts, msg.ts);
      var words := Words(msg.args[used]);
      var accepted := Accepted(words, behind, v.theirs);
      var after := Received(ch, v, theirs, words, behind);
      Outcome(if c.None? && accepted == [] then None else Some(after), RelayOf(msg, v, after.mode, accepted))
  }

  lemma {:induction false} AcceptedEnters(members: seq<Member>, words: seq<string>, behind: set<string>, theirs: bool)
    requires members != [] || Accepted(words, behind, theirs) != []
    ensures AddListed(members, words, behind, theirs) != []
    decreases |words|
  {
    if words != [] {
      AcceptedEnters(AddOne(members, words[0], behind, theirs), words[1..], behind, theirs);
    }
  }

  /** A new channel is left without members exactly when parameters are missing. */
  lemma EmptyChannelWhen(msg: Message, behind: set<string>, now: int)
    requires msg.args != []
    ensures var after := Step(None, msg, behind, now).chan;
            after.Some? && after.value.members == [] <==> Takers(msg.letters) >= |msg.args|
  {
    ShortWhen(msg.letters, msg.args, NO_MODE, 0);
    var parsed := ParseModes(msg.letters, msg.args, NO_MODE, 0);
    if parsed.Parsed? {
      var words := Words(msg.args[parsed.used]);
      if Accepted(words, behind, true) != [] {
        AcceptedEnters([], words, behind, true);
      }
    }
  }
}
