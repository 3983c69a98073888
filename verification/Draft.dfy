/** The static modebuf/parabuf pair into which m_sjoin prints MODE lines for its local clients. */
module Drafts {
  import opened Text
  import opened ModeLine
  import opened MaskBatch

  /** Each line can be read on its own and stays within the parameter limit. */
  predicate AllStandalone(events: seq<Event>) {
    forall e | e in events && e.Sent? :: Standalone(e.line, MAX_MODE_PARAMS)
  }

  class Draft {
    /** What the clients saw before the first event. */
    ghost const before: View
    var events: seq<Event>
    var modebuf: string
    var parabuf: string
    var pargs: nat
    /** The sign last printed: 1, -1, or 0 for none. */
    var what: int
    /** What the clients will see once the pending line is sent. */
    ghost var seen: View

    /** There is room for one more parameter. */
    ghost predicate Valid()
      reads this
    {
      Pending() && pargs < MAX_MODE_PARAMS
    }

    ghost predicate Pending()
      reads this
    {
      && Balanced(Line(modebuf, parabuf))
      && pargs == |Words(parabuf)| <= MAX_MODE_PARAMS
      && -1 <= what <= 1
      && (what != 0 ==> modebuf != "" && Sign(modebuf) == (what == 1))
      && (modebuf != "" ==> SignChar(modebuf[0]))
      && AllStandalone(events)
      && seen == Apply(Replay(before, events), Line(modebuf, parabuf))
    }

    /** The pending line holds status letters only. */
    ghost predicate OnlyStatus()
      reads `modebuf
    {
      forall c | c in modebuf :: SignChar(c) || StatusLetter(c)
    }

    constructor (ghost before: View, events: seq<Event>)
      requires AllStandalone(events)
      ensures Valid() && seen == Replay(before, events)
      ensures modebuf == "" && pargs == 0 && what == 0 && this.before == before && this.events == events
    {
      this.before, this.events := before, events;
      modebuf, parabuf, pargs, what := "", "", 0, 0;
      seen := Replay(before, events);
    }

    lemma ValidIsPending()
      requires Valid()
      ensures Pending()
      ensures modebuf == "" ==> Words(parabuf) == [] && pargs == 0
    {
    }

    /** what = 0: the next letter prints its sign again. */
    method ForgetSign()
      requires Valid()
      modifies `what
      ensures Valid() && what == 0
    {
      what := 0;
    }

    /** INSERTSIGN: print the sign unless it is the one last printed. */
    method InsertSign(plus: bool)
      requires Valid()
      modifies `modebuf, `what
      ensures Valid() && seen == old(seen)
      ensures what == if plus then 1 else -1
      ensures NoSigns(modebuf) == NoSigns(old(modebuf))
      ensures old(OnlyStatus()) ==> OnlyStatus()
    {
      if what != if plus then 1 else -1 {
        var sign := if plus then '+' else '-';
        ApplyPlain(Replay(before, events), Line(modebuf, parabuf), sign);
        SnocString(modebuf, sign);
        hide Apply, Words, Need, Replay;
        modebuf := modebuf + [sign];
        what := if plus then 1 else -1;
      }
    }

    /** A letter without parameter. */
    method Put(plus: bool, letter: char)
      requires Valid() && !SignChar(letter) && !Takes(plus, letter)
      modifies `modebuf, `what, `seen
      ensures Valid() && |modebuf| >= 2 && what == (if plus then 1 else -1)
      ensures seen == ChangePlain(old(seen), plus, letter)
      ensures NoSigns(modebuf) == NoSigns(old(modebuf)) + [letter]
    {
      InsertSign(plus);
      ApplyPlain(Replay(before, events), Line(modebuf, parabuf), letter);
      SnocString(modebuf, letter);
      hide Apply, Words, Need, Replay, ChangePlain;
      seen := ChangePlain(seen, plus, letter);
      modebuf := modebuf + [letter];
    }

    /** A letter and ADD_PARA of its parameter. */
    method PutWith(plus: bool, letter: char, p: string)
      requires Valid() && !SignChar(letter) && Takes(plus, letter) && IsWord(p) && pargs + 1 < MAX_MODE_PARAMS
      modifies `modebuf, `parabuf, `pargs, `what, `seen
      ensures Valid() && |modebuf| >= 2 && pargs == old(pargs) + 1
      ensures seen == ChangeWith(old(seen), plus, letter, p)
      ensures Words(parabuf) == old(Words(parabuf)) + [p]
      ensures what == if plus then 1 else -1
    {
      hide FlagLetter, MaskLetter, StatusLetter, Takes, IsWord, NoSigns;
      InsertSign(plus);
      ApplyWith(Replay(before, events), Line(modebuf, parabuf), letter, p);
      SnocString(modebuf, letter);
      WordsAddPara(parabuf, p);
      hide Apply, Words, Need, Replay, ChangeWith;
      seen := ChangeWith(seen, plus, letter, p);
      parabuf := AddPara(parabuf, p);
      modebuf := modebuf + [letter];
      pargs := pargs + 1;
    }

    /** sjoin_sendit, and the buffers start over. */
    method Send()
      requires Pending() && |modebuf| >= 2
      modifies this
      ensures Valid() && seen == old(seen)
      ensures modebuf == "" && parabuf == "" && pargs == 0 && what == 0
      ensures events == old(events) + [Sent(Line(old(modebuf), old(parabuf)))]
    {
      ReplaySnoc(before, events, Sent(Line(modebuf, parabuf)));
      ApplyEmpty(seen);
      hide Apply, Words, Need, Replay;
      events := events + [Sent(Line(modebuf, parabuf))];
      modebuf, parabuf, pargs, what := "", "", 0, 0;
    }

    /** A status letter with its nick; a line that reaches MAXMODEPARAMS goes out at once. */
    method PutStatus(plus: bool, letter: char, nick: string)
      requires Valid() && StatusLetter(letter) && IsWord(nick)
      modifies this
      ensures Valid() && (modebuf == "" || |modebuf| >= 2)
      ensures pargs > 0 || modebuf == ""
      ensures seen == ChangeWith(old(seen), plus, letter, nick)
      ensures old(OnlyStatus()) ==> OnlyStatus()
      ensures forall w | w in Words(parabuf) :: w in old(Words(parabuf)) || w == nick
    {
      assert Words("") == [] && Need("") == 0;
      InsertSign(plus);
      ApplyWith(Replay(before, events), Line(modebuf, parabuf), letter, nick);
      SnocString(modebuf, letter);
      WordsAddPara(parabuf, nick);
      hide Apply, Words, Need, Replay, ChangeWith, ReplayOne;
      seen := ChangeWith(seen, plus, letter, nick);
      parabuf := AddPara(parabuf, nick);
      modebuf := modebuf + [letter];
      pargs := pargs + 1;
      if pargs >= MAX_MODE_PARAMS {
        Send();
      }
    }
  }
}
