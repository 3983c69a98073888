/**
 When the status letters m_sjoin announces are the truth: m_sjoin prints +o, +h and +v for every
 accepted nick, but add_user_to_channel runs only for nicks that are not in the channel yet.
 */
module Announcement {
  import opened Text
  import opened ModeLine
  import opened Sjoin
  import opened Relay
  import opened ChannelClass

  /** No nick is listed with a status it does not get or already hold. */
  predicate Truthful(members: seq<Member>, words: seq<string>, behind: set<string>, theirs: bool)
    decreases |words|
  {
    if words == [] then true
    else
      var w := words[0];
      && (Strip(w) in behind && Strip(w) in StatusMap(members) ==>
            Granted(w, theirs).Within(StatusMap(members)[Strip(w)]))
      && Truthful(AddOne(members, w, behind, theirs), words[1..], behind, theirs)
  }

  lemma AddOneStatus(members: seq<Member>, w: string, behind: set<string>, theirs: bool)
    ensures StatusMap(AddOne(members, w, behind, theirs))
         == if Strip(w) in behind && Strip(w) !in StatusMap(members)
            then StatusMap(members)[Strip(w) := Granted(w, theirs)] else StatusMap(members)
  {
    StatusMapKeys(members);
    var after := AddOne(members, w, behind, theirs);
    if after != members {
      assert after[1..] == members;
    }
  }

  /** A member once announced with too much stays so: announcements only add. */
  lemma {:induction false} Overshoot(st: map<string, Status>, members: seq<Member>, words: seq<string>,
                                     behind: set<string>, theirs: bool, n: string)
    requires n in st && n in StatusMap(members) && !st[n].Within(StatusMap(members)[n])
    ensures n in Announce(st, words, behind, theirs) && n in StatusMap(AddListed(members, words, behind, theirs))
    ensures !Announce(st, words, behind, theirs)[n].Within(StatusMap(AddListed(members, words, behind, theirs))[n])
    decreases |words|
  {
    if words != [] {
      var w := words[0];
      AddOneStatus(members, w, behind, theirs);
      Overshoot(AnnounceOne(st, w, behind, theirs), AddOne(members, w, behind, theirs), words[1..], behind, theirs, n);
    }
  }

  /** The announced status is the real one exactly when the list is truthful. */
  lemma {:induction false} AnnouncedExactly(members: seq<Member>, words: seq<string>, behind: set<string>, theirs: bool)
    ensures Announce(StatusMap(members), words, behind, theirs) == StatusMap(AddListed(members, words, behind, theirs))
       <==> Truthful(members, words, behind, theirs)
    decreases |words|
  {
    if words != [] {
      var w, n, st := words[0], Strip(words[0]), StatusMap(members);
      var next := AddOne(members, w, behind, theirs);
      AddOneStatus(members, w, behind, theirs);
      if n in behind && n in st && !Granted(w, theirs).Within(st[n]) {
        Overshoot(AnnounceOne(st, w, behind, theirs), next, words[1..], behind, theirs, n);
      } else {
        assert AnnounceOne(st, w, behind, theirs) == StatusMap(next);
        AnnouncedExactly(next, words[1..], behind, theirs);
      }
    }
  }

  /**
   The lines of m_sjoin leave the clients with the true channel exactly when no nick that is already
   a member is listed with a status it does not hold.
   */
  lemma ClientsKnowTheChannel(was: Chan, msg: Message, behind: set<string>, isNew: bool)
    requires msg.args != [] && ReadModes(msg).Parsed?
    ensures var v := Judge(isNew, was.ts, msg.ts);
            var theirs := ReadModes(msg).mode;
            var words := Words(msg.args[ReadModes(msg).used]);
            var after := Received(was, v, theirs, words, behind);
            Announced(was, after, msg, behind, isNew) == ViewOf(after)
            <==> Truthful(Settled(was, v, theirs).members, words, behind, v.theirs)
  {
    var v := Judge(isNew, was.ts, msg.ts);
    AnnouncedExactly(Settled(was, v, ReadModes(msg).mode).members, Words(msg.args[ReadModes(msg).used]), behind, v.theirs);
  }

  /** A member without status, listed with '@': the clients see an operator the server does not. */
  lemma GhostOperator()
    ensures var members := [Member("a", PLAIN)];
            && AddListed(members, ["@a"], {"a"}, true) == members
            && !Truthful(members, ["@a"], {"a"}, true)
            && "a" in Announce(StatusMap(members), ["@a"], {"a"}, true)
            && Announce(StatusMap(members), ["@a"], {"a"}, true)["a"].op
  {
    assert Strip("@a") == "a" by {
      assert "@a"[1..] == "a";
    }
    var members := [Member("a", PLAIN)];
    assert members[0].nick == "a";
    assert ["@a"][1..] == [];
    StatusMapKeys(members);
    assert "a" in StatusMap(members);
  }
}
