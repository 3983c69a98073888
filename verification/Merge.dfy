/** Channel modes and the rule by which two servers with equal timestamps merge them. */
module Merge {
  import opened Text
  import opened ModeLine

  /** struct SMode. rated is MODE_JOINRATE; flags holds the letters of the other set bits. */
  datatype Mode = Mode(flags: set<char>, limit: int, key: string, rated: bool, joinNum: int, joinTime: int)

  const NO_MODE := Mode({}, 0, "", false, 0, 0)

  /** Join-rate numbers as set_mode leaves them: both zero or neither, and none without +j. */
  predicate Normal(m: Mode) {
    && m.joinNum >= 0 && m.joinTime >= 0
    && (m.joinNum == 0 <==> m.joinTime == 0)
    && (!m.rated ==> m.joinNum == 0)
    && m.limit >= 0
  }

  /** m_sjoin with keepourmodes and keepnewmodes: what becomes of the incoming mode. */
  function MergeModes(ours: Mode, theirs: Mode): Mode {
    var limit := if ours.limit > theirs.limit then ours.limit else theirs.limit;
    var key :=
      if ours.key != "" && theirs.key != "" && Less(ours.key, theirs.key) then ours.key
      else if ours.key != "" && theirs.key == "" then ours.key
      else theirs.key;
    var keepTheirs :=
      || !ours.rated
      || (theirs.rated && theirs.joinNum == 0)
      || (ours.joinNum != 0 && theirs.joinNum > ours.joinNum)
      || (theirs.joinNum == ours.joinNum && theirs.joinTime < ours.joinTime);
    Mode(ours.flags + theirs.flags, limit, key, ours.rated || theirs.rated,
         if keepTheirs then theirs.joinNum else ours.joinNum,
         if keepTheirs then theirs.joinTime else ours.joinTime)
  }

  /** a is covered by b: what merging is the least upper bound of. */
  predicate Below(a: Mode, b: Mode) {
    && a.flags <= b.flags
    && a.limit <= b.limit
    && (a.key == "" || a.key == b.key || (b.key != "" && Less(b.key, a.key)))
    && RateBelow(a, b)
  }

  /** No +j, then fewer joins, then more seconds, then +j switched off. */
  predicate RateBelow(a: Mode, b: Mode) {
    !a.rated || (b.rated &&
      (b.joinNum == 0 || (a.joinNum != 0 &&
        (a.joinNum < b.joinNum || (a.joinNum == b.joinNum && b.joinTime <= a.joinTime)))))
  }

  /** Below is a partial order on normalised modes. */
  lemma BelowOrder(a: Mode, b: Mode, c: Mode)
    requires Normal(a) && Normal(b) && Normal(c)
    ensures Below(a, a)
    ensures Below(a, b) && Below(b, a) ==> a == b
    ensures Below(a, b) && Below(b, c) ==> Below(a, c)
    ensures Below(NO_MODE, a)
  {
    LessTotal(a.key, b.key);
    if a.key != "" && b.key != "" && c.key != "" && Less(b.key, a.key) && Less(c.key, b.key) {
      LessTransitive(c.key, b.key, a.key);
    }
  }

  /** The merge is the least upper bound of the two modes, and it keeps them normalised. */
  lemma MergeIsJoin(a: Mode, b: Mode, c: Mode)
    requires Normal(a) && Normal(b) && Normal(c)
    ensures Normal(MergeModes(a, b))
    ensures Below(a, MergeModes(a, b)) && Below(b, MergeModes(a, b))
    ensures Below(a, c) && Below(b, c) ==> Below(MergeModes(a, b), c)
  {
    LessTotal(a.key, b.key);
  }

  lemma MergeCommutes(a: Mode, b: Mode)
    requires Normal(a) && Normal(b)
    ensures MergeModes(a, b) == MergeModes(b, a)
  {
    MergeIsJoin(a, b, MergeModes(b, a));
    MergeIsJoin(b, a, MergeModes(a, b));
    BelowOrder(MergeModes(a, b), MergeModes(b, a), a);
  }

  lemma MergeAssociates(a: Mode, b: Mode, c: Mode)
    requires Normal(a) && Normal(b) && Normal(c)
    ensures MergeModes(MergeModes(a, b), c) == MergeModes(a, MergeModes(b, c))
  {
    var ab, bc := MergeModes(a, b), MergeModes(b, c);
    MergeIsJoin(a, b, c);
    MergeIsJoin(b, c, a);
    var l, r := MergeModes(ab, c), MergeModes(a, bc);
    MergeIsJoin(ab, c, r);
    MergeIsJoin(a, bc, l);
    BelowOrder(a, ab, l);
    BelowOrder(b, ab, l);
    BelowOrder(b, bc, r);
    BelowOrder(c, bc, r);
    MergeIsJoin(a, b, r);
    MergeIsJoin(b, c, l);
    BelowOrder(l, r, a);
  }

  /** Merging the same mode again, or no mode at all, changes nothing. */
  lemma MergeAbsorbs(a: Mode, b: Mode)
    requires Normal(a) && Normal(b)
    ensures MergeModes(a, a) == a
    ensures MergeModes(a, NO_MODE) == a && MergeModes(NO_MODE, a) == a
    ensures MergeModes(a, MergeModes(a, b)) == MergeModes(a, b)
  {
    LessTotal(a.key, a.key);
    LessTotal(a.key, b.key);
    MergeAssociates(a, a, b);
  }

  /**
   What a merge keeps, written out: all flags, the higher limit, the key that comes first, and of two
   rates the one that is switched off, else the one with more joins, else the one with less time.
   */
  lemma MergeKeeps(ours: Mode, theirs: Mode)
    ensures var m := MergeModes(ours, theirs);
            && (forall c :: c in m.flags <==> c in ours.flags || c in theirs.flags)
            && m.limit >= ours.limit && m.limit >= theirs.limit && (m.limit == ours.limit || m.limit == theirs.limit)
            && (if ours.key == "" then m.key == theirs.key
                else if theirs.key == "" || ours.key == theirs.key || Precedes(ours.key, theirs.key) then m.key == ours.key
                else m.key == theirs.key)
            && m.rated == (ours.rated || theirs.rated)
    ensures var m := MergeModes(ours, theirs);
            Normal(ours) && Normal(theirs) && ours.rated ==>
              && (!theirs.rated || ours.joinNum == 0 ==> (m.joinNum, m.joinTime) == (ours.joinNum, ours.joinTime))
              && (theirs.rated && theirs.joinNum == 0 ==> m.joinNum == 0 == m.joinTime)
              && (theirs.rated && 0 < theirs.joinNum && 0 < ours.joinNum ==>
                    && m.joinNum >= ours.joinNum && m.joinNum >= theirs.joinNum
                    && (ours.joinNum != theirs.joinNum ==> m.joinTime == if ours.joinNum > theirs.joinNum then ours.joinTime else theirs.joinTime)
                    && (ours.joinNum == theirs.joinNum ==> m.joinTime <= ours.joinTime && m.joinTime <= theirs.joinTime)
                    && (m.joinNum, m.joinTime) in [(ours.joinNum, ours.joinTime), (theirs.joinNum, theirs.joinTime)])
    ensures var m := MergeModes(ours, theirs);
            !ours.rated ==> (m.joinNum, m.joinTime) == (theirs.joinNum, theirs.joinTime)
  {
    LessMeans(ours.key, theirs.key);
    LessTotal(ours.key, theirs.key);
    hide Less, Precedes;
  }

  /** Modes as the parameters of any SJOIN give them: numbers only with +j. */
  predicate Raw(m: Mode) {
    !m.rated ==> m.joinNum == 0 && m.joinTime == 0
  }

  /** Both switch the rate off with different seconds, or one has a rate that loses against none. */
  predicate RatesClash(a: Mode, b: Mode) {
    || (a.rated && b.rated && a.joinNum == 0 && b.joinNum == 0 && a.joinTime != b.joinTime)
    || (a.rated && !b.rated && LosesToNone(a))
    || (b.rated && !a.rated && LosesToNone(b))
  }

  predicate LosesToNone(m: Mode) {
    m.joinNum < 0 || (m.joinNum == 0 && m.joinTime > 0)
  }

  /** For everything an SJOIN can carry, the order matters if and only if the join rates clash. */
  lemma RawMergeCommutes(a: Mode, b: Mode)
    requires Raw(a) && Raw(b)
    ensures MergeModes(a, b) == MergeModes(b, a) <==> !RatesClash(a, b)
  {
    LessTotal(a.key, b.key);
  }

  /** Both clashes happen: "0:5" against "0:3", and "0:5" against a channel without +j. */
  lemma MergeNeedsNormal()
    ensures var a, b := NO_MODE.(rated := true, joinTime := 5), NO_MODE.(rated := true, joinTime := 3);
            !Normal(a) && !Normal(b) && MergeModes(a, b) != MergeModes(b, a) && MergeModes(a, NO_MODE) != MergeModes(NO_MODE, a)
  {
  }
}
