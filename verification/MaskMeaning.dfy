/** Collapsing a mask, and sending a list of masks to another server, changes their text but not what they match. */
module MaskMeaning {
  import opened Text
  import opened ModeLine
  import opened MaskBatch
  import opened Masks
  import opened Match
  import opened Lists

  lemma MeaningChains(a: string, b: string, c: string)
    requires SameMeaning(a, b) && SameMeaning(b, c)
    ensures SameMeaning(a, c)
  {
    hide Glob;
  }

  lemma {:induction false} StarsDropped(s: string)
    ensures SameMeaning("*" + s, "*" + DropStars(s))
  {
    if s != "" && s[0] == '*' {
      StarsDropped(s[1..]);
      StarsAreOne(s[1..]);
      assert "*" + s == "**" + s[1..];
    }
  }

  /** Behind a star, the stars of a run of wildcards add nothing. */
  lemma {:induction false} RunKept(run: string, rest: string)
    requires forall k | 0 <= k < |run| :: Wild(run[k])
    ensures SameMeaning("*" + (run + rest), "*" + (OnlyQuestions(run) + rest))
    decreases |run|
  {
    hide Glob;
    if run != "" {
      var r := run[1..];
      RunKept(r, rest);
      if run[0] == '*' {
        assert "*" + (run + rest) == "**" + (r + rest);
        StarsAreOne(r + rest);
        assert OnlyQuestions(run) == OnlyQuestions(r);
        MeaningChains("**" + (r + rest), "*" + (r + rest), "*" + (OnlyQuestions(r) + rest));
      } else {
        assert "*" + (run + rest) == "*?" + (r + rest);
        assert "*" + (OnlyQuestions(run) + rest) == "*?" + (OnlyQuestions(r) + rest);
        StarQuestionSame(r + rest, OnlyQuestions(r) + rest);
      }
    }
  }

  lemma ChopKeeps(p: string)
    requires p != ""
    ensures SameMeaning(p, Chop(p).0 + Chop(p).1)
  {
    hide Glob;
    if p[0] == '\\' && |p| > 1 {
      assert p[..2] + p[2..] == p;
    } else if p[0] == '*' && |p| > 1 && p[1] == '*' {
      assert p == "*" + p[1..];
      StarsDropped(p[1..]);
    } else if p[0] == '*' && |p| > 1 && p[1] == '?' {
      var n := WildRun(p[1..]);
      var run, rest := p[1..][..n], p[1..][n..];
      assert p == "*" + (run + rest);
      RunKept(run, rest);
      assert "*" + (OnlyQuestions(run) + rest) == "*" + OnlyQuestions(run) + rest;
    } else {
      assert p[..1] + p[1..] == p;
    }
  }

  /** A collapsed mask matches what the mask did. */
  lemma {:induction false} CollapseMeans(p: string)
    ensures SameMeaning(p, Collapse(p))
    decreases |p|
  {
    hide Glob, Chop;
    if p != "" {
      var h, t := Chop(p).0, Chop(p).1;
      ChopKeeps(p);
      CollapseMeans(t);
      BehindStart(h, t, Collapse(t));
    }
  }

  /** What some mask of a list stands for. */
  ghost predicate AnyOf(masks: seq<string>, text: string) {
    exists k | 0 <= k < |masks| :: Glob(masks[k], text)
  }

  lemma AnyOfHas(masks: seq<string>, other: seq<string>, text: string)
    requires (forall m :: HasMask(masks, m) ==> HasMask(other, m)) && AnyOf(masks, text)
    ensures AnyOf(other, text)
  {
    hide Glob, SameName;
    var k :| 0 <= k < |masks| && Glob(masks[k], text);
    SameAsItself(masks[k]);
    assert HasMask(masks, masks[k]);
    var j :| 0 <= j < |other| && SameName(other[j], masks[k]);
    SameNameMeansSame(other[j], masks[k]);
  }

  lemma CanonsMean(masks: seq<string>, text: string)
    requires AllStored(masks)
    ensures AnyOf(Canons(masks), text) <==> AnyOf(masks, text)
  {
    hide Glob, Canon, Stored;
    forall k | 0 <= k < |masks|
      ensures Glob(Canons(masks)[k], text) <==> Glob(masks[k], text)
    {
      assert masks[k] in masks;
      StoredShape(masks[k]);
      CollapseMeans(masks[k]);
    }
  }

  /** A list that another server built from the lines it was sent matches exactly what the list here does. */
  lemma TravelledMeans(masks: seq<string>, text: string)
    requires AllStored(masks)
    ensures AnyOf(AddMasks([], masks), text) <==> AnyOf(masks, text)
  {
    hide Glob, Canon, Stored, SameName, AddMasks;
    CanonsMean(masks, text);
    forall m
      ensures HasMask(AddMasks([], masks), m) <==> HasMask(Canons(masks), m)
    {
      AddMasksHas([], masks, m);
    }
    if AnyOf(AddMasks([], masks), text) {
      AnyOfHas(AddMasks([], masks), Canons(masks), text);
    }
    if AnyOf(Canons(masks), text) {
      AnyOfHas(Canons(masks), AddMasks([], masks), text);
    }
  }
}
