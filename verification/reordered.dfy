/** Lists Google may return in another order than they were sent (internal/gcprov/reconcile.go,
    list): when a reordering is not drift, and when it is. */
module Reordered {
  import opened Values
  import opened Catalog
  import opened Matching
  import opened Reconcile
  import opened Independence
  import opened Drift

  // ---- a permutation of what was sent ------------------------------------------

  function RetypedAll(vs: seq<Value>): (out: seq<Value>)
    ensures |out| == |vs|
  {
    seq(|vs|, i requires 0 <= i < |vs| => Retyped(vs[i]))
  }

  /** REORDERING IS NOT DRIFT: what was sent, answered in any order, is recorded as it was
      written, where its elements are answered by no other and read alone as beside any
      sibling. */
  lemma ReorderingIsNotDrift(r: Reconciler, a: Attr, refs: seq<Value>, inc: seq<Value>)
    requires IsList(a) && a.unordered && !a.freeform && Sendable(a, List(refs))
    requires multiset(inc) == multiset(RetypedAll(refs)) && Reorderable(r, a, refs, inc)
    ensures Reconcile.Reconcile(r, a, List(refs), List(inc)) == List(refs)
  {
    var ref := List(refs);
    forall i | 0 <= i < |refs| ensures IsSibling(a.elem.value, refs[i]) {
      ItemIsSendable(a, ref, i);
      SendableIsTyped(a.elem.value, ref.items[i]);
      TypedIsSibling(a.elem.value, refs[i]);
    }
    EchoAlone(false, r, a, ref);
    assert Retyped(ref).items == RetypedAll(refs);
    AlonePermutes(false, r, a, inc, RetypedAll(refs));
    hide Reconcile.Reconcile, Reorderable, Alone, RetypedAll, Sendable, Retyped;
    UnorderedDriftIsExact(false, r, a, ref, List(inc));
    assert Answers(false, r, a, ref, List(inc));
    assert Recorded(false, r, a, ref, List(inc)) == Reconcile.Reconcile(r, a, ref, List(inc));
  }

  // ---- one element in another spelling -----------------------------------------

  /** One element of the reference, and none other, is answered in another spelling g; and
      nothing else in the answer is another spelling of anything. */
  ghost predicate Respelled(q: Reconciler, e: Attr, refs: seq<string>, p: nat, inc: seq<string>, g: string)
    requires p < |refs|
  {
    && (forall i, j | 0 <= i < j < |refs| :: refs[i] != refs[j])
    && g !in refs && multiset(inc) == multiset(refs[p := g])
    && (forall s | s in refs :: OtherSpelling(q, e, s, Str(g)) <==> s == refs[p])
    && (forall s, x | s in refs && x in refs :: !OtherSpelling(q, e, s, Str(x)))
  }

  function Strs(ss: seq<string>): (vs: seq<Value>)
    ensures |vs| == |ss| && forall i | 0 <= i < |ss| :: vs[i] == Str(ss[i])
  {
    seq(|ss|, i requires 0 <= i < |ss| => Str(ss[i]))
  }

  lemma RespelledHolds(q: Reconciler, e: Attr, refs: seq<string>, p: nat, inc: seq<string>, g: string) returns (t: nat)
    requires p < |refs| && Respelled(q, e, refs, p, inc, g)
    ensures t < |inc| && |inc| == |refs| && inc[t] == g
    ensures forall i | 0 <= i < |inc| && i != t :: inc[i] in refs && inc[i] != refs[p]
  {
    hide OtherSpelling;
    var want := refs[p := g];
    assert |multiset(inc)| == |inc| && |multiset(want)| == |want|;
    assert want[p] == g && g in multiset(want);
    assert g in multiset(inc);
    t :| 0 <= t < |inc| && inc[t] == g;
    OnceEach(refs, p, g);
    forall i | 0 <= i < |inc| && i != t ensures inc[i] in refs && inc[i] != refs[p] {
      assert inc[i] in multiset(inc);
      assert inc[i] in want;
      if inc[i] == g {
        TwiceIn(inc, i, t);
      }
      assert multiset(want)[refs[p]] == 0;
    }
  }

  lemma TwiceIn(s: seq<string>, i: nat, j: nat)
    requires i < |s| && j < |s| && i != j && s[i] == s[j]
    ensures multiset(s)[s[i]] >= 2
  {
    var a, b := if i < j then i else j, if i < j then j else i;
    assert s == s[..a] + [s[a]] + s[a + 1..b] + [s[b]] + s[b + 1..];
  }

  lemma OnceEach(refs: seq<string>, p: nat, g: string)
    requires p < |refs| && g !in refs && forall i, j | 0 <= i < j < |refs| :: refs[i] != refs[j]
    ensures multiset(refs[p := g])[g] == 1 && multiset(refs[p := g])[refs[p]] == 0
  {
    assert multiset(refs[p := g]) == multiset(refs) - multiset{refs[p]} + multiset{g};
    assert g !in multiset(refs);
    var w := refs[p := g];
    assert refs[p] !in w by {
      forall i | 0 <= i < |w| ensures w[i] != refs[p] {
        assert i < p ==> refs[i] != refs[p];
        assert i > p ==> refs[p] != refs[i];
      }
    }
    assert refs[p] !in multiset(w);
  }

  /** What each element reads as: the respelled one as the reference where the reference
      stands at its place, and every other as it came. */
  lemma RespelledItems(r: Reconciler, a: Attr, refs: seq<string>, p: nat, inc: seq<string>, g: string, t: nat)
    requires IsList(a) && a.elem.value.kind == KindString && a.elem.value.elem.None? && !a.elem.value.freeform
    requires p < |refs| && Respelled(InElem(r, a), a.elem.value, refs, p, inc, g)
    requires t < |inc| && |inc| == |refs| && inc[t] == g
    requires forall i | 0 <= i < |inc| && i != t :: inc[i] in refs && inc[i] != refs[p]
    ensures ListItems(r, a, List(Strs(refs)), Strs(inc)) == Strs(if t == p then inc[t := refs[p]] else inc)
  {
    var q, e := InElem(r, a), a.elem.value;
    var out := if t == p then inc[t := refs[p]] else inc;
    forall i | 0 <= i < |inc|
      ensures Reconcile.Reconcile(q, e, RefItem(List(Strs(refs)), i), Str(inc[i])) == Str(out[i])
    {
      LeafIs(q, e, Str(refs[i]), Str(inc[i]));
      hide OtherSpelling, Leaf;
      assert refs[i] in refs;
      if i == t {
        assert OtherSpelling(q, e, refs[i], Str(g)) <==> refs[i] == refs[p];
        assert i < p ==> refs[i] != refs[p];
        assert p < i ==> refs[p] != refs[i];
      } else {
        assert !OtherSpelling(q, e, refs[i], Str(inc[i]));
      }
    }
    hide Reconcile.Reconcile, Respelled;
    assert ListItems(r, a, List(Strs(refs)), Strs(inc)) == Strs(out);
  }

  lemma StrsOnlyThemselves(refs: seq<string>)
    ensures AnsweredOnlyByItself(Strs(refs), Strs(refs))
  {}

  lemma StrsPermute(x: seq<string>, y: seq<string>, g: string)
    requires g in x && g !in y
    ensures multiset(Strs(x)) != multiset(Strs(y))
  {
    var i :| 0 <= i < |x| && x[i] == g;
    assert Strs(x)[i] == Str(g);
    assert Str(g) in multiset(Strs(x));
    assert Str(g) !in Strs(y);
    assert Str(g) !in multiset(Strs(y));
  }

  /** A RESPELLED ELEMENT IS NOT DRIFT EXACTLY WHERE THE REFERENCE HAS IT: of a list of
      strings answered in any order, one of them in another spelling, the reference is
      recorded if and only if that one is answered at the reference's own place for it. */
  lemma RespelledInPlace(r: Reconciler, a: Attr, refs: seq<string>, p: nat, inc: seq<string>, g: string)
    requires IsList(a) && a.unordered && !a.freeform
    requires a.elem.value.kind == KindString && a.elem.value.elem.None? && !a.elem.value.freeform
    requires p < |refs| && Respelled(InElem(r, a), a.elem.value, refs, p, inc, g)
    ensures |inc| == |refs|
    ensures Reconcile.Reconcile(r, a, List(Strs(refs)), List(Strs(inc))) == List(Strs(refs)) <==> inc[p] == g
  {
    var t := RespelledHolds(InElem(r, a), a.elem.value, refs, p, inc, g);
    RespelledItems(r, a, refs, p, inc, g, t);
    var items := ListItems(r, a, List(Strs(refs)), Strs(inc));
    ReadsList(r, a, List(Strs(refs)), List(Strs(inc)));
    StrsOnlyThemselves(refs);
    PutBackIff(Strs(refs), items);
    hide Reconcile.Reconcile, ListItems, Matched, AnsweredOnlyByItself, OtherSpelling;
    if t == p {
      PutBackTogether(refs, p, inc, g);
    } else {
      StrsPermute(inc, refs, g);
      assert inc[p] != g;
    }
  }

  lemma PutBackTogether(refs: seq<string>, p: nat, inc: seq<string>, g: string)
    requires p < |refs| == |inc| && inc[p] == g && multiset(inc) == multiset(refs[p := g])
    ensures multiset(Strs(inc[p := refs[p]])) == multiset(Strs(refs))
  {
    var now := inc[p := refs[p]];
    assert multiset(now) == multiset(inc) - multiset{g} + multiset{refs[p]};
    assert multiset(refs[p := g]) == multiset(refs) - multiset{refs[p]} + multiset{g};
    assert multiset(now) == multiset(refs);
    SameStrs(now, refs);
  }

  function Dropped(s: seq<string>, j: nat): seq<string>
    requires j < |s|
  {
    s[..j] + s[j + 1..]
  }

  lemma StrsConcat(x: seq<string>, y: seq<string>)
    ensures Strs(x + y) == Strs(x) + Strs(y)
  {}

  lemma DropString(s: seq<string>, j: nat)
    requires j < |s|
    ensures multiset(s) == multiset{s[j]} + multiset(Dropped(s, j))
  {
    assert s == s[..j] + [s[j]] + s[j + 1..];
  }

  lemma DropOne(s: seq<string>, j: nat)
    requires j < |s|
    ensures multiset(s) == multiset{s[j]} + multiset(Dropped(s, j))
    ensures multiset(Strs(s)) == multiset{Str(s[j])} + multiset(Strs(Dropped(s, j)))
  {
    DropString(s, j);
    hide Strs;
    var vs := Strs(s);
    SplitOff(vs, j);
    StrsConcat(s[..j], s[j + 1..]);
    assert vs[..j] == Strs(s[..j]) && vs[j + 1..] == Strs(s[j + 1..]);
    assert Without(vs, j) == Strs(Dropped(s, j));
  }

  lemma {:induction false} SameStrs(x: seq<string>, y: seq<string>)
    requires multiset(x) == multiset(y)
    ensures multiset(Strs(x)) == multiset(Strs(y))
    decreases |x|
  {
    assert |multiset(x)| == |x| && |multiset(y)| == |y|;
    if x != [] {
      assert x[0] in multiset(y);
      var j :| 0 <= j < |y| && y[j] == x[0];
      DropOne(x, 0);
      DropOne(y, j);
      assert |Dropped(x, 0)| < |x|;
      hide Dropped, Strs;
      assert multiset(Dropped(x, 0)) == multiset(x) - multiset{x[0]};
      assert multiset(Dropped(y, j)) == multiset(y) - multiset{y[j]};
      SameStrs(Dropped(x, 0), Dropped(y, j));
    }
  }

  // ---- two instances -----------------------------------------------------------

  const STRING := Attr("ref", KindString, map[], None, false, false, false, false, false, false, "")
  const STRING_SET := Attr("refs", KindList, map[], Some(STRING), false, false, false, false, true, false, "")

  lemma TwoSpellings(q: Reconciler)
    requires q.aliases == Some(ProjectAliases("p", "1"))
    ensures forall s | s in ["projects/p", "b"] :: OtherSpelling(q, STRING, s, Str("projects/1")) <==> s == "projects/p"
    ensures forall s, x | s in ["projects/p", "b"] && x in ["projects/p", "b"] :: !OtherSpelling(q, STRING, s, Str(x))
  {
    assert "projects/p"[9..] == "p" && "projects/1"[9..] == "1";
    assert "projects/p"[..9] == PROJECTS && "projects/1"[..9] == PROJECTS;
    assert !LooksLikeAProjectName("b");
    assert "p" != "1";
  }

  lemma TwoOrders(q: Reconciler, inc: seq<string>)
    requires q.aliases == Some(ProjectAliases("p", "1")) && (inc == ["projects/1", "b"] || inc == ["b", "projects/1"])
    ensures Respelled(q, STRING, ["projects/p", "b"], 0, inc, "projects/1")
  {
    var refs, g := ["projects/p", "b"], "projects/1";
    TwoSpellings(q);
    hide OtherSpelling;
    assert refs[0] == "projects/p";
    assert |refs[0]| != |refs[1]| && |g| != |refs[1]| && g[9] != refs[0][9];
    assert refs[0 := g] == [g, "b"];
    assert multiset(inc) == multiset([g, "b"]);
  }

  /** The source says the element-level pass does not depend on which reference element
      it is handed. With a second spelling of a project it does: the same two answers
      in the other order are drift. */
  lemma SpellingDependsOnPosition(r: Reconciler)
    requires r.aliases == Some(ProjectAliases("p", "1"))
    ensures var refs := List(Strs(["projects/p", "b"]));
            && Reconcile.Reconcile(r, STRING_SET, refs, List(Strs(["projects/1", "b"]))) == refs
            && Reconcile.Reconcile(r, STRING_SET, refs, List(Strs(["b", "projects/1"]))) != refs
  {
    var q, refs := InElem(r, STRING_SET), ["projects/p", "b"];
    hide Reconcile.Reconcile, Respelled, Strs;
    TwoOrders(q, ["projects/1", "b"]);
    TwoOrders(q, ["b", "projects/1"]);
    RespelledInPlace(r, STRING_SET, refs, 0, ["projects/1", "b"], "projects/1");
    RespelledInPlace(r, STRING_SET, refs, 0, ["b", "projects/1"], "projects/1");
    assert |["b", "projects/1"][0]| != |"projects/1"|;
  }

  const FLAG := Attr("on", KindBool, map[], None, true, false, false, false, false, false, "")
  const FLAGGED := Attr("item", KindMap, map["on" := FLAG], None, false, false, false, false, false, false, "")

  /** What a boolean reads as. */
  lemma FlagReads(q: Reconciler, ref: Value)
    ensures Reconcile.Reconcile(q, FLAG, ref, Bool(true)) == Bool(true)
  {}

  lemma FlaggedEntries(q: Reconciler, ref: Value, inc: map<string, Value>)
    requires q.unmatched && inc == map["on" := Bool(true)]
    ensures ObjectEntries(q, FLAGGED, ref, inc) == if ref.Map? then map[] else inc
  {
    hide ObjectEntries, Reconcile.Reconcile;
    var out := ObjectEntries(q, FLAGGED, ref, inc);
    forall k ensures k in out <==> k == "on" && !ref.Map? {
      UnmatchedKey(q, FLAGGED, ref, inc, k);
    }
    UnmatchedKey(q, FLAGGED, ref, inc, "on");
    FlagReads(q, Get(Entries(ref), "on"));
  }

  /** Nor does it hold without any string: a computed field is dropped beside any element of
      the reference, and kept beyond the last of them. */
  lemma ComputedFieldDependsOnReference(q: Reconciler, ref: Value)
    requires q.unmatched && ref.Map?
    ensures Reconcile.Reconcile(q, FLAGGED, ref, Map(map["on" := Bool(true)])) == Map(map[])
    ensures Reconcile.Reconcile(q, FLAGGED, Zero, Map(map["on" := Bool(true)])) == Map(map["on" := Bool(true)])
  {
    var inc := map["on" := Bool(true)];
    assert "on" in FLAGGED.fields;
    hide ObjectEntries, Reconcile.Reconcile;
    ReadsObject(q, FLAGGED, ref, Map(inc));
    ReadsObject(q, FLAGGED, Zero, Map(inc));
    FlaggedEntries(q, ref, inc);
    FlaggedEntries(q, Zero, inc);
  }
}
