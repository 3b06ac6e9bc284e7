/** Putting a list Google may have reordered back in the reference's order
    (internal/gcprov/reconcile.go, list and answersTo). */
module Matching {
  import opened Values

  /** got agrees with everything want says, and may say more. */
  predicate AnswersTo(want: Value, got: Value) {
    if want.Map? && got.Map? then
      forall k | k in want.entries :: k in got.entries && AnswersTo(want.entries[k], got.entries[k])
    else if want.List? && got.List? && |want.items| == |got.items| then
      forall i | 0 <= i < |want.items| :: AnswersTo(want.items[i], got.items[i])
    else want == got
  }

  /** The position of the first item that answers want, or |items|. */
  function FirstAnswer(want: Value, items: seq<Value>): (i: nat)
    ensures i <= |items|
    ensures i < |items| ==> AnswersTo(want, items[i])
    ensures forall j | 0 <= j < i :: !AnswersTo(want, items[j])
  {
    if items == [] || AnswersTo(want, items[0]) then 0 else 1 + FirstAnswer(want, items[1..])
  }

  function Without<T>(s: seq<T>, i: nat): seq<T>
    requires i < |s|
  {
    s[..i] + s[i + 1..]
  }

  /** The reference's order for what both sides hold, then whatever GCP added. */
  function Matched(refs: seq<Value>, items: seq<Value>): seq<Value>
    decreases |refs|
  {
    if refs == [] then items
    else
      var i := FirstAnswer(refs[0], items);
      if i < |items| then [items[i]] + Matched(refs[1..], Without(items, i))
      else Matched(refs[1..], items)
  }

  // ---- conservation ------------------------------------------------------------

  lemma WithoutConserves(items: seq<Value>, i: nat)
    requires i < |items|
    ensures multiset([items[i]] + Without(items, i)) == multiset(items)
  {
    assert items == items[..i] + [items[i]] + items[i + 1..];
  }

  /** Matching only ever changes the order: every item is still there, as often as it
      was, and nothing else is. */
  lemma {:induction false} MatchedConserves(refs: seq<Value>, items: seq<Value>)
    ensures multiset(Matched(refs, items)) == multiset(items)
    decreases |refs|
  {
    if refs != [] {
      var i := FirstAnswer(refs[0], items);
      if i < |items| {
        MatchedConserves(refs[1..], Without(items, i));
        WithoutConserves(items, i);
        assert multiset([items[i]] + Matched(refs[1..], Without(items, i)))
            == multiset([items[i]]) + multiset(Matched(refs[1..], Without(items, i)));
        assert multiset([items[i]] + Without(items, i)) == multiset([items[i]]) + multiset(Without(items, i));
      } else {
        MatchedConserves(refs[1..], items);
      }
    }
  }

  // ---- canonical order ---------------------------------------------------------

  lemma {:induction false} AnswersToItself(v: Value)
    ensures AnswersTo(v, v)
  {
    match v
    case Map(entries) =>
      forall k | k in entries ensures AnswersTo(entries[k], entries[k]) {
        AnswersToItself(entries[k]);
      }
    case List(items) =>
      forall i | 0 <= i < |items| ensures AnswersTo(items[i], items[i]) {
        AnswersToItself(items[i]);
      }
    case _ =>
  }

  predicate FirstCopyAt(w: Value, items: seq<Value>, i: nat) {
    i < |items| && items[i] == w && forall k | 0 <= k < i :: items[k] != w
  }

  /** The items left once one copy of each reference element is taken out. */
  ghost function Extras(refs: seq<Value>, items: seq<Value>): seq<Value>
    decreases |refs|
  {
    if refs == [] then items
    else if i: nat :| FirstCopyAt(refs[0], items, i) then
      Extras(refs[1..], Without(items, i))
    else Extras(refs[1..], items)
  }

  /** No reference element is answered by an item other than itself. */
  predicate AnsweredOnlyByItself(refs: seq<Value>, items: seq<Value>) {
    forall w, g | w in refs && g in items :: AnswersTo(w, g) ==> w == g
  }

  lemma FirstCopy(w: Value, items: seq<Value>, i: nat)
    requires w in items && (forall g | g in items :: AnswersTo(w, g) ==> w == g)
    ensures FirstAnswer(w, items) < |items|
    ensures FirstCopyAt(w, items, i) <==> i == FirstAnswer(w, items)
  {
    AnswersToItself(w);
    var f := FirstAnswer(w, items);
    var j :| 0 <= j < |items| && items[j] == w;
    assert f <= j;
    assert items[f] in items;
    forall k | 0 <= k < f ensures items[k] != w {}
  }

  lemma TakeOut(refs: seq<Value>, items: seq<Value>, i: nat)
    requires refs != [] && multiset(refs) <= multiset(items) && i < |items| && items[i] == refs[0]
    ensures multiset(refs[1..]) <= multiset(Without(items, i))
  {
    var w, rest := refs[0], Without(items, i);
    assert refs == [w] + refs[1..];
    assert multiset(refs) == multiset([w]) + multiset(refs[1..]);
    WithoutConserves(items, i);
    assert multiset(items) == multiset([w]) + multiset(rest);
    forall x ensures multiset(refs[1..])[x] <= multiset(rest)[x] {
      assert multiset(refs)[x] == multiset([w])[x] + multiset(refs[1..])[x];
      assert multiset(items)[x] == multiset([w])[x] + multiset(rest)[x];
    }
  }

  lemma StillAnsweredOnlyByItself(refs: seq<Value>, items: seq<Value>, i: nat)
    requires refs != [] && i < |items| && AnsweredOnlyByItself(refs, items)
    ensures AnsweredOnlyByItself(refs[1..], Without(items, i))
  {
    forall v, g | v in refs[1..] && g in Without(items, i) ensures AnswersTo(v, g) ==> v == g {
      assert v in refs && g in items;
    }
  }

  lemma ExtrasStep(refs: seq<Value>, items: seq<Value>, i: nat)
    requires refs != [] && FirstCopyAt(refs[0], items, i)
    ensures Extras(refs, items) == Extras(refs[1..], Without(items, i))
  {
    forall j: nat | FirstCopyAt(refs[0], items, j) ensures j == i {}
  }

  lemma TakenFirst(refs: seq<Value>, items: seq<Value>) returns (i: nat)
    requires refs != [] && multiset(refs) <= multiset(items) && AnsweredOnlyByItself(refs, items)
    ensures FirstCopyAt(refs[0], items, i)
    ensures Matched(refs, items) == [refs[0]] + Matched(refs[1..], Without(items, i))
  {
    var w := refs[0];
    assert w in refs;
    assert multiset(refs)[w] > 0;
    assert w in multiset(items);
    i := FirstAnswer(w, items);
    FirstCopy(w, items, i);
  }

  /** REORDERING IS UNDONE: when each reference element is answered only by its equals
      and all of them are there, the result is the reference in its own order followed
      by whatever else was answered, in the order it was answered. */
  lemma {:induction false} MatchedIsCanonical(refs: seq<Value>, items: seq<Value>)
    requires multiset(refs) <= multiset(items)
    requires AnsweredOnlyByItself(refs, items)
    ensures Matched(refs, items) == refs + Extras(refs, items)
    decreases |refs|
  {
    if refs != [] {
      var i := TakenFirst(refs, items);
      TakeOut(refs, items, i);
      StillAnsweredOnlyByItself(refs, items, i);
      MatchedIsCanonical(refs[1..], Without(items, i));
      ExtrasStep(refs, items, i);
      Glue(refs, Extras(refs[1..], Without(items, i)));
    }
  }

  lemma Glue(refs: seq<Value>, rest: seq<Value>)
    requires refs != []
    ensures [refs[0]] + (refs[1..] + rest) == refs + rest
  {}

  lemma PermutationIsUndone(refs: seq<Value>, items: seq<Value>)
    requires multiset(items) == multiset(refs)
    requires AnsweredOnlyByItself(refs, refs)
    ensures Matched(refs, items) == refs
  {
    assert AnsweredOnlyByItself(refs, items) by {
      hide AnswersTo;
      forall w, g | w in refs && g in items ensures AnswersTo(w, g) ==> w == g {
        assert g in multiset(items);
        assert g in multiset(refs);
      }
    }
    hide AnswersTo;
    MatchedIsCanonical(refs, items);
    MatchedConserves(refs, items);
    NothingExtra(refs, Extras(refs, items));
  }

  lemma NothingExtra(refs: seq<Value>, extra: seq<Value>)
    requires multiset(refs + extra) == multiset(refs)
    ensures refs + extra == refs
  {
    assert multiset(refs + extra) == multiset(refs) + multiset(extra);
    assert |multiset(refs + extra)| == |refs| + |extra|;
    assert |multiset(refs)| == |refs|;
  }

  // ---- lists no reference reorders ---------------------------------------------

  lemma {:induction false} AnswersToTransitive(w: Value, g: Value, h: Value)
    requires AnswersTo(w, g) && AnswersTo(g, h)
    ensures AnswersTo(w, h)
    decreases w
  {
    match w
    case Map(entries) =>
      if g.Map? && h.Map? {
        forall k | k in entries ensures k in h.entries && AnswersTo(entries[k], h.entries[k]) {
          AnswersToTransitive(entries[k], g.entries[k], h.entries[k]);
        }
      }
    case List(items) =>
      if g.List? && h.List? && |g.items| == |items| && |h.items| == |items| {
        forall i | 0 <= i < |items| ensures AnswersTo(items[i], h.items[i]) {
          AnswersToTransitive(items[i], g.items[i], h.items[i]);
        }
      }
    case _ =>
  }

  /** Each item says all that any later one says. */
  predicate Descending(items: seq<Value>) {
    forall i, j | 0 <= i < j < |items| :: AnswersTo(items[j], items[i])
  }

  lemma DescendingRest(items: seq<Value>)
    requires Descending(items) && items != []
    ensures Descending(items[1..])
  {
    hide AnswersTo;
    forall i, j | 0 <= i < j < |items[1..]| ensures AnswersTo(items[1..][j], items[1..][i]) {
      assert items[1..][j] == items[j + 1] && items[1..][i] == items[i + 1];
    }
  }

  lemma {:induction false} DescendingStays(refs: seq<Value>, items: seq<Value>)
    requires Descending(items)
    ensures Matched(refs, items) == items
    decreases |refs|
  {
    if refs != [] {
      var f := FirstAnswer(refs[0], items);
      if f < |items| {
        if f > 0 {
          AnswersToTransitive(refs[0], items[f], items[0]);
        }
        hide AnswersTo;
        assert f == 0;
        DescendingRest(items);
        assert Without(items, 0) == items[1..];
        DescendingStays(refs[1..], items[1..]);
        assert [items[0]] + items[1..] == items;
      } else {
        DescendingStays(refs[1..], items);
      }
    }
  }

  /** No reference moves any of these. */
  ghost predicate Immovable(items: seq<Value>) {
    forall refs :: Matched(refs, items) == items
  }

  lemma FirstIsAnswered(items: seq<Value>, j: nat)
    requires 0 < j < |items| && Matched([items[j]], items) == items
    ensures AnswersTo(items[j], items[0])
  {
    AnswersToItself(items[j]);
    var f := FirstAnswer(items[j], items);
    assert f <= j;
    assert Matched([items[j]], items) == [items[f]] + Matched([], Without(items, f));
    assert items[f] == items[0];
  }

  lemma FirstMatchesItself(refs: seq<Value>, items: seq<Value>)
    requires items != []
    ensures Matched([items[0]] + refs, items) == [items[0]] + Matched(refs, items[1..])
  {
    AnswersToItself(items[0]);
    hide AnswersTo;
    assert ([items[0]] + refs)[1..] == refs;
    assert FirstAnswer(items[0], items) == 0 && Without(items, 0) == items[1..];
  }

  lemma RestIsImmovable(items: seq<Value>)
    requires items != [] && Immovable(items)
    ensures Immovable(items[1..])
  {
    hide Matched;
    forall refs ensures Matched(refs, items[1..]) == items[1..] {
      FirstMatchesItself(refs, items);
      assert Matched([items[0]] + refs, items) == items;
      assert ([items[0]] + Matched(refs, items[1..]))[1..] == Matched(refs, items[1..]);
    }
  }

  /** WHICH LISTS NO REFERENCE REORDERS: those where each item says all that any later one
      says. */
  lemma {:induction false} ImmovableIff(items: seq<Value>)
    ensures Immovable(items) <==> Descending(items)
    decreases |items|
  {
    if Descending(items) {
      forall refs ensures Matched(refs, items) == items {
        DescendingStays(refs, items);
      }
    }
    if Immovable(items) && items != [] {
      RestIsImmovable(items);
      ImmovableIff(items[1..]);
      hide AnswersTo;
      forall i, j | 0 <= i < j < |items| ensures AnswersTo(items[j], items[i]) {
        if i == 0 {
          assert Matched([items[j]], items) == items;
          FirstIsAnswered(items, j);
        } else {
          assert items[1..][j - 1] == items[j] && items[1..][i - 1] == items[i];
        }
      }
    }
  }

  /** WHEN A LIST IS PUT BACK: where each reference element is answered only by itself,
      exactly the permutations of the reference are. */
  lemma PutBackIff(refs: seq<Value>, items: seq<Value>)
    requires AnsweredOnlyByItself(refs, refs)
    ensures Matched(refs, items) == refs <==> multiset(items) == multiset(refs)
  {
    MatchedConserves(refs, items);
    hide AnsweredOnlyByItself, Matched;
    if multiset(items) == multiset(refs) {
      PermutationIsUndone(refs, items);
    }
  }
}
