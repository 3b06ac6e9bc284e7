/** When state records what was asked for (internal/gcprov/reconcile.go): drift detection is
    exact. */
module Drift {
  import opened Values
  import opened Catalog
  import opened Text
  import opened Matching
  import opened Reconcile
  import opened Independence

  // ---- what is recorded --------------------------------------------------------

  function Cleaned(strip: bool, a: Attr, v: Value): Value {
    if strip then Strip(a, v) else v
  }

  /** What state records for one attribute. */
  function Recorded(strip: bool, r: Reconciler, a: Attr, ref: Value, inc: Value): Value {
    Cleaned(strip, a, Reconcile.Reconcile(r, a, ref, inc))
  }

  /** Whether a configured value the answer left out counts as answered. */
  predicate Excused(a: Attr, ref: Value) {
    a.inputOnly || IsZero(ref)
  }

  predicate LeafAnswers(strip: bool, r: Reconciler, a: Attr, ref: Value, inc: Value) {
    var got := AsDeclaredKind(a, inc);
    || Cleaned(strip, a, got) == ref
    || (ref.Str? && got.Str? && (ProjectAlias(r, ref.s, got.s) ||
         (a.equivalence != "" && r.equivalent(a.equivalence, ref.s, got.s))))
  }

  /** What one element of a reordered list is read as, beside any element of the reference. */
  function ItemAlone(strip: bool, r: Reconciler, a: Attr, inc: Value): Value
    requires a.elem.Some?
  {
    Recorded(strip && a.fields == map[], InElem(r, a), a.elem.value, Sibling(a.elem.value), inc)
  }

  function Alone(strip: bool, r: Reconciler, a: Attr, inc: seq<Value>): (items: seq<Value>)
    requires a.elem.Some?
    ensures |items| == |inc|
  {
    seq(|inc|, i requires 0 <= i < |inc| => ItemAlone(strip, r, a, inc[i]))
  }

  /** inc answers ref: every configured key present and answering, or absent and
      input-only or zero; leaves equal once retyped, or one value in two spellings;
      lists pointwise, or in any order where Google may reorder them; extra nested keys
      ignored. `strip` says whether the labels GCP reserves are ignored too. */
  predicate Answers(strip: bool, r: Reconciler, a: Attr, ref: Value, inc: Value)
    decreases a
  {
    && inc.Known()
    && if a.freeform then Cleaned(strip, a, inc) == ref
       else if IsObject(a) then
         inc.Map? && ref.Map? && forall k | k in ref.entries && k in a.fields ::
           if k in inc.entries
           then Answers(strip && !IsLabelMap(a), r, a.fields[k], ref.entries[k], inc.entries[k])
           else Excused(a.fields[k], ref.entries[k])
       else if IsList(a) then
         && inc.List? && ref.List?
         && if a.unordered then multiset(Alone(strip, r, a, inc.items)) == multiset(ref.items)
            else
              && |inc.items| == |ref.items|
              && forall i | 0 <= i < |inc.items| ::
                   Answers(strip && a.fields == map[], r, a.elem.value, ref.items[i], inc.items[i])
       else LeafAnswers(strip, r, a, ref, inc)
  }

  lemma StrippedParts(a: Attr, ref: Value, k: string)
    requires IsObject(a) && ref.Map? && Strip(a, ref) == ref && k in ref.entries && k in a.fields
    ensures if IsLabelMap(a) then !HasPrefix(k, RESERVED)
            else Strip(a.fields[k], ref.entries[k]) == ref.entries[k]
  {
    var m := Strip(a, ref).entries;
    assert k in m;
  }

  lemma CleanedObject(strip: bool, a: Attr, m: map<string, Value>)
    requires IsObject(a) && forall k | k in m :: k in a.fields
    requires strip && IsLabelMap(a) ==> forall k | k in m :: !HasPrefix(k, RESERVED)
    ensures Cleaned(strip, a, Map(m)) ==
            Map(map k | k in m :: Cleaned(strip && !IsLabelMap(a), a.fields[k], m[k]))
  {
    if !strip {
      assert m == map k | k in m :: m[k];
    } else if IsLabelMap(a) {
      assert Unlabelled(m) == map k | k in m :: m[k];
    } else {
      assert (map k | k in m :: if k in a.fields then Strip(a.fields[k], m[k]) else m[k])
          == map k | k in m :: Strip(a.fields[k], m[k]);
    }
  }

  /** What an object's result holds under a configured key. */
  lemma ObjectKey(r: Reconciler, a: Attr, ref: Value, inc: map<string, Value>, k: string)
    requires !r.unmatched && ref.Map?
    ensures k in ObjectEntries(r, a, ref, inc) ==> k in a.fields && k in ref.entries
    ensures k in a.fields && k in ref.entries && k in inc ==>
              k in ObjectEntries(r, a, ref, inc) &&
              ObjectEntries(r, a, ref, inc)[k] == Reconcile.Reconcile(r, a.fields[k], ref.entries[k], inc[k])
    ensures k in a.fields && k in ref.entries && k !in inc && ref.entries[k].Known() ==>
              (k in ObjectEntries(r, a, ref, inc) <==> Excused(a.fields[k], ref.entries[k])) &&
              (k in ObjectEntries(r, a, ref, inc) ==> ObjectEntries(r, a, ref, inc)[k] == ref.entries[k])
  {}

  /** The answer answers one configured key of an object. */
  predicate KeyAnswers(s: bool, r: Reconciler, a: Attr, ref: Value, inc: Value, k: string)
    requires inc.Map? && ref.Map? && k in ref.entries && k in a.fields
  {
    if k in inc.entries then Answers(s, r, a.fields[k], ref.entries[k], inc.entries[k])
    else Excused(a.fields[k], ref.entries[k])
  }

  lemma ObjectAnswersIff(strip: bool, r: Reconciler, a: Attr, ref: Value, inc: Value)
    requires !a.freeform && IsObject(a) && ref.Map? && inc.Map?
    ensures Answers(strip, r, a, ref, inc) <==>
            forall k | k in ref.entries && k in a.fields :: KeyAnswers(strip && !IsLabelMap(a), r, a, ref, inc, k)
  {}

  /** One object's result, its reserved labels dropped. */
  lemma RecordedKeys(strip: bool, r: Reconciler, a: Attr, ref: Value, inc: Value) returns (got: map<string, Value>)
    requires !r.unmatched && !a.freeform && IsObject(a) && ref.Map? && inc.Map?
    requires strip ==> Strip(a, ref) == ref
    ensures Recorded(strip, r, a, ref, inc) == Map(got)
    ensures forall k :: k in got <==> k in ObjectEntries(r, a, ref, inc.entries)
    ensures forall k | k in got ::
              k in ref.entries && k in a.fields &&
              got[k] == Cleaned(strip && !IsLabelMap(a), a.fields[k], ObjectEntries(r, a, ref, inc.entries)[k])
  {
    var out := ObjectEntries(r, a, ref, inc.entries);
    forall k ensures k in out ==> k in a.fields && k in ref.entries {
      ObjectKey(r, a, ref, inc.entries, k);
    }
    if strip && IsLabelMap(a) {
      forall k | k in ref.entries && k in a.fields ensures !HasPrefix(k, RESERVED) {
        StrippedParts(a, ref, k);
      }
    }
    assert Reconcile.Reconcile(r, a, ref, inc) == Map(out);
    hide Reconcile.Reconcile, ObjectEntries, Strip;
    CleanedObject(strip, a, out);
    got := map k | k in out :: Cleaned(strip && !IsLabelMap(a), a.fields[k], out[k]);
  }

  /** One key of an object. */
  lemma KeyIsExact(strip: bool, r: Reconciler, a: Attr, ref: Value, inc: Value, k: string)
    requires !r.unmatched && !a.freeform && IsObject(a) && ref.Map? && inc.Map?
    requires k in ref.entries && k in a.fields && ref.entries[k].Known() && (strip ==> Strip(a, ref) == ref)
    requires k in inc.entries ==>
               (Recorded(strip && !IsLabelMap(a), r, a.fields[k], ref.entries[k], inc.entries[k]) == ref.entries[k] <==>
                Answers(strip && !IsLabelMap(a), r, a.fields[k], ref.entries[k], inc.entries[k]))
    ensures var s, out := strip && !IsLabelMap(a), ObjectEntries(r, a, ref, inc.entries);
            (k in out && Cleaned(s, a.fields[k], out[k]) == ref.entries[k]) <==> KeyAnswers(s, r, a, ref, inc, k)
  {
    if strip {
      StrippedParts(a, ref, k);
    }
    ObjectKey(r, a, ref, inc.entries, k);
    hide Reconcile.Reconcile, ObjectEntries, Strip, Answers;
  }

  /** One object of DriftIsExact. */
  lemma ObjectDriftIsExact(strip: bool, r: Reconciler, a: Attr, ref: Value, inc: Value)
    requires !r.unmatched && !a.freeform && IsObject(a) && ref.Map? && inc.Map?
    requires forall k | k in ref.entries :: k in a.fields && ref.entries[k].Known()
    requires strip ==> Strip(a, ref) == ref
    requires forall k | k in ref.entries && k in inc.entries ::
               Recorded(strip && !IsLabelMap(a), r, a.fields[k], ref.entries[k], inc.entries[k]) == ref.entries[k] <==>
               Answers(strip && !IsLabelMap(a), r, a.fields[k], ref.entries[k], inc.entries[k])
    ensures Recorded(strip, r, a, ref, inc) == ref <==> Answers(strip, r, a, ref, inc)
  {
    var s := strip && !IsLabelMap(a);
    var got := RecordedKeys(strip, r, a, ref, inc);
    ObjectAnswersIff(strip, r, a, ref, inc);
    forall k | k in ref.entries
      ensures (k in got && got[k] == ref.entries[k]) <==> KeyAnswers(s, r, a, ref, inc, k)
    {
      KeyIsExact(strip, r, a, ref, inc, k);
      hide Strip, ObjectEntries, KeyAnswers, Recorded, Answers, Cleaned;
    }
    hide Strip, ObjectEntries, KeyAnswers, Recorded, Answers;
    SameEntries(got, ref.entries);
  }

  lemma SameEntries(got: map<string, Value>, want: map<string, Value>)
    requires forall k | k in got :: k in want
    ensures got == want <==> forall k | k in want :: k in got && got[k] == want[k]
  {}

  lemma ListDriftIsExact(strip: bool, r: Reconciler, a: Attr, ref: Value, inc: Value)
    requires !r.unmatched && !a.unordered && !a.freeform && !IsObject(a) && IsList(a) && ref.List? && inc.List?
    requires strip ==> Strip(a, ref) == ref
    requires forall i | 0 <= i < |ref.items| && i < |inc.items| ::
               Recorded(strip && a.fields == map[], r, a.elem.value, ref.items[i], inc.items[i]) == ref.items[i] <==>
               Answers(strip && a.fields == map[], r, a.elem.value, ref.items[i], inc.items[i])
    ensures Recorded(strip, r, a, ref, inc) == ref <==> Answers(strip, r, a, ref, inc)
  {
    var s := strip && a.fields == map[];
    var out := ListItems(r, a, ref, inc.items);
    var got := seq(|out|, i requires 0 <= i < |out| => Cleaned(s, a.elem.value, out[i]));
    assert Reconcile.Reconcile(r, a, ref, inc) == List(out);
    assert InElem(r, a) == r;
    if !s {
      assert got == out;
    }
    assert Recorded(strip, r, a, ref, inc) == List(got);
    forall i | 0 <= i < |got| && i < |ref.items|
      ensures got[i] == ref.items[i] <==> Answers(s, r, a.elem.value, ref.items[i], inc.items[i])
    {
      assert out[i] == Reconcile.Reconcile(r, a.elem.value, ref.items[i], inc.items[i]);
    }
    assert got == ref.items <==> |got| == |ref.items| && forall i | 0 <= i < |got| :: got[i] == ref.items[i];
  }

  lemma LeafDriftIsExact(strip: bool, r: Reconciler, a: Attr, ref: Value, inc: Value)
    requires inc.Known() && ref.Known()
    requires strip ==> Strip(a, ref) == ref
    ensures Cleaned(strip, a, Leaf(r, a, ref, inc)) == ref <==> LeafAnswers(strip, r, a, ref, inc)
  {}

  lemma StrippedItem(a: Attr, ref: Value, i: nat)
    requires a.fields == map[] && a.elem.Some? && !IsLabelMap(a) && ref.List? && Strip(a, ref) == ref && i < |ref.items|
    ensures Strip(a.elem.value, ref.items[i]) == ref.items[i]
  {
    assert Strip(a, ref).items[i] == ref.items[i];
  }

  // ---- reordered lists ---------------------------------------------------------

  lemma {:induction false} AnswersToStripped(a: Attr, w: Value, g: Value)
    requires Strip(a, w) == w
    ensures AnswersTo(w, Strip(a, g)) <==> AnswersTo(w, g)
    decreases a, w
  {
    if IsLabelMap(a) {
      if w.Map? && g.Map? {
        LabelsUnreserved(w);
      }
    } else if a.fields != map[] {
      if w.Map? && g.Map? {
        forall k | k in w.entries && k in g.entries
          ensures AnswersTo(w.entries[k], Strip(a, g).entries[k]) <==> AnswersTo(w.entries[k], g.entries[k])
        {
          if k in a.fields {
            StrippedEntry(a, w, k);
            AnswersToStripped(a.fields[k], w.entries[k], g.entries[k]);
          }
        }
      }
    } else if a.elem.Some? {
      if w.List? && g.List? && |w.items| == |g.items| {
        forall i | 0 <= i < |w.items|
          ensures AnswersTo(w.items[i], Strip(a, g).items[i]) <==> AnswersTo(w.items[i], g.items[i])
        {
          assert Strip(a, w).items[i] == w.items[i];
          AnswersToStripped(a.elem.value, w.items[i], g.items[i]);
        }
      }
    }
  }

  lemma LabelsUnreserved(w: Value)
    requires w.Map? && Map(Unlabelled(w.entries)) == w
    ensures forall k | k in w.entries :: !HasPrefix(k, RESERVED)
  {
    assert Unlabelled(w.entries) == w.entries;
  }

  lemma StrippedEntry(a: Attr, w: Value, k: string)
    requires w.Map? && Strip(a, w) == w && !IsLabelMap(a) && a.fields != map[] && k in w.entries && k in a.fields
    ensures Strip(a.fields[k], w.entries[k]) == w.entries[k]
  {
    assert Strip(a, w).entries[k] == w.entries[k];
  }

  function CleanedAll(s: bool, e: Attr, items: seq<Value>): (out: seq<Value>)
    ensures |out| == |items|
  {
    seq(|items|, i requires 0 <= i < |items| => Cleaned(s, e, items[i]))
  }

  lemma {:induction false} FirstAnswerCleaned(s: bool, e: Attr, w: Value, items: seq<Value>)
    requires Cleaned(s, e, w) == w
    ensures FirstAnswer(w, CleanedAll(s, e, items)) == FirstAnswer(w, items)
    decreases |items|
  {
    if items != [] {
      hide AnswersTo, Strip;
      if s {
        AnswersToStripped(e, w, items[0]);
      }
      assert CleanedAll(s, e, items)[1..] == CleanedAll(s, e, items[1..]);
      FirstAnswerCleaned(s, e, w, items[1..]);
    }
  }

  lemma CleanedParts(s: bool, e: Attr, items: seq<Value>, i: nat, rest: seq<Value>)
    requires i < |items|
    ensures Without(CleanedAll(s, e, items), i) == CleanedAll(s, e, Without(items, i))
    ensures CleanedAll(s, e, [items[i]] + rest) == [CleanedAll(s, e, items)[i]] + CleanedAll(s, e, rest)
  {
    hide Cleaned;
  }

  /** Matching first and dropping reserved labels then is dropping them first. */
  lemma {:induction false} CleanedMatched(s: bool, e: Attr, refs: seq<Value>, items: seq<Value>)
    requires forall w | w in refs :: Cleaned(s, e, w) == w
    ensures CleanedAll(s, e, Matched(refs, items)) == Matched(refs, CleanedAll(s, e, items))
    decreases |refs|
  {
    hide Cleaned, CleanedAll, Without, AnswersTo;
    if refs != [] {
      var w, all := refs[0], CleanedAll(s, e, items);
      assert w in refs;
      forall v | v in refs[1..] ensures v in refs {}
      FirstAnswerCleaned(s, e, w, items);
      var i := FirstAnswer(w, items);
      if i < |items| {
        var rest := Matched(refs[1..], Without(items, i));
        CleanedMatched(s, e, refs[1..], Without(items, i));
        CleanedParts(s, e, items, i, rest);
        assert Matched(refs, items) == [items[i]] + rest;
        assert Matched(refs, all) == [all[i]] + Matched(refs[1..], Without(all, i));
      } else {
        CleanedMatched(s, e, refs[1..], items);
        assert Matched(refs, items) == Matched(refs[1..], items);
        assert Matched(refs, all) == Matched(refs[1..], all);
      }
    }
  }

  /** Every element of the answer reads the same whichever element of the reference it is
      handed, and no element of the reference is answered by another. */
  ghost predicate Reorderable(r: Reconciler, a: Attr, refs: seq<Value>, inc: seq<Value>)
    requires a.elem.Some?
  {
    && AnsweredOnlyByItself(refs, refs)
    && forall i | 0 <= i < |inc| :: IndependentItem(InElem(r, a), a.elem.value, inc[i])
  }

  lemma AloneIs(strip: bool, r: Reconciler, a: Attr, ref: Value, inc: seq<Value>)
    requires a.elem.Some? && a.unordered && ref.List? && |inc| <= |ref.items|
    requires forall i | 0 <= i < |inc| :: IndependentItem(InElem(r, a), a.elem.value, inc[i])
    requires forall i | 0 <= i < |inc| :: IsSibling(a.elem.value, ref.items[i])
    ensures CleanedAll(strip && a.fields == map[], a.elem.value, ListItems(r, a, ref, inc)) == Alone(strip, r, a, inc)
  {
    var s, e, q := strip && a.fields == map[], a.elem.value, InElem(r, a);
    var items := ListItems(r, a, ref, inc);
    hide Reconcile.Reconcile, Cleaned, IndependentItem, IsSibling;
    forall i | 0 <= i < |inc| ensures Cleaned(s, e, items[i]) == ItemAlone(strip, r, a, inc[i]) {
      BesideIff(q, e, inc[i]);
      assert items[i] == Reconcile.Reconcile(q, e, ref.items[i], inc[i]);
      assert ReadsAlikeBeside(q, e, inc[i]);
    }
  }

  lemma RecordedList(strip: bool, r: Reconciler, a: Attr, ref: Value, inc: Value)
    requires !a.freeform && !IsObject(a) && IsList(a) && a.unordered && ref.List? && inc.List?
    requires strip ==> Strip(a, ref) == ref
    ensures var s, e := strip && a.fields == map[], a.elem.value;
            Recorded(strip, r, a, ref, inc) == List(Matched(ref.items, CleanedAll(s, e, ListItems(r, a, ref, inc.items))))
  {
    var s, e := strip && a.fields == map[], a.elem.value;
    var items := ListItems(r, a, ref, inc.items);
    var out := Matched(ref.items, items);
    ReadsList(r, a, ref, inc);
    assert Recorded(strip, r, a, ref, inc) == List(CleanedAll(s, e, out)) by {
      hide Reconcile.Reconcile, Matched;
      assert CleanedAll(false, e, out) == out;
    }
    forall w | w in ref.items ensures Cleaned(s, e, w) == w {
      var i :| 0 <= i < |ref.items| && ref.items[i] == w;
      if s {
        StrippedItem(a, ref, i);
      }
    }
    hide Reconcile.Reconcile, Matched, Cleaned;
    CleanedMatched(s, e, ref.items, items);
  }

  lemma SizesDiffer(x: seq<Value>, y: seq<Value>)
    ensures |x| != |y| ==> multiset(x) != multiset(y)
  {
    assert |multiset(x)| == |x| && |multiset(y)| == |y|;
  }

  /** A REORDERED LIST is recorded as the reference exactly when the elements of the answer,
      each read on its own, are those of the reference. */
  lemma UnorderedDriftIsExact(strip: bool, r: Reconciler, a: Attr, ref: Value, inc: Value)
    requires !a.freeform && !IsObject(a) && IsList(a) && a.unordered && ref.List? && inc.List?
    requires strip ==> Strip(a, ref) == ref
    requires forall i | 0 <= i < |ref.items| :: IsSibling(a.elem.value, ref.items[i])
    requires Reorderable(r, a, ref.items, inc.items)
    ensures Recorded(strip, r, a, ref, inc) == ref <==> Answers(strip, r, a, ref, inc)
  {
    var s, e := strip && a.fields == map[], a.elem.value;
    var got := CleanedAll(s, e, ListItems(r, a, ref, inc.items));
    RecordedList(strip, r, a, ref, inc);
    PutBackIff(ref.items, got);
    assert Answers(strip, r, a, ref, inc) <==> multiset(Alone(strip, r, a, inc.items)) == multiset(ref.items);
    hide Recorded, Answers, Matched, ListItems, Alone, CleanedAll, AnsweredOnlyByItself, IndependentItem, IsSibling, Strip;
    if |inc.items| <= |ref.items| {
      AloneIs(strip, r, a, ref, inc.items);
    } else {
      SizesDiffer(got, ref.items);
      SizesDiffer(Alone(strip, r, a, inc.items), ref.items);
    }
  }

  // ---- drift detection is exact ------------------------------------------------

  /** Wherever configuration and the answer meet in a list Google may reorder, the answer's
      elements can be told apart from each other without the reference. */
  ghost predicate Tellable(r: Reconciler, a: Attr, ref: Value, inc: Value)
    decreases a
  {
    if a.freeform then true
    else if IsObject(a) then
      ref.Map? && inc.Map? ==> forall k | k in ref.entries && k in inc.entries && k in a.fields ::
        Tellable(r, a.fields[k], ref.entries[k], inc.entries[k])
    else if IsList(a) then
      ref.List? && inc.List? ==>
        if a.unordered then Reorderable(r, a, ref.items, inc.items)
        else forall i | 0 <= i < |ref.items| && i < |inc.items| :: Tellable(r, a.elem.value, ref.items[i], inc.items[i])
    else true
  }

  lemma {:induction false} OrderedIsTellable(r: Reconciler, a: Attr, ref: Value, inc: Value)
    requires AllOrdered(a)
    ensures Tellable(r, a, ref, inc)
    decreases a
  {
    if a.freeform {
    } else if IsObject(a) {
      if ref.Map? && inc.Map? {
        forall k | k in ref.entries && k in inc.entries && k in a.fields
          ensures Tellable(r, a.fields[k], ref.entries[k], inc.entries[k])
        {
          OrderedIsTellable(r, a.fields[k], ref.entries[k], inc.entries[k]);
        }
      }
    } else if IsList(a) && ref.List? && inc.List? {
      forall i | 0 <= i < |ref.items| && i < |inc.items|
        ensures Tellable(r, a.elem.value, ref.items[i], inc.items[i])
      {
        OrderedIsTellable(r, a.elem.value, ref.items[i], inc.items[i]);
      }
    }
  }

  lemma TypedIsSibling(a: Attr, v: Value)
    requires Typed(a, v)
    ensures IsSibling(a, v)
  {}

  lemma ScalarDriftIsExact(strip: bool, r: Reconciler, a: Attr, ref: Value, inc: Value)
    requires ref.Known() && (strip ==> Strip(a, ref) == ref)
    requires !inc.Known() || a.freeform || (IsObject(a) && !inc.Map?) || (!IsObject(a) && IsList(a) && !inc.List?) ||
             (!IsObject(a) && !IsList(a))
    requires Typed(a, ref)
    ensures Recorded(strip, r, a, ref, inc) == ref <==> Answers(strip, r, a, ref, inc)
  {
    if inc.Known() && !a.freeform && !IsObject(a) && !IsList(a) {
      LeafDriftIsExact(strip, r, a, ref, inc);
    }
  }

  /** DRIFT DETECTION IS EXACT: against a well typed reference (that holds no reserved
      label), state records exactly the reference if and only if the answer answers it. */
  lemma {:induction false} DriftIsExact(strip: bool, r: Reconciler, a: Attr, ref: Value, inc: Value)
    requires !r.unmatched && Typed(a, ref) && Tellable(r, a, ref, inc)
    requires strip ==> Strip(a, ref) == ref
    ensures Recorded(strip, r, a, ref, inc) == ref <==> Answers(strip, r, a, ref, inc)
    decreases a
  {
    hide Recorded, Answers, Strip, Reorderable;
    if inc.Known() && !a.freeform && IsObject(a) && inc.Map? {
      forall k | k in ref.entries && k in inc.entries
        ensures Recorded(strip && !IsLabelMap(a), r, a.fields[k], ref.entries[k], inc.entries[k]) == ref.entries[k] <==>
                Answers(strip && !IsLabelMap(a), r, a.fields[k], ref.entries[k], inc.entries[k])
      {
        if strip {
          StrippedParts(a, ref, k);
        }
        DriftIsExact(strip && !IsLabelMap(a), r, a.fields[k], ref.entries[k], inc.entries[k]);
      }
      ObjectDriftIsExact(strip, r, a, ref, inc);
    } else if inc.Known() && !a.freeform && !IsObject(a) && IsList(a) && inc.List? {
      if a.unordered {
        forall i | 0 <= i < |ref.items| ensures IsSibling(a.elem.value, ref.items[i]) {
          TypedIsSibling(a.elem.value, ref.items[i]);
        }
        UnorderedDriftIsExact(strip, r, a, ref, inc);
      } else {
        forall i | 0 <= i < |ref.items| && i < |inc.items|
          ensures Recorded(strip && a.fields == map[], r, a.elem.value, ref.items[i], inc.items[i]) == ref.items[i] <==>
                  Answers(strip && a.fields == map[], r, a.elem.value, ref.items[i], inc.items[i])
        {
          if strip && a.fields == map[] {
            StrippedItem(a, ref, i);
          }
          DriftIsExact(strip && a.fields == map[], r, a.elem.value, ref.items[i], inc.items[i]);
        }
        ListDriftIsExact(strip, r, a, ref, inc);
      }
    } else {
      ScalarDriftIsExact(strip, r, a, ref, inc);
    }
  }

  // ---- answers that read the same against anything -----------------------------

  lemma SplitOff(items: seq<Value>, i: nat)
    requires i < |items|
    ensures multiset(items) == multiset{items[i]} + multiset(Without(items, i))
    ensures |Without(items, i)| < |items|
  {
    assert items == items[..i] + [items[i]] + items[i + 1..];
  }

  function MapAll(f: Value -> Value, items: seq<Value>): (out: seq<Value>)
    ensures |out| == |items| && forall i | 0 <= i < |items| :: out[i] == f(items[i])
  {
    seq(|items|, i requires 0 <= i < |items| => f(items[i]))
  }

  lemma MapWithout(f: Value -> Value, items: seq<Value>, i: nat)
    requires i < |items|
    ensures MapAll(f, Without(items, i)) == Without(MapAll(f, items), i)
  {}

  lemma {:induction false} MapPermutes(f: Value -> Value, x: seq<Value>, y: seq<Value>)
    requires multiset(x) == multiset(y)
    ensures multiset(MapAll(f, x)) == multiset(MapAll(f, y))
    decreases |x|
  {
    hide Without;
    SizesDiffer(x, y);
    if x != [] {
      assert x[0] in multiset(y);
      var j :| 0 <= j < |y| && y[j] == x[0];
      var p, q := MapAll(f, x), MapAll(f, y);
      SplitOff(x, 0);
      SplitOff(y, j);
      SplitOff(p, 0);
      SplitOff(q, j);
      MapWithout(f, x, 0);
      MapWithout(f, y, j);
      hide MapAll;
      assert multiset(Without(x, 0)) == multiset(x) - multiset{x[0]};
      assert multiset(Without(y, j)) == multiset(y) - multiset{y[j]};
      MapPermutes(f, Without(x, 0), Without(y, j));
    }
  }

  /** Elements read on their own read the same in any order. */
  lemma AlonePermutes(strip: bool, r: Reconciler, a: Attr, x: seq<Value>, y: seq<Value>)
    requires a.elem.Some? && multiset(x) == multiset(y)
    ensures multiset(Alone(strip, r, a, x)) == multiset(Alone(strip, r, a, y))
  {
    hide ItemAlone;
    var f := (v: Value) => ItemAlone(strip, r, a, v);
    MapPermutes(f, x, y);
    assert Alone(strip, r, a, x) == MapAll(f, x) && Alone(strip, r, a, y) == MapAll(f, y);
  }

  lemma CleanedPermutes(s: bool, e: Attr, x: seq<Value>, y: seq<Value>)
    requires multiset(x) == multiset(y)
    ensures multiset(CleanedAll(s, e, x)) == multiset(CleanedAll(s, e, y))
  {
    hide Cleaned;
    var f := (v: Value) => Cleaned(s, e, v);
    MapPermutes(f, x, y);
    assert CleanedAll(s, e, x) == MapAll(f, x) && CleanedAll(s, e, y) == MapAll(f, y);
  }

  /** The elements of every list Google may reorder read the same against any reference. */
  ghost predicate Firm(r: Reconciler, a: Attr, inc: Value)
    decreases a
  {
    if a.freeform then true
    else if IsObject(a) then
      inc.Map? ==> forall k | k in inc.entries && k in a.fields :: Firm(r, a.fields[k], inc.entries[k])
    else if IsList(a) then
      inc.List? ==> forall i | 0 <= i < |inc.items| ::
        if a.unordered then Independent(InElem(r, a), a.elem.value, inc.items[i])
        else Firm(r, a.elem.value, inc.items[i])
    else true
  }

  lemma {:induction false} OrderedIsFirm(r: Reconciler, a: Attr, inc: Value)
    requires AllOrdered(a)
    ensures Firm(r, a, inc)
    decreases a
  {
    if a.freeform {
    } else if IsObject(a) {
      if inc.Map? {
        forall k | k in inc.entries && k in a.fields ensures Firm(r, a.fields[k], inc.entries[k]) {
          OrderedIsFirm(r, a.fields[k], inc.entries[k]);
        }
      }
    } else if IsList(a) && inc.List? {
      forall i | 0 <= i < |inc.items| ensures Firm(r, a.elem.value, inc.items[i]) {
        OrderedIsFirm(r, a.elem.value, inc.items[i]);
      }
    }
  }

  lemma FirmItem(r: Reconciler, a: Attr, ref: Value, inc: Value)
    requires r.unmatched && Independent(r, a, inc)
    ensures IndependentItem(r, a, inc)
    ensures Reconcile.Reconcile(r, a, ref, inc) == Reconcile.Reconcile(r, a, Sibling(a), inc)
  {
    IndependentIff(r, a, inc);
    hide Reconcile.Reconcile;
    assert Reconcile.Reconcile(r, a, ref, inc) == Reconcile.Reconcile(r, a, Zero, inc);
    assert Reconcile.Reconcile(r, a, Sibling(a), inc) == Reconcile.Reconcile(r, a, Zero, inc);
  }

  // ---- what was sent -----------------------------------------------------------

  lemma PlainEntry(r: Reconciler, a: Attr, ref: Value, v: Value, k: string)
    requires r.unmatched && (ref == Zero || ref == Map(map[])) && Sendable(a, v) && !a.freeform && IsObject(a)
    requires k in v.entries ==> Reconcile.Reconcile(r, a.fields[k], Zero, Retyped(v.entries[k])) == v.entries[k]
    ensures SameAt(ObjectEntries(r, a, ref, Retyped(v).entries), v.entries, k)
  {
    var inc := Retyped(v).entries;
    UnmatchedKey(r, a, ref, inc, k);
    hide Reconcile.Reconcile, ObjectEntries;
    assert Get(Entries(ref), k) == Zero;
  }

  lemma PlainEntries(r: Reconciler, a: Attr, ref: Value, v: Value)
    requires r.unmatched && (ref == Zero || ref == Map(map[])) && Sendable(a, v) && !a.freeform && IsObject(a)
    requires forall k | k in v.entries ::
               Reconcile.Reconcile(r, a.fields[k], Zero, Retyped(v.entries[k])) == v.entries[k]
    ensures ObjectEntries(r, a, ref, Retyped(v).entries) == v.entries
  {
    var out := ObjectEntries(r, a, ref, Retyped(v).entries);
    hide Reconcile.Reconcile, ObjectEntries, SameAt;
    forall k ensures SameAt(out, v.entries, k) {
      PlainEntry(r, a, ref, v, k);
    }
    SameMaps(out, v.entries);
  }

  lemma PlainLeaf(a: Attr, v: Value)
    requires Sendable(a, v) && !a.freeform && !IsObject(a) && !IsList(a)
    ensures Retyped(v).Known() && AsDeclaredKind(a, Retyped(v)) == v
  {
    RetypedIsIdentity(v);
  }

  /** What was sent is read back from an element of a reordered list as it was. */
  lemma {:induction false} EchoPlain(r: Reconciler, a: Attr, ref: Value, v: Value)
    requires r.unmatched && (ref == Zero || ref == Map(map[])) && Sendable(a, v)
    ensures Reconcile.Reconcile(r, a, ref, Retyped(v)) == v
    decreases a
  {
    if a.freeform {
      RetypedIsIdentity(v);
    } else if IsObject(a) {
      forall k | k in v.entries
        ensures Reconcile.Reconcile(r, a.fields[k], Zero, Retyped(v.entries[k])) == v.entries[k]
      {
        EchoPlain(r, a.fields[k], Zero, v.entries[k]);
      }
      PlainEntries(r, a, ref, v);
      ReadsObject(r, a, ref, Retyped(v));
    } else if IsList(a) {
      var inc := Retyped(v).items;
      var items := ListItems(r, a, ref, inc);
      assert InElem(r, a) == r;
      forall i | 0 <= i < |inc| ensures items[i] == v.items[i] {
        EchoPlain(r, a.elem.value, Zero, v.items[i]);
        assert RefItem(ref, i) == Zero;
      }
      assert items == v.items;
      ReadsList(r, a, ref, Retyped(v));
      assert Matched([], items) == items;
    } else {
      PlainLeaf(a, v);
      LeafIs(r, a, ref, Retyped(v));
    }
  }

  lemma SiblingIsBlank(a: Attr)
    ensures Sibling(a) == Zero || Sibling(a) == Map(map[])
  {}

  /** The elements of a list that was sent, each read on its own. */
  lemma EchoAlone(strip: bool, r: Reconciler, a: Attr, v: Value)
    requires Sendable(a, v) && !a.freeform && !IsObject(a) && IsList(a) && a.unordered
    requires strip ==> Strip(a, v) == v
    ensures Alone(strip, r, a, Retyped(v).items) == v.items
  {
    var inc, e := Retyped(v).items, a.elem.value;
    hide Reconcile.Reconcile, Sendable, Strip;
    forall i | 0 <= i < |inc| ensures ItemAlone(strip, r, a, inc[i]) == v.items[i] {
      ItemIsSendable(a, v, i);
      SiblingIsBlank(e);
      EchoPlain(InElem(r, a), e, Sibling(e), v.items[i]);
      if strip && a.fields == map[] {
        StrippedItem(a, v, i);
      }
    }
  }

  lemma ItemIsSendable(a: Attr, v: Value, i: nat)
    requires Sendable(a, v) && !a.freeform && !IsObject(a) && IsList(a)
    ensures v.List? && (i < |v.items| ==> Sendable(a.elem.value, v.items[i]) && Retyped(v).items[i] == Retyped(v.items[i]))
  {}
}
