/** The claim the provider exists for: a second plan is clean, and one update is enough
    (e2e/workflow_test.go), composed of names.go, reconcile.go, patch.go and setters.go. */
module Plan {
  import opened Values
  import opened Text
  import opened Catalog
  import opened Edits
  import opened Matching
  import opened Reconcile
  import opened Independence
  import opened Drift
  import opened Patch
  import Names

  // ---- answers, read off the wire ----------------------------------------------

  /** The response datum j answers the configured value want: Answers, asked of the body
      by wire names. */
  ghost predicate AnswersWire(strip: bool, r: Reconciler, a: Attr, want: Value, j: Json)
    decreases a
  {
    if a.freeform then Cleaned(strip, a, FromRaw(j)) == want
    else if IsObject(a) then
      j.JObj? && want.Map? && forall k | k in want.entries && k in a.fields ::
        if a.fields[k].canonical in j.fields
        then AnswersWire(strip && !IsLabelMap(a), r, a.fields[k], want.entries[k], j.fields[a.fields[k].canonical])
        else Excused(a.fields[k], want.entries[k])
    else if IsList(a) then
      && j.JList? && want.List?
      && if a.unordered then multiset(Alone(strip, r, a, SchemaItems(a, j.items))) == multiset(want.items)
         else
           && |j.items| == |want.items|
           && forall i | 0 <= i < |j.items| ::
                AnswersWire(strip && a.fields == map[], r, a.elem.value, want.items[i], j.items[i])
    else LeafAnswers(strip, r, a, want, FromRaw(j))
  }

  /** The elements of an answered list, by schema names. */
  ghost function SchemaItems(a: Attr, items: seq<Json>): (vs: seq<Value>)
    requires a.elem.Some?
    ensures |vs| == |items|
  {
    seq(|items|, i requires 0 <= i < |items| => SchemaValue(a.elem.value, items[i]))
  }

  lemma SchemaValueOfObject(a: Attr, j: Json)
    requires ShapeOk(a) && IsObject(a)
    ensures SchemaValue(a, j).Map? <==> j.JObj?
    ensures j.JObj? ==> SchemaValue(a, j) == Map(Names.SchemaAttrs(a.fields, j.fields))
  {
    hide Names.SchemaAttrs;
  }

  ghost function SchemaValue(a: Attr, j: Json): Value {
    Names.SchemaValue(Some(a), j)
  }

  lemma SchemaValueOfList(a: Attr, j: Json)
    requires ShapeOk(a) && IsList(a)
    ensures SchemaValue(a, j).List? <==> j.JList?
    ensures j.JList? ==> |SchemaValue(a, j).items| == |j.items|
    ensures j.JList? ==> forall i | 0 <= i < |j.items| ::
              SchemaValue(a, j).items[i] == SchemaValue(a.elem.value, j.items[i])
    ensures j.JList? ==> SchemaValue(a, j) == List(SchemaItems(a, j.items))
  {
    hide Names.SchemaAttrs;
  }

  lemma SchemaValueOfLeaf(a: Attr, j: Json)
    requires ShapeOk(a) && (a.freeform || (!IsObject(a) && !IsList(a)))
    ensures SchemaValue(a, j) == FromRaw(j)
  {
    hide Names.SchemaAttrs;
  }

  lemma UnshadowedField(a: Attr, j: Json, k: string)
    requires AttrOk(a) && !a.freeform && a.fields != map[] && j.JObj? && Names.Unshadowed(Some(a), j)
    requires k in a.fields && a.fields[k].canonical in j.fields
    ensures Names.Unshadowed(Some(a.fields[k]), j.fields[a.fields[k].canonical])
  {
    Names.KeyOfWire(a.fields, k);
  }

  /** Translating to schema names loses nothing: a body answers on the wire exactly when
      what is read from it answers. */
  lemma {:induction false} WireAnswers(strip: bool, r: Reconciler, a: Attr, want: Value, j: Json)
    requires AttrOk(a) && want.Known() && Names.Unshadowed(Some(a), j) && Typed(a, want)
    ensures AnswersWire(strip, r, a, want, j) <==> Answers(strip, r, a, want, SchemaValue(a, j))
    decreases a, 1
  {
    if a.freeform {
      SchemaValueOfLeaf(a, j);
    } else if IsObject(a) {
      SchemaValueOfObject(a, j);
      if j.JObj? {
        ObjectWireAnswers(strip, r, a, want, j);
      }
    } else if IsList(a) {
      SchemaValueOfList(a, j);
      if j.JList? && !a.unordered && |j.items| == |want.items| {
        forall i | 0 <= i < |j.items|
          ensures AnswersWire(strip && a.fields == map[], r, a.elem.value, want.items[i], j.items[i]) <==>
                  Answers(strip && a.fields == map[], r, a.elem.value, want.items[i], SchemaValue(a, j).items[i])
        {
          WireAnswers(strip && a.fields == map[], r, a.elem.value, want.items[i], j.items[i]);
        }
      }
    } else {
      SchemaValueOfLeaf(a, j);
    }
  }

  lemma {:induction false} ObjectWireAnswers(strip: bool, r: Reconciler, a: Attr, want: Value, j: Json)
    requires AttrOk(a) && Names.Unshadowed(Some(a), j) && Typed(a, want)
    requires !a.freeform && IsObject(a) && j.JObj?
    ensures AnswersWire(strip, r, a, want, j) <==>
            Answers(strip, r, a, want, Map(Names.SchemaAttrs(a.fields, j.fields)))
    decreases a, 0, 1
  {
    var inc := Names.SchemaAttrs(a.fields, j.fields);
    hide Names.SchemaAttrs, AnswersWire, Answers;
    forall k | k in want.entries
      ensures k in a.fields
      ensures k in inc <==> a.fields[k].canonical in j.fields
      ensures k in inc ==> FieldAnswersAlike(strip && !IsLabelMap(a), r, a, want, j, inc, k)
    {
      FieldWireAnswers(strip && !IsLabelMap(a), r, a, want, j, k);
    }
    ObjectAnswersAlike(strip, r, a, want, j, inc);
  }

  ghost predicate FieldAnswersAlike(s: bool, r: Reconciler, a: Attr, want: Value, j: Json, inc: map<string, Value>, k: string)
    requires want.Map? && j.JObj? && k in want.entries && k in a.fields && k in inc && a.fields[k].canonical in j.fields
  {
    AnswersWire(s, r, a.fields[k], want.entries[k], j.fields[a.fields[k].canonical]) <==>
    Answers(s, r, a.fields[k], want.entries[k], inc[k])
  }

  lemma {:induction false} FieldWireAnswers(s: bool, r: Reconciler, a: Attr, want: Value, j: Json, k: string)
    requires AttrOk(a) && Names.Unshadowed(Some(a), j) && Typed(a, want)
    requires !a.freeform && IsObject(a) && j.JObj? && k in want.entries
    ensures k in Names.SchemaAttrs(a.fields, j.fields) <==> a.fields[k].canonical in j.fields
    ensures a.fields[k].canonical in j.fields ==>
              FieldAnswersAlike(s, r, a, want, j, Names.SchemaAttrs(a.fields, j.fields), k)
    decreases a, 0, 0
  {
    Names.ReadDeclared(a.fields, j.fields, k);
    hide Names.SchemaAttrs, AnswersWire, Answers;
    if a.fields[k].canonical in j.fields {
      UnshadowedField(a, j, k);
      WireAnswers(s, r, a.fields[k], want.entries[k], j.fields[a.fields[k].canonical]);
    }
  }

  lemma ObjectAnswersAlike(strip: bool, r: Reconciler, a: Attr, want: Value, j: Json, inc: map<string, Value>)
    requires !a.freeform && IsObject(a) && j.JObj? && want.Map?
    requires forall k | k in want.entries :: k in a.fields && (k in inc <==> a.fields[k].canonical in j.fields)
    requires forall k | k in want.entries && k in inc :: FieldAnswersAlike(strip && !IsLabelMap(a), r, a, want, j, inc, k)
    ensures AnswersWire(strip, r, a, want, j) <==> Answers(strip, r, a, want, Map(inc))
  {}

  // ---- reading the same answer against what was asked for ----------------------

  lemma CleanedEntry(strip: bool, a: Attr, m: map<string, Value>, k: string)
    requires IsObject(a) && Cleaned(strip, a, Map(m)).Map? && k in Cleaned(strip, a, Map(m)).entries && k in a.fields
    ensures k in m
    ensures Cleaned(strip, a, Map(m)).entries[k] == Cleaned(strip && !IsLabelMap(a), a.fields[k], m[k])
  {}

  lemma StripZero(a: Attr, v: Value)
    requires IsZero(v)
    ensures IsZero(Strip(a, v))
  {
    match v
    case Map(entries) => assert Strip(a, v).entries == map[];
    case _ =>
  }

  /** Reading once more against the value that was read changes nothing: whatever the
      answer was first compared with, if it read as want, it answers want. */
  lemma {:induction false} ReadsAsAnswers(strip: bool, r: Reconciler, a: Attr, prior: Value, want: Value, inc: Value)
    requires !r.unmatched && Firm(r, a, inc) && Typed(a, want)
    requires Recorded(strip, r, a, prior, inc) == want
    ensures Answers(strip, r, a, want, inc)
    decreases a, 1
  {
    if !inc.Known() || a.freeform {
    } else if IsObject(a) {
      ObjectReadsAsAnswers(strip, r, a, prior, want, inc);
    } else if IsList(a) {
      if a.unordered {
        SetReadsAsAnswers(strip, r, a, prior, want, inc);
      } else {
        ListReadsAsAnswers(strip, r, a, prior, want, inc);
      }
    } else {
      var got := AsDeclaredKind(a, inc);
      assert Leaf(r, a, prior, inc) == got || (prior.Str? && Leaf(r, a, prior, inc) == prior);
    }
  }

  lemma {:induction false} EntryReadsAsAnswers(strip: bool, r: Reconciler, a: Attr, prior: Value, want: Value,
                                               inc: map<string, Value>, k: string)
    requires !r.unmatched && Firm(r, a, Map(inc)) && Typed(a, want) && !a.freeform && IsObject(a)
    requires Cleaned(strip, a, Map(ObjectEntries(r, a, prior, inc))) == want && k in want.entries
    ensures k in a.fields
    ensures if k in inc then Answers(strip && !IsLabelMap(a), r, a.fields[k], want.entries[k], inc[k])
            else Excused(a.fields[k], want.entries[k])
    decreases a, 0, 0
  {
    var out := ObjectEntries(r, a, prior, inc);
    CleanedEntry(strip, a, out, k);
    hide Answers;
    if k in inc {
      ReadsAsAnswers(strip && !IsLabelMap(a), r, a.fields[k], Get(Entries(prior), k), want.entries[k], inc[k]);
    } else if IsZero(Get(Entries(prior), k)) {
      StripZero(a.fields[k], Get(Entries(prior), k));
    }
  }

  lemma {:induction false} ObjectReadsAsAnswers(strip: bool, r: Reconciler, a: Attr, prior: Value, want: Value, inc: Value)
    requires !r.unmatched && Firm(r, a, inc) && Typed(a, want) && inc.Known() && !a.freeform && IsObject(a)
    requires Recorded(strip, r, a, prior, inc) == want
    ensures Answers(strip, r, a, want, inc)
    decreases a, 0, 1
  {
    assert inc.Map?;
    assert Recorded(strip, r, a, prior, inc) == Cleaned(strip, a, Map(ObjectEntries(r, a, prior, inc.entries)));
    hide Reconcile.Reconcile, ObjectEntries, Strip;
    forall k | k in want.entries
      ensures k in a.fields
      ensures if k in inc.entries
              then Answers(strip && !IsLabelMap(a), r, a.fields[k], want.entries[k], inc.entries[k])
              else Excused(a.fields[k], want.entries[k])
    {
      EntryReadsAsAnswers(strip, r, a, prior, want, inc.entries, k);
    }
  }

  lemma {:induction false} ListReadsAsAnswers(strip: bool, r: Reconciler, a: Attr, prior: Value, want: Value, inc: Value)
    requires !r.unmatched && Firm(r, a, inc) && Typed(a, want) && inc.Known() && !a.freeform && !IsObject(a) && IsList(a)
    requires Recorded(strip, r, a, prior, inc) == want && !a.unordered
    ensures Answers(strip, r, a, want, inc)
    decreases a, 0
  {
    assert inc.List?;
    var s, out := strip && a.fields == map[], ListItems(r, a, prior, inc.items);
    assert Reconcile.Reconcile(r, a, prior, inc) == List(out);
    assert InElem(r, a) == r;
    assert |want.items| == |out|;
    forall i | 0 <= i < |inc.items| ensures Answers(s, r, a.elem.value, want.items[i], inc.items[i]) {
      assert want.items[i] == Cleaned(s, a.elem.value, out[i]);
      ReadsAsAnswers(s, r, a.elem.value, RefItem(prior, i), want.items[i], inc.items[i]);
    }
  }

  lemma FirmAlone(strip: bool, r: Reconciler, a: Attr, prior: Value, inc: seq<Value>)
    requires a.elem.Some? && a.unordered
    requires forall i | 0 <= i < |inc| :: Independent(InElem(r, a), a.elem.value, inc[i])
    ensures CleanedAll(strip && a.fields == map[], a.elem.value, ListItems(r, a, prior, inc)) == Alone(strip, r, a, inc)
  {
    var s, e, q := strip && a.fields == map[], a.elem.value, InElem(r, a);
    var items := ListItems(r, a, prior, inc);
    hide Reconcile.Reconcile, Cleaned, Independent;
    forall i | 0 <= i < |inc| ensures Cleaned(s, e, items[i]) == ItemAlone(strip, r, a, inc[i]) {
      FirmItem(q, e, RefItem(prior, i), inc[i]);
      assert items[i] == Reconcile.Reconcile(q, e, RefItem(prior, i), inc[i]);
    }
  }

  /** A list Google may reorder, whose elements read the same against anything. */
  lemma SetReadsAsAnswers(strip: bool, r: Reconciler, a: Attr, prior: Value, want: Value, inc: Value)
    requires Firm(r, a, inc) && Typed(a, want) && inc.Known() && !a.freeform && !IsObject(a) && IsList(a)
    requires Recorded(strip, r, a, prior, inc) == want && a.unordered
    ensures Answers(strip, r, a, want, inc)
  {
    assert inc.List?;
    var items := ListItems(r, a, prior, inc.items);
    var out := Matched(Items(prior), items);
    ReadsList(r, a, prior, inc);
    FirmAlone(strip, r, a, prior, inc.items);
    hide Reconcile.Reconcile, Matched, Cleaned, Independent, Alone, CleanedAll, ListItems, Typed;
    StrippedList(strip, a, out);
    MatchedConserves(Items(prior), items);
    CleanedPermutes(strip && a.fields == map[], a.elem.value, out, items);
  }

  lemma StrippedList(strip: bool, a: Attr, items: seq<Value>)
    requires !IsObject(a) && IsList(a)
    ensures Cleaned(strip, a, List(items)) == List(CleanedAll(strip && a.fields == map[], a.elem.value, items))
  {
    assert CleanedAll(false, a.elem.value, items) == items;
  }

  /** What was sent answers itself when it comes back. */
  lemma {:induction false} EchoAnswers(strip: bool, r: Reconciler, a: Attr, want: Value)
    requires Sendable(a, want) && (strip ==> Strip(a, want) == want)
    ensures Answers(strip, r, a, want, Retyped(want))
    decreases a
  {
    if a.freeform {
      RetypedIsIdentity(want);
    } else if IsObject(a) {
      forall k | k in want.entries
        ensures Answers(strip && !IsLabelMap(a), r, a.fields[k], want.entries[k], Retyped(want).entries[k])
      {
        if strip {
          StrippedParts(a, want, k);
        }
        EchoAnswers(strip && !IsLabelMap(a), r, a.fields[k], want.entries[k]);
      }
    } else if IsList(a) && a.unordered {
      EchoAlone(strip, r, a, want);
    } else if IsList(a) {
      forall i | 0 <= i < |want.items|
        ensures Answers(strip && a.fields == map[], r, a.elem.value, want.items[i], Retyped(want).items[i])
      {
        if strip && a.fields == map[] {
          StrippedItem(a, want, i);
        }
        EchoAnswers(strip && a.fields == map[], r, a.elem.value, want.items[i]);
      }
    } else {
      RetypedIsIdentity(want);
      assert AsDeclaredKind(a, Retyped(want)) == want;
    }
  }

  // ---- the state a read reports ------------------------------------------------

  /** Read's state: what the id says (`ids`, schema names), the answer reconciled against
      `prior` over it, create-only attributes carried, undeclared keys dropped. */
  ghost function StateOf(r: Reconciler, l: Level, ids: map<string, Value>, prior: map<string, Value>, body: Object):
    map<string, Value>
  {
    var out := ReconcileAttrs(r, l, prior, Names.SchemaAttrs(l, body));
    map k | k in l && (k in out || k in ids || (l[k].createOnly && k in prior)) ::
      if k in out then out[k] else if k in ids then ids[k] else prior[k]
  }

  /** What state holds for an attribute the answer left out. */
  function Unanswered(a: Attr, ids: map<string, Value>, prior: map<string, Value>, k: string): Value {
    if k in prior && prior[k].Known() && Excused(a, prior[k]) then prior[k]
    else if k in ids then ids[k]
    else if a.createOnly && k in prior then prior[k]
    else Zero
  }

  lemma StateAt(r: Reconciler, l: Level, ids: map<string, Value>, prior: map<string, Value>, body: Object, k: string)
    requires !r.unmatched && NamesOk(l) && Names.UnshadowedLevel(l, body) && k in l
    ensures Get(StateOf(r, l, ids, prior, body), k) ==
            if l[k].canonical in body
            then Recorded(true, r, l[k], Get(prior, k), SchemaValue(l[k], body[l[k].canonical]))
            else Unanswered(l[k], ids, prior, k)
  {
    hide Names.SchemaAttrs, Names.SchemaValue, Names.UnshadowedLevel, NamesOk, ReconcileAttrs, Recorded, Excused;
    Names.ReadDeclared(l, body, k);
    ReconciledAt(r, l, prior, Names.SchemaAttrs(l, body), k);
  }

  lemma ReconciledAt(r: Reconciler, l: Level, prior: map<string, Value>, inc: map<string, Value>, k: string)
    requires !r.unmatched && k in l
    ensures var out := ReconcileAttrs(r, l, prior, inc);
            if k in inc then k in out && out[k] == Recorded(true, r, l[k], Get(prior, k), inc[k])
            else if k in prior && prior[k].Known() && Excused(l[k], prior[k]) then k in out && out[k] == prior[k]
            else k !in out
  {
    hide Reconcile.Reconcile, Strip;
  }
}
