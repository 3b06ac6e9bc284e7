/** THE SECOND PLAN IS CLEAN: reading back and planning, composed, however often the
    resource is read again. */
module CleanPlan {
  import opened Values
  import opened Text
  import opened Catalog
  import opened Edits
  import opened Reconcile
  import opened Drift
  import opened Patch
  import opened Plan
  import opened Settling
  import Names

  // ---- setters -----------------------------------------------------------------

  /** A field of the setter that configuration sets and the resource does not hold. */
  ghost predicate SetsField(l: Level, f: string, current: map<string, Value>, desired: map<string, Value>) {
    var k := Names.KeyOf(l, f);
    k.Some? && k.value in desired && desired[k.value].Known() && Get(current, k.value) != desired[k.value]
  }

  ghost predicate SetterDue(l: Level, s: Setter, current: map<string, Value>, desired: map<string, Value>) {
    exists i :: 0 <= i < |s.fields| && SetsField(l, s.fields[i], current, desired)
  }

  ghost function ChangedSetters(l: Level, setters: seq<Setter>, current: map<string, Value>, desired: map<string, Value>):
    seq<Setter>
  {
    if setters == [] then []
    else (if SetterDue(l, setters[0], current, desired) then [setters[0]] else []) +
         ChangedSetters(l, setters[1..], current, desired)
  }

  lemma {:induction false} NoneDue(l: Level, setters: seq<Setter>, current: map<string, Value>, desired: map<string, Value>)
    ensures ChangedSetters(l, setters, current, desired) == [] <==>
            forall i | 0 <= i < |setters| :: !SetterDue(l, setters[i], current, desired)
  {
    if setters != [] {
      NoneDue(l, setters[1..], current, desired);
      forall i | 1 <= i < |setters| ensures setters[i] == setters[1..][i - 1] {}
    }
  }

  // ---- a difference always shows -----------------------------------------------

  lemma {:induction false} PlainIsTyped(a: Attr, v: Value)
    requires Names.Plain(a, v)
    ensures Typed(a, v)
  {
    if a.freeform {
    } else if IsObject(a) {
      forall k | k in v.entries ensures Typed(a.fields[k], v.entries[k]) {
        PlainIsTyped(a.fields[k], v.entries[k]);
      }
    } else if IsList(a) {
      forall i | 0 <= i < |v.items| ensures Typed(a.elem.value, v.items[i]) {
        PlainIsTyped(a.elem.value, v.items[i]);
      }
    }
  }

  /** Every object of have that faces one of want holds no key that one does not. */
  predicate Under(a: Attr, have: Value, want: Value)
    decreases want
  {
    a.fields != map[] && want.Map? && have.Map? ==>
      forall k | k in have.entries ::
        k in want.entries && (k in a.fields ==> Under(a.fields[k], have.entries[k], want.entries[k]))
  }

  lemma SomeEdit(a: Attr, have: Value, want: Value, k: string)
    requires a.fields != map[] && want.Map? && have.Map? && k in want.entries && k in a.fields && !a.fields[k].output
    requires want.entries[k].Known() && Get(have.entries, k) != want.entries[k]
    requires DiffValue(a.fields[k], Get(have.entries, k), want.entries[k]).Some?
    ensures DiffValue(a, have, want).Some?
  {
    var own := DiffAttr(a.fields, Outputs(a.fields), k, have.entries, want.entries);
    assert own != [];
    assert own[0] in own;
    DiffAttrIn(a.fields, Outputs(a.fields), SortedNames(a.fields.Keys), have.entries, want.entries, k);
    hide DiffLevel;
  }

  lemma PlainKey(a: Attr, want: Value, k: string)
    requires AttrOk(a) && Names.Plain(a, want) && a.fields != map[] && want.Map? && k in want.entries
    ensures k in a.fields && !a.fields[k].output && AttrOk(a.fields[k])
    ensures Names.Plain(a.fields[k], want.entries[k]) && want.entries[k].Known()
  {
    PlainIsTyped(a, want);
  }

  lemma FromZero(f: Attr, w: Value)
    ensures DiffValue(f, Zero, w).Some?
  {
    hide Names.WireValue;
  }

  /** Nothing that differs from configuration goes unpatched: the nested diff of what holds
      no more keys is empty only when nothing differs. */
  lemma {:induction false} DifferenceShows(a: Attr, have: Value, want: Value)
    requires AttrOk(a) && Names.Plain(a, want) && Under(a, have, want) && have != want
    ensures DiffValue(a, have, want).Some?
    decreases want
  {
    hide DiffLevel, Names.WireValue;
    if a.fields != map[] && want.Map? && have.Map? {
      hide DiffValue;
      SameEntries(have.entries, want.entries);
      var k :| k in want.entries && !(k in have.entries && have.entries[k] == want.entries[k]);
      PlainKey(a, want, k);
      hide AttrOk, Names.Plain;
      if k in have.entries {
        DifferenceShows(a.fields[k], have.entries[k], want.entries[k]);
      } else {
        FromZero(a.fields[k], want.entries[k]);
      }
      SomeEdit(a, have, want, k);
    }
  }

  /** Where the answer has an object that faces one of want, so has prior. */
  predicate Shaped(a: Attr, prior: Value, want: Value, inc: Value)
    decreases want
  {
    a.fields != map[] && want.Map? && inc.Map? ==>
      && prior.Map?
      && forall k | k in prior.entries && k in inc.entries && k in want.entries && k in a.fields ::
           Shaped(a.fields[k], prior.entries[k], want.entries[k], inc.entries[k])
  }

  lemma {:induction false} WantIsUnder(a: Attr, want: Value, inc: Value)
    requires Names.Plain(a, want) && AttrOk(a)
    ensures Under(a, want, want) && Shaped(a, want, want, inc)
    decreases want
  {
    if a.fields != map[] && want.Map? {
      PlainIsTyped(a, want);
      forall k | k in want.entries
        ensures k in a.fields && Under(a.fields[k], want.entries[k], want.entries[k])
        ensures inc.Map? && k in inc.entries ==> Shaped(a.fields[k], want.entries[k], want.entries[k], inc.entries[k])
      {
        WantIsUnder(a.fields[k], want.entries[k], if inc.Map? && k in inc.entries then inc.entries[k] else Zero);
      }
    }
  }

  lemma {:induction false} StripIsUnder(strip: bool, a: Attr, have: Value, want: Value)
    requires Under(a, have, want)
    ensures Under(a, Cleaned(strip, a, have), want)
    decreases want
  {
    if strip && a.fields != map[] && want.Map? && have.Map? {
      var out := Strip(a, have).entries;
      forall k | k in out
        ensures k in want.entries && (k in a.fields ==> Under(a.fields[k], out[k], want.entries[k]))
      {
        assert k in have.entries;
        if k in a.fields && !IsLabelMap(a) {
          StripIsUnder(true, a.fields[k], have.entries[k], want.entries[k]);
        }
      }
    }
  }

  lemma HaveKey(strip: bool, r: Reconciler, a: Attr, prior: Value, inc: map<string, Value>, have: Value, k: string)
    requires !r.unmatched && IsObject(a) && prior.Map? && have.Map? && k in have.entries
    requires have == Cleaned(strip, a, Map(ObjectEntries(r, a, prior, inc)))
    ensures k in a.fields && k in prior.entries
    ensures have.entries[k] == if k in inc
                               then Recorded(strip && !IsLabelMap(a), r, a.fields[k], prior.entries[k], inc[k])
                               else Cleaned(strip && !IsLabelMap(a), a.fields[k], prior.entries[k])
  {
    var out := ObjectEntries(r, a, prior, inc);
    assert k in out by {
      hide ObjectEntries;
    }
    ObjectKey(r, a, prior, inc, k);
    EntrySeen(r, a, prior, inc, k);
    CleanedEntry(strip, a, out, k);
    hide Reconcile.Reconcile, ObjectEntries, Strip;
  }

  lemma CopiedRead(strip: bool, r: Reconciler, a: Attr, prior: Value, inc: Value)
    requires AttrOk(a) && a.fields != map[] && !inc.Map?
    ensures !Recorded(strip, r, a, prior, inc).Map?
  {}

  /** Reading keeps this: what is read holds no key the reference does not. */
  lemma {:induction false} ReadIsUnder(strip: bool, r: Reconciler, a: Attr, prior: Value, want: Value, inc: Value)
    requires !r.unmatched && AttrOk(a) && Under(a, prior, want) && Shaped(a, prior, want, inc)
    ensures var have := Recorded(strip, r, a, prior, inc);
            Under(a, have, want) && Shaped(a, have, want, inc)
    decreases want
  {
    var have, s := Recorded(strip, r, a, prior, inc), strip && !IsLabelMap(a);
    if a.fields != map[] && want.Map? {
      if !inc.Map? {
        CopiedRead(strip, r, a, prior, inc);
      } else {
        RecordedObject(strip, r, a, prior, inc.entries);
        assert have.Map?;
        hide Reconcile.Reconcile, ObjectEntries, Strip, Recorded, Cleaned;
        forall k | k in have.entries
          ensures k in want.entries && k in a.fields && Under(a.fields[k], have.entries[k], want.entries[k])
          ensures k in inc.entries ==> Shaped(a.fields[k], have.entries[k], want.entries[k], inc.entries[k])
        {
          HaveKey(strip, r, a, prior, inc.entries, have, k);
          if k in inc.entries {
            ReadIsUnder(s, r, a.fields[k], prior.entries[k], want.entries[k], inc.entries[k]);
          } else {
            StripIsUnder(s, a.fields[k], prior.entries[k], want.entries[k]);
          }
        }
      }
    }
  }

  // ---- the second plan ---------------------------------------------------------

  /** An attribute the planner compares: patchable, or changed through a setter. */
  ghost predicate Compared(ty: Type, k: string) {
    k in ty.attributes && (k !in Skipped(ty) || SetterCarries(ty, ty.attributes[k].canonical))
  }

  /** The body answers one configured attribute. Left out of it, the attribute is excused,
      said by the resource's own id, or one that exists only in the create request. */
  ghost predicate AnswersAttr(r: Reconciler, a: Attr, ids: map<string, Value>, k: string, want: Value, body: Object) {
    if a.canonical in body then AnswersWire(true, r, a, want, body[a.canonical]) else SaidElsewhere(a, ids, k, want)
  }

  predicate SaidElsewhere(a: Attr, ids: map<string, Value>, k: string, want: Value) {
    Excused(a, want) || (if k in ids then ids[k] == want else a.createOnly)
  }

  /** State after the same answer has been read n times, the first against configuration and
      each other against the state before it. */
  ghost function StateAfter(r: Reconciler, l: Level, ids: map<string, Value>, desired: map<string, Value>, body: Object,
                            n: nat): map<string, Value>
  {
    if n == 0 then desired else StateOf(r, l, ids, StateAfter(r, l, ids, desired, body, n - 1), body)
  }

  /** Configuration and an answer that can be compared exactly; and, to be read more than
      once, an answer that reads the same against anything. */
  ghost predicate Exact(r: Reconciler, a: Attr, want: Value, body: Object, n: nat) {
    && AttrOk(a) && Names.Plain(a, want) && Strip(a, want) == want
    && (a.canonical in body ==>
          && Tellable(r, a, want, SchemaValue(a, body[a.canonical]))
          && (n > 1 ==> Firm(r, a, SchemaValue(a, body[a.canonical]))))
  }

  lemma ExactParts(r: Reconciler, a: Attr, want: Value, body: Object, n: nat)
    requires Exact(r, a, want, body, n)
    ensures AttrOk(a) && Typed(a, want) && want.Known() && Strip(a, want) == want
    ensures a.canonical in body ==>
              Tellable(r, a, want, SchemaValue(a, body[a.canonical])) &&
              (n > 1 ==> Firm(r, a, SchemaValue(a, body[a.canonical])) && Exact(r, a, want, body, n - 1))
    ensures n > 1 ==> Exact(r, a, want, body, n - 1)
  {
    PlainIsTyped(a, want);
    hide Tellable, Firm, Strip, AttrOk, Names.Plain;
  }

  /** What the answer says of one attribute can be read. */
  lemma UnshadowedAttr(l: Level, body: Object, k: string)
    requires NamesOk(l) && Names.UnshadowedBody(l, body) && k in l && l[k].canonical in body
    ensures Names.Unshadowed(Some(l[k]), body[l[k].canonical])
  {
    Names.KeyOfWire(l, k);
    hide Names.Unshadowed;
  }

  /** One attribute the answer holds, read n times. */
  lemma AnsweredIsClean(r: Reconciler, a: Attr, prior: Value, want: Value, body: Object, n: nat)
    requires !r.unmatched && a.canonical in body && Names.Unshadowed(Some(a), body[a.canonical])
    requires Exact(r, a, want, body, n) && n > 0 && (n == 1 ==> prior == want)
    requires AnswersWire(true, r, a, want, body[a.canonical]) ==> prior == want
    ensures Recorded(true, r, a, prior, SchemaValue(a, body[a.canonical])) == want <==>
            AnswersWire(true, r, a, want, body[a.canonical])
  {
    var inc := SchemaValue(a, body[a.canonical]);
    ExactParts(r, a, want, body, n);
    hide Exact, AttrOk, Typed, Strip, Tellable, Firm, Answers, AnswersWire, Recorded, SchemaValue, Names.Unshadowed;
    WireAnswers(true, r, a, want, body[a.canonical]);
    DriftIsExact(true, r, a, want, inc);
    if n > 1 && Recorded(true, r, a, prior, inc) == want {
      ReadsAsAnswers(true, r, a, prior, want, inc);
    }
  }

  lemma UnansweredIsClean(a: Attr, ids: map<string, Value>, prior: map<string, Value>, k: string, want: Value)
    requires want.Known() && (SaidElsewhere(a, ids, k, want) ==> Get(prior, k) == want)
    ensures Unanswered(a, ids, prior, k) == want <==> SaidElsewhere(a, ids, k, want)
  {}

  /** One more reading of one attribute. */
  lemma StepIsClean(r: Reconciler, l: Level, ids: map<string, Value>, prior: map<string, Value>, want: Value,
                    body: Object, k: string, n: nat)
    requires !r.unmatched && NamesOk(l) && Names.UnshadowedBody(l, body) && k in l && Exact(r, l[k], want, body, n)
    requires n > 0 && (n == 1 ==> Get(prior, k) == want)
    requires AnswersAttr(r, l[k], ids, k, want, body) ==> Get(prior, k) == want
    ensures Get(StateOf(r, l, ids, prior, body), k) == want <==> AnswersAttr(r, l[k], ids, k, want, body)
  {
    hide Exact, AnswersWire, StateOf, Names.UnshadowedBody, Names.UnshadowedLevel, NamesOk, Recorded, SchemaValue,
      Unanswered, SaidElsewhere;
    LevelIsUnshadowed(l, body);
    ExactParts(r, l[k], want, body, n);
    StateAt(r, l, ids, prior, body, k);
    if l[k].canonical in body {
      UnshadowedAttr(l, body, k);
      AnsweredIsClean(r, l[k], Get(prior, k), want, body, n);
    } else {
      UnansweredIsClean(l[k], ids, prior, k, want);
    }
  }

  lemma LevelIsUnshadowed(l: Level, body: Object)
    requires Names.UnshadowedBody(l, body)
    ensures Names.UnshadowedLevel(l, body)
  {}

  /** However often it is read, an attribute reads as configured exactly if the answer
      answers it. */
  lemma {:induction false} AttrIsClean(r: Reconciler, l: Level, ids: map<string, Value>, desired: map<string, Value>,
                                       body: Object, k: string, n: nat)
    requires !r.unmatched && NamesOk(l) && Names.UnshadowedBody(l, body) && n > 0
    requires k in l && k in desired && Exact(r, l[k], desired[k], body, n)
    ensures Get(StateAfter(r, l, ids, desired, body, n), k) == desired[k] <==>
            AnswersAttr(r, l[k], ids, k, desired[k], body)
    decreases n
  {
    hide Exact, AnswersAttr, StateOf, Names.UnshadowedBody, NamesOk;
    if n > 1 {
      ExactParts(r, l[k], desired[k], body, n);
      AttrIsClean(r, l, ids, desired, body, k, n - 1);
    }
    StepIsClean(r, l, ids, StateAfter(r, l, ids, desired, body, n - 1), desired[k], body, k, n);
  }

  // ---- the diff of what was read -----------------------------------------------

  lemma UnansweredIsFlat(a: Attr, ids: map<string, Value>, prior: map<string, Value>, k: string, want: Value)
    requires (forall n | n in ids :: ids[n].Str?) && (Get(prior, k) == want || !Get(prior, k).Map?)
    ensures Unanswered(a, ids, prior, k) == want || !Unanswered(a, ids, prior, k).Map?
  {}

  /** What a reading leaves of one attribute: no more keys than configured. */
  ghost predicate ReadUnder(a: Attr, have: Value, want: Value, body: Object) {
    if a.canonical in body
    then Under(a, have, want) && Shaped(a, have, want, SchemaValue(a, body[a.canonical]))
    else have == want || !have.Map?
  }

  lemma StepIsUnder(r: Reconciler, l: Level, ids: map<string, Value>, prior: map<string, Value>, want: Value,
                    body: Object, k: string)
    requires !r.unmatched && NamesOk(l) && Names.UnshadowedLevel(l, body) && k in l && AttrOk(l[k])
    requires forall m | m in ids :: ids[m].Str?
    requires ReadUnder(l[k], Get(prior, k), want, body)
    ensures ReadUnder(l[k], Get(StateOf(r, l, ids, prior, body), k), want, body)
  {
    hide NamesOk, AttrOk, StateOf, Names.UnshadowedLevel, Recorded, SchemaValue, Unanswered, Under, Shaped;
    StateAt(r, l, ids, prior, body, k);
    if l[k].canonical in body {
      ReadIsUnder(true, r, l[k], Get(prior, k), want, SchemaValue(l[k], body[l[k].canonical]));
    } else {
      UnansweredIsFlat(l[k], ids, prior, k, want);
    }
  }

  lemma {:induction false} StateIsUnder(r: Reconciler, l: Level, ids: map<string, Value>, desired: map<string, Value>,
                                        body: Object, k: string, n: nat)
    requires !r.unmatched && NamesOk(l) && Names.UnshadowedLevel(l, body) && k in l && k in desired
    requires AttrOk(l[k]) && Names.Plain(l[k], desired[k]) && forall m | m in ids :: ids[m].Str?
    ensures ReadUnder(l[k], Get(StateAfter(r, l, ids, desired, body, n), k), desired[k], body)
    decreases n
  {
    hide NamesOk, AttrOk, Names.Plain, StateOf, Names.UnshadowedLevel, Under, Shaped;
    if n == 0 {
      var a := l[k];
      WantIsUnder(a, desired[k], if a.canonical in body then SchemaValue(a, body[a.canonical]) else Zero);
    } else {
      hide ReadUnder;
      StateIsUnder(r, l, ids, desired, body, k, n - 1);
      StepIsUnder(r, l, ids, StateAfter(r, l, ids, desired, body, n - 1), desired[k], body, k);
    }
  }

  lemma DiffShowsAttr(r: Reconciler, l: Level, skip: set<string>, ids: map<string, Value>, desired: map<string, Value>,
                      body: Object, k: string, n: nat)
    requires !r.unmatched && LevelOk(l) && Names.UnshadowedBody(l, body)
    requires k in l && k in desired && Exact(r, l[k], desired[k], body, n) && k !in skip
    requires forall m | m in ids :: ids[m].Str?
    ensures DiffAttr(l, skip, k, StateAfter(r, l, ids, desired, body, n), desired) == [] <==>
            Get(StateAfter(r, l, ids, desired, body, n), k) == desired[k]
  {
    var a, want, state := l[k], desired[k], StateAfter(r, l, ids, desired, body, n);
    ExactParts(r, a, want, body, n);
    assert NamesOk(l) && Names.UnshadowedLevel(l, body) && Names.Plain(a, want);
    hide StateAfter, StateOf, Exact, LevelOk, NamesOk, AttrOk, Names.Plain, Names.UnshadowedBody, Names.UnshadowedLevel,
      Tellable, Firm, Typed, Strip, Under, Shaped, DiffLevel;
    StateIsUnder(r, l, ids, desired, body, k, n);
    DiffAttrIs(l, skip, k, state, desired);
    var have := Get(state, k);
    if have != want && a.canonical in body {
      DifferenceShows(a, have, want);
    }
  }

  lemma DiffAttrIs(l: Level, skip: set<string>, k: string, have: map<string, Value>, want: map<string, Value>)
    requires k in l && k in want && k !in skip && want[k].Known()
    ensures DiffAttr(l, skip, k, have, want) == [] <==>
            Get(have, k) == want[k] || DiffValue(l[k], Get(have, k), want[k]).None?
  {
    hide DiffValue;
  }

  lemma {:induction false} DiffIsEmpty(l: Level, skip: set<string>, names: seq<string>,
                                       have: map<string, Value>, want: map<string, Value>)
    requires forall k | k in names :: k in l
    ensures DiffLevel(l, skip, names, have, want) == [] <==>
            forall k | k in names :: DiffAttr(l, skip, k, have, want) == []
    decreases |names|
  {
    if names != [] {
      hide DiffAttr;
      DiffIsEmpty(l, skip, names[1..], have, want);
      assert names[0] in names;
      assert DiffLevel(l, skip, names, have, want) ==
             DiffAttr(l, skip, names[0], have, want) + DiffLevel(l, skip, names[1..], have, want);
      forall k | k in names ensures k == names[0] || k in names[1..] {}
      forall k | k in names[1..] ensures k in names {}
    }
  }

  /** The patch is empty exactly when every patchable attribute reads as configured. */
  lemma PatchIsEmpty(r: Reconciler, ty: Type, ids: map<string, Value>, desired: map<string, Value>, body: Object, n: nat)
    requires !r.unmatched && LevelOk(ty.attributes) && Names.UnshadowedBody(ty.attributes, body)
    requires forall m | m in ids :: ids[m].Str?
    requires forall k | k in desired && Compared(ty, k) :: Exact(r, ty.attributes[k], desired[k], body, n)
    ensures var state := StateAfter(r, ty.attributes, ids, desired, body, n);
            Diff(ty, state, desired) == [] <==>
            forall k | k in desired && k in ty.attributes && k !in Skipped(ty) :: Get(state, k) == desired[k]
  {
    var l, skip := ty.attributes, Skipped(ty);
    var state := StateAfter(r, l, ids, desired, body, n);
    hide StateAfter, Exact, Names.UnshadowedBody, LevelOk, DiffAttr, DiffLevel, Skipped;
    DiffIsEmpty(l, skip, SortedNames(l.Keys), state, desired);
    forall k | k in l
      ensures DiffAttr(l, skip, k, state, desired) == [] <==>
              (k in desired && k !in skip ==> Get(state, k) == desired[k])
    {
      if k in desired && k !in skip {
        assert Compared(ty, k);
        DiffShowsAttr(r, l, skip, ids, desired, body, k, n);
      } else {
        DiffSkips(l, skip, k, state, desired);
      }
    }
  }

  lemma DiffSkips(l: Level, skip: set<string>, k: string, have: map<string, Value>, want: map<string, Value>)
    requires k in l && (k in skip || k !in want)
    ensures DiffAttr(l, skip, k, have, want) == []
  {}

  /** Every compared attribute reads as configured. */
  ghost predicate Matches(ty: Type, state: map<string, Value>, desired: map<string, Value>) {
    forall k | k in desired && Compared(ty, k) :: Get(state, k) == desired[k]
  }

  lemma PatchedOrSet(ty: Type, state: map<string, Value>, desired: map<string, Value>)
    requires forall k | k in desired && Compared(ty, k) :: desired[k].Known()
    ensures Matches(ty, state, desired) <==>
            && (forall k | k in desired && k in ty.attributes && k !in Skipped(ty) :: Get(state, k) == desired[k])
            && (forall k | k in desired && k in ty.attributes && SetterCarries(ty, ty.attributes[k].canonical) ::
                  desired[k].Known() ==> Get(state, k) == desired[k])
  {
    hide Skipped, SetterCarries;
  }

  /** THE SECOND PLAN IS CLEAN: after a create or an update, the plan proposes nothing if
      and only if the answer answers the configuration, attribute by attribute; and that is
      so however often the same answer is read again before the plan. */
  lemma SecondPlanIsClean(r: Reconciler, ty: Type, ids: map<string, Value>, desired: map<string, Value>, body: Object, n: nat)
    requires !r.unmatched && LevelOk(ty.attributes) && Names.UnshadowedBody(ty.attributes, body) && n > 0
    requires forall m | m in ids :: ids[m].Str?
    requires forall k | k in desired && Compared(ty, k) :: Exact(r, ty.attributes[k], desired[k], body, n)
    ensures var state := StateAfter(r, ty.attributes, ids, desired, body, n);
            (Diff(ty, state, desired) == [] && ChangedSetters(ty.attributes, ty.setters, state, desired) == []) <==>
            forall k | k in desired && Compared(ty, k) ::
              AnswersAttr(r, ty.attributes[k], ids, k, desired[k], body)
  {
    var l := ty.attributes;
    var state := StateAfter(r, l, ids, desired, body, n);
    assert NamesOk(l);
    hide StateAfter, AnswersAttr, Exact, Names.UnshadowedBody, LevelOk, Diff, Skipped, SetterCarries, SetterDue,
      ChangedSetters, Compared;
    PatchIsEmpty(r, ty, ids, desired, body, n);
    NoneDue(l, ty.setters, state, desired);
    SettersCompare(ty, state, desired);
    forall k | k in desired && Compared(ty, k)
      ensures Get(state, k) == desired[k] <==> AnswersAttr(r, l[k], ids, k, desired[k], body)
      ensures desired[k].Known()
    {
      ComparedIsDeclared(ty, k);
      AttrIsClean(r, l, ids, desired, body, k, n);
      ExactParts(r, l[k], desired[k], body, n);
    }
    PatchedOrSet(ty, state, desired);
  }

  lemma ComparedIsDeclared(ty: Type, k: string)
    requires Compared(ty, k)
    ensures k in ty.attributes
  {}

  /** Some setter is due exactly when a field one carries differs. */
  lemma SettersCompare(ty: Type, state: map<string, Value>, desired: map<string, Value>)
    requires NamesOk(ty.attributes)
    ensures (forall i | 0 <= i < |ty.setters| :: !SetterDue(ty.attributes, ty.setters[i], state, desired)) <==>
            forall k | k in desired && k in ty.attributes && SetterCarries(ty, ty.attributes[k].canonical) ::
              desired[k].Known() ==> Get(state, k) == desired[k]
  {
    var l := ty.attributes;
    forall i | 0 <= i < |ty.setters| && SetterDue(l, ty.setters[i], state, desired)
      ensures exists k :: k in desired && k in l && SetterCarries(ty, l[k].canonical) &&
                          desired[k].Known() && Get(state, k) != desired[k]
    {
      var n :| 0 <= n < |ty.setters[i].fields| && SetsField(l, ty.setters[i].fields[n], state, desired);
      var k := Names.KeyOf(l, ty.setters[i].fields[n]).value;
      assert SetterCarries(ty, l[k].canonical);
    }
    forall k | k in desired && k in l && SetterCarries(ty, l[k].canonical) && desired[k].Known() && Get(state, k) != desired[k]
      ensures exists i :: 0 <= i < |ty.setters| && SetterDue(l, ty.setters[i], state, desired)
    {
      var i :| 0 <= i < |ty.setters| && l[k].canonical in ty.setters[i].fields;
      var n :| 0 <= n < |ty.setters[i].fields| && ty.setters[i].fields[n] == l[k].canonical;
      Names.KeyOfWire(l, k);
      assert SetsField(l, ty.setters[i].fields[n], state, desired);
    }
  }

  /** An opaque value, sent and answered unchanged, reads as it was configured exactly when
      it holds no whole float: JSON cannot say 1.0, and nothing below an opaque attribute
      declares the kind to retype it to. */
  lemma OpaqueEcho(r: Reconciler, a: Attr, want: Value)
    requires a.freeform && Resolved(want)
    ensures Recorded(false, r, a, want, SchemaValue(a, Names.WireValue(Some(a), want))) == want <==> NoWholeFloat(want)
  {
    ValueRoundTrip(want);
    RetypedIsIdentity(want);
    RetypedIsKnown(want);
  }

  lemma RetypedIsKnown(v: Value)
    ensures Retyped(v).Known() <==> v.Known()
  {}
}
