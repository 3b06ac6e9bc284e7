/** An update settles (internal/gcprov/patch.go and reconcile.go): what the server holds after
    a patch answers the configuration the patch was made from. */
module Settling {
  import opened Values
  import opened Text
  import opened Catalog
  import opened Edits
  import opened Matching
  import opened Reconcile
  import opened Independence
  import opened Drift
  import opened Patch
  import opened Plan
  import Names

  /** What the server's datum for one attribute becomes. */
  ghost function After(a: Attr, have: Value, want: Value, j: Option<Json>): Option<Json> {
    if have == want then j
    else
      match DiffValue(a, have, want)
      case None => j
      case Some(c) => Some(Changed(j, c))
  }

  lemma {:induction false} DiffAttrIn(l: Level, skip: set<string>, names: seq<string>,
                                      have: map<string, Value>, want: map<string, Value>, k: string)
    requires (forall n | n in names :: n in l) && k in names
    ensures forall e | e in DiffAttr(l, skip, k, have, want) :: e in DiffLevel(l, skip, names, have, want)
    decreases |names|
  {
    if k != names[0] {
      DiffAttrIn(l, skip, names[1..], have, want, k);
    }
  }

  /** The edits under an attribute's wire name are its own. */
  lemma EditsNamed(l: Level, skip: set<string>, have: map<string, Value>, want: map<string, Value>, k: string)
    requires NamesOk(l) && k in l
    ensures var edits := DiffLevel(l, skip, SortedNames(l.Keys), have, want);
            forall e :: e in edits && e.name == l[k].canonical <==> e in DiffAttr(l, skip, k, have, want)
  {
    hide DiffLevel, DiffAttr;
    var edits := DiffLevel(l, skip, SortedNames(l.Keys), have, want);
    DiffAttrIn(l, skip, SortedNames(l.Keys), have, want, k);
    forall e | e in edits && e.name == l[k].canonical ensures e in DiffAttr(l, skip, k, have, want) {
      var n := DiffNames(l, skip, SortedNames(l.Keys), have, want, e);
      assert e in [e];
    }
  }

  /** A patch changes each attribute by its own difference, and no other. */
  lemma AppliedAt(l: Level, skip: set<string>, have: map<string, Value>, want: map<string, Value>, o: Object, k: string)
    requires LevelOk(l) && k in l && k !in skip && k in want && want[k].Known()
    ensures At(ApplyEdits(o, DiffLevel(l, skip, SortedNames(l.Keys), have, want)), l[k].canonical) ==
            After(l[k], Get(have, k), want[k], At(o, l[k].canonical))
  {
    hide DiffLevel, ApplyEdits, DiffValue, AttrOk, WellFormed, Changed;
    DiffIsWellFormed(l, skip, SortedNames(l.Keys), have, want);
    ApplyEditsAt(o, DiffLevel(l, skip, SortedNames(l.Keys), have, want), l[k].canonical);
    EditsNamed(l, skip, have, want, k);
    if DiffAttr(l, skip, k, have, want) != [] {
      assert DiffAttr(l, skip, k, have, want)[0] in DiffAttr(l, skip, k, have, want);
    }
  }

  // ---- what was sent, answered on the wire -------------------------------------

  lemma WireList(a: Attr, want: Value)
    requires AttrOk(a) && !a.freeform && !IsObject(a) && IsList(a) && Sendable(a, want)
    ensures var j := Names.WireValue(Some(a), want);
            && want.List? && j.JList? && |j.items| == |want.items|
            && (forall i | 0 <= i < |j.items| :: j.items[i] == Names.WireValue(a.elem, want.items[i]))
            && SchemaItems(a, j.items) == Retyped(want).items
  {
    hide Names.WireBody;
    var j := Names.WireValue(Some(a), want);
    forall i | 0 <= i < |j.items| ensures SchemaItems(a, j.items)[i] == Retyped(want).items[i] {
      ItemIsSendable(a, want, i);
      hide Names.WireValue, Names.SchemaValue, Sendable, AttrOk;
      Names.SendableIsPlain(a.elem.value, want.items[i]);
      Names.SchemaWireSchema(a.elem.value, want.items[i]);
    }
  }

  lemma WireLeaf(a: Attr, want: Value)
    requires ShapeOk(a) && Sendable(a, want) && (a.freeform || (!IsObject(a) && !IsList(a)))
    ensures FromRaw(Names.WireValue(Some(a), want)) == Retyped(want)
    ensures a.freeform ==> Retyped(want) == want
  {
    ValueRoundTrip(want);
    RetypedIsIdentity(want);
    hide Names.WireBody;
  }

  /** What was sent answers itself. */
  lemma {:induction false} EchoWire(strip: bool, r: Reconciler, a: Attr, want: Value)
    requires AttrOk(a) && Sendable(a, want) && (strip ==> Strip(a, want) == want)
    ensures AnswersWire(strip, r, a, want, Names.WireValue(Some(a), want))
    decreases a
  {
    hide Names.WireValue, Names.WireBody, Strip;
    if a.freeform {
      WireLeaf(a, want);
    } else if IsObject(a) {
      WireObject(a, want);
      forall k | k in want.entries
        ensures k in a.fields && a.fields[k].canonical in Names.WireBody(a.fields, want.entries)
        ensures AnswersWire(strip && !IsLabelMap(a), r, a.fields[k], want.entries[k],
                            Names.WireBody(a.fields, want.entries)[a.fields[k].canonical])
      {
        EchoField(strip, a, want, k);
        EchoWire(strip && !IsLabelMap(a), r, a.fields[k], want.entries[k]);
      }
    } else if IsList(a) {
      WireList(a, want);
      if a.unordered {
        EchoAlone(strip, r, a, want);
      } else {
        forall i | 0 <= i < |want.items|
          ensures AnswersWire(strip && a.fields == map[], r, a.elem.value, want.items[i],
                              Names.WireValue(a.elem, want.items[i]))
        {
          ItemIsSendable(a, want, i);
          if strip && a.fields == map[] {
            StrippedItem(a, want, i);
          }
          EchoWire(strip && a.fields == map[], r, a.elem.value, want.items[i]);
        }
      }
    } else {
      WireLeaf(a, want);
      PlainLeaf(a, want);
    }
  }

  lemma EchoField(strip: bool, a: Attr, want: Value, k: string)
    requires AttrOk(a) && !a.freeform && IsObject(a) && Sendable(a, want) && k in want.entries
    requires strip ==> Strip(a, want) == want
    ensures k in a.fields && !a.fields[k].output && Sendable(a.fields[k], want.entries[k])
    ensures a.fields[k].canonical in Names.WireBody(a.fields, want.entries)
    ensures Names.WireBody(a.fields, want.entries)[a.fields[k].canonical] ==
            Names.WireValue(Some(a.fields[k]), want.entries[k])
    ensures strip && !IsLabelMap(a) ==> Strip(a.fields[k], want.entries[k]) == want.entries[k]
  {
    Names.WrittenOnce(a.fields, want.entries, k);
    hide Names.WireValue, Names.WireBody;
    if strip {
      StrippedParts(a, want, k);
    }
  }

  // ---- answering but for what is hidden ----------------------------------------

  /** The attribute is one the API takes and never returns, and what was read of its object
      did not return it. */
  predicate Hidden(f: Attr, held: Option<Json>) {
    f.inputOnly && f.canonical !in ObjectOf(held)
  }

  /** j answers want, but perhaps for attributes hidden in what the server held. */
  ghost predicate AnswersBut(strip: bool, r: Reconciler, a: Attr, want: Value, held: Option<Json>, j: Json)
    decreases a
  {
    if a.freeform || !IsObject(a) then AnswersWire(strip, r, a, want, j)
    else
      && j.JObj? && want.Map?
      && forall k | k in want.entries && k in a.fields && !Hidden(a.fields[k], held) ::
           if a.fields[k].canonical in j.fields
           then AnswersBut(strip && !IsLabelMap(a), r, a.fields[k], want.entries[k],
                           At(ObjectOf(held), a.fields[k].canonical), j.fields[a.fields[k].canonical])
           else Excused(a.fields[k], want.entries[k])
  }

  lemma {:induction false} AnswersAll(strip: bool, r: Reconciler, a: Attr, want: Value, held: Option<Json>, j: Json)
    requires AnswersWire(strip, r, a, want, j)
    ensures AnswersBut(strip, r, a, want, held, j)
    decreases a
  {
    if !a.freeform && IsObject(a) {
      forall k | k in want.entries && k in a.fields && a.fields[k].canonical in j.fields
        ensures AnswersBut(strip && !IsLabelMap(a), r, a.fields[k], want.entries[k],
                           At(ObjectOf(held), a.fields[k].canonical), j.fields[a.fields[k].canonical])
      {
        AnswersAll(strip && !IsLabelMap(a), r, a.fields[k], want.entries[k], At(ObjectOf(held), a.fields[k].canonical),
                   j.fields[a.fields[k].canonical]);
      }
    }
  }

  /** What is configured. */
  predicate Configured(a: Attr, want: Value) {
    AttrOk(a) && Sendable(a, want)
  }

  lemma ConfiguredParts(a: Attr, want: Value)
    requires Configured(a, want)
    ensures AttrOk(a) && Sendable(a, want) && Typed(a, want) && want.Known()
  {
    SendableIsTyped(a, want);
  }

  lemma ConfiguredObject(a: Attr, want: Value)
    requires Configured(a, want) && a.fields != map[]
    ensures AttrOk(a) && ShapeOk(a) && IsObject(a) && !a.freeform && LevelOk(a.fields) && want.Map?
  {}

  lemma ConfiguredField(strip: bool, a: Attr, want: Value, k: string)
    requires Configured(a, want) && (strip ==> Strip(a, want) == want)
    requires a.fields != map[] && want.Map? && k in want.entries
    ensures k in a.fields && !a.fields[k].output && want.entries[k].Known()
    ensures Configured(a.fields[k], want.entries[k])
    ensures strip && !IsLabelMap(a) ==> Strip(a.fields[k], want.entries[k]) == want.entries[k]
  {
    SendableIsTyped(a, want);
    if strip {
      StrippedParts(a, want, k);
    }
  }

  // ---- a patch onto nothing ----------------------------------------------------

  lemma SentFromNothing(l: Level, skip: set<string>, want: map<string, Value>, k: string)
    requires k in l && k !in skip && k in want && want[k].Known()
    ensures DiffAttr(l, skip, k, map[], want) != []
  {
    hide Names.WireValue, DiffLevel;
  }

  lemma SomethingToSend(f: Attr, w: Value)
    requires AttrOk(f) && Sendable(f, w) && f.fields != map[] && w.Map? && w != Map(map[])
    ensures DiffValue(f, Map(map[]), w).Some?
  {
    hide AttrOk, Typed, LevelOk, DiffLevel, DiffAttr, Names.WireValue, OptionFree;
    var k :| k in w.entries;
    SettableKey(f, w, k);
    hide Sendable, ShapeOk;
    SentFromNothing(f.fields, Outputs(f.fields), w.entries, k);
    DiffAttrIn(f.fields, Outputs(f.fields), SortedNames(f.fields.Keys), map[], w.entries, k);
    var own := DiffAttr(f.fields, Outputs(f.fields), k, map[], w.entries);
    assert own[0] in own;
  }

  lemma SettableKey(f: Attr, w: Value, k: string)
    requires AttrOk(f) && Sendable(f, w) && f.fields != map[] && w.Map? && k in w.entries
    ensures k in f.fields && !f.fields[k].output && w.entries[k].Known()
  {
    SendableIsTyped(f.fields[k], w.entries[k]);
  }

  /** Patched onto an object that holds none of it, the change alone gives the whole value:
      every configured part is itself changed, or may be left out. */
  ghost predicate Fills(a: Attr, have: Value, want: Value)
    decreases want
  {
    a.fields != map[] && want.Map? && have.Map? ==>
      forall k | k in want.entries && k in a.fields ::
        var f, h, w := a.fields[k], Get(have.entries, k), want.entries[k];
        if h == w || DiffValue(f, h, w).None? then Excused(f, w) else Fills(f, h, w)
  }

  ghost function FromNothing(a: Attr, have: Value, want: Value): Object {
    if have.Map? && want.Map? then
      ApplyEdits(map[], DiffLevel(a.fields, Outputs(a.fields), SortedNames(a.fields.Keys), have.entries, want.entries))
    else map[]
  }

  lemma OntoNothing(a: Attr, have: Value, want: Value)
    requires have != want && DiffValue(a, have, want).Some?
    ensures After(a, have, want, None) ==
            Some(if a.fields != map[] && want.Map? && have.Map? then JObj(FromNothing(a, have, want))
                 else Names.WireValue(Some(a), want))
  {
    hide DiffLevel, Names.WireValue;
  }

  /** WHEN A PATCH ONTO NOTHING IS ENOUGH. */
  lemma {:induction false} FillsIff(strip: bool, r: Reconciler, a: Attr, have: Value, want: Value)
    requires Configured(a, want) && (strip ==> Strip(a, want) == want)
    requires have != want && DiffValue(a, have, want).Some?
    ensures var after := After(a, have, want, None);
            after.Some? && (AnswersWire(strip, r, a, want, after.value) <==> Fills(a, have, want))
    decreases want, 1
  {
    hide Strip, DiffLevel, DiffValue, ApplyEdits, Names.WireValue, After, Sendable, Reconcile.Reconcile, AttrOk, LevelOk,
      ShapeOk, Configured, FillsAt, FromNothing;
    OntoNothing(a, have, want);
    if a.fields != map[] && want.Map? && have.Map? {
      var fields := FromNothing(a, have, want);
      ConfiguredObject(a, want);
      forall k | k in want.entries && k in a.fields
        ensures FillsAt(strip && !IsLabelMap(a), r, a, have, want, fields, k)
      {
        FieldFills(strip, r, a, have, want, k);
      }
      FieldsFill(strip, r, a, have, want, fields);
    } else {
      ConfiguredParts(a, want);
      EchoWire(strip, r, a, want);
    }
  }

  ghost predicate FillsAt(s: bool, r: Reconciler, a: Attr, have: Value, want: Value, fields: Object, k: string)
    requires have.Map? && want.Map? && k in want.entries && k in a.fields
  {
    var f, h, w := a.fields[k], Get(have.entries, k), want.entries[k];
    (if f.canonical in fields then AnswersWire(s, r, f, w, fields[f.canonical]) else Excused(f, w)) <==>
    (if h == w || DiffValue(f, h, w).None? then Excused(f, w) else Fills(f, h, w))
  }

  lemma FieldsFill(strip: bool, r: Reconciler, a: Attr, have: Value, want: Value, fields: Object)
    requires !a.freeform && IsObject(a) && have.Map? && want.Map?
    requires forall k | k in want.entries && k in a.fields :: FillsAt(strip && !IsLabelMap(a), r, a, have, want, fields, k)
    ensures AnswersWire(strip, r, a, want, JObj(fields)) <==> Fills(a, have, want)
  {
    hide DiffValue;
  }

  lemma {:induction false} FieldFills(strip: bool, r: Reconciler, a: Attr, have: Value, want: Value, k: string)
    requires Configured(a, want) && (strip ==> Strip(a, want) == want)
    requires a.fields != map[] && want.Map? && have.Map? && k in want.entries && k in a.fields
    ensures FillsAt(strip && !IsLabelMap(a), r, a, have, want, FromNothing(a, have, want), k)
    decreases want, 0
  {
    hide Strip, DiffLevel, DiffValue, ApplyEdits, Names.WireValue, Sendable, Reconcile.Reconcile, AttrOk, LevelOk,
      AnswersWire, Fills, Configured, ShapeOk;
    ConfiguredObject(a, want);
    ConfiguredField(strip, a, want, k);
    var f, h, w := a.fields[k], Get(have.entries, k), want.entries[k];
    AppliedAt(a.fields, Outputs(a.fields), have.entries, want.entries, map[], k);
    if h != w && DiffValue(f, h, w).Some? {
      FillsIff(strip && !IsLabelMap(a), r, f, h, w);
    }
  }

  lemma NothingFills(a: Attr, want: Value)
    requires Configured(a, want)
    ensures Fills(a, Map(map[]), want)
  {
    if a.fields != map[] && want.Map? {
      forall k | k in want.entries && k in a.fields
        ensures want.entries[k] != Zero && DiffValue(a.fields[k], Zero, want.entries[k]).Some?
        ensures Fills(a.fields[k], Zero, want.entries[k])
      {
        ConfiguredField(false, a, want, k);
        hide AttrOk, Sendable, Names.WireValue;
      }
    }
  }

  // ---- an update settles -------------------------------------------------------

  lemma AfterObject(a: Attr, have: Value, want: Value, j: Json)
    requires a.fields != map[] && want.Map? && have.Map? && have != want && j.JObj?
    ensures After(a, have, want, Some(j)) ==
            Some(JObj(ApplyEdits(j.fields,
                                 DiffLevel(a.fields, Outputs(a.fields), SortedNames(a.fields.Keys), have.entries, want.entries))))
  {
    hide DiffLevel;
  }

  /** What the object's state shows for one of its fields. */
  lemma FieldSeen(strip: bool, r: Reconciler, a: Attr, prior: Value, j: Json, have: Value, k: string)
    requires !r.unmatched && AttrOk(a) && IsObject(a) && j.JObj? && Names.Unshadowed(Some(a), j) && k in a.fields
    requires have.Map? && have == Recorded(strip, r, a, prior, SchemaValue(a, j))
    ensures var h, f := Get(have.entries, k), a.fields[k];
            var s := strip && !IsLabelMap(a);
            if f.canonical in j.fields
            then h == Zero || h == Recorded(s, r, f, Get(Entries(prior), k), SchemaValue(f, j.fields[f.canonical]))
            else h == Zero ||
                 (h == Cleaned(s, f, Get(Entries(prior), k)) && (f.inputOnly || IsZero(Get(Entries(prior), k))))
  {
    assert Names.UnshadowedLevel(a.fields, j.fields) && !a.freeform && ShapeOk(a);
    hide Names.SchemaAttrs, Names.SchemaValue, AttrOk, Names.Unshadowed, Strip, Reconcile.Reconcile, ObjectEntries;
    SchemaValueOfObject(a, j);
    var inc := Names.SchemaAttrs(a.fields, j.fields);
    Names.ReadDeclared(a.fields, j.fields, k);
    RecordedObject(strip, r, a, prior, inc);
    if k in have.entries {
      CleanedEntry(strip, a, ObjectEntries(r, a, prior, inc), k);
      EntrySeen(r, a, prior, inc, k);
    }
  }

  lemma EntrySeen(r: Reconciler, a: Attr, prior: Value, inc: map<string, Value>, k: string)
    requires k in ObjectEntries(r, a, prior, inc)
    ensures k in a.fields
    ensures var p := Get(Entries(prior), k);
            if k in inc then ObjectEntries(r, a, prior, inc)[k] == Reconcile.Reconcile(r, a.fields[k], p, inc[k])
            else ObjectEntries(r, a, prior, inc)[k] == p && (a.fields[k].inputOnly || IsZero(p))
  {
    hide Reconcile.Reconcile;
  }

  lemma RecordedObject(strip: bool, r: Reconciler, a: Attr, prior: Value, inc: map<string, Value>)
    requires IsObject(a) && !a.freeform
    ensures Recorded(strip, r, a, prior, Map(inc)) == Cleaned(strip, a, Map(ObjectEntries(r, a, prior, inc)))
  {
    hide ObjectEntries, Strip;
  }

  lemma AfterLeaf(a: Attr, have: Value, want: Value, j: Json)
    ensures have == want ==> After(a, have, want, Some(j)) == Some(j)
    ensures have != want && !(a.fields != map[] && want.Map? && have.Map?) ==>
              After(a, have, want, Some(j)) == Some(Names.WireValue(Some(a), want))
  {
    hide DiffLevel, Names.WireValue;
  }

  lemma FirmField(r: Reconciler, a: Attr, j: Json, k: string)
    requires AttrOk(a) && !a.freeform && IsObject(a) && j.JObj? && Names.Unshadowed(Some(a), j)
    requires Firm(r, a, SchemaValue(a, j)) && k in a.fields && a.fields[k].canonical in j.fields
    ensures Firm(r, a.fields[k], SchemaValue(a.fields[k], j.fields[a.fields[k].canonical]))
  {
    SchemaValueOfObject(a, j);
    Names.ReadDeclared(a.fields, j.fields, k);
    hide Names.SchemaAttrs, Names.SchemaValue, AttrOk;
  }

  /** A PATCH SETTLES what the server held: whatever it was read against before, the datum
      after the patch answers what is configured, but for attributes that were hidden. */
  lemma {:induction false} Settles(strip: bool, r: Reconciler, a: Attr, prior: Value, j: Json, have: Value, want: Value)
    requires !r.unmatched && Configured(a, want) && (strip ==> Strip(a, want) == want)
    requires Names.Unshadowed(Some(a), j) && Firm(r, a, SchemaValue(a, j))
    requires have == Zero || have == Recorded(strip, r, a, prior, SchemaValue(a, j))
    ensures var after := After(a, have, want, Some(j));
            after.Some? && AnswersBut(strip, r, a, want, Some(j), after.value)
    decreases want, 1
  {
    hide Names.SchemaAttrs, Names.SchemaValue, Names.WireValue, Answers, Reconcile.Reconcile, Recorded, DiffLevel, After,
      AttrOk, Names.Unshadowed, AnswersWire, AnswersBut, Firm, Strip, Configured, Sendable, Typed;
    ConfiguredParts(a, want);
    AfterLeaf(a, have, want, j);
    if have == want {
      ReadsAsAnswers(strip, r, a, prior, want, SchemaValue(a, j));
      WireAnswers(strip, r, a, want, j);
      AnswersAll(strip, r, a, want, Some(j), j);
    } else if a.fields != map[] && want.Map? && have.Map? {
      ObjectSettles(strip, r, a, prior, j, have, want);
    } else {
      EchoWire(strip, r, a, want);
      AnswersAll(strip, r, a, want, Some(j), Names.WireValue(Some(a), want));
    }
  }

  /** One field of a settled object. */
  ghost predicate FieldIsSettled(s: bool, r: Reconciler, a: Attr, want: Value, held: Option<Json>, fields: Object, k: string)
    requires want.Map? && k in want.entries
  {
    k in a.fields && (!Hidden(a.fields[k], held) ==>
      var f := a.fields[k];
      if f.canonical in fields
      then AnswersBut(s, r, f, want.entries[k], At(ObjectOf(held), f.canonical), fields[f.canonical])
      else Excused(f, want.entries[k]))
  }

  lemma {:induction false} ObjectSettles(strip: bool, r: Reconciler, a: Attr, prior: Value, j: Json, have: Value, want: Value)
    requires !r.unmatched && Configured(a, want) && (strip ==> Strip(a, want) == want)
    requires Names.Unshadowed(Some(a), j) && Firm(r, a, SchemaValue(a, j))
    requires have == Recorded(strip, r, a, prior, SchemaValue(a, j))
    requires have != want && a.fields != map[] && want.Map? && have.Map?
    ensures var after := After(a, have, want, Some(j));
            after.Some? && AnswersBut(strip, r, a, want, Some(j), after.value)
    decreases want, 0, 1
  {
    ConfiguredObject(a, want);
    SchemaValueOfObject(a, j);
    assert j.JObj?;
    var sub := DiffLevel(a.fields, Outputs(a.fields), SortedNames(a.fields.Keys), have.entries, want.entries);
    var fields := ApplyEdits(j.fields, sub);
    AfterObject(a, have, want, j);
    ConfiguredObject(a, want);
    hide Answers, Reconcile.Reconcile, Recorded, Strip, DiffLevel, DiffValue, ApplyEdits, AttrOk, Sendable, Firm,
      Names.Unshadowed, Names.SchemaValue, LevelOk, FieldIsSettled;
    forall k | k in want.entries ensures FieldIsSettled(strip && !IsLabelMap(a), r, a, want, Some(j), fields, k) {
      hide AnswersBut, After;
      FieldSettles(strip, r, a, prior, j, have, want, k);
    }
    FieldsSettled(strip, r, a, want, Some(j), fields);
  }

  lemma FieldsSettled(strip: bool, r: Reconciler, a: Attr, want: Value, held: Option<Json>, fields: Object)
    requires !a.freeform && IsObject(a) && want.Map?
    requires forall k | k in want.entries :: FieldIsSettled(strip && !IsLabelMap(a), r, a, want, held, fields, k)
    ensures AnswersBut(strip, r, a, want, held, JObj(fields))
  {}

  lemma {:induction false} FieldSettles(strip: bool, r: Reconciler, a: Attr, prior: Value, j: Json,
                                        have: Value, want: Value, k: string)
    requires !r.unmatched && Configured(a, want) && (strip ==> Strip(a, want) == want)
    requires Names.Unshadowed(Some(a), j) && j.JObj? && Firm(r, a, SchemaValue(a, j))
    requires have == Recorded(strip, r, a, prior, SchemaValue(a, j))
    requires a.fields != map[] && want.Map? && have.Map? && k in want.entries
    ensures var sub := DiffLevel(a.fields, Outputs(a.fields), SortedNames(a.fields.Keys), have.entries, want.entries);
            FieldIsSettled(strip && !IsLabelMap(a), r, a, want, Some(j), ApplyEdits(j.fields, sub), k)
    decreases want, 0, 0
  {
    hide Strip, DiffLevel, DiffValue, ApplyEdits, AttrOk, Sendable, Firm, Names.Unshadowed, Names.SchemaValue, LevelOk,
      AnswersBut, AnswersWire, After, Recorded, Reconcile.Reconcile, Cleaned, FieldIsSettled, Configured, ShapeOk;
    ConfiguredObject(a, want);
    ConfiguredField(strip, a, want, k);
    var f, h, w := a.fields[k], Get(have.entries, k), want.entries[k];
    var s, p := strip && !IsLabelMap(a), Get(Entries(prior), k);
    FieldSeen(strip, r, a, prior, j, have, k);
    AppliedAt(a.fields, Outputs(a.fields), have.entries, want.entries, j.fields, k);
    var sub := DiffLevel(a.fields, Outputs(a.fields), SortedNames(a.fields.Keys), have.entries, want.entries);
    if f.canonical in j.fields {
      UnshadowedField(a, j, k);
      FirmField(r, a, j, k);
      Settles(s, r, f, p, j.fields[f.canonical], h, w);
    } else if !f.inputOnly {
      ZeroStays(s, f, p);
      LeftOutSettles(s, r, f, h, w);
    }
    SettledField(s, r, a, want, Some(j), ApplyEdits(j.fields, sub), k);
  }

  lemma SettledField(s: bool, r: Reconciler, a: Attr, want: Value, held: Option<Json>, fields: Object, k: string)
    requires want.Map? && k in want.entries && k in a.fields
    requires var f, after := a.fields[k], At(fields, a.fields[k].canonical);
             Hidden(f, held) ||
             (if after.Some? then AnswersBut(s, r, f, want.entries[k], At(ObjectOf(held), f.canonical), after.value)
              else Excused(f, want.entries[k]))
    ensures FieldIsSettled(s, r, a, want, held, fields, k)
  {
    hide AnswersBut;
  }

  lemma LeftOutSettles(s: bool, r: Reconciler, f: Attr, h: Value, w: Value)
    requires Configured(f, w) && (s ==> Strip(f, w) == w) && (h == Zero || IsZero(h))
    ensures var after := After(f, h, w, None);
            if after.Some? then AnswersBut(s, r, f, w, None, after.value) else Excused(f, w)
  {
    hide Strip, DiffLevel, AttrOk, Sendable, AnswersBut, AnswersWire, After, Configured;
    ConfiguredParts(f, w);
    UnansweredSettles(s, r, f, h, w);
    var after := After(f, h, w, None);
    if after.Some? {
      AnswersAll(s, r, f, w, None, after.value);
    }
  }

  lemma ZeroStays(s: bool, f: Attr, p: Value)
    ensures IsZero(p) ==> IsZero(Cleaned(s, f, p))
  {
    if IsZero(p) {
      StripZero(f, p);
    }
  }

  /** An attribute the answer left out settles too: it is excused, or it is sent whole. */
  lemma UnansweredSettles(s: bool, r: Reconciler, f: Attr, h: Value, w: Value)
    requires Configured(f, w) && (s ==> Strip(f, w) == w) && (h.Map? ==> h.entries == map[])
    ensures var after := After(f, h, w, None);
            if after.Some? then AnswersWire(s, r, f, w, after.value) else h == w
  {
    hide Strip, DiffLevel, AttrOk, Sendable, Names.WireValue, AnswersWire;
    if h != w {
      if f.fields != map[] && w.Map? && h.Map? {
        assert h == Map(map[]);
        SomethingToSend(f, w);
        NothingFills(f, w);
      } else {
        assert Fills(f, h, w);
      }
      FillsIff(s, r, f, h, w);
    }
  }

  // ---- answers that report what the server holds -------------------------------

  /** j reports the datum p as far as want goes: hidden attributes left out or answering;
      what p holds of the others reported in turn, or left out where that is excused, and
      what p does not hold left out or answering; leaves the same, or another spelling of
      what is configured. Whatever else j holds does not matter. */
  ghost predicate Reports(strip: bool, r: Reconciler, a: Attr, want: Value, held: Option<Json>, p: Json, j: Json)
    decreases a
  {
    if a.freeform then FromRaw(j) == FromRaw(p)
    else if IsObject(a) then
      && p.JObj? && j.JObj? && want.Map?
      && forall k | k in want.entries && k in a.fields ::
           var f, w, s := a.fields[k], want.entries[k], strip && !IsLabelMap(a);
           if f.canonical !in j.fields then Hidden(f, held) || f.canonical !in p.fields || Excused(f, w)
           else if Hidden(f, held) || f.canonical !in p.fields then AnswersWire(s, r, f, w, j.fields[f.canonical])
           else Reports(s, r, f, w, At(ObjectOf(held), f.canonical), p.fields[f.canonical], j.fields[f.canonical])
    else if IsList(a) then
      && p.JList? && j.JList? && want.List?
      && if a.unordered then multiset(SchemaItems(a, j.items)) == multiset(SchemaItems(a, p.items))
         else
           && |j.items| == |p.items| == |want.items|
           && forall i | 0 <= i < |j.items| ::
                Reports(strip && a.fields == map[], r, a.elem.value, want.items[i], Some(p.items[i]), p.items[i], j.items[i])
    else FromRaw(j) == FromRaw(p) || LeafAnswers(strip, r, a, want, FromRaw(j))
  }

  /** A report of what answers, answers. */
  lemma {:induction false} ReportAnswers(strip: bool, r: Reconciler, a: Attr, want: Value, held: Option<Json>, p: Json, j: Json)
    requires AnswersBut(strip, r, a, want, held, p) && Reports(strip, r, a, want, held, p, j)
    ensures AnswersWire(strip, r, a, want, j)
    decreases a, 1
  {
    if a.freeform {
    } else if IsObject(a) {
      forall k | k in want.entries && k in a.fields
        ensures if a.fields[k].canonical in j.fields
                then AnswersWire(strip && !IsLabelMap(a), r, a.fields[k], want.entries[k], j.fields[a.fields[k].canonical])
                else Excused(a.fields[k], want.entries[k])
      {
        ReportedField(strip, r, a, want, held, p, j, k);
      }
    } else if IsList(a) {
      if a.unordered {
        AlonePermutes(strip, r, a, SchemaItems(a, j.items), SchemaItems(a, p.items));
      } else {
        forall i | 0 <= i < |j.items|
          ensures AnswersWire(strip && a.fields == map[], r, a.elem.value, want.items[i], j.items[i])
        {
          AnswersAll(strip && a.fields == map[], r, a.elem.value, want.items[i], Some(p.items[i]), p.items[i]);
          ReportAnswers(strip && a.fields == map[], r, a.elem.value, want.items[i], Some(p.items[i]), p.items[i],
                        j.items[i]);
        }
      }
    }
  }

  lemma {:induction false} ReportedField(strip: bool, r: Reconciler, a: Attr, want: Value, held: Option<Json>, p: Json,
                                         j: Json, k: string)
    requires AnswersBut(strip, r, a, want, held, p) && Reports(strip, r, a, want, held, p, j)
    requires !a.freeform && IsObject(a) && k in want.entries && k in a.fields
    ensures if a.fields[k].canonical in j.fields
            then AnswersWire(strip && !IsLabelMap(a), r, a.fields[k], want.entries[k], j.fields[a.fields[k].canonical])
            else Excused(a.fields[k], want.entries[k])
    decreases a, 0
  {
    var f, w, s := a.fields[k], want.entries[k], strip && !IsLabelMap(a);
    if f.canonical in j.fields && !Hidden(f, held) && f.canonical in p.fields {
      var o := At(ObjectOf(held), f.canonical);
      assert AnswersBut(s, r, f, w, o, p.fields[f.canonical]);
      assert Reports(s, r, f, w, o, p.fields[f.canonical], j.fields[f.canonical]);
      hide AnswersBut, Reports, AnswersWire;
      ReportAnswers(s, r, f, w, o, p.fields[f.canonical], j.fields[f.canonical]);
    }
  }
}
