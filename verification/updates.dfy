/** ONE UPDATE IS ENOUGH (internal/gcprov/crud.go, reconcile.go and patch.go): diffing,
    patching and reading back, composed. */
module Updates {
  import opened Values
  import opened Text
  import opened Catalog
  import opened Edits
  import opened Reconcile
  import opened Drift
  import opened Patch
  import opened Plan
  import opened Settling
  import opened CleanPlan
  import Names

  // ---- one attribute -----------------------------------------------------------

  /** The object after the patch: `held` with the mask applied. */
  ghost function Patched(ty: Type, current: map<string, Value>, desired: map<string, Value>, held: Object): Object {
    ApplyMask(held, PatchBody(ty, current, desired), Paths(Diff(ty, current, desired)))
  }

  lemma PatchedAttr(ty: Type, current: map<string, Value>, desired: map<string, Value>, held: Object, k: string)
    requires LevelOk(ty.attributes) && k in ty.attributes && k !in Skipped(ty) && k in desired && desired[k].Known()
    ensures At(Patched(ty, current, desired, held), ty.attributes[k].canonical) ==
            After(ty.attributes[k], Get(current, k), desired[k], At(held, ty.attributes[k].canonical))
  {
    hide LevelOk, Skipped, DiffLevel, ApplyMask, ApplyEdits, EntryDone;
    MaskedPatch(ty, current, desired, held);
    AppliedAt(ty.attributes, Skipped(ty), current, desired, held, k);
  }

  /** The attribute is kept in state when an answer leaves it out. */
  predicate Carried(a: Attr) {
    a.inputOnly || a.createOnly
  }

  /** What one attribute of the server's object is after the patch: it answers
      configuration, but for what was hidden of it. */
  ghost predicate AttrSettled(r: Reconciler, a: Attr, ids: map<string, Value>, k: string, want: Value,
                              held: Option<Json>, after: Option<Json>)
  {
    if after.None? then SaidElsewhere(a, ids, k, want)
    else (held.None? && Carried(a)) || AnswersBut(true, r, a, want, held, after.value)
  }

  lemma UnansweredAttr(r: Reconciler, a: Attr, ids: map<string, Value>, prior: map<string, Value>, k: string, want: Value)
    requires Configured(a, want) && Strip(a, want) == want && forall n | n in ids :: ids[n].Str?
    ensures var have := Unanswered(a, ids, prior, k);
            AttrSettled(r, a, ids, k, want, None, After(a, have, want, None))
  {
    var have := Unanswered(a, ids, prior, k);
    hide Strip, DiffLevel, AttrOk, Sendable, Names.WireValue, AnswersBut, AnswersWire, DiffValue, After, Configured;
    ConfiguredParts(a, want);
    AfterNone(a, have, want);
    if have.Map? ==> have.entries == map[] {
      UnansweredSettles(true, r, a, have, want);
      var after := After(a, have, want, None);
      if after.Some? {
        AnswersAll(true, r, a, want, None, after.value);
      }
    } else {
      assert Carried(a);
      assert k in ids ==> a.inputOnly;
    }
  }

  lemma AfterNone(a: Attr, have: Value, want: Value)
    ensures have == want ==> After(a, have, want, None).None?
  {
    hide DiffValue;
  }

  /** One configured attribute, before and after the patch. */
  lemma AttrSettles(r: Reconciler, l: Level, ids: map<string, Value>, prior: map<string, Value>, o: Object,
                    want: Value, k: string)
    requires !r.unmatched && NamesOk(l) && Names.UnshadowedBody(l, o) && k in l
    requires Configured(l[k], want) && Strip(l[k], want) == want
    requires l[k].canonical in o ==> Firm(r, l[k], SchemaValue(l[k], o[l[k].canonical]))
    requires forall n | n in ids :: ids[n].Str?
    ensures var held := At(o, l[k].canonical);
            AttrSettled(r, l[k], ids, k, want, held, After(l[k], Get(StateOf(r, l, ids, prior, o), k), want, held))
  {
    hide StateOf, NamesOk, SchemaValue, Strip, AnswersBut, After, Configured, Firm, Recorded, Unanswered,
      Names.UnshadowedBody, Names.UnshadowedLevel, Names.Unshadowed, SaidElsewhere;
    LevelIsUnshadowed(l, o);
    StateAt(r, l, ids, prior, o, k);
    if l[k].canonical in o {
      UnshadowedAttr(l, o, k);
      Settles(true, r, l[k], Get(prior, k), o[l[k].canonical], Get(StateOf(r, l, ids, prior, o), k), want);
    } else {
      UnansweredAttr(r, l[k], ids, prior, k, want);
    }
  }

  // ---- one update is enough ----------------------------------------------------

  /** The next answer reports the attribute: it reports the datum the patch left, as far as
      configuration goes; or, where the patch left none, or a part of one the server had
      kept to itself, what it shows answers configuration. Left out, the attribute is said
      elsewhere, or is not there. */
  ghost predicate AttrReported(r: Reconciler, a: Attr, ids: map<string, Value>, k: string, want: Value,
                               held: Option<Json>, after: Option<Json>, answer: Option<Json>)
  {
    match answer
    case None => SaidElsewhere(a, ids, k, want) || after.None?
    case Some(j) =>
      if after.None? || (held.None? && Carried(a)) then AnswersWire(true, r, a, want, j)
      else Reports(true, r, a, want, held, after.value, j)
  }

  lemma ReportedIsAnswered(r: Reconciler, a: Attr, ids: map<string, Value>, k: string, want: Value,
                           held: Option<Json>, after: Option<Json>, body: Object)
    requires AttrSettled(r, a, ids, k, want, held, after)
    requires AttrReported(r, a, ids, k, want, held, after, At(body, a.canonical))
    ensures AnswersAttr(r, a, ids, k, want, body)
  {
    hide SaidElsewhere, AnswersBut, AnswersWire, Reports;
    if a.canonical in body && after.Some? && !(held.None? && Carried(a)) {
      ReportAnswers(true, r, a, want, held, after.value, body[a.canonical]);
    }
  }

  /** What configuration sets for one attribute a patch may name, and two answers about it. */
  ghost predicate Updatable(r: Reconciler, a: Attr, want: Value, held: Object, answer: Object, n: nat) {
    && Configured(a, want) && Strip(a, want) == want
    && (a.canonical in held ==> Firm(r, a, SchemaValue(a, held[a.canonical])))
    && (a.canonical in answer ==> Tellable(r, a, want, SchemaValue(a, answer[a.canonical])) &&
                                  (n > 1 ==> Firm(r, a, SchemaValue(a, answer[a.canonical]))))
  }

  lemma UpdatableIsExact(r: Reconciler, a: Attr, want: Value, held: Object, answer: Object, n: nat)
    requires Updatable(r, a, want, held, answer, n)
    ensures Exact(r, a, want, answer, n) && want.Known()
  {
    ConfiguredParts(a, want);
    hide AttrOk, Sendable, Strip, Firm, Tellable, SchemaValue;
    Names.SendableIsPlain(a, want);
  }

  lemma AttrIsEnough(r: Reconciler, ty: Type, ids: map<string, Value>, prior: map<string, Value>,
                     desired: map<string, Value>, held: Object, answer: Object, n: nat, k: string)
    requires !r.unmatched && LevelOk(ty.attributes) && n > 0
    requires Names.UnshadowedBody(ty.attributes, held) && Names.UnshadowedBody(ty.attributes, answer)
    requires forall m | m in ids :: ids[m].Str?
    requires k in desired && k in ty.attributes && k !in Skipped(ty)
    requires Updatable(r, ty.attributes[k], desired[k], held, answer, n)
    requires var current, c := StateOf(r, ty.attributes, ids, prior, held), ty.attributes[k].canonical;
             AttrReported(r, ty.attributes[k], ids, k, desired[k], At(held, c),
                          At(Patched(ty, current, desired, held), c), At(answer, c))
    ensures Get(StateAfter(r, ty.attributes, ids, desired, answer, n), k) == desired[k]
  {
    var l, a, want := ty.attributes, ty.attributes[k], desired[k];
    var current := StateOf(r, l, ids, prior, held);
    UpdatableIsExact(r, a, want, held, answer, n);
    assert NamesOk(l);
    hide StateOf, StateAfter, LevelOk, NamesOk, Patched, AttrReported, AttrSettled, AnswersAttr, Skipped, Exact,
      Names.UnshadowedBody, After, Configured, Firm, Tellable, Strip, SchemaValue;
    PatchedAttr(ty, current, desired, held, k);
    AttrSettles(r, l, ids, prior, held, want, k);
    ReportedIsAnswered(r, a, ids, k, want, At(held, a.canonical), At(Patched(ty, current, desired, held), a.canonical),
                       answer);
    AttrIsClean(r, l, ids, desired, answer, k, n);
  }

  /** ONE UPDATE IS ENOUGH. Read the resource against any earlier state, diff that against
      configuration, patch, and read again, once or more often: where the answer reports
      what the patch left, the next diff is empty, whatever else the server shows. */
  lemma OneUpdateIsEnough(r: Reconciler, ty: Type, ids: map<string, Value>, prior: map<string, Value>,
                          desired: map<string, Value>, held: Object, answer: Object, n: nat)
    requires !r.unmatched && LevelOk(ty.attributes) && n > 0
    requires Names.UnshadowedBody(ty.attributes, held) && Names.UnshadowedBody(ty.attributes, answer)
    requires forall m | m in ids :: ids[m].Str?
    requires forall k | k in desired && k in ty.attributes && k !in Skipped(ty) ::
               Updatable(r, ty.attributes[k], desired[k], held, answer, n)
    requires var current := StateOf(r, ty.attributes, ids, prior, held);
             forall k | k in desired && k in ty.attributes && k !in Skipped(ty) ::
               AttrReported(r, ty.attributes[k], ids, k, desired[k], At(held, ty.attributes[k].canonical),
                            At(Patched(ty, current, desired, held), ty.attributes[k].canonical),
                            At(answer, ty.attributes[k].canonical))
    ensures Diff(ty, StateAfter(r, ty.attributes, ids, desired, answer, n), desired) == []
  {
    var l, skip := ty.attributes, Skipped(ty);
    var current, state := StateOf(r, l, ids, prior, held), StateAfter(r, l, ids, desired, answer, n);
    hide StateOf, StateAfter, LevelOk, Patched, Skipped, DiffLevel, DiffAttr, Names.UnshadowedBody, Updatable,
      AttrReported;
    DiffIsEmpty(l, skip, SortedNames(l.Keys), state, desired);
    forall k | k in l ensures DiffAttr(l, skip, k, state, desired) == [] {
      if k in desired && k !in skip {
        UpdatableIsExact(r, l[k], desired[k], held, answer, n);
        AttrIsEnough(r, ty, ids, prior, desired, held, answer, n, k);
        DiffAttrIs(l, skip, k, state, desired);
      } else {
        DiffSkips(l, skip, k, state, desired);
      }
    }
  }

  // ---- where it is not ---------------------------------------------------------

  /** An attribute the API never returns is clean after one update, whatever it holds. */
  lemma NeverReturned(r: Reconciler, l: Level, ids: map<string, Value>, desired: map<string, Value>, answer: Object, k: string)
    requires !r.unmatched && NamesOk(l) && Names.UnshadowedLevel(l, answer) && k in l && k in desired && desired[k].Known()
    requires l[k].inputOnly && l[k].canonical !in answer
    ensures Get(StateOf(r, l, ids, desired, answer), k) == desired[k]
  {
    StateAt(r, l, ids, desired, answer, k);
    hide StateOf, Recorded, SchemaValue;
  }

  /** The patch alone leaves all of what is configured, if it changes anything. */
  ghost predicate PatchFills(a: Attr, have: Value, want: Value) {
    have == want || DiffValue(a, have, want).None? || Fills(a, have, want)
  }

  lemma ShownAsPatched(r: Reconciler, l: Level, ids: map<string, Value>, have: Value, desired: map<string, Value>,
                       answer: Object, k: string)
    requires !r.unmatched && NamesOk(l) && Names.UnshadowedBody(l, answer) && k in l && k in desired
    requires Updatable(r, l[k], desired[k], map[], answer, 1)
    requires At(answer, l[k].canonical) == After(l[k], have, desired[k], None)
    requires AttrSettled(r, l[k], ids, k, desired[k], None, After(l[k], have, desired[k], None))
    ensures Get(StateOf(r, l, ids, desired, answer), k) == desired[k] <==> PatchFills(l[k], have, desired[k])
  {
    var a, want := l[k], desired[k];
    UpdatableIsExact(r, a, want, map[], answer, 1);
    AfterNone(a, have, want);
    hide StateOf, NamesOk, Exact, Names.UnshadowedBody, Configured, Firm, Tellable, Strip, SchemaValue, DiffValue,
      AnswersWire, Fills, SaidElsewhere, AnswersBut;
    if have != want && DiffValue(a, have, want).Some? {
      FillsIff(true, r, a, have, want);
    }
    hide After;
    AttrIsClean(r, l, ids, desired, answer, k, 1);
    OneReading(r, l, ids, desired, answer);
  }

  /** WHEN A SECOND UPDATE IS NEEDED: an attribute the server held back when it was diffed,
      and then shows as the patch left it, reads as configured exactly if the patch alone
      fills it. An object with a changed field, and an unchanged one that is not zero, does
      not. */
  lemma HiddenThenShown(r: Reconciler, ty: Type, ids: map<string, Value>, prior: map<string, Value>,
                        desired: map<string, Value>, held: Object, answer: Object, k: string)
    requires !r.unmatched && LevelOk(ty.attributes) && k in ty.attributes && k !in Skipped(ty) && k in desired
    requires Names.UnshadowedBody(ty.attributes, held) && Names.UnshadowedBody(ty.attributes, answer)
    requires forall m | m in ids :: ids[m].Str?
    requires ty.attributes[k].canonical !in held && Updatable(r, ty.attributes[k], desired[k], held, answer, 1)
    requires At(answer, ty.attributes[k].canonical) ==
             At(Patched(ty, StateOf(r, ty.attributes, ids, prior, held), desired, held), ty.attributes[k].canonical)
    ensures Get(StateOf(r, ty.attributes, ids, desired, answer), k) == desired[k] <==>
            PatchFills(ty.attributes[k], Get(StateOf(r, ty.attributes, ids, prior, held), k), desired[k])
  {
    var l, a, want := ty.attributes, ty.attributes[k], desired[k];
    var current := StateOf(r, l, ids, prior, held);
    UpdatableIsExact(r, a, want, held, answer, 1);
    assert NamesOk(l) && Updatable(r, a, want, map[], answer, 1);
    hide StateOf, LevelOk, NamesOk, Patched, AttrSettled, Skipped, Exact, Names.UnshadowedBody, After, Configured, Firm,
      Tellable, Strip, SchemaValue, PatchFills;
    PatchedAttr(ty, current, desired, held, k);
    AttrSettles(r, l, ids, prior, held, want, k);
    ShownAsPatched(r, l, ids, Get(current, k), desired, answer, k);
  }

  lemma OneReading(r: Reconciler, l: Level, ids: map<string, Value>, desired: map<string, Value>, answer: Object)
    ensures StateAfter(r, l, ids, desired, answer, 1) == StateOf(r, l, ids, desired, answer)
  {
    hide StateOf;
    assert StateAfter(r, l, ids, desired, answer, 0) == desired;
  }

  const TEXT := Attr("x", KindString, map[], None, false, false, false, false, false, false, "")

  /** An object the API takes and never returns, with declared fields of its own. */
  const HIDDEN := Attr("h", KindMap, map["x" := TEXT, "y" := TEXT.(canonical := "y")], None,
                       false, false, true, false, false, false, "")

  const WAS := map["x" := Str("1"), "y" := Str("2")]
  const NOW := map["x" := Str("3"), "y" := Str("2")]

  lemma HiddenField(k: string)
    requires k in HIDDEN.fields
    ensures DiffAttr(HIDDEN.fields, {}, k, WAS, NOW) ==
            if k == "x" then [Edit("x", Replace(JStr("3")))] else []
  {
    if k == "x" {
      assert DiffValue(HIDDEN.fields["x"], WAS["x"], NOW["x"]) == Some(Replace(JStr("3")));
    }
  }

  lemma HiddenDiff()
    ensures DiffValue(HIDDEN, Map(WAS), Map(NOW)) == Some(Nested([Edit("x", Replace(JStr("3")))]))
  {
    HiddenNames();
    HiddenField("x");
    HiddenField("y");
    hide DiffAttr;
    assert Outputs(HIDDEN.fields) == {};
    assert ["x", "y"][1..] == ["y"] && ["y"][1..] == [];
    assert DiffLevel(HIDDEN.fields, {}, ["y"], WAS, NOW) == [];
    assert DiffLevel(HIDDEN.fields, {}, ["x", "y"], WAS, NOW) == [Edit("x", Replace(JStr("3")))];
    hide DiffLevel;
    assert HIDDEN.fields != map[] by {
      assert "x" in HIDDEN.fields;
    }
  }

  const LEVEL := map["h" := HIDDEN]
  const HIDDEN_TYPE := Type(LEVEL, [], {})

  lemma HiddenKeys()
    ensures HIDDEN.fields.Keys == {"x", "y"} && HIDDEN.fields != map[]
    ensures HIDDEN.fields["x"] == TEXT && HIDDEN.fields["y"] == TEXT.(canonical := "y")
  {
    assert "x" in HIDDEN.fields;
    assert "x" != "y";
  }

  lemma TextIsOk(c: string)
    ensures AttrOk(TEXT.(canonical := c)) && AllOrdered(TEXT.(canonical := c))
    ensures forall s :: Sendable(TEXT.(canonical := c), Str(s)) && Strip(TEXT.(canonical := c), Str(s)) == Str(s)
  {}

  lemma HiddenIsAttr()
    ensures AttrOk(HIDDEN) && AllOrdered(HIDDEN)
  {
    HiddenKeys();
    TextIsOk("x");
    TextIsOk("y");
    assert TEXT.(canonical := "x") == TEXT;
    forall k | k in HIDDEN.fields
      ensures AttrOk(HIDDEN.fields[k]) && AllOrdered(HIDDEN.fields[k]) && HIDDEN.fields[k].canonical == k
    {
      assert k == "x" || k == "y";
    }
    HiddenNamesOk();
    hide NamesOk;
  }

  lemma HiddenNamesOk()
    ensures NamesOk(HIDDEN.fields) && NamesOk(LEVEL)
  {
    HiddenKeys();
    hide AttrOk;
    forall k | k in HIDDEN.fields ensures HIDDEN.fields[k].canonical == k && k != "" && '.' !in k && ',' !in k {
      assert k == "x" || k == "y";
    }
    forall k | k in LEVEL ensures k == "h" && LEVEL[k].canonical == "h" {}
    assert '.' !in "h" && ',' !in "h";
  }

  lemma NowIsSendable()
    ensures Sendable(HIDDEN, Map(NOW)) && Strip(HIDDEN, Map(NOW)) == Map(NOW)
  {
    HiddenKeys();
    TextIsOk("x");
    TextIsOk("y");
    assert TEXT.(canonical := "x") == TEXT;
    forall k | k in NOW
      ensures k in HIDDEN.fields && !HIDDEN.fields[k].output && Sendable(HIDDEN.fields[k], NOW[k])
      ensures Strip(HIDDEN.fields[k], NOW[k]) == NOW[k]
    {
      assert k == "x" || k == "y";
    }
    var out := Strip(HIDDEN, Map(NOW)).entries;
    assert out == NOW;
  }

  lemma HiddenAfter()
    ensures After(HIDDEN, Map(WAS), Map(NOW), None) == Some(JObj(map["x" := JStr("3")]))
  {
    HiddenDiff();
    hide DiffValue;
    assert NOW["x"] == Str("3") && WAS["x"] == Str("1");
    var e := Edit("x", Replace(JStr("3")));
    assert [e][1..] == [];
    assert ApplyEdits(map[], [e]) == map["x" := JStr("3")];
  }

  const SHOWN: Object := map["h" := JObj(map["x" := JStr("3")])]

  lemma ShownIsUnshadowed()
    ensures Names.UnshadowedBody(LEVEL, SHOWN) && NamesOk(LEVEL)
  {
    HiddenNamesOk();
    HiddenKeys();
    hide NamesOk;
    var inner: Object := map["x" := JStr("3")];
    assert Names.UnshadowedLevel(HIDDEN.fields, inner);
    assert Names.Unshadowed(Some(HIDDEN), SHOWN["h"]);
    Names.KeyOfWire(LEVEL, "h");
    hide Names.Unshadowed;
    assert Names.UnshadowedLevel(LEVEL, SHOWN);
  }

  lemma ShownIsReadable(r: Reconciler)
    ensures Updatable(r, HIDDEN, Map(NOW), map[], SHOWN, 1)
  {
    HiddenIsAttr();
    NowIsSendable();
    OrderedIsTellable(r, HIDDEN, Map(NOW), SchemaValue(HIDDEN, SHOWN["h"]));
    hide AttrOk, Tellable, SchemaValue, Sendable, Strip, Firm;
  }

  lemma PatchDoesNotFill()
    ensures !Fills(HIDDEN, Map(WAS), Map(NOW)) && DiffValue(HIDDEN, Map(WAS), Map(NOW)).Some?
  {
    HiddenDiff();
    HiddenKeys();
    hide DiffValue;
    assert "y" in NOW && Get(WAS, "y") == NOW["y"];
  }

  /** An instance: never returned, the object is clean after the update that changes one of
      its fields; held back and then shown as patched, it is not. */
  lemma HiddenObject(r: Reconciler)
    requires !r.unmatched
    ensures var current := StateOf(r, LEVEL, map[], map["h" := Map(WAS)], map[]);
            && Get(current, "h") == Map(WAS)
            && Patched(HIDDEN_TYPE, current, map["h" := Map(NOW)], map[]) == SHOWN
    ensures Get(StateOf(r, LEVEL, map[], map["h" := Map(NOW)], map[]), "h") == Map(NOW)
    ensures Get(StateOf(r, LEVEL, map[], map["h" := Map(NOW)], SHOWN), "h") != Map(NOW)
  {
    hide StateOf, DiffValue, AttrOk, NamesOk, Updatable, Names.UnshadowedBody, After, Fills, Patched;
    ShownIsUnshadowed();
    ShownIsReadable(r);
    HiddenAfter();
    PatchDoesNotFill();
    assert WAS["x"] != NOW["x"];
    NeverReturned(r, LEVEL, map[], map["h" := Map(WAS)], map[], "h");
    NeverReturned(r, LEVEL, map[], map["h" := Map(NOW)], map[], "h");
    HiddenIsPatched(StateOf(r, LEVEL, map[], map["h" := Map(WAS)], map[]));
    ShownAsPatched(r, LEVEL, map[], Map(WAS), map["h" := Map(NOW)], SHOWN, "h");
  }

  lemma HiddenType()
    ensures SortedNames(LEVEL.Keys) == ["h"] && Skipped(HIDDEN_TYPE) == {}
  {
    SortedUnique(Sorted(LEVEL.Keys), ["h"]);
    hide Sorted;
  }

  lemma HiddenAttr(current: map<string, Value>)
    requires Get(current, "h") == Map(WAS)
    ensures DiffAttr(LEVEL, {}, "h", current, map["h" := Map(NOW)]) ==
            [Edit("h", Nested([Edit("x", Replace(JStr("3")))]))]
  {
    HiddenDiff();
    assert WAS["x"] != NOW["x"];
    hide DiffValue;
  }

  lemma HiddenEdits(current: map<string, Value>)
    requires Get(current, "h") == Map(WAS)
    ensures Diff(HIDDEN_TYPE, current, map["h" := Map(NOW)]) == [Edit("h", Nested([Edit("x", Replace(JStr("3")))]))]
  {
    var desired := map["h" := Map(NOW)];
    HiddenType();
    HiddenAttr(current);
    hide DiffAttr, Skipped, SortedNames;
    assert ["h"][1..] == [];
    assert DiffLevel(LEVEL, {}, [], current, desired) == [];
  }

  lemma HiddenIsPatched(current: map<string, Value>)
    requires Get(current, "h") == Map(WAS)
    ensures Patched(HIDDEN_TYPE, current, map["h" := Map(NOW)], map[]) == SHOWN
  {
    var desired := map["h" := Map(NOW)];
    HiddenIsAttr();
    HiddenNamesOk();
    hide AttrOk, NamesOk, Diff, EntryDone, ApplyMask, Antichain;
    assert LevelOk(LEVEL);
    MaskedPatch(HIDDEN_TYPE, current, desired, map[]);
    HiddenEdits(current);
    var inner := [Edit("x", Replace(JStr("3")))];
    assert inner[1..] == [] && ApplyEdits(map[], inner) == map["x" := JStr("3")];
    var outer := [Edit("h", Nested(inner))];
    assert outer[1..] == [];
  }

  lemma HiddenNames()
    ensures SortedNames(HIDDEN.fields.Keys) == ["x", "y"]
  {
    SortedUnique(Sorted(HIDDEN.fields.Keys), ["x", "y"]);
  }
}
