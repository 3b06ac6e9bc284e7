/** The patch body and the update mask, computed from a diff (internal/gcprov/patch.go). */
module Patch {
  import opened Values
  import opened Text
  import opened Catalog
  import opened Edits
  import Names

  // ---- the diff ----------------------------------------------------------------

  predicate SetterCarries(ty: Type, canonical: string) {
    exists i :: 0 <= i < |ty.setters| && canonical in ty.setters[i].fields
  }

  function Outputs(l: Level): set<string> {
    set k | k in l && l[k].output
  }

  /** Attributes no patch may name: computed by GCP, changed through a setter of their
      own, or already said by the url. */
  function Skipped(ty: Type): set<string> {
    set k | k in ty.attributes &&
      (ty.attributes[k].output || SetterCarries(ty, ty.attributes[k].canonical) ||
       k in ty.urlNames || ty.attributes[k].canonical in ty.urlNames)
  }

  /** How one configured attribute that differs is changed: below, where both sides are
      objects of declared fields (and not at all if nothing settable differs), and
      otherwise whole. */
  ghost function DiffValue(a: Attr, have: Value, want: Value): Option<Change>
    decreases want, 1, 0
  {
    if a.fields != map[] && want.Map? && have.Map? then
      var sub := DiffLevel(a.fields, Outputs(a.fields), SortedNames(a.fields.Keys), have.entries, want.entries);
      if sub == [] then None else Some(Nested(sub))
    else Some(Replace(Names.WireValue(Some(a), want)))
  }

  ghost function DiffAttr(l: Level, skip: set<string>, name: string, have: map<string, Value>, want: map<string, Value>):
    (out: seq<Edit>)
    requires name in l
    ensures |out| <= 1 && forall e | e in out :: e.name == l[name].canonical
    decreases Map(want), 0, 0
  {
    if name in skip || name !in want || !want[name].Known() || Get(have, name) == want[name] then []
    else
      match DiffValue(l[name], Get(have, name), want[name])
      case None => []
      case Some(c) => [Edit(l[name].canonical, c)]
  }

  ghost function DiffLevel(l: Level, skip: set<string>, names: seq<string>, have: map<string, Value>, want: map<string, Value>):
    seq<Edit>
    requires forall k | k in names :: k in l
    decreases Map(want), 0, |names|
  {
    if names == [] then []
    else DiffAttr(l, skip, names[0], have, want) + DiffLevel(l, skip, names[1..], have, want)
  }

  ghost function Diff(ty: Type, current: map<string, Value>, desired: map<string, Value>): seq<Edit> {
    DiffLevel(ty.attributes, Skipped(ty), SortedNames(ty.attributes.Keys), current, desired)
  }

  // ---- request options ---------------------------------------------------------

  /** What addRequestOptions writes for one configured attribute, over what the body
      holds for it; None when it writes nothing. */
  ghost function OptionValue(a: Attr, want: Value, held: Option<Json>): Option<Json>
    decreases want, 1, 0
  {
    if !want.Known() then None
    else if a.sendWithUpdate then Some(Names.WireValue(Some(a), want))
    else if a.fields == map[] || !want.Map? then None
    else
      var sub := Options(a.fields, SortedNames(a.fields.Keys), want.entries, ObjectOf(held));
      if sub != map[] then Some(JObj(sub)) else None
  }

  ghost function OptionAttr(l: Level, name: string, want: map<string, Value>, body: Object): Object
    requires name in l
    decreases Map(want), 0, 0
  {
    if name !in want then body
    else
      var v := OptionValue(l[name], want[name], At(body, l[name].canonical));
      if v.Some? then body[l[name].canonical := v.value] else body
  }

  /** Every configured SendWithUpdate option put into the body, unmasked. */
  ghost function Options(l: Level, names: seq<string>, want: map<string, Value>, body: Object): Object
    requires forall k | k in names :: k in l
    decreases Map(want), 0, |names|
  {
    if names == [] then body
    else Options(l, names[1..], want, OptionAttr(l, names[0], want, body))
  }

  ghost function PatchBody(ty: Type, current: map<string, Value>, desired: map<string, Value>): Object {
    var edits := Diff(ty, current, desired);
    if edits == [] then map[]
    else Options(ty.attributes, SortedNames(ty.attributes.Keys), desired, BodyOf(edits))
  }

  // ---- what every diff is ------------------------------------------------------

  lemma {:induction false} DiffNames(l: Level, skip: set<string>, names: seq<string>,
                                     have: map<string, Value>, want: map<string, Value>, e: Edit) returns (k: string)
    requires forall k | k in names :: k in l
    requires e in DiffLevel(l, skip, names, have, want)
    ensures k in names && [e] == DiffAttr(l, skip, k, have, want)
    ensures e.name == l[k].canonical
    decreases |names|
  {
    var first := DiffAttr(l, skip, names[0], have, want);
    if e in first {
      k := names[0];
    } else {
      k := DiffNames(l, skip, names[1..], have, want, e);
    }
  }

  lemma {:induction false} DiffValueIsWellFormed(a: Attr, have: Value, want: Value)
    requires AttrOk(a)
    ensures var c := DiffValue(a, have, want);
            c.Some? && c.value.Nested? ==> c.value.edits != [] && WellFormed(c.value.edits)
    decreases want, 1, 0
  {
    if a.fields != map[] && want.Map? && have.Map? {
      DiffIsWellFormed(a.fields, Outputs(a.fields), SortedNames(a.fields.Keys), have.entries, want.entries);
    }
  }

  /** No field of the body twice, and no empty nested change. */
  lemma {:induction false} DiffIsWellFormed(l: Level, skip: set<string>, names: seq<string>,
                                            have: map<string, Value>, want: map<string, Value>)
    requires LevelOk(l) && Distinct(names) && forall k | k in names :: k in l
    ensures WellFormed(DiffLevel(l, skip, names, have, want))
    decreases Map(want), 0, |names|
  {
    if names != [] {
      var n := names[0];
      var first, rest := DiffAttr(l, skip, n, have, want), DiffLevel(l, skip, names[1..], have, want);
      DiffIsWellFormed(l, skip, names[1..], have, want);
      if first != [] {
        DiffValueIsWellFormed(l[n], Get(have, n), want[n]);
        assert (first + rest)[1..] == rest && (first + rest)[0] == first[0];
        forall e | e in rest ensures e.name != first[0].name {
          var k := DiffNames(l, skip, names[1..], have, want, e);
          assert k != n;
        }
      } else {
        assert first + rest == rest;
      }
    }
  }

  /** The path names settable attributes only: computed at no step. */
  ghost predicate Settable(l: Level, p: Path)
    decreases |p|
  {
    && p != []
    && Names.KeyOf(l, p[0]).Some?
    && var a := l[Names.KeyOf(l, p[0]).value];
       !a.output && (|p| > 1 ==> Settable(a.fields, p[1..]))
  }

  /** NO MASK ENTRY PASSES THROUGH AN ATTRIBUTE GCP COMPUTES, at any depth. */
  lemma {:induction false} MaskIsSettable(l: Level, skip: set<string>, names: seq<string>,
                                          have: map<string, Value>, want: map<string, Value>, p: Path)
    requires LevelOk(l) && Outputs(l) <= skip && forall k | k in names :: k in l
    requires p in Paths(DiffLevel(l, skip, names, have, want))
    ensures Settable(l, p)
    decreases |p|
  {
    var edits := DiffLevel(l, skip, names, have, want);
    var e := PathHead(edits, p);
    var k := DiffNames(l, skip, names, have, want, e);
    Names.KeyOfWire(l, k);
    assert k !in skip;
    if e.change.Nested? {
      var sub := e.change.edits;
      var i :| 0 <= i < |PathsOf(e)| && PathsOf(e)[i] == p;
      assert p[1..] == Paths(sub)[i];
      assert AttrOk(l[k]);
      var fields := l[k].fields;
      MaskIsSettable(fields, Outputs(fields), SortedNames(fields.Keys), Get(have, k).entries, want[k].entries, p[1..]);
    }
  }

  /** The value of a change, written for the wire, holds the change. */
  lemma {:induction false} ValueAgreesWithWire(a: Attr, have: Value, want: Value, c: Change)
    requires AttrOk(a) && DiffValue(a, have, want) == Some(c)
    ensures HoldsChange(Names.WireValue(Some(a), want), c)
    decreases want, 1, 0
  {
    if c.Nested? {
      WireObject(a, want);
      hide Names.WireBody, Names.WireValue;
      DiffAgreesWithWire(a.fields, Outputs(a.fields), SortedNames(a.fields.Keys), have.entries, want.entries);
    }
  }

  /** THE BODY SAYS WHAT CONFIGURATION SAYS: at every changed field it holds just what the
      whole of configuration, written for the wire, holds there. */
  lemma {:induction false} DiffAgreesWithWire(l: Level, skip: set<string>, names: seq<string>,
                                              have: map<string, Value>, want: map<string, Value>)
    requires LevelOk(l) && Outputs(l) <= skip && forall k | k in names :: k in l
    ensures Agrees(Names.WireBody(l, want), DiffLevel(l, skip, names, have, want))
    decreases Map(want), 0, |names|
  {
    forall e | e in DiffLevel(l, skip, names, have, want) ensures AgreesAt(Names.WireBody(l, want), e) {
      var k := DiffNames(l, skip, names, have, want, e);
      Names.WrittenOnce(l, want, k);
      hide Names.WireBody, Names.WireValue;
      ValueAgreesWithWire(l[k], Get(have, k), want[k], e.change);
    }
  }

  // ---- request options change nothing that is masked ---------------------------

  /** v changes nothing where held is. */
  predicate NoChange(v: Option<Json>, held: Option<Json>) {
    v.None? || v == held
  }

  lemma OptionNoChange(l: Level, name: string, want: map<string, Value>, body: Object)
    requires name in l
    requires name in want ==> NoChange(OptionValue(l[name], want[name], At(body, l[name].canonical)), At(body, l[name].canonical))
    ensures OptionAttr(l, name, want, body) == body
  {
    hide OptionValue;
    if l[name].canonical in body {
      assert body[l[name].canonical := body[l[name].canonical]] == body;
    }
  }

  lemma {:induction false} NoOptionValue(a: Attr, want: Value, held: Option<Json>)
    requires OptionFree(a)
    ensures NoChange(OptionValue(a, want, held), held)
    decreases want, 1, 0
  {
    if want.Map? && a.fields != map[] {
      NoOptionsNoChange(a.fields, SortedNames(a.fields.Keys), want.entries, ObjectOf(held));
    }
  }

  lemma {:induction false} NoOptionsNoChange(l: Level, names: seq<string>, want: map<string, Value>, body: Object)
    requires forall k | k in names :: k in l && OptionFree(l[k])
    ensures Options(l, names, want, body) == body
    decreases Map(want), 0, |names|
  {
    if names != [] {
      assert names[0] in names;
      if names[0] in want {
        NoOptionValue(l[names[0]], want[names[0]], At(body, l[names[0]].canonical));
      }
      OptionNoChange(l, names[0], want, body);
      NoOptionsNoChange(l, names[1..], want, body);
    }
  }

  /** A value written for the wire already carries its options. */
  lemma {:induction false} OptionAlreadyThere(a: Attr, want: Value)
    requires AttrOk(a) && !a.output
    ensures NoChange(OptionValue(a, want, Some(Names.WireValue(Some(a), want))), Some(Names.WireValue(Some(a), want)))
    decreases want, 1, 0
  {
    hide Names.WireBody, Names.WireValue;
    if !a.sendWithUpdate && want.Map? && a.fields != map[] {
      WireObject(a, want);
      OptionsAlreadyThere(a.fields, SortedNames(a.fields.Keys), want.entries);
    }
  }

  lemma WireObject(a: Attr, want: Value)
    requires ShapeOk(a) && a.fields != map[] && want.Map?
    ensures Names.WireValue(Some(a), want) == JObj(Names.WireBody(a.fields, want.entries))
  {
    hide Names.WireBody;
  }

  /** A whole object, written for the wire, already carries its options. */
  lemma {:induction false} OptionsAlreadyThere(l: Level, names: seq<string>, want: map<string, Value>)
    requires LevelOk(l) && forall k | k in names :: k in l
    ensures Options(l, names, want, Names.WireBody(l, want)) == Names.WireBody(l, want)
    decreases Map(want), 0, |names|
  {
    if names != [] {
      var n, body := names[0], Names.WireBody(l, want);
      if n in want {
        Names.WrittenOnce(l, want, n);
        hide Names.WireBody, Names.WireValue;
        if l[n].output {
          NoOptionValue(l[n], want[n], At(body, l[n].canonical));
        } else {
          OptionAlreadyThere(l[n], want[n]);
        }
      }
      hide Names.WireBody, Names.WireValue;
      OptionNoChange(l, n, want, body);
      OptionsAlreadyThere(l, names[1..], want);
    }
  }

  /** An option written over a changed field leaves the change as it was. */
  lemma {:induction false} OptionKeepsValue(a: Attr, have: Value, want: Value, held: Json, c: Change)
    requires AttrOk(a) && !a.output && want.Known()
    requires DiffValue(a, have, want) == Some(c) && HoldsChange(held, c)
    ensures var v := OptionValue(a, want, Some(held));
            v.Some? ==> HoldsChange(v.value, c)
    decreases want, 1, 1
  {
    assert c.Replace? ==> held == Names.WireValue(Some(a), want);
    assert a.sendWithUpdate ==> OptionValue(a, want, Some(held)) == Some(Names.WireValue(Some(a), want));
    hide Names.WireBody, Names.WireValue, DiffValue, OptionValue, AttrOk;
    if a.sendWithUpdate {
      ValueAgreesWithWire(a, have, want, c);
    } else if c.Replace? {
      OptionAlreadyThere(a, want);
    } else {
      OptionKeepsNested(a, have, want, held, c);
    }
  }

  lemma {:induction false} OptionKeepsNested(a: Attr, have: Value, want: Value, held: Json, c: Change)
    requires AttrOk(a) && !a.sendWithUpdate && c.Nested?
    requires DiffValue(a, have, want) == Some(c) && HoldsChange(held, c)
    ensures var v := OptionValue(a, want, Some(held));
            v.Some? ==> HoldsChange(v.value, c)
    decreases want, 1, 0
  {
    var all := SortedNames(a.fields.Keys);
    OptionsKeepChange(a.fields, Outputs(a.fields), all, have.entries, want.entries, all, held.fields);
  }

  lemma {:induction false} OptionKeepsEdit(l: Level, skip: set<string>, name: string, have: map<string, Value>,
                                           want: map<string, Value>, body: Object, k: string, e: Edit)
    requires LevelOk(l) && Outputs(l) <= skip && name in l && k in l
    requires [e] == DiffAttr(l, skip, k, have, want) && AgreesAt(body, e)
    ensures AgreesAt(OptionAttr(l, name, want, body), e)
    decreases Map(want), 0, 0
  {
    var c := l[name].canonical;
    if c != e.name {
      assert At(OptionAttr(l, name, want, body), e.name) == At(body, e.name);
      AgreesElsewhere(body, OptionAttr(l, name, want, body), e);
    } else {
      assert k == name;
      OptionKeepsValue(l[name], Get(have, name), want[name], body[c], e.change);
    }
  }

  lemma AgreesElsewhere(body: Object, out: Object, e: Edit)
    requires AgreesAt(body, e) && At(out, e.name) == At(body, e.name)
    ensures AgreesAt(out, e)
  {}

  /** REQUEST OPTIONS DO NOT DISTURB THE CHANGE they travel with. */
  lemma {:induction false} OptionsKeepChange(l: Level, skip: set<string>, names: seq<string>, have: map<string, Value>,
                                             want: map<string, Value>, options: seq<string>, body: Object)
    requires LevelOk(l) && Outputs(l) <= skip
    requires (forall k | k in names :: k in l) && (forall k | k in options :: k in l)
    requires Agrees(body, DiffLevel(l, skip, names, have, want))
    ensures Agrees(Options(l, options, want, body), DiffLevel(l, skip, names, have, want))
    decreases Map(want), 0, 1 + |options|
  {
    if options != [] {
      var out := OptionAttr(l, options[0], want, body);
      forall e | e in DiffLevel(l, skip, names, have, want) ensures AgreesAt(out, e) {
        var k := DiffNames(l, skip, names, have, want, e);
        OptionKeepsEdit(l, skip, options[0], have, want, body, k, e);
      }
      OptionsKeepChange(l, skip, names, have, want, options[1..], out);
    }
  }

  // ---- what a patch does to the server's object --------------------------------

  lemma SkippedHoldsOutputs(ty: Type)
    ensures Outputs(ty.attributes) <= Skipped(ty)
  {}

  /** One entry of the mask. */
  ghost predicate EntryDone(l: Level, desired: map<string, Value>, o: Object, body: Object, mask: seq<Path>, p: Path) {
    && Settable(l, p)
    && Lookup(body, p).Some?
    && Lookup(Names.WireBody(l, desired), p) == Lookup(body, p)
    && Lookup(ApplyMask(o, body, mask), p) == Lookup(body, p)
  }

  lemma EntryIsDone(ty: Type, current: map<string, Value>, desired: map<string, Value>, o: Object, body: Object, p: Path)
    requires LevelOk(ty.attributes)
    requires var edits := Diff(ty, current, desired);
             && p in Paths(edits) && WellFormed(edits) && Antichain(Paths(edits)) && Agrees(body, edits)
             && Agrees(Names.WireBody(ty.attributes, desired), edits)
    ensures EntryDone(ty.attributes, desired, o, body, Paths(Diff(ty, current, desired)), p)
  {
    var edits := Diff(ty, current, desired);
    var mask := Paths(edits);
    SkippedHoldsOutputs(ty);
    MaskIsSettable(ty.attributes, Skipped(ty), SortedNames(ty.attributes.Keys), current, desired, p);
    hide Names.WireBody, Paths, Agrees, Lookup, ApplyMask, Settable, Diff;
    AgreeingBodiesMatch(body, Names.WireBody(ty.attributes, desired), edits, p);
    var i :| 0 <= i < |mask| && mask[i] == p;
    MaskWrites(o, body, mask, i);
  }

  /** A MASKED PATCH DOES EXACTLY ITS JOB. The mask names each place once, only settable
      places, and only ones the body and configuration both fill with one value. Applied
      to any object it writes those values there, and leaves every place not at, above or
      below an entry as it was. */
  lemma MaskedPatch(ty: Type, current: map<string, Value>, desired: map<string, Value>, o: Object)
    requires LevelOk(ty.attributes)
    ensures var body, mask := PatchBody(ty, current, desired), Paths(Diff(ty, current, desired));
            && Antichain(mask)
            && (forall p | p in mask :: EntryDone(ty.attributes, desired, o, body, mask, p))
            && (forall q | forall p | p in mask :: Incomparable(p, q) ::
                  Lookup(ApplyMask(o, body, mask), q) == Lookup(o, q))
            && ApplyMask(o, body, mask) == ApplyEdits(o, Diff(ty, current, desired))
  {
    var l, all := ty.attributes, SortedNames(ty.attributes.Keys);
    var edits := Diff(ty, current, desired);
    var body, mask := PatchBody(ty, current, desired), Paths(edits);
    hide Names.WireBody, Lookup, ApplyMask, ApplyEdits, Skipped, LevelOk, WellFormed, Antichain, EntryDone, Paths;
    SkippedHoldsOutputs(ty);
    DiffIsWellFormed(l, Skipped(ty), all, current, desired);
    MaskIsAntichain(edits);
    BodyAgrees(edits);
    OptionsKeepChange(l, Skipped(ty), all, current, desired, all, BodyOf(edits));
    DiffAgreesWithWire(l, Skipped(ty), all, current, desired);
    assert Agrees(body, edits);
    hide Agrees, DiffLevel;
    MaskAppliesEdits(o, body, edits);
    forall p | p in mask ensures EntryDone(l, desired, o, body, mask, p) {
      EntryIsDone(ty, current, desired, o, body, p);
    }
    forall q | forall p | p in mask :: Incomparable(p, q)
      ensures Lookup(ApplyMask(o, body, mask), q) == Lookup(o, q)
    {
      MaskFrame(o, body, mask, q);
    }
  }

  /** THE TRANSPORTS AGREE: with no request option added, PUTting the whole resource with
      the body written into it is the masked patch if and only if no entry of the mask
      replaces an object by one that lacks some key of it. */
  lemma PutIsMaskedPatch(ty: Type, current: map<string, Value>, desired: map<string, Value>, held: Object)
    requires LevelOk(ty.attributes)
    requires PatchBody(ty, current, desired) == BodyOf(Diff(ty, current, desired))
    ensures var body, mask := PatchBody(ty, current, desired), Paths(Diff(ty, current, desired));
            Merge(held, body) == ApplyMask(held, body, mask) <==>
            forall p | p in mask :: CoversAt(held, body, p)
  {
    var edits := Diff(ty, current, desired);
    DiffIsWellFormed(ty.attributes, Skipped(ty), SortedNames(ty.attributes.Keys), current, desired);
    BodyAgrees(edits);
    MaskAppliesEdits(held, BodyOf(edits), edits);
    MergeIsMask(held, edits);
    MaskCovers(held, BodyOf(edits), edits);
  }
}
