/** The loops of internal/gcprov/patch.go and setters.go, proved against module Patch and
    module CleanPlan, and the dotted spelling of a mask.

    A mask is a list of paths in module Edits. The provider sends it as one string, paths
    dotted and joined by commas, which the server splits again. Loops over sorted keys run in
    one order; loops over a map take its keys in any. */
module PatchLoops {
  import opened Values
  import opened Text
  import opened Catalog
  import opened Edits
  import opened Patch
  import CleanPlan
  import Names

  // ---- the dotted mask ---------------------------------------------------------

  function Dot(p: Path): string {
    Join(p, '.')
  }

  function Dotted(ps: seq<Path>): (mask: seq<string>)
    ensures |mask| == |ps| && forall i | 0 <= i < |ps| :: mask[i] == Dot(ps[i])
  {
    seq(|ps|, i requires 0 <= i < |ps| => Dot(ps[i]))
  }

  function DottedUnder(prefix: string, ps: seq<Path>): (mask: seq<string>)
    ensures |mask| == |ps| && forall i | 0 <= i < |ps| :: mask[i] == prefix + "." + Dot(ps[i])
  {
    seq(|ps|, i requires 0 <= i < |ps| => prefix + "." + Dot(ps[i]))
  }

  predicate DotFree(p: Path) {
    p != [] && forall s | s in p :: '.' !in s && ',' !in s
  }

  lemma {:induction false} SettableIsDotFree(l: Level, p: Path)
    requires LevelOk(l) && Settable(l, p)
    ensures DotFree(p)
    decreases |p|
  {
    var k := Names.KeyOf(l, p[0]).value;
    if |p| > 1 {
      assert AttrOk(l[k]);
      SettableIsDotFree(l[k].fields, p[1..]);
    }
    forall s | s in p ensures '.' !in s && ',' !in s {
      assert s == p[0] || s in p[1..];
    }
  }

  lemma {:induction false} CommaFree(p: Path)
    requires DotFree(p)
    ensures ',' !in Dot(p)
  {
    assert p[0] in p;
    if |p| > 1 {
      forall s | s in p[1..] ensures s in p {}
      CommaFree(p[1..]);
    }
  }

  /** THE MASK SURVIVES THE WIRE: joined by commas as the request carries it, split by the
      server at its commas and each entry at its dots, it is the list of paths it was. */
  lemma MaskSurvives(ps: seq<Path>)
    requires ps != [] && forall p | p in ps :: DotFree(p)
    ensures Split(Join(Dotted(ps), ','), ',') == Dotted(ps)
    ensures forall i | 0 <= i < |ps| :: Split(Dotted(ps)[i], '.') == ps[i]
  {
    forall s | s in Dotted(ps) ensures ',' !in s {
      var i :| 0 <= i < |ps| && Dotted(ps)[i] == s;
      assert ps[i] in ps;
      CommaFree(ps[i]);
    }
    SplitJoin(Dotted(ps), ',');
    forall i | 0 <= i < |ps| ensures Split(Dotted(ps)[i], '.') == ps[i] {
      assert ps[i] in ps;
      SplitJoin(ps[i], '.');
    }
  }

  // ---- accumulating edits ------------------------------------------------------

  lemma {:induction false} PathsConcat(a: seq<Edit>, b: seq<Edit>)
    ensures Paths(a + b) == Paths(a) + Paths(b)
  {
    if a == [] {
      assert a + b == b;
    } else {
      assert (a + b)[0] == a[0] && (a + b)[1..] == a[1..] + b;
      PathsConcat(a[1..], b);
    }
  }

  lemma {:induction false} BodyAppend(edits: seq<Edit>, e: Edit)
    requires forall f | f in edits :: f.name != e.name
    ensures BodyOf(edits + [e]) == BodyOf(edits)[e.name := ValueOf(e.change)]
  {
    if edits == [] {
      assert edits + [e] == [e] && [e][1..] == [];
    } else {
      assert (edits + [e])[0] == edits[0] && (edits + [e])[1..] == edits[1..] + [e];
      assert edits[0] in edits;
      BodyAppend(edits[1..], e);
    }
  }

  lemma {:induction false} DiffNamesBefore(l: Level, skip: set<string>, names: seq<string>, i: nat,
                                           have: map<string, Value>, want: map<string, Value>)
    requires (forall k | k in names :: k in l) && i <= |names|
    ensures DiffLevel(l, skip, names, have, want) ==
            DiffLevel(l, skip, names[..i], have, want) + DiffLevel(l, skip, names[i..], have, want)
    decreases i
  {
    if i > 0 {
      assert names[..i][0] == names[0] && names[..i][1..] == names[1..][..i - 1];
      assert names[i..] == names[1..][i - 1..];
      DiffNamesBefore(l, skip, names[1..], i - 1, have, want);
      hide DiffAttr;
    }
  }

  /** One more name: the edits so far gain that name's own. */
  lemma DiffNext(l: Level, skip: set<string>, names: seq<string>, i: nat, have: map<string, Value>, want: map<string, Value>)
    requires NamesOk(l) && Distinct(names) && (forall k | k in names :: k in l) && i < |names|
    ensures var done, own := DiffLevel(l, skip, names[..i], have, want), DiffAttr(l, skip, names[i], have, want);
            && DiffLevel(l, skip, names[..i + 1], have, want) == done + own
            && Paths(done + own) == Paths(done) + Paths(own)
            && BodyOf(done + own) ==
               (if own == [] then BodyOf(done) else BodyOf(done)[own[0].name := ValueOf(own[0].change)])
  {
    var done, own := DiffLevel(l, skip, names[..i], have, want), DiffAttr(l, skip, names[i], have, want);
    assert names[..i + 1][..i] == names[..i] && names[..i + 1][i..] == [names[i]];
    DiffNamesBefore(l, skip, names[..i + 1], i, have, want);
    assert [names[i]][1..] == [];
    assert DiffLevel(l, skip, [names[i]], have, want) == own;
    hide DiffLevel, DiffAttr;
    PathsConcat(done, own);
    if own == [] {
      assert done + own == done;
    } else {
      assert own == [own[0]];
      forall f | f in done ensures f.name != own[0].name {
        var k := DiffNames(l, skip, names[..i], have, want, f);
        assert k != names[i];
      }
      BodyAppend(done, own[0]);
    }
  }

  lemma UnderIsDotted(prefix: string, name: string, ps: seq<Path>)
    requires forall p | p in ps :: p != []
    ensures Dotted(Under(name, ps)) == DottedUnder(name, ps)
    ensures DottedUnder(prefix, Under(name, ps)) == DottedUnder(prefix + "." + name, ps)
  {
    forall i | 0 <= i < |ps|
      ensures Dot([name] + ps[i]) == name + "." + Dot(ps[i])
      ensures prefix + "." + Dot([name] + ps[i]) == prefix + "." + name + "." + Dot(ps[i])
    {
      assert ps[i] in ps;
      assert ([name] + ps[i])[1..] == ps[i];
      assert prefix + "." + (name + "." + Dot(ps[i])) == prefix + "." + name + "." + Dot(ps[i]);
    }
  }

  lemma DottedConcat(prefix: string, a: seq<Path>, b: seq<Path>)
    ensures Dotted(a + b) == Dotted(a) + Dotted(b)
    ensures DottedUnder(prefix, a + b) == DottedUnder(prefix, a) + DottedUnder(prefix, b)
  {}

  lemma PathsFilled(edits: seq<Edit>)
    ensures forall p | p in Paths(edits) :: p != []
  {
    forall p | p in Paths(edits) ensures p != [] {
      var e := PathHead(edits, p);
    }
  }

  /** What one attribute adds to a mask and a body, spelled as the source spells it. */
  lemma OwnPaths(prefix: string, e: Edit)
    ensures e.change.Replace? ==> Paths([e]) == [[e.name]] && Dotted(Paths([e])) == [e.name] &&
                                  DottedUnder(prefix, Paths([e])) == [prefix + "." + e.name]
    ensures e.change.Nested? ==> Dotted(Paths([e])) == DottedUnder(e.name, Paths(e.change.edits)) &&
                                 DottedUnder(prefix, Paths([e])) == DottedUnder(prefix + "." + e.name, Paths(e.change.edits))
  {
    assert [e][1..] == [];
    assert Paths([e]) == PathsOf(e) + [];
    if e.change.Nested? {
      PathsFilled(e.change.edits);
      UnderIsDotted(prefix, e.name, Paths(e.change.edits));
    } else {
      assert Dot([e.name]) == e.name;
    }
  }

  /** One round of either loop: what the next attribute adds is added. */
  lemma Round(prefix: string, l: Level, skip: set<string>, names: seq<string>, i: nat,
              have: map<string, Value>, want: map<string, Value>)
    requires NamesOk(l) && Distinct(names) && (forall k | k in names :: k in l) && i < |names|
    ensures var done, next := DiffLevel(l, skip, names[..i], have, want), DiffLevel(l, skip, names[..i + 1], have, want);
            var own := DiffAttr(l, skip, names[i], have, want);
            && Dotted(Paths(next)) == Dotted(Paths(done)) + Dotted(Paths(own))
            && DottedUnder(prefix, Paths(next)) == DottedUnder(prefix, Paths(done)) + DottedUnder(prefix, Paths(own))
            && BodyOf(next) ==
               (if own == [] then BodyOf(done) else BodyOf(done)[l[names[i]].canonical := ValueOf(own[0].change)])
  {
    hide DiffLevel, DiffAttr, Paths, BodyOf, Dotted, DottedUnder;
    DiffNext(l, skip, names, i, have, want);
    var own := DiffAttr(l, skip, names[i], have, want);
    DottedConcat(prefix, Paths(DiffLevel(l, skip, names[..i], have, want)), Paths(own));
    if own != [] {
      assert own[0] in own;
    }
  }

  // ---- the loops ---------------------------------------------------------------

  method BuildMask(ty: Type, current: map<string, Value>, desired: map<string, Value>)
    returns (body: Object, mask: seq<string>)
    requires LevelOk(ty.attributes)
    requires forall k | k in desired && k in ty.attributes :: Names.AliasFree(Some(ty.attributes[k]), desired[k])
    ensures mask == Dotted(Paths(Diff(ty, current, desired)))
    ensures body == PatchBody(ty, current, desired)
  {
    body, mask := map[], [];
    var l, names, skip := ty.attributes, SortedNames(ty.attributes.Keys), Skipped(ty);
    assert NamesOk(l);
    MaskIsEmptyWith(ty, current, desired);
    DiffOfNone("", l, skip, current, desired);
    hide DiffLevel, DiffAttr, Paths, BodyOf, Dotted, AttrOk, Names.AliasFree;
    for i := 0 to |names|
      invariant Built(l, skip, names, i, current, desired, body, mask)
    {
      var more, entries := MaskAttr(l, skip, names[i], current, desired);
      BuiltNext(l, skip, names, i, current, desired, body, mask, more, entries);
      hide Built;
      mask := mask + entries;
      if more.Some? {
        body := body[l[names[i]].canonical := more.value];
      }
    }
    assert names[..|names|] == names;
    if |mask| > 0 {
      body := AddRequestOptions(l, desired, body);
    }
  }

  /** The body and mask of the first i attributes. */
  ghost predicate Built(l: Level, skip: set<string>, names: seq<string>, i: nat, have: map<string, Value>,
                        want: map<string, Value>, body: Object, mask: seq<string>)
    requires i <= |names| && forall k | k in names :: k in l
  {
    && body == BodyOf(DiffLevel(l, skip, names[..i], have, want))
    && mask == Dotted(Paths(DiffLevel(l, skip, names[..i], have, want)))
  }

  lemma BuiltNext(l: Level, skip: set<string>, names: seq<string>, i: nat, have: map<string, Value>,
                  want: map<string, Value>, body: Object, mask: seq<string>, more: Option<Json>, entries: seq<string>)
    requires NamesOk(l) && Distinct(names) && (forall k | k in names :: k in l) && i < |names|
    requires Built(l, skip, names, i, have, want, body, mask)
    requires var own := DiffAttr(l, skip, names[i], have, want);
             more == (if own == [] then None else Some(ValueOf(own[0].change))) && entries == Dotted(Paths(own))
    ensures Built(l, skip, names, i + 1, have, want,
                  if more.Some? then body[l[names[i]].canonical := more.value] else body, mask + entries)
  {
    hide DiffLevel, DiffAttr, Paths, BodyOf, Dotted;
    Round("", l, skip, names, i, have, want);
  }

  lemma MaskIsEmptyWith(ty: Type, current: map<string, Value>, desired: map<string, Value>)
    requires LevelOk(ty.attributes)
    ensures Dotted(Paths(Diff(ty, current, desired))) == [] <==> Diff(ty, current, desired) == []
    ensures BodyOf([]) == map[]
  {
    DiffIsWellFormed(ty.attributes, Skipped(ty), SortedNames(ty.attributes.Keys), current, desired);
    if Diff(ty, current, desired) != [] {
      PathsWellFormed(Diff(ty, current, desired));
    }
  }

  /** One round of BuildMask: what the attribute puts in the body, and its mask entries. */
  method MaskAttr(l: Level, skip: set<string>, name: string, have: map<string, Value>, want: map<string, Value>)
    returns (value: Option<Json>, entries: seq<string>)
    requires LevelOk(l) && name in l
    requires name in want ==> Names.AliasFree(Some(l[name]), want[name])
    ensures var own := DiffAttr(l, skip, name, have, want);
            value == (if own == [] then None else Some(ValueOf(own[0].change))) && entries == Dotted(Paths(own))
    decreases Map(want), 0, 0
  {
    if name in skip || name !in want || !want[name].Known() || Get(have, name) == want[name] {
      return None, [];
    }
    var a, h, w := l[name], Get(have, name), want[name];
    OwnIs("", l, skip, name, have, want);
    AttrFacts(l, name, want);
    hide DiffAttr, DiffLevel, Paths, BodyOf, Dotted, DottedUnder, AttrOk, LevelOk, Names.AliasFree, Names.WireValue;
    if a.fields != map[] && w.Map? && h.Map? {
      NestedIsEmptyWith(a.canonical, a.fields, h.entries, w.entries);
      var sub, subMask := BuildNested(a, a.canonical, h.entries, w.entries);
      if |subMask| > 0 {
        return Some(JObj(sub)), subMask;
      }
      return None, [];
    }
    var whole := Names.WriteValue(Some(a), w);
    return Some(whole), [a.canonical];
  }

  lemma AttrFacts(l: Level, name: string, want: map<string, Value>)
    requires LevelOk(l) && name in l && name in want && Names.AliasFree(Some(l[name]), want[name])
    ensures var a, w := l[name], want[name];
            AttrOk(a) && LevelOk(a.fields) &&
            (a.fields != map[] && w.Map? ==> !a.freeform && Names.AliasFree(Some(a), Map(w.entries)) && w == Map(w.entries))
  {}

  /** What an attribute's own difference puts in a body and a mask. */
  lemma OwnIs(path: string, l: Level, skip: set<string>, name: string, have: map<string, Value>, want: map<string, Value>)
    requires name in l && name !in skip && name in want && want[name].Known() && Get(have, name) != want[name]
    ensures var a, h, w := l[name], Get(have, name), want[name];
            var own := DiffAttr(l, skip, name, have, want);
            if a.fields != map[] && w.Map? && h.Map? then
              var sub := DiffLevel(a.fields, Outputs(a.fields), SortedNames(a.fields.Keys), h.entries, w.entries);
              if sub == [] then own == [] && Dotted(Paths(own)) == [] && DottedUnder(path, Paths(own)) == []
              else
                && own != [] && ValueOf(own[0].change) == JObj(BodyOf(sub))
                && Dotted(Paths(own)) == DottedUnder(a.canonical, Paths(sub))
                && DottedUnder(path, Paths(own)) == DottedUnder(path + "." + a.canonical, Paths(sub))
            else
              && own != [] && ValueOf(own[0].change) == Names.WireValue(Some(a), w)
              && Dotted(Paths(own)) == [a.canonical] && DottedUnder(path, Paths(own)) == [path + "." + a.canonical]
  {
    hide DiffLevel, Names.WireValue, Dotted, DottedUnder;
    var own := DiffAttr(l, skip, name, have, want);
    if own != [] {
      OwnPaths(path, own[0]);
      assert own == [own[0]];
    }
  }

  method BuildNested(a: Attr, path: string, have: map<string, Value>, want: map<string, Value>)
    returns (sub: Object, mask: seq<string>)
    requires AttrOk(a) && a.fields != map[] && !a.freeform && Names.AliasFree(Some(a), Map(want))
    ensures var edits := DiffLevel(a.fields, Outputs(a.fields), SortedNames(a.fields.Keys), have, want);
            sub == BodyOf(edits) && mask == DottedUnder(path, Paths(edits))
    decreases Map(want), 1, 0
  {
    hide DiffLevel, DiffAttr, Paths, BodyOf, DottedUnder, AttrOk, NamesOk, Names.AliasFree, BuiltUnder, Outputs;
    sub, mask := map[], [];
    var l, names, skip := a.fields, SortedNames(a.fields.Keys), Outputs(a.fields);
    FieldNamesOk(a);
    NothingBuilt(path, l, skip, names, have, want);
    for i := 0 to |names|
      invariant BuiltUnder(path, l, skip, names, i, have, want, sub, mask)
    {
      var value, entries := NestedAttr(a, path, names[i], have, want);
      BuiltUnderNext(path, l, skip, names, i, have, want, sub, mask, value, entries);
      mask := mask + entries;
      if value.Some? {
        sub := sub[l[names[i]].canonical := value.value];
      }
    }
    AllBuilt(path, l, skip, names, have, want, sub, mask);
  }

  lemma NothingBuilt(path: string, l: Level, skip: set<string>, names: seq<string>, have: map<string, Value>,
                     want: map<string, Value>)
    requires forall k | k in names :: k in l
    ensures BuiltUnder(path, l, skip, names, 0, have, want, map[], [])
  {
    DiffOfNone(path, l, skip, have, want);
    hide DiffLevel, Paths, BodyOf, DottedUnder;
    assert names[..0] == [];
  }

  lemma AllBuilt(path: string, l: Level, skip: set<string>, names: seq<string>, have: map<string, Value>,
                 want: map<string, Value>, sub: Object, mask: seq<string>)
    requires (forall k | k in names :: k in l) && BuiltUnder(path, l, skip, names, |names|, have, want, sub, mask)
    ensures var edits := DiffLevel(l, skip, names, have, want);
            sub == BodyOf(edits) && mask == DottedUnder(path, Paths(edits))
  {
    hide DiffLevel, Paths, BodyOf, DottedUnder;
    assert names[..|names|] == names;
  }

  lemma FieldNamesOk(a: Attr)
    requires AttrOk(a)
    ensures NamesOk(a.fields)
  {}

  /** The sub-body and mask, under a path, of the first i fields. */
  ghost predicate BuiltUnder(path: string, l: Level, skip: set<string>, names: seq<string>, i: nat,
                             have: map<string, Value>, want: map<string, Value>, sub: Object, mask: seq<string>)
    requires i <= |names| && forall k | k in names :: k in l
  {
    && sub == BodyOf(DiffLevel(l, skip, names[..i], have, want))
    && mask == DottedUnder(path, Paths(DiffLevel(l, skip, names[..i], have, want)))
  }

  lemma BuiltUnderNext(path: string, l: Level, skip: set<string>, names: seq<string>, i: nat, have: map<string, Value>,
                       want: map<string, Value>, sub: Object, mask: seq<string>, value: Option<Json>, entries: seq<string>)
    requires NamesOk(l) && Distinct(names) && (forall k | k in names :: k in l) && i < |names|
    requires BuiltUnder(path, l, skip, names, i, have, want, sub, mask)
    requires var own := DiffAttr(l, skip, names[i], have, want);
             value == (if own == [] then None else Some(ValueOf(own[0].change))) && entries == DottedUnder(path, Paths(own))
    ensures BuiltUnder(path, l, skip, names, i + 1, have, want,
                       if value.Some? then sub[l[names[i]].canonical := value.value] else sub, mask + entries)
  {
    hide DiffLevel, DiffAttr, Paths, BodyOf, DottedUnder;
    Round(path, l, skip, names, i, have, want);
  }

  lemma DiffOfNone(path: string, l: Level, skip: set<string>, have: map<string, Value>, want: map<string, Value>)
    ensures DiffLevel(l, skip, [], have, want) == []
    ensures BodyOf([]) == map[] && Paths([]) == [] && Dotted([]) == [] && DottedUnder(path, []) == []
  {}

  lemma NestedIsEmptyWith(path: string, l: Level, have: map<string, Value>, want: map<string, Value>)
    requires LevelOk(l)
    ensures var edits := DiffLevel(l, Outputs(l), SortedNames(l.Keys), have, want);
            DottedUnder(path, Paths(edits)) == [] <==> edits == []
  {
    var edits := DiffLevel(l, Outputs(l), SortedNames(l.Keys), have, want);
    DiffIsWellFormed(l, Outputs(l), SortedNames(l.Keys), have, want);
    if edits != [] {
      PathsWellFormed(edits);
    }
  }

  /** One round of BuildNested. */
  method NestedAttr(a: Attr, path: string, name: string, have: map<string, Value>, want: map<string, Value>)
    returns (value: Option<Json>, entries: seq<string>)
    requires AttrOk(a) && a.fields != map[] && !a.freeform && Names.AliasFree(Some(a), Map(want)) && name in a.fields
    ensures var own := DiffAttr(a.fields, Outputs(a.fields), name, have, want);
            value == (if own == [] then None else Some(ValueOf(own[0].change))) &&
            entries == DottedUnder(path, Paths(own))
    decreases Map(want), 0, 0
  {
    var f := a.fields[name];
    if f.output || name !in want || !want[name].Known() || Get(have, name) == want[name] {
      return None, [];
    }
    var h, w, child := Get(have, name), want[name], path + "." + f.canonical;
    OwnIs(path, a.fields, Outputs(a.fields), name, have, want);
    assert LevelOk(a.fields) && Names.AliasFree(Some(f), w);
    AttrFacts(a.fields, name, want);
    hide DiffAttr, DiffLevel, Paths, BodyOf, Dotted, DottedUnder, AttrOk, LevelOk, Names.AliasFree, Names.WireValue;
    if f.fields != map[] && w.Map? && h.Map? {
      NestedIsEmptyWith(child, f.fields, h.entries, w.entries);
      var s, m := BuildNested(f, child, h.entries, w.entries);
      if |m| > 0 {
        return Some(JObj(s)), m;
      }
      return None, [];
    }
    var whole := Names.WriteValue(Some(f), w);
    return Some(whole), [child];
  }

  method AddRequestOptions(l: Level, desired: map<string, Value>, body: Object) returns (out: Object)
    requires LevelOk(l)
    requires forall k | k in desired && k in l :: Names.AliasFree(Some(l[k]), desired[k])
    ensures out == Options(l, SortedNames(l.Keys), desired, body)
    decreases Map(desired), 0
  {
    out := body;
    var names := SortedNames(l.Keys);
    for i := 0 to |names|
      invariant Options(l, names[i..], desired, out) == Options(l, names, desired, body)
    {
      hide OptionValue, LevelOk, Names.AliasFree;
      assert names[i..][0] == names[i] && names[i..][1..] == names[i + 1..];
      if names[i] in desired {
        var a := l[names[i]];
        var v := RequestOption(a, desired[names[i]], At(out, a.canonical));
        if v.Some? {
          out := out[a.canonical := v.value];
        }
      }
    }
    assert names[|names|..] == [];
  }

  /** One round of AddRequestOptions. */
  method RequestOption(a: Attr, want: Value, held: Option<Json>) returns (v: Option<Json>)
    requires AttrOk(a) && Names.AliasFree(Some(a), want)
    ensures v == OptionValue(a, want, held)
    decreases want, 1
  {
    if !want.Known() {
      return None;
    }
    if a.sendWithUpdate {
      var whole := Names.WriteValue(Some(a), want);
      return Some(whole);
    }
    if a.fields == map[] || !want.Map? {
      return None;
    }
    var sub := AddRequestOptions(a.fields, want.entries, ObjectOf(held));
    if sub != map[] {
      return Some(JObj(sub));
    }
    return None;
  }

  method MergeChanged(base: Object, changed: Object) returns (out: Object)
    ensures out == Merge(base, changed)
    decreases JObj(changed)
  {
    out := base;
    var todo := changed.Keys;
    while todo != {}
      invariant todo <= changed.Keys
      invariant forall k :: k in out <==> k in base || (k in changed && k !in todo)
      invariant forall k | k in out :: out[k] == if k in changed && k !in todo then Merge(base, changed)[k] else base[k]
    {
      var k :| k in todo;
      todo := todo - {k};
      if k in out && out[k].JObj? && changed[k].JObj? {
        var sub := MergeChanged(out[k].fields, changed[k].fields);
        out := out[k := JObj(sub)];
      } else {
        out := out[k := changed[k]];
      }
    }
    Names.SameMap(out, Merge(base, changed));
  }

  /** attrByCanonical: the schema name of the attribute with a wire name. */
  method AttrByCanonical(l: Level, canonical: string) returns (name: Option<string>)
    requires NamesOk(l)
    ensures name == Names.KeyOf(l, canonical)
  {
    var todo := l.Keys;
    while todo != {}
      invariant todo <= l.Keys
      invariant forall k {:trigger l[k]} | k in l && k !in todo :: l[k].canonical != canonical
    {
      var k :| k in todo;
      todo := todo - {k};
      if l[k].canonical == canonical {
        return Some(k);
      }
    }
    return None;
  }

  /** changedSetters: the setters with a field configuration sets and the resource lacks. */
  method FindChangedSetters(l: Level, setters: seq<Setter>, current: map<string, Value>, desired: map<string, Value>)
    returns (out: seq<Setter>)
    requires NamesOk(l)
    ensures out == CleanPlan.ChangedSetters(l, setters, current, desired)
  {
    out := [];
    for i := 0 to |setters|
      invariant CleanPlan.ChangedSetters(l, setters, current, desired) ==
                out + CleanPlan.ChangedSetters(l, setters[i..], current, desired)
    {
      hide NamesOk, CleanPlan.SetterDue, CleanPlan.ChangedSetters;
      DueStep(l, setters, i, current, desired, out);
      var due := IsDue(l, setters[i], current, desired);
      if due {
        out := out + [setters[i]];
      }
    }
    assert setters[|setters|..] == [];
  }

  lemma DueStep(l: Level, setters: seq<Setter>, i: nat, current: map<string, Value>, desired: map<string, Value>,
                out: seq<Setter>)
    requires i < |setters|
    ensures out + CleanPlan.ChangedSetters(l, setters[i..], current, desired) ==
            (if CleanPlan.SetterDue(l, setters[i], current, desired) then out + [setters[i]] else out) +
            CleanPlan.ChangedSetters(l, setters[i + 1..], current, desired)
  {
    hide CleanPlan.SetterDue;
    assert setters[i..][0] == setters[i] && setters[i..][1..] == setters[i + 1..];
  }

  /** One round of FindChangedSetters. */
  method IsDue(l: Level, s: Setter, current: map<string, Value>, desired: map<string, Value>) returns (due: bool)
    requires NamesOk(l)
    ensures due <==> CleanPlan.SetterDue(l, s, current, desired)
  {
    for j := 0 to |s.fields|
      invariant forall i | 0 <= i < j :: !CleanPlan.SetsField(l, s.fields[i], current, desired)
    {
      var name := AttrByCanonical(l, s.fields[j]);
      if name.Some? && name.value in desired && desired[name.value].Known() &&
         Get(current, name.value) != desired[name.value] {
        assert CleanPlan.SetsField(l, s.fields[j], current, desired);
        return true;
      }
    }
    return false;
  }

  /** The top-level fields a mask names, each once, in mask order. */
  function Fields(edits: seq<Edit>): (fields: seq<string>)
    ensures |fields| == |edits|
    ensures forall i | 0 <= i < |edits| :: fields[i] == edits[i].name
  {
    seq(|edits|, i requires 0 <= i < |edits| => edits[i].name)
  }

  function Cut(s: string, sep: char): string {
    Split(s, sep)[0]
  }

  /** The distinct first segments of a mask, in mask order. */
  function Heads(mask: seq<string>): seq<string> {
    if mask == [] then []
    else
      var rest, f := Heads(mask[..|mask| - 1]), Cut(mask[|mask| - 1], '.');
      if f in rest then rest else rest + [f]
  }

  method TopLevelFields(mask: seq<string>) returns (out: seq<string>)
    ensures out == Heads(mask)
  {
    out := [];
    var seen: set<string> := {};
    for k := 0 to |mask|
      invariant out == Heads(mask[..k])
      invariant forall f :: f in seen <==> f in out
    {
      assert mask[..k + 1][..k] == mask[..k];
      var f := Cut(mask[k], '.');
      if f !in seen {
        seen := seen + {f};
        out := out + [f];
      }
    }
    assert mask[..|mask|] == mask;
  }

  /** More entries under a field already named name nothing new. */
  lemma {:induction false} HeadsRepeat(mask: seq<string>, more: seq<string>, f: string)
    requires f in Heads(mask) && forall m | m in more :: Cut(m, '.') == f
    ensures Heads(mask + more) == Heads(mask)
  {
    if more == [] {
      assert mask + more == mask;
    } else {
      var n := |more| - 1;
      assert (mask + more)[..|mask| + n] == mask + more[..n];
      assert more[n] in more;
      HeadsRepeat(mask, more[..n], f);
    }
  }

  lemma HeadsNew(mask: seq<string>, more: seq<string>, f: string)
    requires f !in Heads(mask) && more != [] && forall m | m in more :: Cut(m, '.') == f
    ensures Heads(mask + more) == Heads(mask) + [f]
  {
    assert more[0] in more;
    var once := mask + [more[0]];
    assert once[..|mask|] == mask;
    assert mask + more == once + more[1..];
    HeadsRepeat(once, more[1..], f);
  }

  /** THE PER-FIELD MASKS PARTITION THE MASK: one field for each top-level edit, in order,
      whose entries are that edit's own. */
  lemma {:induction false} HeadsAreFields(edits: seq<Edit>)
    requires WellFormed(edits)
    requires forall p | p in Paths(edits) :: DotFree(p)
    ensures Heads(Dotted(Paths(edits))) == Fields(edits)
    decreases |edits|
  {
    if edits != [] {
      var n := |edits| - 1;
      var init, last := edits[..n], edits[n];
      assert edits == init + [last];
      WellFormedInit(edits);
      PathsConcat(init, [last]);
      DottedConcat("", Paths(init), Paths([last]));
      forall p | p in Paths(init) ensures p in Paths(edits) {}
      forall p | p in Paths([last]) ensures p in Paths(edits) {}
      hide Paths, WellFormed, Heads, DotFree, Dotted;
      HeadsAreFields(init);
      OwnHeads(last);
      FieldsAppend(init, last);
      hide Fields;
      HeadsNew(Dotted(Paths(init)), Dotted(Paths([last])), last.name);
    }
  }

  lemma FieldsAppend(init: seq<Edit>, last: Edit)
    requires forall e | e in init :: e.name != last.name
    ensures Fields(init + [last]) == Fields(init) + [last.name]
    ensures last.name !in Fields(init)
  {}

  lemma OwnHeads(e: Edit)
    requires WellFormed([e]) && forall p | p in Paths([e]) :: DotFree(p)
    ensures Dotted(Paths([e])) != [] && forall m | m in Dotted(Paths([e])) :: Cut(m, '.') == e.name
  {
    PathsWellFormed([e]);
    var ps := Paths([e]);
    hide Paths, WellFormed;
    forall m | m in Dotted(ps) ensures Cut(m, '.') == e.name {
      var i :| 0 <= i < |ps| && Dotted(ps)[i] == m;
      assert ps[i] in ps;
      var f := PathHead([e], ps[i]);
      SplitJoin(ps[i], '.');
    }
  }

  lemma {:induction false} WellFormedInit(edits: seq<Edit>)
    requires WellFormed(edits) && edits != []
    ensures var n := |edits| - 1;
            WellFormed(edits[..n]) && WellFormed([edits[n]]) && forall e | e in edits[..n] :: e.name != edits[n].name
    decreases |edits|
  {
    var n := |edits| - 1;
    if n == 0 {
      assert edits == [edits[0]];
    } else {
      WellFormedInit(edits[1..]);
      assert edits[..n][0] == edits[0] && edits[..n][1..] == edits[1..][..n - 1];
      assert edits[n] in edits[1..];
      forall e | e in edits[..n] ensures e.name != edits[n].name {
        assert e == edits[0] || e in edits[..n][1..];
      }
      forall e | e in edits[..n][1..] ensures e.name != edits[0].name {
        assert e in edits[1..];
      }
    }
  }
}
