/** The loops of internal/gcprov/reconcile.go, proved against the functions of modules
    Reconcile and Matching.

    The matching loop marks items as used in an array; what is left unmarked stands for the
    list module Matching passes on. Objects and bodies are walked key by key, in any order. */
module Unordered {
  import opened Values
  import opened Catalog
  import opened Matching
  import opened Reconcile
  import Names
  import Text

  // ---- the loops ---------------------------------------------------------------

  /** The items no reference element has taken yet. */
  ghost function Remaining(items: seq<Value>, used: seq<bool>): seq<Value>
    requires |items| == |used|
  {
    if items == [] then []
    else (if used[0] then [] else [items[0]]) + Remaining(items[1..], used[1..])
  }

  lemma RemainingCons(items: seq<Value>, used: seq<bool>)
    requires |items| == |used| > 0
    ensures Remaining(items, used) == (if used[0] then [] else [items[0]]) + Remaining(items[1..], used[1..])
  {}

  lemma {:induction false} RemainingConcat(x: seq<Value>, y: seq<Value>, p: seq<bool>, q: seq<bool>)
    requires |x| == |p| && |y| == |q|
    ensures Remaining(x + y, p + q) == Remaining(x, p) + Remaining(y, q)
    decreases |x|
  {
    if x == [] {
      assert x + y == y && p + q == q;
    } else {
      var one := if p[0] then [] else [x[0]];
      RemainingCons(x, p);
      RemainingCons(x + y, p + q);
      RemainingConcat(x[1..], y, p[1..], q);
      hide Remaining;
      assert (x + y)[1..] == x[1..] + y && (p + q)[1..] == p[1..] + q;
      assert one + (Remaining(x[1..], p[1..]) + Remaining(y, q)) == one + Remaining(x[1..], p[1..]) + Remaining(y, q);
    }
  }

  lemma RemainingSplit(items: seq<Value>, used: seq<bool>, i: nat)
    requires |items| == |used| && i <= |items|
    ensures Remaining(items, used) == Remaining(items[..i], used[..i]) + Remaining(items[i..], used[i..])
  {
    hide Remaining;
    var x, y, p, q := items[..i], items[i..], used[..i], used[i..];
    assert x + y == items && p + q == used;
    RemainingConcat(x, y, p, q);
  }

  lemma {:induction false} RemainingNone(want: Value, items: seq<Value>, used: seq<bool>)
    requires |items| == |used|
    requires forall j | 0 <= j < |items| :: used[j] || !AnswersTo(want, items[j])
    ensures forall g | g in Remaining(items, used) :: !AnswersTo(want, g)
  {
    if items != [] {
      RemainingNone(want, items[1..], used[1..]);
    }
  }

  lemma FirstAnswerIs(want: Value, items: seq<Value>, i: nat)
    requires i <= |items| && (i < |items| ==> AnswersTo(want, items[i]))
    requires forall j | 0 <= j < i :: !AnswersTo(want, items[j])
    ensures FirstAnswer(want, items) == i
  {}

  /** Taking the first unused item that answers is one step of Matched. */
  lemma TakeStep(want: Value, items: seq<Value>, used: seq<bool>, i: nat)
    requires |items| == |used| && i < |items|
    requires !used[i] && AnswersTo(want, items[i])
    requires forall j | 0 <= j < i :: used[j] || !AnswersTo(want, items[j])
    ensures var left := Remaining(items, used);
            var f := FirstAnswer(want, left);
            f < |left| && left[f] == items[i] && Without(left, f) == Remaining(items, used[i := true])
  {
    var left := Remaining(items, used);
    var p := Remaining(items[..i], used[..i]);
    var q := Remaining(items[i + 1..], used[i + 1..]);
    RemainingSplit(items, used, i);
    RemainingSplit(items, used[i := true], i);
    assert used[i := true][..i] == used[..i];
    assert items[i..][1..] == items[i + 1..] && used[i..][1..] == used[i + 1..];
    assert used[i := true][i..][1..] == used[i + 1..];
    assert left == p + [items[i]] + q;
    assert Remaining(items, used[i := true]) == p + q;
    RemainingNone(want, items[..i], used[..i]);
    forall j | 0 <= j < |p| ensures !AnswersTo(want, left[j]) {
      assert left[j] in p;
    }
    FirstAnswerIs(want, left, |p|);
    assert left[..|p|] == p && left[|p| + 1..] == q;
  }

  lemma SkipStep(want: Value, items: seq<Value>, used: seq<bool>)
    requires |items| == |used|
    requires forall j | 0 <= j < |items| :: used[j] || !AnswersTo(want, items[j])
    ensures FirstAnswer(want, Remaining(items, used)) == |Remaining(items, used)|
  {
    var left := Remaining(items, used);
    RemainingNone(want, items, used);
    forall j | 0 <= j < |left| ensures !AnswersTo(want, left[j]) {
      assert left[j] in left;
    }
    FirstAnswerIs(want, left, |left|);
  }

  lemma {:induction false} RemainingAll(items: seq<Value>, used: seq<bool>)
    requires |items| == |used| && forall j | 0 <= j < |used| :: !used[j]
    ensures Remaining(items, used) == items
  {
    if items != [] {
      RemainingAll(items[1..], used[1..]);
    }
  }

  /** The first unused item that answers want, or |items|. */
  method FirstUnused(want: Value, items: seq<Value>, used: array<bool>) returns (i: nat)
    requires used.Length == |items|
    ensures i <= |items|
    ensures i < |items| ==> !used[i] && AnswersTo(want, items[i])
    ensures forall j | 0 <= j < i :: used[j] || !AnswersTo(want, items[j])
  {
    i := 0;
    while i < |items| && (used[i] || !AnswersTo(want, items[i]))
      invariant i <= |items|
      invariant forall j | 0 <= j < i :: used[j] || !AnswersTo(want, items[j])
    {
      i := i + 1;
    }
  }

  method MatchToReference(refs: seq<Value>, items: seq<Value>) returns (ordered: seq<Value>)
    ensures ordered == Matched(refs, items)
    ensures multiset(ordered) == multiset(items)
  {
    ordered := [];
    var used := new bool[|items|](_ => false);
    RemainingAll(items, used[..]);
    for w := 0 to |refs|
      invariant used.Length == |items|
      invariant ordered + Matched(refs[w..], Remaining(items, used[..])) == Matched(refs, items)
    {
      ghost var was := used[..];
      var i := FirstUnused(refs[w], items, used);
      MatchedRound(ordered, refs, w, items, was, i);
      hide Matched, Remaining, AnswersTo;
      if i < |items| {
        ordered := ordered + [items[i]];
        used[i] := true;
        assert used[..] == was[i := true];
      }
    }
    assert refs[|refs|..] == [];
    var rest := Unused(items, used);
    ordered := ordered + rest;
    MatchedConserves(refs, items);
  }

  /** One round of the matching loop. */
  lemma MatchedStep(refs: seq<Value>, items: seq<Value>, used: seq<bool>, i: nat)
    requires refs != [] && |items| == |used| && i <= |items|
    requires i < |items| ==> !used[i] && AnswersTo(refs[0], items[i])
    requires forall j | 0 <= j < i :: used[j] || !AnswersTo(refs[0], items[j])
    ensures Matched(refs, Remaining(items, used)) ==
            if i < |items| then [items[i]] + Matched(refs[1..], Remaining(items, used[i := true]))
            else Matched(refs[1..], Remaining(items, used))
  {
    if i < |items| {
      TakeStep(refs[0], items, used, i);
    } else {
      SkipStep(refs[0], items, used);
    }
  }

  lemma MatchedRound(ordered: seq<Value>, refs: seq<Value>, w: nat, items: seq<Value>, used: seq<bool>, i: nat)
    requires w < |refs| && |items| == |used| && i <= |items|
    requires i < |items| ==> !used[i] && AnswersTo(refs[w], items[i])
    requires forall j | 0 <= j < i :: used[j] || !AnswersTo(refs[w], items[j])
    ensures ordered + Matched(refs[w..], Remaining(items, used)) ==
            if i < |items| then ordered + [items[i]] + Matched(refs[w + 1..], Remaining(items, used[i := true]))
            else ordered + Matched(refs[w + 1..], Remaining(items, used))
  {
    hide Matched, Remaining, AnswersTo;
    assert refs[w..][0] == refs[w] && refs[w..][1..] == refs[w + 1..];
    MatchedStep(refs[w..], items, used, i);
    if i < |items| {
      var rest := Matched(refs[w + 1..], Remaining(items, used[i := true]));
      assert ordered + ([items[i]] + rest) == ordered + [items[i]] + rest;
    }
  }

  method Unused(items: seq<Value>, used: array<bool>) returns (rest: seq<Value>)
    requires used.Length == |items|
    ensures rest == Remaining(items, used[..])
  {
    rest := [];
    for i := 0 to |items|
      invariant rest == Remaining(items[..i], used[..i])
    {
      RemainingSplit(items[..i + 1], used[..i + 1], i);
      assert items[..i + 1][..i] == items[..i] && used[..i + 1][..i] == used[..i];
      assert items[..i + 1][i..] == [items[i]] && used[..i + 1][i..] == [used[i]];
      if !used[i] {
        rest := rest + [items[i]];
      }
    }
    assert items[..|items|] == items && used[..|items|] == used[..];
  }

  method ReconcileValue(r: Reconciler, a: Attr, ref: Value, inc: Value) returns (v: Value)
    ensures v == Reconcile.Reconcile(r, a, ref, inc)
    decreases a, 1
  {
    if !inc.Known() || a.freeform {
      return inc;
    }
    if a.kind == KindMap && a.fields != map[] {
      v := ReconcileObject(r, a, ref, inc);
    } else if a.kind == KindList && a.elem.Some? {
      v := ReconcileList(r, a, ref, inc);
    } else {
      v := Leaf(r, a, ref, inc);
    }
  }

  /** What the result holds under a declared field the answer has. */
  lemma AnsweredEntry(r: Reconciler, a: Attr, ref: Value, inc: map<string, Value>, k: string)
    requires k in a.fields && k in inc
    ensures k in ObjectEntries(r, a, ref, inc) <==> Keeps(r, a.fields[k], ref, k)
    ensures k in ObjectEntries(r, a, ref, inc) ==>
              ObjectEntries(r, a, ref, inc)[k] == Reconcile.Reconcile(r, a.fields[k], Get(Entries(ref), k), inc[k])
  {
    hide Reconcile.Reconcile, Keeps, CarriesField;
  }

  /** What it holds under one the answer left out. */
  lemma CarriedEntry(r: Reconciler, a: Attr, ref: Value, inc: map<string, Value>, k: string)
    requires k in a.fields && k !in inc
    ensures k in ObjectEntries(r, a, ref, inc) <==> CarriesField(r, a.fields[k], ref, k)
    ensures k in ObjectEntries(r, a, ref, inc) ==> ObjectEntries(r, a, ref, inc)[k] == Get(Entries(ref), k)
  {
    hide Reconcile.Reconcile, Keeps, CarriesField;
  }

  lemma OnlyDeclared(r: Reconciler, a: Attr, ref: Value, inc: map<string, Value>)
    ensures forall k | k in ObjectEntries(r, a, ref, inc) :: k in a.fields
  {
    hide Reconcile.Reconcile, Keeps, CarriesField;
  }

  method ReconcileObject(r: Reconciler, a: Attr, ref: Value, inc: Value) returns (v: Value)
    requires inc.Known() && !a.freeform && IsObject(a)
    ensures v == Reconcile.Reconcile(r, a, ref, inc)
    decreases a, 0
  {
    if !inc.Map? {
      return inc;
    }
    var out: map<string, Value> := map[];
    var todo := a.fields.Keys;
    ghost var spec := ObjectEntries(r, a, ref, inc.entries);
    assert Reconcile.Reconcile(r, a, ref, inc) == Map(spec);
    hide Reconcile.Reconcile, ObjectEntries;
    OnlyDeclared(r, a, ref, inc.entries);
    while todo != {}
      invariant todo <= a.fields.Keys
      invariant forall n | n in out :: n in spec && n !in todo && out[n] == spec[n]
      invariant forall n | n in spec && n !in todo :: n in out
    {
      var name :| name in todo;
      todo := todo - {name};
      var field, refField := a.fields[name], Get(Entries(ref), name);
      if name !in inc.entries {
        CarriedEntry(r, a, ref, inc.entries, name);
        if CarriesInputOnly(r, field, refField) {
          out := out[name := refField];
        } else if CarriesOmittedZero(r, refField) && ref.Map? {
          out := out[name := refField];
        }
        continue;
      }
      AnsweredEntry(r, a, ref, inc.entries, name);
      if ref.Map? && !r.unmatched && name !in ref.entries {
        continue;
      }
      if ref.Map? && r.unmatched && field.output {
        continue;
      }
      var sub := ReconcileValue(r, field, refField, inc.entries[name]);
      out := out[name := sub];
    }
    Names.SameMap(out, spec);
    v := Map(out);
  }

  lemma ItemsAre(r: Reconciler, a: Attr, ref: Value, inc: seq<Value>)
    requires a.elem.Some?
    ensures var spec := ListItems(r, a, ref, inc);
            forall i | 0 <= i < |inc| ::
              spec[i] == Reconcile.Reconcile(InElem(r, a), a.elem.value, RefItem(ref, i), inc[i])
  {
    hide Reconcile.Reconcile;
  }

  method ReconcileList(r: Reconciler, a: Attr, ref: Value, inc: Value) returns (v: Value)
    requires inc.Known() && !a.freeform && !IsObject(a) && IsList(a)
    ensures v == Reconcile.Reconcile(r, a, ref, inc)
    ensures inc.List? ==> v.List? && multiset(v.items) == multiset(ListItems(r, a, ref, inc.items))
    ensures inc.List? && !a.unordered ==> v.items == ListItems(r, a, ref, inc.items)
    decreases a, 0
  {
    if !inc.List? {
      return inc;
    }
    ghost var spec := ListItems(r, a, ref, inc.items);
    ItemsAre(r, a, ref, inc.items);
    assert Reconcile.Reconcile(r, a, ref, inc) == List(if a.unordered then Matched(Items(ref), spec) else spec);
    hide ListItems, Reconcile.Reconcile;
    var items := [];
    for i := 0 to |inc.items|
      invariant items == spec[..i]
    {
      var item := ReconcileValue(InElem(r, a), a.elem.value, RefItem(ref, i), inc.items[i]);
      assert spec[..i + 1] == spec[..i] + [spec[i]];
      items := items + [item];
    }
    assert items == spec;
    if a.unordered {
      items := MatchToReference(Items(ref), items);
    }
    v := List(items);
  }

  method ReconcileBody(r: Reconciler, l: Level, ref: map<string, Value>, inc: map<string, Value>)
    returns (out: map<string, Value>)
    ensures out == ReconcileAttrs(r, l, ref, inc)
  {
    out := map[];
    ghost var spec := ReconcileAttrs(r, l, ref, inc);
    hide Reconcile.Reconcile, Strip;
    var todo := inc.Keys;
    while todo != {}
      invariant todo <= inc.Keys
      invariant forall n | n in out :: n in inc && n !in todo && out[n] == spec[n]
      invariant forall n | n in inc && n !in todo :: n in out
    {
      var name :| name in todo;
      todo := todo - {name};
      if name in l {
        var v := ReconcileValue(r, l[name], Get(ref, name), inc[name]);
        v := WithoutReservedLabels(l[name], v);
        out := out[name := v];
      } else {
        out := out[name := inc[name]];
      }
    }
    todo := l.Keys;
    while todo != {}
      invariant todo <= l.Keys
      invariant forall n | n in out :: n in spec && out[n] == spec[n] && (n in inc || n !in todo)
      invariant forall n | n in inc :: n in out
      invariant forall n | n in spec && n !in inc && n !in todo :: n in out
    {
      var name :| name in todo;
      todo := todo - {name};
      if name !in inc && (CarriesInputOnly(r, l[name], Get(ref, name)) || CarriesOmittedZero(r, Get(ref, name))) {
        out := out[name := Get(ref, name)];
      }
    }
    Names.SameMap(out, spec);
  }

  method WithoutReservedLabels(a: Attr, v: Value) returns (w: Value)
    ensures w == Strip(a, v)
    decreases a
  {
    if !v.Known() {
      return v;
    }
    if IsLabelMap(a) {
      if !v.Map? {
        return v;
      }
      var out: map<string, Value> := map[];
      var todo := v.entries.Keys;
      while todo != {}
        invariant todo <= v.entries.Keys
        invariant forall k :: k in out <==> k in v.entries && k !in todo && !Text.HasPrefix(k, RESERVED)
        invariant forall k | k in out :: out[k] == v.entries[k]
      {
        var k :| k in todo;
        todo := todo - {k};
        if !Text.HasPrefix(k, RESERVED) {
          out := out[k := v.entries[k]];
        }
      }
      Names.SameMap(out, Unlabelled(v.entries));
      return Map(out);
    }
    if a.fields != map[] {
      if !v.Map? {
        return v;
      }
      ghost var spec := Strip(a, v).entries;
      var out: map<string, Value> := map[];
      var todo := v.entries.Keys;
      while todo != {}
        invariant todo <= v.entries.Keys
        invariant forall k :: k in out <==> k in v.entries && k !in todo
        invariant forall k | k in out :: out[k] == spec[k]
      {
        var k :| k in todo;
        todo := todo - {k};
        var item := v.entries[k];
        if k in a.fields {
          item := WithoutReservedLabels(a.fields[k], item);
        }
        out := out[k := item];
      }
      Names.SameMap(out, spec);
      return Map(out);
    }
    if a.elem.Some? {
      if !v.List? {
        return v;
      }
      ghost var spec := Strip(a, v).items;
      var out := [];
      for i := 0 to |v.items|
        invariant out == spec[..i]
      {
        var item := WithoutReservedLabels(a.elem.value, v.items[i]);
        out := out + [item];
      }
      return List(out);
    }
    return v;
  }
}
