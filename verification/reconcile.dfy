/** Expressing an answer the way the reference is written (internal/gcprov/reconcile.go), so
    that equality with the reference means "no drift" and nothing else. */
module Reconcile {
  import opened Values
  import opened Catalog
  import opened Text
  import opened Matching

  /** The two spellings one project answers to (internal/gcprov/projects.go). */
  datatype ProjectAliases = ProjectAliases(id: string, number: string)

  /** `equivalent(rule, want, got)` stands for the string rules the catalog names;
      `unmatched` is true inside the elements of an unordered list. */
  datatype Reconciler = Reconciler(
    equivalent: (string, string, string) -> bool,
    aliases: Option<ProjectAliases>,
    unmatched: bool)

  const PROJECTS := "projects/"
  const RESERVED := "goog-"

  predicate LooksLikeAProjectName(s: string) {
    HasPrefix(s, PROJECTS) && s != PROJECTS && '/' !in s[|PROJECTS|..]
  }

  predicate SameProject(p: ProjectAliases, want: string, got: string) {
    var w, g := TrimPrefix(want, PROJECTS), TrimPrefix(got, PROJECTS);
    p.id != "" && p.number != "" && ((w == p.id && g == p.number) || (w == p.number && g == p.id))
  }

  /** The reference's and the answer's spellings name one project. */
  predicate ProjectAlias(r: Reconciler, want: string, got: string) {
    && r.aliases.Some?
    && LooksLikeAProjectName(want) && LooksLikeAProjectName(got)
    && SameProject(r.aliases.value, want, got)
  }

  function SameProjectSpelling(r: Reconciler, ref: Value, inc: Value): Value {
    if ref.Str? && inc.Str? && ref.s != inc.s && ProjectAlias(r, ref.s, inc.s) then Str(ref.s) else inc
  }

  function SameByEquivalence(r: Reconciler, a: Attr, ref: Value, inc: Value): Value {
    if a.equivalence != "" && ref.Str? && inc.Str? && ref.s != inc.s && r.equivalent(a.equivalence, ref.s, inc.s)
    then Str(ref.s) else inc
  }

  /** Retyping a number to its declared kind, when that is exact. */
  function AsDeclaredKind(a: Attr, inc: Value): Value {
    if a.kind == inc.Kind() then inc
    else if Coerce(inc, a.kind).Some? then Coerce(inc, a.kind).value
    else inc
  }

  function Leaf(r: Reconciler, a: Attr, ref: Value, inc: Value): Value {
    SameByEquivalence(r, a, ref, SameProjectSpelling(r, ref, AsDeclaredKind(a, inc)))
  }

  /** A field the answer left out is reported as the reference holds it: one the API
      never returns, or (against a real reference) a configured zero, which proto3
      JSON does not write. Never inside an unordered list. */
  predicate CarriesInputOnly(r: Reconciler, a: Attr, ref: Value) {
    a.inputOnly && !r.unmatched && ref.Known()
  }

  predicate CarriesOmittedZero(r: Reconciler, ref: Value) {
    !r.unmatched && IsZero(ref)
  }

  // ---- Reconcile ---------------------------------------------------------------

  function Entries(v: Value): map<string, Value> {
    if v.Map? then v.entries else map[]
  }

  function Items(v: Value): seq<Value> {
    if v.List? then v.items else []
  }

  /** An answered field that stays in the result: against a real reference a field
      nobody asked for is the server's choice and is dropped; inside an unordered
      list, where the reference may be a sibling, only an output-only one is. */
  predicate Keeps(r: Reconciler, f: Attr, ref: Value, name: string) {
    ref.Map? ==> if r.unmatched then !f.output else name in ref.entries
  }

  predicate CarriesField(r: Reconciler, f: Attr, ref: Value, name: string) {
    CarriesInputOnly(r, f, Get(Entries(ref), name)) ||
    (CarriesOmittedZero(r, Get(Entries(ref), name)) && ref.Map?)
  }

  /** The object of an answer: `l` are the declared fields, `inc` its entries. */
  function ObjectEntries(r: Reconciler, a: Attr, ref: Value, inc: map<string, Value>): map<string, Value>
    decreases a, 0
  {
    (map name | name in a.fields && name in inc && Keeps(r, a.fields[name], ref, name) ::
       Reconcile(r, a.fields[name], Get(Entries(ref), name), inc[name])) +
    (map name | name in a.fields && name !in inc && CarriesField(r, a.fields[name], ref, name) ::
       Get(Entries(ref), name))
  }

  function InElem(r: Reconciler, a: Attr): Reconciler {
    r.(unmatched := r.unmatched || a.unordered)
  }

  function RefItem(ref: Value, i: nat): Value {
    if i < |Items(ref)| then Items(ref)[i] else Zero
  }

  /** The items of a list, each reconciled against the reference's by position. */
  function ListItems(r: Reconciler, a: Attr, ref: Value, inc: seq<Value>): (out: seq<Value>)
    requires a.elem.Some?
    ensures |out| == |inc|
    decreases a, 0
  {
    seq(|inc|, i requires 0 <= i < |inc| => Reconcile(InElem(r, a), a.elem.value, RefItem(ref, i), inc[i]))
  }

  function Reconcile(r: Reconciler, a: Attr, ref: Value, inc: Value): Value
    decreases a, 1
  {
    if !inc.Known() || a.freeform then inc
    else if IsObject(a) then
      if inc.Map? then Map(ObjectEntries(r, a, ref, inc.entries)) else inc
    else if IsList(a) then
      if inc.List? then
        var items := ListItems(r, a, ref, inc.items);
        List(if a.unordered then Matched(Items(ref), items) else items)
      else inc
    else Leaf(r, a, ref, inc)
  }

  // ---- reserved labels ---------------------------------------------------------

  predicate IsLabelMap(a: Attr) {
    a.canonical == "labels" && a.kind == KindMap
  }

  function Unlabelled(m: map<string, Value>): map<string, Value> {
    map k | k in m && !HasPrefix(k, RESERVED) :: m[k]
  }

  /** v with GCP's own labels dropped at every depth a declared attribute reaches. */
  function Strip(a: Attr, v: Value): Value {
    if IsLabelMap(a) then
      if v.Map? then Map(Unlabelled(v.entries)) else v
    else if a.fields != map[] then
      if v.Map? then Map(map k | k in v.entries ::
        if k in a.fields then Strip(a.fields[k], v.entries[k]) else v.entries[k]) else v
    else if a.elem.Some? then
      if v.List? then List(seq(|v.items|, i requires 0 <= i < |v.items| => Strip(a.elem.value, v.items[i])))
      else v
    else v
  }

  /** A whole response body's worth, as the read path does it. */
  function ReconcileAttrs(r: Reconciler, l: Level, ref: map<string, Value>, inc: map<string, Value>): map<string, Value> {
    (map name | name in inc ::
       if name in l then Strip(l[name], Reconcile(r, l[name], Get(ref, name), inc[name])) else inc[name]) +
    (map name | name in l && name !in inc &&
                (CarriesInputOnly(r, l[name], Get(ref, name)) || CarriesOmittedZero(r, Get(ref, name))) ::
       Get(ref, name))
  }
}
