/** The generated description of a type that the runtime works from
    (internal/catalog/catalog.go). */
module Catalog {
  import opened Values

  /** One attribute, at any depth. `freeform` is the source's Opaque. */
  datatype Attr = Attr(
    canonical: string,
    kind: Kind,
    fields: map<string, Attr>,
    elem: Option<Attr>,
    output: bool,
    createOnly: bool,
    inputOnly: bool,
    freeform: bool,
    unordered: bool,
    sendWithUpdate: bool,
    equivalence: string)

  /** The attributes declared at one level, by schema name. */
  type Level = map<string, Attr>

  /** One method that changes some fields in place; `fields` are wire names. */
  datatype Setter = Setter(fields: seq<string>, lock: string)

  /** `urlNames` are the placeholder names of the type's item url templates. */
  datatype Type = Type(attributes: Level, setters: seq<Setter>, urlNames: set<string>)

  predicate IsObject(a: Attr) {
    a.kind == KindMap && a.fields != map[]
  }

  predicate IsList(a: Attr) {
    a.kind == KindList && a.elem.Some?
  }

  function AttrAt(l: Level, k: string): Option<Attr> {
    if k in l then Some(l[k]) else None
  }

  /** What the generator guarantees of the wire names of one level: present, free of
      the two mask separators, no two alike, and none of a renamed attribute's the
      schema name of a sibling. */
  predicate NamesOk(l: Level) {
    && (forall k | k in l :: l[k].canonical != "" && '.' !in l[k].canonical && ',' !in l[k].canonical)
    && (forall k, n {:trigger l[k], l[n]} | k in l && n in l && l[k].canonical == l[n].canonical :: k == n)
    && (forall k, n {:trigger l[k], l[n]} | k in l && n in l && l[k].canonical == n :: k == n)
  }

  /** Neither a nor a field below it is a request option. */
  predicate OptionFree(a: Attr) {
    !a.sendWithUpdate && forall k | k in a.fields :: OptionFree(a.fields[k])
  }

  /** Only maps have Fields, only lists have an Elem, what is opaque has neither, and
      nothing GCP computes is, or holds, a request option. */
  predicate ShapeOk(a: Attr) {
    && (a.output ==> OptionFree(a))
    && (a.fields != map[] ==> a.kind == KindMap && !a.freeform)
    && (a.elem.Some? ==> a.kind == KindList && !a.freeform)
  }

  predicate AttrOk(a: Attr) {
    && ShapeOk(a)
    && NamesOk(a.fields)
    && (forall k | k in a.fields :: AttrOk(a.fields[k]))
    && (a.elem.Some? ==> AttrOk(a.elem.value))
  }

  predicate LevelOk(l: Level) {
    && NamesOk(l)
    && forall k | k in l :: AttrOk(l[k])
  }

  /** No list below a is one Google may reorder. */
  predicate AllOrdered(a: Attr) {
    && !a.unordered
    && (forall k | k in a.fields :: AllOrdered(a.fields[k]))
    && (a.elem.Some? ==> AllOrdered(a.elem.value))
  }

  /** What configuration may hold for a: known all the way down, and only declared
      keys inside an object. */
  predicate Typed(a: Attr, v: Value) {
    && v.Known()
    && (!a.freeform && IsObject(a) ==>
         v.Map? && forall k | k in v.entries :: k in a.fields && Typed(a.fields[k], v.entries[k]))
    && (!a.freeform && !IsObject(a) && IsList(a) ==>
         v.List? && forall i | 0 <= i < |v.items| :: Typed(a.elem.value, v.items[i]))
  }

  /** Beyond Typed: nothing in v is an attribute GCP computes, every leaf has its
      declared kind and is one the wire hands back unchanged. */
  predicate Sendable(a: Attr, v: Value) {
    if a.freeform then Resolved(v) && NoWholeFloat(v)
    else if IsObject(a) then
      v.Map? && forall k | k in v.entries ::
        k in a.fields && !a.fields[k].output && Sendable(a.fields[k], v.entries[k])
    else if IsList(a) then
      v.List? && forall i | 0 <= i < |v.items| :: Sendable(a.elem.value, v.items[i])
    else
      Resolved(v) && v.Kind() == a.kind && (v.Float? || NoWholeFloat(v))
  }

  lemma {:induction false} SendableIsTyped(a: Attr, v: Value)
    requires Sendable(a, v)
    ensures Typed(a, v)
  {
    if a.freeform {
    } else if IsObject(a) {
      forall k | k in v.entries ensures Typed(a.fields[k], v.entries[k]) {
        SendableIsTyped(a.fields[k], v.entries[k]);
      }
    } else if IsList(a) {
      forall i | 0 <= i < |v.items| ensures Typed(a.elem.value, v.items[i]) {
        SendableIsTyped(a.elem.value, v.items[i]);
      }
    }
  }
}
