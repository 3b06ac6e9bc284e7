/** Inlining the $refs of a Discovery document, whose schemas may refer to each other in
    circles (internal/disco/resolve.go). */
module Resolve {
  import opened Values

  /** A schema; an absent properties map is an empty one. `extra` is additionalProperties. */
  datatype Schema = Schema(
    kind: string, description: string, ref: string, readOnly: bool, enums: seq<string>, required: seq<string>,
    props: map<string, Schema>, items: Option<Schema>, extra: Option<Schema>)

  type Document = map<string, Schema>

  const MAX_REF_DEPTH := 8

  function Truncated(s: Schema): Schema {
    Schema("object", s.description, "", false, [], [], map[], None, None)
  }

  // ---- what resolution computes ------------------------------------------------

  /** What is inlined for s when `left` more schemas may be entered through a $ref, this one
      included. The source's depth is MAX_REF_DEPTH + 1 - left. */
  function Tree(d: Document, s: Schema, left: nat): Schema
    decreases left, s, 1
  {
    if left == 0 then Truncated(s)
    else if s.ref != "" then
      if s.ref !in d then s else At(s, Tree(d, d[s.ref], left - 1))
    else s.(props := PropTrees(d, s, left), items := PartTree(d, s.items, left), extra := PartTree(d, s.extra, left))
  }

  function PropTrees(d: Document, s: Schema, left: nat): map<string, Schema>
    decreases left, s, 0
  {
    map k | k in s.props :: Tree(d, s.props[k], left)
  }

  function PartTree(d: Document, part: Option<Schema>, left: nat): Option<Schema>
    decreases left, part, 0
  {
    if part.None? then None else Some(Tree(d, part.value, left))
  }

  /** The target as the referring site describes it. */
  function At(site: Schema, target: Schema): Schema {
    target.(description := if site.description != "" then site.description else target.description,
            readOnly := site.readOnly || target.readOnly)
  }

  /** A dangling $ref is met. */
  predicate Fails(d: Document, s: Schema, left: nat)
    decreases left, s, 1
  {
    && left > 0
    && if s.ref != "" then s.ref !in d || Fails(d, d[s.ref], left - 1)
       else
         || (exists k :: k in s.props && Fails(d, s.props[k], left))
         || PartFails(d, s.items, left)
         || PartFails(d, s.extra, left)
  }

  predicate PartFails(d: Document, part: Option<Schema>, left: nat)
    decreases left, part, 0
  {
    part.Some? && Fails(d, part.value, left)
  }

  ghost function Sum(m: map<string, nat>): nat
    decreases |m|
  {
    if m == map[] then 0 else
      var k :| k in m;
      assert m.Keys == {k} + (m - {k}).Keys;
      m[k] + Sum(m - {k})
  }

  ghost function PropCuts(d: Document, s: Schema, left: nat): map<string, nat>
    decreases left, s, 0
  {
    map k | k in s.props :: Cuts(d, s.props[k], left)
  }

  /** How many subtrees the bound cuts off. */
  ghost function Cuts(d: Document, s: Schema, left: nat): nat
    decreases left, s, 1
  {
    if left == 0 then 1
    else if s.ref != "" then if s.ref !in d then 0 else Cuts(d, d[s.ref], left - 1)
    else
      Sum(PropCuts(d, s, left)) + PartCuts(d, s.items, left) + PartCuts(d, s.extra, left)
  }

  ghost function PartCuts(d: Document, part: Option<Schema>, left: nat): nat
    decreases left, part, 0
  {
    if part.None? then 0 else Cuts(d, part.value, left)
  }

  /** One level of a schema that is no $ref. */
  lemma Level(d: Document, s: Schema, left: nat)
    requires s.ref == "" && left > 0
    ensures Tree(d, s, left) ==
            s.(props := PropTrees(d, s, left), items := PartTree(d, s.items, left), extra := PartTree(d, s.extra, left))
    ensures Fails(d, s, left) <==>
            (exists k :: k in s.props && Fails(d, s.props[k], left)) || PartFails(d, s.items, left) || PartFails(d, s.extra, left)
    ensures Cuts(d, s, left) == Sum(PropCuts(d, s, left)) + PartCuts(d, s.items, left) + PartCuts(d, s.extra, left)
  {
    hide PropTrees, PartTree, PartFails, PropCuts, PartCuts, Sum;
  }

  /** A sum may be taken in any order. */
  lemma {:induction false} SumTake(m: map<string, nat>, k: string)
    requires k in m
    ensures Sum(m) == m[k] + Sum(m - {k})
    decreases |m|
  {
    var j :| j in m && Sum(m) == m[j] + Sum(m - {j});
    if j != k {
      assert m.Keys == {j} + (m - {j}).Keys;
      SumTake(m - {j}, k);
      assert m.Keys == {k} + (m - {k}).Keys;
      SumTake(m - {k}, j);
      assert m - {j} - {k} == m - {k} - {j};
    }
  }

  lemma {:induction false} SumIsZero(m: map<string, nat>)
    ensures Sum(m) == 0 <==> forall k | k in m :: m[k] == 0
    decreases |m|
  {
    if m != map[] {
      var k :| k in m;
      SumTake(m, k);
      assert m.Keys == {k} + (m - {k}).Keys;
      SumIsZero(m - {k});
      assert forall j :: j in m <==> j == k || j in m - {k};
    }
  }

  // ---- the recursion -----------------------------------------------------------

  datatype Resolution = Resolved(schema: Schema, truncated: nat) | Dangling

  method ResolveFrom(d: Document, s: Schema, depth: nat) returns (r: Resolution)
    requires depth <= MAX_REF_DEPTH + 1
    ensures r.Dangling? <==> Fails(d, s, MAX_REF_DEPTH + 1 - depth)
    ensures r.Resolved? ==> r.schema == Tree(d, s, MAX_REF_DEPTH + 1 - depth) &&
                            r.truncated == Cuts(d, s, MAX_REF_DEPTH + 1 - depth)
    decreases MAX_REF_DEPTH + 1 - depth, s, 1
  {
    if depth > MAX_REF_DEPTH {
      return Resolved(Truncated(s), 1);
    }
    if s.ref != "" {
      if s.ref !in d {
        return Dangling;
      }
      r := ResolveFrom(d, d[s.ref], depth + 1);
      if r.Resolved? {
        r := Resolved(At(s, r.schema), r.truncated);
      }
      return;
    }
    Level(d, s, MAX_REF_DEPTH + 1 - depth);
    hide Tree, Fails, Cuts, Sum, PropTrees, PartTree, PartFails, PropCuts, PartCuts;
    var ok, props, n := ResolveProps(d, s, depth);
    if !ok {
      return Dangling;
    }
    var itemsOk, items, m := ResolvePart(d, s.items, depth);
    if !itemsOk {
      return Dangling;
    }
    var extraOk, extra, l := ResolvePart(d, s.extra, depth);
    if !extraOk {
      return Dangling;
    }
    r := Resolved(s.(props := props, items := items, extra := extra), n + m + l);
  }

  /** resolve of what may be nil. */
  method ResolvePart(d: Document, part: Option<Schema>, depth: nat)
    returns (ok: bool, out: Option<Schema>, truncated: nat)
    requires depth <= MAX_REF_DEPTH
    ensures ok <==> !PartFails(d, part, MAX_REF_DEPTH + 1 - depth)
    ensures ok ==> out == PartTree(d, part, MAX_REF_DEPTH + 1 - depth) &&
                   truncated == PartCuts(d, part, MAX_REF_DEPTH + 1 - depth)
    decreases MAX_REF_DEPTH + 1 - depth, part, 0
  {
    hide Tree, Fails, Cuts;
    if part.None? {
      return true, None, 0;
    }
    var p := ResolveFrom(d, part.value, depth);
    if p.Dangling? {
      return false, None, 0;
    }
    return true, Some(p.schema), p.truncated;
  }

  /** The loop over a schema's properties, in whatever order the map gives. */
  method ResolveProps(d: Document, s: Schema, depth: nat) returns (ok: bool, props: map<string, Schema>, truncated: nat)
    requires depth <= MAX_REF_DEPTH
    ensures ok <==> forall k | k in s.props :: !Fails(d, s.props[k], MAX_REF_DEPTH + 1 - depth)
    ensures ok ==> props == PropTrees(d, s, MAX_REF_DEPTH + 1 - depth)
    ensures ok ==> truncated == Sum(PropCuts(d, s, MAX_REF_DEPTH + 1 - depth))
    decreases MAX_REF_DEPTH + 1 - depth, s, 0
  {
    hide Tree, Fails, Cuts, Sum;
    ghost var left: nat := MAX_REF_DEPTH + 1 - depth;
    ghost var rest := PropCuts(d, s, left);
    ok, props, truncated := true, map[], 0;
    var todo := s.props.Keys;
    while todo != {}
      invariant todo <= s.props.Keys && rest.Keys == todo
      invariant forall k | k in todo :: rest[k] == Cuts(d, s.props[k], left)
      invariant props == map k | k in s.props && k !in todo :: Tree(d, s.props[k], left)
      invariant truncated + Sum(rest) == Sum(PropCuts(d, s, left))
      invariant forall k | k in s.props && k !in todo :: !Fails(d, s.props[k], left)
    {
      var k :| k in todo;
      todo := todo - {k};
      SumTake(rest, k);
      rest := rest - {k};
      var p := ResolveFrom(d, s.props[k], depth);
      if p.Dangling? {
        return false, props, truncated;
      }
      props := props[k := p.schema];
      truncated := truncated + p.truncated;
    }
    SumIsZero(rest);
  }

  method ResolveSchema(d: Document, s: Schema) returns (r: Resolution)
    ensures r.Dangling? <==> Fails(d, s, MAX_REF_DEPTH + 1)
    ensures r.Resolved? ==> r.schema == Tree(d, s, MAX_REF_DEPTH + 1) && r.truncated == Cuts(d, s, MAX_REF_DEPTH + 1)
  {
    r := ResolveFrom(d, s, 0);
  }

  // ---- no $ref is left ---------------------------------------------------------

  predicate NoRefs(s: Schema) {
    && s.ref == ""
    && (forall k | k in s.props :: NoRefs(s.props[k]))
    && (s.items.Some? ==> NoRefs(s.items.value))
    && (s.extra.Some? ==> NoRefs(s.extra.value))
  }

  /** Whatever resolves is free of $refs, all the way down. */
  lemma {:induction false} TreeHasNoRefs(d: Document, s: Schema, left: nat)
    requires !Fails(d, s, left)
    ensures NoRefs(Tree(d, s, left))
    decreases left, s
  {
    if left == 0 {
    } else if s.ref != "" {
      TreeHasNoRefs(d, d[s.ref], left - 1);
    } else {
      forall k | k in s.props ensures NoRefs(Tree(d, s.props[k], left)) {
        TreeHasNoRefs(d, s.props[k], left);
      }
      if s.items.Some? {
        TreeHasNoRefs(d, s.items.value, left);
      }
      if s.extra.Some? {
        TreeHasNoRefs(d, s.extra.value, left);
      }
    }
  }

  // ---- paths through a document ------------------------------------------------

  datatype Step = Prop(name: string) | Items | Extra | Hop

  /** The schema a path leads to: a $ref is followed, and nothing beside it is looked at. */
  function Walk(d: Document, s: Schema, p: seq<Step>): Option<Schema>
    decreases |p|
  {
    if p == [] then Some(s)
    else
      match p[0]
      case Hop => if s.ref != "" && s.ref in d then Walk(d, d[s.ref], p[1..]) else None
      case Prop(n) => if s.ref == "" && n in s.props then Walk(d, s.props[n], p[1..]) else None
      case Items => if s.ref == "" && s.items.Some? then Walk(d, s.items.value, p[1..]) else None
      case Extra => if s.ref == "" && s.extra.Some? then Walk(d, s.extra.value, p[1..]) else None
  }

  function Hops(p: seq<Step>): nat {
    if p == [] then 0 else (if p[0].Hop? then 1 else 0) + Hops(p[1..])
  }

  /** The path ends at a $ref that names no schema. */
  predicate EndsDangling(d: Document, s: Schema, p: seq<Step>) {
    var t := Walk(d, s, p);
    t.Some? && t.value.ref != "" && t.value.ref !in d
  }

  lemma WalkCons(d: Document, s: Schema, step: Step, p: seq<Step>)
    ensures Hops([step] + p) == Hops(p) + if step.Hop? then 1 else 0
    ensures Walk(d, s, [step] + p) ==
            match step
            case Hop => if s.ref != "" && s.ref in d then Walk(d, d[s.ref], p) else None
            case Prop(n) => if s.ref == "" && n in s.props then Walk(d, s.props[n], p) else None
            case Items => if s.ref == "" && s.items.Some? then Walk(d, s.items.value, p) else None
            case Extra => if s.ref == "" && s.extra.Some? then Walk(d, s.extra.value, p) else None
  {
    assert ([step] + p)[0] == step && ([step] + p)[1..] == p;
  }

  lemma {:induction false} FailurePath(d: Document, s: Schema, left: nat) returns (p: seq<Step>)
    requires Fails(d, s, left)
    ensures EndsDangling(d, s, p) && Hops(p) < left
    decreases left, s
  {
    p := [];
    if s.ref != "" {
      if s.ref in d {
        p := FailurePath(d, d[s.ref], left - 1);
        WalkCons(d, s, Hop, p);
        p := [Hop] + p;
      }
    } else {
      Level(d, s, left);
      hide Fails;
      if k :| k in s.props && Fails(d, s.props[k], left) {
        p := FailurePath(d, s.props[k], left);
        WalkCons(d, s, Prop(k), p);
        p := [Prop(k)] + p;
      } else if PartFails(d, s.items, left) {
        p := FailurePath(d, s.items.value, left);
        WalkCons(d, s, Items, p);
        p := [Items] + p;
      } else {
        p := FailurePath(d, s.extra.value, left);
        WalkCons(d, s, Extra, p);
        p := [Extra] + p;
      }
    }
  }

  lemma {:induction false} PathFails(d: Document, s: Schema, left: nat, p: seq<Step>)
    requires EndsDangling(d, s, p) && Hops(p) < left
    ensures Fails(d, s, left)
    decreases |p|
  {
    if p != [] {
      match p[0]
      case Hop => PathFails(d, d[s.ref], left - 1, p[1..]);
      case Prop(n) => PathFails(d, s.props[n], left, p[1..]);
      case Items => PathFails(d, s.items.value, left, p[1..]);
      case Extra => PathFails(d, s.extra.value, left, p[1..]);
    }
  }

  /** RESOLUTION FAILS EXACTLY WHEN a dangling $ref can be reached in at most eight hops. */
  lemma FailsIffDangling(d: Document, s: Schema)
    ensures Fails(d, s, MAX_REF_DEPTH + 1) <==> exists p :: EndsDangling(d, s, p) && Hops(p) <= MAX_REF_DEPTH
  {
    if Fails(d, s, MAX_REF_DEPTH + 1) {
      var p := FailurePath(d, s, MAX_REF_DEPTH + 1);
    }
    forall p | EndsDangling(d, s, p) && Hops(p) <= MAX_REF_DEPTH ensures Fails(d, s, MAX_REF_DEPTH + 1) {
      PathFails(d, s, MAX_REF_DEPTH + 1, p);
    }
  }

  lemma {:induction false} CutPath(d: Document, s: Schema, left: nat) returns (p: seq<Step>)
    requires Cuts(d, s, left) > 0
    ensures Walk(d, s, p).Some? && Hops(p) == left
    decreases left, s
  {
    p := [];
    if left == 0 {
    } else if s.ref != "" {
      p := CutPath(d, d[s.ref], left - 1);
      WalkCons(d, s, Hop, p);
      p := [Hop] + p;
    } else {
      SumIsZero(PropCuts(d, s, left));
      if k :| k in s.props && Cuts(d, s.props[k], left) > 0 {
        p := CutPath(d, s.props[k], left);
        WalkCons(d, s, Prop(k), p);
        p := [Prop(k)] + p;
      } else if s.items.Some? && Cuts(d, s.items.value, left) > 0 {
        p := CutPath(d, s.items.value, left);
        WalkCons(d, s, Items, p);
        p := [Items] + p;
      } else {
        p := CutPath(d, s.extra.value, left);
        WalkCons(d, s, Extra, p);
        p := [Extra] + p;
      }
    }
  }

  lemma {:induction false} PathCuts(d: Document, s: Schema, left: nat, p: seq<Step>)
    requires Walk(d, s, p).Some? && Hops(p) >= left
    ensures Cuts(d, s, left) > 0
    decreases |p|
  {
    if left > 0 {
      SumIsZero(PropCuts(d, s, left));
      match p[0]
      case Hop => PathCuts(d, d[s.ref], left - 1, p[1..]);
      case Prop(n) =>
        PathCuts(d, s.props[n], left, p[1..]);
        assert PropCuts(d, s, left)[n] > 0;
      case Items => PathCuts(d, s.items.value, left, p[1..]);
      case Extra => PathCuts(d, s.extra.value, left, p[1..]);
    }
  }

  /** NOTHING IS CUT OFF EXACTLY WHEN no path takes more than eight hops. */
  lemma CutsIffDeep(d: Document, s: Schema)
    ensures Cuts(d, s, MAX_REF_DEPTH + 1) == 0 <==> forall p | Walk(d, s, p).Some? :: Hops(p) <= MAX_REF_DEPTH
  {
    if Cuts(d, s, MAX_REF_DEPTH + 1) > 0 {
      var p := CutPath(d, s, MAX_REF_DEPTH + 1);
    }
    forall p | Walk(d, s, p).Some? && Hops(p) > MAX_REF_DEPTH ensures Cuts(d, s, MAX_REF_DEPTH + 1) > 0 {
      PathCuts(d, s, MAX_REF_DEPTH + 1, p);
    }
  }

  /** Then the bound does not matter: any larger one resolves to the same schema, fails
      alike, and cuts nothing off either. */
  lemma {:induction false} LargerBoundIsSame(d: Document, s: Schema, left: nat, more: nat)
    requires Cuts(d, s, left) == 0 && more >= left
    ensures Tree(d, s, more) == Tree(d, s, left) && Cuts(d, s, more) == 0
    ensures Fails(d, s, more) <==> Fails(d, s, left)
    decreases left, s, 1
  {
    if s.ref != "" {
      if s.ref in d {
        LargerBoundIsSame(d, d[s.ref], left - 1, more - 1);
      }
    } else {
      assert left > 0;
      Level(d, s, left);
      Level(d, s, more);
      hide Tree, Fails, Cuts, Sum, PropTrees, PartTree, PartFails, PartCuts, PropCuts;
      PropsSame(d, s, left, more);
      PartSame(d, s.items, left, more);
      PartSame(d, s.extra, left, more);
    }
  }

  lemma {:induction false} PartSame(d: Document, part: Option<Schema>, left: nat, more: nat)
    requires PartCuts(d, part, left) == 0 && more >= left
    ensures PartTree(d, part, more) == PartTree(d, part, left) && PartCuts(d, part, more) == 0
    ensures PartFails(d, part, more) <==> PartFails(d, part, left)
    decreases left, part, 0
  {
    hide Tree, Fails, Cuts;
    if part.Some? {
      LargerBoundIsSame(d, part.value, left, more);
    }
  }

  lemma {:induction false} PropsSame(d: Document, s: Schema, left: nat, more: nat)
    requires Sum(PropCuts(d, s, left)) == 0 && more >= left
    ensures PropTrees(d, s, more) == PropTrees(d, s, left) && Sum(PropCuts(d, s, more)) == 0
    ensures (exists k :: k in s.props && Fails(d, s.props[k], more)) <==> exists k :: k in s.props && Fails(d, s.props[k], left)
    decreases left, s, 0
  {
    hide Tree, Fails, Cuts, Sum;
    SumIsZero(PropCuts(d, s, left));
    forall k | k in s.props
      ensures Tree(d, s.props[k], more) == Tree(d, s.props[k], left) && Cuts(d, s.props[k], more) == 0
      ensures Fails(d, s.props[k], more) <==> Fails(d, s.props[k], left)
    {
      assert PropCuts(d, s, left)[k] == 0;
      LargerBoundIsSame(d, s.props[k], left, more);
    }
    SumIsZero(PropCuts(d, s, more));
  }

  // ---- what a referring site says of itself ------------------------------------

  /** s and the schemas its $refs lead through, to the first that is no $ref or is cut off. */
  function Chain(d: Document, s: Schema, left: nat): (chain: seq<Schema>)
    ensures chain != [] && |chain| <= left + 1
    decreases left
  {
    if left == 0 || s.ref == "" || s.ref !in d then [s] else [s] + Chain(d, d[s.ref], left - 1)
  }

  function FirstDescription(chain: seq<Schema>): string {
    if chain == [] then "" else if chain[0].description != "" then chain[0].description else FirstDescription(chain[1..])
  }

  /** Some schema of the chain that is not cut off says it is read-only. */
  predicate ReadOnlyAlong(chain: seq<Schema>, left: nat) {
    exists i :: 0 <= i < |chain| && i < left && chain[i].readOnly
  }

  lemma AlongCons(s: Schema, rest: seq<Schema>, left: nat)
    requires left > 0
    ensures ReadOnlyAlong([s] + rest, left) <==> s.readOnly || ReadOnlyAlong(rest, left - 1)
  {
    var chain := [s] + rest;
    if ReadOnlyAlong(rest, left - 1) {
      var i :| 0 <= i < |rest| && i < left - 1 && rest[i].readOnly;
      assert chain[i + 1].readOnly;
    }
    if ReadOnlyAlong(chain, left) {
      var i :| 0 <= i < |chain| && i < left && chain[i].readOnly;
      assert i > 0 ==> rest[i - 1].readOnly;
    }
    assert chain[0] == s;
  }

  lemma FirstCons(s: Schema, rest: seq<Schema>)
    ensures FirstDescription([s] + rest) == if s.description != "" then s.description else FirstDescription(rest)
  {
    assert ([s] + rest)[1..] == rest;
  }

  /** THE REFERRING SITE WINS: the description is the first along the chain that is not
      empty, and the schema is read-only exactly when some schema along it that is not cut
      off says so. */
  lemma {:induction false} SiteWins(d: Document, s: Schema, left: nat)
    requires !Fails(d, s, left)
    ensures Tree(d, s, left).description == FirstDescription(Chain(d, s, left))
    ensures Tree(d, s, left).readOnly <==> ReadOnlyAlong(Chain(d, s, left), left)
    decreases left
  {
    hide ReadOnlyAlong, FirstDescription;
    assert [s] + [] == [s] && FirstDescription([]) == "" by {
      NoDescription();
    }
    FirstCons(s, []);
    if left > 0 {
      AlongCons(s, [], left);
      NoneAlong([], left - 1);
      if s.ref != "" {
        var rest := Chain(d, d[s.ref], left - 1);
        SiteWins(d, d[s.ref], left - 1);
        FirstCons(s, rest);
        AlongCons(s, rest, left);
      }
    } else {
      NoneAlong([s], 0);
    }
  }

  lemma NoDescription()
    ensures FirstDescription([]) == ""
  {}

  lemma NoneAlong(chain: seq<Schema>, left: nat)
    requires chain == [] || left == 0
    ensures !ReadOnlyAlong(chain, left)
  {}
}
