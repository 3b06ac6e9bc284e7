/** A change to a wire object, as a field mask and a body describe it, and what the
    server makes of one (internal/gcpfake/server.go, setDotted and lookupDotted). */
module Edits {
  import opened Values

  type Path = seq<string>

  /** One changed field: replaced whole, or changed somewhere below. */
  datatype Edit = Edit(name: string, change: Change)
  datatype Change = Replace(value: Json) | Nested(edits: seq<Edit>)

  function ObjectOf(j: Option<Json>): Object {
    if j.Some? && j.value.JObj? then j.value.fields else map[]
  }

  // ---- mask and body -----------------------------------------------------------

  function Under(name: string, ps: seq<Path>): (qs: seq<Path>)
    ensures |qs| == |ps|
    ensures forall i | 0 <= i < |ps| :: qs[i] == [name] + ps[i]
  {
    seq(|ps|, i requires 0 <= i < |ps| => [name] + ps[i])
  }

  function PathsOf(e: Edit): seq<Path>
    decreases e
  {
    match e.change
    case Replace(_) => [[e.name]]
    case Nested(sub) => Under(e.name, Paths(sub))
  }

  function Paths(edits: seq<Edit>): seq<Path>
    decreases edits
  {
    if edits == [] then [] else PathsOf(edits[0]) + Paths(edits[1..])
  }

  function ValueOf(c: Change): Json
    decreases c
  {
    match c
    case Replace(v) => v
    case Nested(sub) => JObj(BodyOf(sub))
  }

  function BodyOf(edits: seq<Edit>): Object
    decreases edits
  {
    if edits == [] then map[] else BodyOf(edits[1..])[edits[0].name := ValueOf(edits[0].change)]
  }

  /** No field twice, and something below each nested one. */
  predicate WellFormed(edits: seq<Edit>)
    decreases edits
  {
    edits != [] ==>
      && (forall e | e in edits[1..] :: e.name != edits[0].name)
      && (edits[0].change.Nested? ==> edits[0].change.edits != [] && WellFormed(edits[0].change.edits))
      && WellFormed(edits[1..])
  }

  // ---- the server --------------------------------------------------------------

  function Lookup(o: Object, p: Path): Option<Json>
    decreases |p|
  {
    if p == [] || p[0] !in o then None
    else if |p| == 1 then Some(o[p[0]])
    else if o[p[0]].JObj? then Lookup(o[p[0]].fields, p[1..])
    else None
  }

  /** Writes v at p, creating (or replacing a non-object by) intermediate objects. */
  function SetPath(o: Object, p: Path, v: Json): Object
    decreases |p|
  {
    if p == [] then o
    else if |p| == 1 then o[p[0] := v]
    else o[p[0] := JObj(SetPath(ObjectOf(At(o, p[0])), p[1..], v))]
  }

  function Masked(body: Object, p: Path): Json {
    var v := Lookup(body, p);
    if v.Some? then v.value else JNull
  }

  function ApplyMask(o: Object, body: Object, ps: seq<Path>): Object
    decreases |ps|
  {
    if ps == [] then o
    else ApplyMask(SetPath(o, ps[0], Masked(body, ps[0])), body, ps[1..])
  }

  /** The same change, field by field. */
  function Changed(j: Option<Json>, c: Change): Json
    decreases c
  {
    match c
    case Replace(v) => v
    case Nested(sub) => JObj(ApplyEdits(ObjectOf(j), sub))
  }

  function ApplyEdits(o: Object, edits: seq<Edit>): Object
    decreases edits
  {
    if edits == [] then o
    else ApplyEdits(o[edits[0].name := Changed(At(o, edits[0].name), edits[0].change)], edits[1..])
  }

  // ---- paths of a well-formed change -------------------------------------------

  lemma {:induction false} PathHead(edits: seq<Edit>, p: Path) returns (e: Edit)
    requires p in Paths(edits)
    ensures e in edits && p != [] && p[0] == e.name && p in PathsOf(e)
  {
    if p in PathsOf(edits[0]) {
      e := edits[0];
    } else {
      e := PathHead(edits[1..], p);
    }
  }

  lemma {:induction false} PathsWellFormed(edits: seq<Edit>)
    requires WellFormed(edits) && edits != []
    ensures Paths(edits) != []
    decreases edits
  {
    if edits[0].change.Nested? {
      PathsWellFormed(edits[0].change.edits);
    }
  }

  predicate Incomparable(p: Path, q: Path) {
    !(p <= q) && !(q <= p)
  }

  predicate Antichain(ps: seq<Path>) {
    forall i, j | 0 <= i < |ps| && 0 <= j < |ps| && i != j :: Incomparable(ps[i], ps[j])
  }

  lemma PrefixBelow(name: string, p: Path, q: Path)
    ensures [name] + p <= [name] + q <==> p <= q
  {
    var u, v := [name] + p, [name] + q;
    assert u[1..] == p && v[1..] == q;
    if p <= q {
      assert v == u + q[|p|..];
    }
  }

  lemma IncomparableBelow(p: Path, q: Path)
    requires p != [] && q != [] && p[0] == q[0] && Incomparable(p, q)
    ensures |p| > 1 && |q| > 1 && Incomparable(p[1..], q[1..])
  {
    assert p == [p[0]] + p[1..] && q == [p[0]] + q[1..];
    PrefixBelow(p[0], p[1..], q[1..]);
    PrefixBelow(p[0], q[1..], p[1..]);
  }

  lemma UnderAntichain(name: string, ps: seq<Path>)
    requires Antichain(ps)
    ensures Antichain(Under(name, ps))
  {
    var qs := Under(name, ps);
    forall i, j | 0 <= i < |qs| && 0 <= j < |qs| && i != j ensures Incomparable(qs[i], qs[j]) {
      assert Incomparable(ps[i], ps[j]);
      PrefixBelow(name, ps[i], ps[j]);
      PrefixBelow(name, ps[j], ps[i]);
    }
  }

  /** NO MASK ENTRY COVERS ANOTHER: none is a prefix of another, and none is repeated. */
  lemma {:induction false} MaskIsAntichain(edits: seq<Edit>)
    requires WellFormed(edits)
    ensures Antichain(Paths(edits))
    decreases edits
  {
    if edits != [] {
      var a, b := PathsOf(edits[0]), Paths(edits[1..]);
      if edits[0].change.Nested? {
        MaskIsAntichain(edits[0].change.edits);
        UnderAntichain(edits[0].name, Paths(edits[0].change.edits));
      }
      MaskIsAntichain(edits[1..]);
      forall i, j | 0 <= i < |a| && 0 <= j < |b| ensures Incomparable(a[i], b[j]) && Incomparable(b[j], a[i]) {
        assert b[j] in b;
        var e := PathHead(edits[1..], b[j]);
        assert a[i] != [] && a[i][0] == edits[0].name;
      }
      AntichainConcat(a, b);
    }
  }

  lemma AntichainConcat(a: seq<Path>, b: seq<Path>)
    requires Antichain(a) && Antichain(b)
    requires forall i, j | 0 <= i < |a| && 0 <= j < |b| :: Incomparable(a[i], b[j]) && Incomparable(b[j], a[i])
    ensures Antichain(a + b)
  {
    var c := a + b;
    forall i, j | 0 <= i < |c| && 0 <= j < |c| && i != j ensures Incomparable(c[i], c[j]) {
      if i < |a| && j < |a| {
        assert Incomparable(a[i], a[j]);
      } else if i < |a| {
        assert Incomparable(a[i], b[j - |a|]);
      } else if j < |a| {
        assert Incomparable(b[i - |a|], a[j]);
      } else {
        assert Incomparable(b[i - |a|], b[j - |a|]);
      }
    }
  }

  // ---- frame conditions of a masked write --------------------------------------

  lemma {:induction false} SetPathAt(o: Object, p: Path, v: Json)
    requires p != []
    ensures Lookup(SetPath(o, p, v), p) == Some(v)
    decreases |p|
  {
    if |p| > 1 {
      SetPathAt(ObjectOf(At(o, p[0])), p[1..], v);
    }
  }

  lemma {:induction false} SetPathFrame(o: Object, p: Path, v: Json, q: Path)
    requires p != [] && Incomparable(p, q)
    ensures Lookup(SetPath(o, p, v), q) == Lookup(o, q)
    decreases |p|
  {
    if q != [] && q[0] == p[0] {
      IncomparableBelow(p, q);
      SetPathFrame(ObjectOf(At(o, p[0])), p[1..], v, q[1..]);
    }
  }

  /** A MASKED PATCH LEAVES THE REST ALONE: whatever is not at, above or below a mask
      entry reads as it did. */
  lemma {:induction false} MaskFrame(o: Object, body: Object, ps: seq<Path>, q: Path)
    requires forall p | p in ps :: Incomparable(p, q)
    ensures Lookup(ApplyMask(o, body, ps), q) == Lookup(o, q)
    decreases |ps|
  {
    if ps != [] {
      assert ps[0] in ps;
      SetPathFrame(o, ps[0], Masked(body, ps[0]), q);
      MaskFrame(SetPath(o, ps[0], Masked(body, ps[0])), body, ps[1..], q);
    }
  }

  /** A MASKED PATCH WRITES WHAT IT SAYS: at every entry of an antichain mask the object
      ends up holding the body's value. */
  lemma {:induction false} MaskWrites(o: Object, body: Object, ps: seq<Path>, i: nat)
    requires Antichain(ps) && i < |ps| && ps[i] != []
    ensures Lookup(ApplyMask(o, body, ps), ps[i]) == Some(Masked(body, ps[i]))
    decreases |ps|
  {
    assert ps[0] in ps;
    var o1 := SetPath(o, ps[0], Masked(body, ps[0]));
    if i == 0 {
      SetPathAt(o, ps[0], Masked(body, ps[0]));
      forall p | p in ps[1..] ensures Incomparable(p, ps[0]) {
        var j :| 0 <= j < |ps[1..]| && ps[1..][j] == p;
        assert Incomparable(ps[j + 1], ps[0]);
      }
      MaskFrame(o1, body, ps[1..], ps[0]);
    } else {
      assert Antichain(ps[1..]) by {
        forall k, j | 0 <= k < |ps| - 1 && 0 <= j < |ps| - 1 && k != j
          ensures Incomparable(ps[1..][k], ps[1..][j])
        {
          assert Incomparable(ps[k + 1], ps[j + 1]);
        }
      }
      MaskWrites(o1, body, ps[1..], i - 1);
    }
  }

  // ---- a body agrees with a change ---------------------------------------------

  /** body holds, at every field of the change, what the change says; it may hold more. */
  predicate Agrees(body: Object, edits: seq<Edit>)
    decreases edits
  {
    forall e | e in edits :: AgreesAt(body, e)
  }

  predicate AgreesAt(body: Object, e: Edit)
    decreases e
  {
    e.name in body && HoldsChange(body[e.name], e.change)
  }

  predicate HoldsChange(j: Json, c: Change)
    decreases c
  {
    match c
    case Replace(v) => j == v
    case Nested(sub) => j.JObj? && Agrees(j.fields, sub)
  }

  lemma AgreesAtUpdate(body: Object, e: Edit, k: string, v: Json)
    requires AgreesAt(body, e) && k != e.name
    ensures AgreesAt(body[k := v], e)
  {}

  lemma {:induction false} BodyAgrees(edits: seq<Edit>)
    requires WellFormed(edits)
    ensures Agrees(BodyOf(edits), edits)
    decreases edits
  {
    if edits != [] {
      var rest := BodyOf(edits[1..]);
      BodyAgrees(edits[1..]);
      forall e | e in edits[1..] ensures AgreesAt(BodyOf(edits), e) {
        AgreesAtUpdate(rest, e, edits[0].name, ValueOf(edits[0].change));
      }
      if edits[0].change.Nested? {
        BodyAgrees(edits[0].change.edits);
      }
    }
  }

  /** EVERY MASK ENTRY IS IN THE BODY, and any two bodies that agree with the change
      hold the same value there. */
  lemma {:induction false} AgreeingBodiesMatch(b: Object, c: Object, edits: seq<Edit>, p: Path)
    requires Agrees(b, edits) && Agrees(c, edits) && p in Paths(edits)
    ensures Lookup(b, p).Some? && Lookup(c, p) == Lookup(b, p)
    decreases edits
  {
    var e := PathHead(edits, p);
    assert HoldsChange(b[e.name], e.change) && HoldsChange(c[e.name], e.change);
    if e.change.Nested? {
      var sub := e.change.edits;
      var i :| 0 <= i < |PathsOf(e)| && PathsOf(e)[i] == p;
      assert p[1..] == Paths(sub)[i];
      AgreeingBodiesMatch(b[e.name].fields, c[e.name].fields, sub, p[1..]);
    }
  }

  // ---- applying the mask is applying the change --------------------------------

  lemma {:induction false} ApplyMaskConcat(o: Object, body: Object, ps: seq<Path>, qs: seq<Path>)
    ensures ApplyMask(o, body, ps + qs) == ApplyMask(ApplyMask(o, body, ps), body, qs)
    decreases |ps|
  {
    if ps == [] {
      assert ps + qs == qs;
    } else {
      assert (ps + qs)[1..] == ps[1..] + qs;
      assert ps[0] in ps;
      ApplyMaskConcat(SetPath(o, ps[0], Masked(body, ps[0])), body, ps[1..], qs);
    }
  }

  lemma {:induction false} ApplyUnder(o: Object, body: Object, name: string, ps: seq<Path>)
    requires ps != [] && name in body && body[name].JObj? && forall p | p in ps :: p != []
    ensures ApplyMask(o, body, Under(name, ps)) ==
            o[name := JObj(ApplyMask(ObjectOf(At(o, name)), body[name].fields, ps))]
    decreases |ps|
  {
    var qs := Under(name, ps);
    assert ps[0] in ps;
    assert qs[0] == [name] + ps[0] && qs[0][1..] == ps[0];
    assert Masked(body, qs[0]) == Masked(body[name].fields, ps[0]);
    var inner := ObjectOf(At(o, name));
    var o1 := SetPath(o, qs[0], Masked(body, qs[0]));
    var inner1 := SetPath(inner, ps[0], Masked(body[name].fields, ps[0]));
    assert o1 == o[name := JObj(inner1)];
    assert qs[1..] == Under(name, ps[1..]);
    if |ps| == 1 {
      assert ps[1..] == [] && qs[1..] == [];
    } else {
      forall p | p in ps[1..] ensures p in ps {}
      ApplyUnder(o1, body, name, ps[1..]);
      assert o1[name := JObj(ApplyMask(inner1, body[name].fields, ps[1..]))]
          == o[name := JObj(ApplyMask(inner1, body[name].fields, ps[1..]))];
    }
  }

  lemma {:induction false} ApplyEdit(o: Object, body: Object, e: Edit)
    requires AgreesAt(body, e) && WellFormed([e])
    ensures ApplyMask(o, body, PathsOf(e)) == o[e.name := Changed(At(o, e.name), e.change)]
    decreases e, 0
  {
    match e.change
    case Replace(v) =>
      assert Masked(body, [e.name]) == v;
    case Nested(sub) =>
      PathsWellFormed(sub);
      forall p | p in Paths(sub) ensures p != [] {
        var f := PathHead(sub, p);
      }
      ApplyUnder(o, body, e.name, Paths(sub));
      MaskAppliesEdits(ObjectOf(At(o, e.name)), body[e.name].fields, sub);
  }

  /** APPLYING THE MASK IS APPLYING THE CHANGE, one field at a time, whatever the object
      and whatever else the body holds. */
  lemma {:induction false} MaskAppliesEdits(o: Object, body: Object, edits: seq<Edit>)
    requires WellFormed(edits) && Agrees(body, edits)
    ensures ApplyMask(o, body, Paths(edits)) == ApplyEdits(o, edits)
    decreases edits
  {
    if edits != [] {
      var e := edits[0];
      assert WellFormed([e]);
      ApplyEdit(o, body, e);
      ApplyMaskConcat(o, body, PathsOf(e), Paths(edits[1..]));
      MaskAppliesEdits(o[e.name := Changed(At(o, e.name), e.change)], body, edits[1..]);
    }
  }

  /** What a change leaves under each name. */
  lemma {:induction false} ApplyEditsAt(o: Object, edits: seq<Edit>, k: string)
    requires WellFormed(edits)
    ensures (forall e | e in edits :: e.name != k) ==> At(ApplyEdits(o, edits), k) == At(o, k)
    ensures forall e | e in edits && e.name == k :: At(ApplyEdits(o, edits), k) == Some(Changed(At(o, k), e.change))
    decreases edits
  {
    if edits != [] {
      var o1 := o[edits[0].name := Changed(At(o, edits[0].name), edits[0].change)];
      ApplyEditsAt(o1, edits[1..], k);
    }
  }

  // ---- the whole-resource PUT --------------------------------------------------

  /** mergeChanged: changed written into base, descending through objects both hold. */
  function Merge(base: Object, changed: Object): Object
    decreases JObj(changed)
  {
    map k | k in base.Keys + changed.Keys ::
      if k !in changed then base[k]
      else if k in base && base[k].JObj? && changed[k].JObj? then JObj(Merge(base[k].fields, changed[k].fields))
      else changed[k]
  }

  /** base holds no key, at any depth where both are objects, that changed does not. */
  predicate Covered(base: Object, changed: Object)
    decreases JObj(changed)
  {
    forall k | k in base ::
      k in changed && (base[k].JObj? && changed[k].JObj? ==> Covered(base[k].fields, changed[k].fields))
  }

  /** Merging into an object replaces it exactly when it holds nothing extra. */
  lemma {:induction false} MergeReplaces(base: Object, changed: Object)
    ensures Merge(base, changed) == changed <==> Covered(base, changed)
    decreases JObj(changed)
  {
    var m := Merge(base, changed);
    forall k | k in base && k in changed
      ensures m[k] == changed[k] <==> (base[k].JObj? && changed[k].JObj? ==> Covered(base[k].fields, changed[k].fields))
    {
      if base[k].JObj? && changed[k].JObj? {
        MergeReplaces(base[k].fields, changed[k].fields);
      }
    }
    assert m.Keys == base.Keys + changed.Keys;
    if m == changed {
      forall k | k in base ensures k in changed {
        assert k in m;
      }
    }
    if Covered(base, changed) {
      assert forall k | k in changed :: m[k] == changed[k];
    }
  }

  /** Every whole value the change writes onto an object covers it. */
  predicate ReplacesCover(o: Object, edits: seq<Edit>)
    decreases edits
  {
    forall e | e in edits :: ReplaceCovers(At(o, e.name), e.change)
  }

  predicate ReplaceCovers(j: Option<Json>, c: Change)
    decreases c
  {
    j.Some? && j.value.JObj? ==>
      match c
      case Replace(v) => v.JObj? ==> Covered(j.value.fields, v.fields)
      case Nested(sub) => ReplacesCover(j.value.fields, sub)
  }

  lemma {:induction false} BodyAt(edits: seq<Edit>, k: string)
    requires WellFormed(edits)
    ensures (forall e | e in edits :: e.name != k) <==> k !in BodyOf(edits)
    ensures forall e | e in edits && e.name == k :: BodyOf(edits)[k] == ValueOf(e.change)
    decreases edits
  {
    if edits != [] {
      BodyAt(edits[1..], k);
      assert forall e :: e in edits <==> e == edits[0] || e in edits[1..];
    }
  }

  /** From nothing, a change builds its own body. */
  lemma {:induction false} ChangeFromNothing(edits: seq<Edit>)
    requires WellFormed(edits)
    ensures ApplyEdits(map[], edits) == BodyOf(edits)
    decreases edits
  {
    var o := ApplyEdits(map[], edits);
    forall k ensures At(o, k) == At(BodyOf(edits), k) {
      ApplyEditsAt(map[], edits, k);
      BodyAt(edits, k);
      if e :| e in edits && e.name == k {
        ValueFromNothing(edits, e);
      }
    }
    SameObject(o, BodyOf(edits));
  }

  lemma {:induction false} ValueFromNothing(edits: seq<Edit>, e: Edit)
    requires WellFormed(edits) && e in edits
    ensures Changed(None, e.change) == ValueOf(e.change)
    decreases edits, e
  {
    if e.change.Nested? {
      WellFormedEach(edits, e);
      ChangeFromNothing(e.change.edits);
    }
  }

  lemma {:induction false} WellFormedEach(edits: seq<Edit>, e: Edit)
    requires WellFormed(edits) && e in edits
    ensures e.change.Nested? ==> e.change.edits != [] && WellFormed(e.change.edits)
    decreases edits
  {
    if e != edits[0] {
      WellFormedEach(edits[1..], e);
    }
  }

  lemma SameObject(o: Object, p: Object)
    requires forall k :: At(o, k) == At(p, k)
    ensures o == p
  {
    forall k ensures k in o <==> k in p {
      assert At(o, k) == At(p, k);
    }
    forall k | k in o ensures o[k] == p[k] {
      assert At(o, k) == At(p, k);
    }
  }

  function MergedValue(j: Option<Json>, v: Json): Json {
    if j.Some? && j.value.JObj? && v.JObj? then JObj(Merge(j.value.fields, v.fields)) else v
  }

  lemma MergeAt(base: Object, changed: Object, k: string)
    ensures At(Merge(base, changed), k) ==
            if k in changed then Some(MergedValue(At(base, k), changed[k])) else At(base, k)
  {}

  lemma {:induction false} MergedValueIsChanged(j: Option<Json>, edits: seq<Edit>, e: Edit)
    requires WellFormed(edits) && e in edits
    ensures MergedValue(j, ValueOf(e.change)) == Changed(j, e.change) <==> ReplaceCovers(j, e.change)
    decreases edits, e
  {
    WellFormedEach(edits, e);
    if j.Some? && j.value.JObj? {
      match e.change
      case Replace(v) =>
        if v.JObj? {
          MergeReplaces(j.value.fields, v.fields);
        }
      case Nested(sub) =>
        MergeIsMask(j.value.fields, sub);
    } else if e.change.Nested? {
      ChangeFromNothing(e.change.edits);
    }
  }

  /** THE TRANSPORTS AGREE: writing the body into the whole resource and PUTting that is
      the masked patch exactly when every value masked whole covers the object it meets,
      which an opaque map that dropped a key does not. */
  lemma {:induction false} MergeIsMask(o: Object, edits: seq<Edit>)
    requires WellFormed(edits)
    ensures Merge(o, BodyOf(edits)) == ApplyEdits(o, edits) <==> ReplacesCover(o, edits)
    decreases edits
  {
    var m, a := Merge(o, BodyOf(edits)), ApplyEdits(o, edits);
    forall k
      ensures (forall e | e in edits :: e.name != k) ==> At(m, k) == At(a, k)
      ensures forall e | e in edits && e.name == k ::
                At(m, k) == At(a, k) <==> ReplaceCovers(At(o, k), e.change)
    {
      MergeAt(o, BodyOf(edits), k);
      BodyAt(edits, k);
      ApplyEditsAt(o, edits, k);
      forall e | e in edits && e.name == k
        ensures MergedValue(At(o, k), ValueOf(e.change)) == Changed(At(o, k), e.change) <==>
                ReplaceCovers(At(o, k), e.change)
      {
        MergedValueIsChanged(At(o, k), edits, e);
      }
    }
    if ReplacesCover(o, edits) {
      forall k ensures At(m, k) == At(a, k) {
        if e :| e in edits && e.name == k {
          assert ReplaceCovers(At(o, k), e.change);
        }
      }
      SameObject(m, a);
    }
  }

  predicate CoversAt(o: Object, body: Object, p: Path) {
    Lookup(o, p).Some? && Lookup(body, p).Some? && Lookup(o, p).value.JObj? && Lookup(body, p).value.JObj? ==>
      Covered(Lookup(o, p).value.fields, Lookup(body, p).value.fields)
  }

  lemma {:induction false} PathsMember(edits: seq<Edit>, p: Path)
    ensures p in Paths(edits) <==> exists e :: e in edits && p in PathsOf(e)
  {
    if edits != [] {
      PathsMember(edits[1..], p);
      assert edits[0] in edits;
      if e :| e in edits && p in PathsOf(e) {
        assert e == edits[0] || e in edits[1..];
      }
      if e :| e in edits[1..] && p in PathsOf(e) {
        assert e in edits;
      }
    }
  }

  lemma {:induction false} EditCovers(o: Object, body: Object, e: Edit)
    requires AgreesAt(body, e) && (e.change.Nested? ==> WellFormed(e.change.edits))
    ensures (forall p | p in PathsOf(e) :: CoversAt(o, body, p)) <==> ReplaceCovers(At(o, e.name), e.change)
    decreases e
  {
    match e.change
    case Replace(v) =>
      assert [e.name] in PathsOf(e);
      assert Lookup(o, [e.name]) == At(o, e.name) && Lookup(body, [e.name]) == Some(v);
    case Nested(sub) =>
      var inner := body[e.name].fields;
      assert PathsOf(e) == Under(e.name, Paths(sub));
      forall i | 0 <= i < |Paths(sub)|
        ensures CoversAt(o, body, PathsOf(e)[i]) <==>
                (e.name in o && o[e.name].JObj? ==> CoversAt(o[e.name].fields, inner, Paths(sub)[i]))
      {
        var q := Paths(sub)[i];
        var f := PathHead(sub, q);
        assert PathsOf(e)[i][1..] == q;
      }
      if e.name in o && o[e.name].JObj? {
        MaskCovers(o[e.name].fields, inner, sub);
        if forall p | p in PathsOf(e) :: CoversAt(o, body, p) {
          forall q | q in Paths(sub) ensures CoversAt(o[e.name].fields, inner, q) {
            var i :| 0 <= i < |Paths(sub)| && Paths(sub)[i] == q;
            assert PathsOf(e)[i] in PathsOf(e);
          }
        }
      }
  }

  /** The condition of MergeIsMask, asked of the mask's own entries. */
  lemma {:induction false} MaskCovers(o: Object, body: Object, edits: seq<Edit>)
    requires WellFormed(edits) && Agrees(body, edits)
    ensures (forall p | p in Paths(edits) :: CoversAt(o, body, p)) <==> ReplacesCover(o, edits)
    decreases edits
  {
    forall e | e in edits
      ensures (forall p | p in PathsOf(e) :: CoversAt(o, body, p)) <==> ReplaceCovers(At(o, e.name), e.change)
    {
      WellFormedEach(edits, e);
      EditCovers(o, body, e);
    }
    forall p ensures p in Paths(edits) <==> exists e :: e in edits && p in PathsOf(e) {
      PathsMember(edits, p);
    }
  }
}
