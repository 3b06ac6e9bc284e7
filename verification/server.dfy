/** The server a patch is sent to (internal/gcpfake/server.go): masks, the AIP-134
    envelope, compute's fingerprint and the one-field rule. */
module Server {
  import opened Values
  import opened Text
  import opened Edits

  const FINGERPRINT := "fingerprint"

  /** One stored resource, and how many fingerprints the server has handed out. */
  datatype Store = Store(held: Object, issued: nat)

  datatype Verdict = Accepted | BadMask | ConditionNotMet | TooManyFields

  /** A patch as it arrives: the mask's entries and the body. */
  datatype Request = Request(mask: seq<string>, body: Object)

  function PathOf(entry: string): Path {
    Split(entry, '.')
  }

  function PathsIn(mask: seq<string>): (ps: seq<Path>)
    ensures |ps| == |mask| && forall i | 0 <= i < |mask| :: ps[i] == PathOf(mask[i])
  {
    seq(|mask|, i requires 0 <= i < |mask| => PathOf(mask[i]))
  }

  /** The fingerprint of a locked resource. */
  function LockOf(o: Object): Option<string> {
    if FINGERPRINT in o && o[FINGERPRINT].JStr? then Some(o[FINGERPRINT].s) else None
  }

  function Quoted(body: Object): string {
    if LockOf(body).Some? then LockOf(body).value else ""
  }

  function OrNull(o: Object, k: string): Json {
    if k in o then o[k] else JNull
  }

  /** The top-level fields a body changes, the fingerprint it quotes aside. */
  function ChangedFields(held: Object, body: Object): set<string> {
    set k | k in body && k != FINGERPRINT && OrNull(held, k) != body[k]
  }

  predicate MaskPresent(mask: seq<string>, body: Object) {
    forall m | m in mask :: Lookup(body, PathOf(m)).Some?
  }

  function Judge(held: Object, oneField: bool, r: Request): Verdict {
    if !MaskPresent(r.mask, r.body) then BadMask
    else if LockOf(held).Some? && Quoted(r.body) != LockOf(held).value then ConditionNotMet
    else if oneField && |ChangedFields(held, r.body)| > 1 then TooManyFields
    else Accepted
  }

  function Fingerprint(n: nat): string {
    "fp-" + Decimal(n)
  }

  function Written(held: Object, r: Request): Object {
    if r.mask == [] then held + r.body else ApplyMask(held, r.body, PathsIn(r.mask))
  }

  /** What the server holds after a request: the same, unless it accepts it. */
  function After(s: Store, oneField: bool, r: Request): Store {
    if Judge(s.held, oneField, r) != Accepted then s
    else if LockOf(s.held).None? then s.(held := Written(s.held, r))
    else Store(Written(s.held, r)[FINGERPRINT := JStr(Fingerprint(s.issued + 1))], s.issued + 1)
  }

  function AfterAll(s: Store, oneField: bool, rs: seq<Request>): Store
    decreases |rs|
  {
    if rs == [] then s else AfterAll(After(s, oneField, rs[0]), oneField, rs[1..])
  }

  /** How many of the requests the server accepted. */
  function AcceptedOf(s: Store, oneField: bool, rs: seq<Request>): nat
    decreases |rs|
  {
    if rs == [] then 0
    else (if Judge(s.held, oneField, rs[0]) == Accepted then 1 else 0) +
         AcceptedOf(After(s, oneField, rs[0]), oneField, rs[1..])
  }

  // ---- the one-field rule ------------------------------------------------------

  /** Writing what is there already changes nothing. */
  lemma {:induction false} SetPathSame(o: Object, p: Path)
    requires Lookup(o, p).Some?
    ensures SetPath(o, p, Lookup(o, p).value) == o
    decreases |p|
  {
    if |p| > 1 {
      SetPathSame(o[p[0]].fields, p[1..]);
    }
  }

  /** A masked write leaves a field as it is where the body holds the same, or nothing. */
  lemma {:induction false} MaskLeaves(o: Object, body: Object, ps: seq<Path>, k: string)
    requires (forall p | p in ps :: Lookup(body, p).Some?) && (k in body ==> OrNull(o, k) == body[k])
    ensures OrNull(ApplyMask(o, body, ps), k) == OrNull(o, k)
    decreases |ps|
  {
    if ps != [] {
      var p := ps[0];
      assert p in ps && forall q | q in ps[1..] :: q in ps;
      if p[0] == k && k in o {
        assert Lookup(o, p) == Lookup(body, p);
        SetPathSame(o, p);
      }
      assert OrNull(SetPath(o, p, Masked(body, p)), k) == OrNull(o, k);
      MaskLeaves(SetPath(o, p, Masked(body, p)), body, ps[1..], k);
    }
  }

  /** THE ONE-FIELD RULE DOES ITS WORK: on a resource under it, whatever is accepted changes
      one top-level field at most, the fingerprint aside. */
  lemma OneFieldRule(s: Store, r: Request, j: string, k: string)
    requires Judge(s.held, true, r) == Accepted && j != k && j != FINGERPRINT && k != FINGERPRINT
    ensures var now := After(s, true, r).held;
            OrNull(now, j) == OrNull(s.held, j) || OrNull(now, k) == OrNull(s.held, k)
  {
    var changed := ChangedFields(s.held, r.body);
    if j in changed && k in changed {
      assert {j, k} <= changed;
      TwoAreMore(changed, j, k);
    }
    var ps := PathsIn(r.mask);
    forall p | p in ps ensures Lookup(r.body, p).Some? {
      var i :| 0 <= i < |ps| && ps[i] == p;
      assert r.mask[i] in r.mask;
    }
    var same := if j in changed then k else j;
    MaskLeaves(s.held, r.body, ps, same);
  }

  lemma TwoAreMore(s: set<string>, j: string, k: string)
    requires j in s && k in s && j != k
    ensures |s| > 1
  {
    assert s == {j} + (s - {j});
    assert k in s - {j};
  }

  // ---- optimistic locking ------------------------------------------------------

  lemma FingerprintsDiffer(m: nat, n: nat)
    requires Fingerprint(m) == Fingerprint(n)
    ensures m == n
  {
    assert Fingerprint(m)[3..] == Decimal(m) && Fingerprint(n)[3..] == Decimal(n);
    DecimalRoundTrip(m);
    DecimalRoundTrip(n);
  }

  /** The server will never hand this fingerprint out again. */
  ghost predicate Spent(fp: string, issued: nat) {
    forall n: nat | n > issued :: fp != Fingerprint(n)
  }

  /** A locked resource whose fingerprint will not come round again. A resource seeded
      with a fingerprint of the server's own form and a later number is not one. */
  ghost predicate Locked(s: Store) {
    LockOf(s.held).Some? && Spent(LockOf(s.held).value, s.issued)
  }

  /** Every accepted patch of a locked resource, and nothing else, hands out the next
      fingerprint. */
  lemma {:induction false} LockFollows(s: Store, oneField: bool, rs: seq<Request>)
    requires LockOf(s.held).Some?
    ensures var now := AfterAll(s, oneField, rs);
            && now.issued == s.issued + AcceptedOf(s, oneField, rs)
            && (AcceptedOf(s, oneField, rs) == 0 ==> now == s)
            && (AcceptedOf(s, oneField, rs) > 0 ==> LockOf(now.held) == Some(Fingerprint(now.issued)))
    decreases |rs|
  {
    if rs != [] {
      hide Judge, Written;
      LockFollows(After(s, oneField, rs[0]), oneField, rs[1..]);
    }
  }

  lemma LockStays(s: Store, oneField: bool, rs: seq<Request>)
    requires Locked(s)
    ensures Locked(AfterAll(s, oneField, rs))
  {
    var now := AfterAll(s, oneField, rs);
    hide AfterAll, AcceptedOf, Fingerprint;
    LockFollows(s, oneField, rs);
    forall n: nat | n > now.issued ensures LockOf(now.held) != Some(Fingerprint(n)) {
      if Fingerprint(now.issued) == Fingerprint(n) {
        FingerprintsDiffer(now.issued, n);
      }
    }
  }

  /** WHEN A LOCK COMES ROUND: whatever patches arrive after a fingerprint was read, the
      resource carries it exactly when none of them was accepted, or when it is itself the
      number the server had then counted to. */
  lemma LockComesRound(s: Store, oneField: bool, rs: seq<Request>)
    requires LockOf(s.held).Some?
    ensures LockOf(AfterAll(s, oneField, rs).held) == LockOf(s.held) <==>
            AcceptedOf(s, oneField, rs) == 0 ||
            LockOf(s.held).value == Fingerprint(s.issued + AcceptedOf(s, oneField, rs))
  {
    hide AfterAll, AcceptedOf, Fingerprint;
    LockFollows(s, oneField, rs);
  }

  /** A patch that says nothing but the lock it holds. */
  function Touch(s: Store): Request {
    Request([], if LockOf(s.held).Some? then map[FINGERPRINT := s.held[FINGERPRINT]] else map[])
  }

  function Touches(s: Store, oneField: bool, n: nat): (rs: seq<Request>)
    ensures |rs| == n
    decreases n
  {
    if n == 0 then [] else [Touch(s)] + Touches(After(s, oneField, Touch(s)), oneField, n - 1)
  }

  lemma TouchIsAccepted(s: Store, oneField: bool)
    requires LockOf(s.held).Some?
    ensures Judge(s.held, oneField, Touch(s)) == Accepted
  {
    assert ChangedFields(s.held, Touch(s).body) == {};
  }

  lemma {:induction false} TouchesAreAccepted(s: Store, oneField: bool, n: nat)
    requires LockOf(s.held).Some?
    ensures AcceptedOf(s, oneField, Touches(s, oneField, n)) == n
    decreases n
  {
    if n > 0 {
      TouchIsAccepted(s, oneField);
      hide Judge, Touch;
      var next := After(s, oneField, Touch(s));
      assert Touches(s, oneField, n)[1..] == Touches(next, oneField, n - 1);
      TouchesAreAccepted(next, oneField, n - 1);
    }
  }

  /** The lock of s tells, after any run of patches, whether one was accepted. */
  ghost predicate LockTells(s: Store, oneField: bool) {
    forall rs :: LockOf(AfterAll(s, oneField, rs).held) == LockOf(s.held) <==> AcceptedOf(s, oneField, rs) == 0
  }

  /** A LOCK HOLDS over every run if and only if its fingerprint is spent. */
  lemma LockHoldsIff(s: Store, oneField: bool)
    requires LockOf(s.held).Some?
    ensures LockTells(s, oneField) <==> Spent(LockOf(s.held).value, s.issued)
  {
    hide AfterAll, AcceptedOf, Fingerprint, Touches;
    if Spent(LockOf(s.held).value, s.issued) {
      forall rs ensures LockOf(AfterAll(s, oneField, rs).held) == LockOf(s.held) <==> AcceptedOf(s, oneField, rs) == 0 {
        LockComesRound(s, oneField, rs);
      }
    } else {
      var n: nat :| n > s.issued && LockOf(s.held).value == Fingerprint(n);
      var rs := Touches(s, oneField, n - s.issued);
      TouchesAreAccepted(s, oneField, n - s.issued);
      LockComesRound(s, oneField, rs);
    }
  }

  /** So a patch that quotes a spent lock is refused, and changes nothing, if anyone has
      written since it was read. */
  lemma LockHolds(s: Store, oneField: bool, others: seq<Request>, r: Request)
    requires Locked(s)
    ensures var now := AfterAll(s, oneField, others);
            && (LockOf(now.held) == LockOf(s.held) <==> AcceptedOf(s, oneField, others) == 0)
            && (Quoted(r.body) == LockOf(s.held).value && AcceptedOf(s, oneField, others) > 0 ==>
                  Judge(now.held, oneField, r) != Accepted && After(now, oneField, r) == now)
  {
    var now := AfterAll(s, oneField, others);
    hide AfterAll, AcceptedOf, Fingerprint;
    LockFollows(s, oneField, others);
    LockComesRound(s, oneField, others);
  }

  /** A resource seeded with a fingerprint the server has yet to hand out is not protected:
      one patch later the lock that was read is current again. */
  lemma SeededFingerprintComesRound()
    ensures var s := Store(map[FINGERPRINT := JStr(Fingerprint(1)), "a" := JNum(0.0)], 0);
            var r := Request(["a"], map["a" := JNum(1.0), FINGERPRINT := JStr(Fingerprint(1))]);
            AcceptedOf(s, false, [r]) == 1 && LockOf(AfterAll(s, false, [r]).held) == LockOf(s.held)
  {
    var s := Store(map[FINGERPRINT := JStr(Fingerprint(1)), "a" := JNum(0.0)], 0);
    var r := Request(["a"], map["a" := JNum(1.0), FINGERPRINT := JStr(Fingerprint(1))]);
    SplitPlain("a", '.');
    assert Lookup(r.body, ["a"]) == Some(JNum(1.0));
    assert Judge(s.held, false, r) == Accepted;
    assert [r][1..] == [];
    assert AfterAll(s, false, [r]) == AfterAll(After(s, false, r), false, []);
  }

  // ---- the update envelope -----------------------------------------------------

  predicate IsMaskField(k: string) {
    k == "updateMask" || k == "fieldMask"
  }

  /** AIP-134's update request: the resource under `wrapper`, beside its mask. */
  function Wrap(wrapper: string, maskField: string, body: Object, mask: seq<string>): Object {
    map[wrapper := JObj(body), maskField := JStr(Join(mask, ','))]
  }

  /** unwrapUpdateEnvelope, with its scan of the request in whatever order the map gives. */
  method Unwrap(request: Object) returns (inner: Object, mask: string, ok: bool)
    ensures ok ==> exists k :: IsEnvelope(request, k) && inner == request[k].fields
    ensures ok ==> exists m :: SaysMask(request, m) && request[m].s == mask
    ensures MasksAgree(request) ==> (ok <==> IsUpdate(request))
  {
    var found: Option<Object> := None;
    mask := "";
    inner := map[];
    ghost var at := "";
    var todo := request.Keys;
    while todo != {}
      invariant todo <= request.Keys
      invariant forall k | k in request && k !in todo :: request[k].JObj? || (request[k].JStr? && IsMaskField(k))
      invariant found.Some? ==> at in request && at !in todo && request[at] == JObj(found.value)
      invariant forall k | k in request && k !in todo && request[k].JObj? :: found.Some? && k == at
      invariant mask != "" ==> exists m :: m in request && IsMaskField(m) && request[m] == JStr(mask)
      invariant mask == "" ==> forall m | m in request && m !in todo && MasksAgree(request) :: !SaysMask(request, m)
    {
      var k :| k in todo;
      todo := todo - {k};
      match request[k]
      case JStr(s) =>
        if !IsMaskField(k) {
          return map[], "", false;
        }
        mask := s;
      case JObj(fields) =>
        if found.Some? {
          return map[], "", false;
        }
        found, at := Some(fields), k;
      case _ =>
        return map[], "", false;
    }
    if found.None? || mask == "" {
      return map[], "", false;
    }
    inner, ok := found.value, true;
    assert IsEnvelope(request, at);
  }

  /** k holds the one object of the request, beside nothing but mask fields. */
  predicate IsEnvelope(request: Object, k: string) {
    && k in request && request[k].JObj?
    && forall n | n in request && n != k :: request[n].JStr? && IsMaskField(n)
  }

  /** m is a mask field of the request, and is not empty. */
  predicate SaysMask(request: Object, m: string) {
    m in request && IsMaskField(m) && request[m].JStr? && request[m].s != ""
  }

  /** The mask fields of the request are all empty or all not. With one of each, which was
      met last decides, and that is up to Go's map. */
  predicate MasksAgree(request: Object) {
    forall m, n | m in request && n in request && IsMaskField(m) && IsMaskField(n) ::
      SaysMask(request, m) <==> SaysMask(request, n)
  }

  ghost predicate IsUpdate(request: Object) {
    (exists k :: IsEnvelope(request, k)) && (exists m :: SaysMask(request, m))
  }

  /** UNWRAPPING RECOVERS WHAT WAS WRAPPED, body and mask, whatever order the request's
      two fields are met in. */
  method WrapAndUnwrap(wrapper: string, maskField: string, body: Object, mask: seq<string>)
    returns (inner: Object, entries: seq<string>)
    requires IsMaskField(maskField) && !IsMaskField(wrapper)
    requires mask != [] && mask[0] != "" && forall m | m in mask :: ',' !in m
    ensures inner == body && entries == mask
  {
    var request := Wrap(wrapper, maskField, body, mask);
    SplitJoin(mask, ',');
    assert Join(mask, ',') != "" by {
      if |mask| == 1 {
        assert Join(mask, ',') == mask[0];
      }
    }
    assert IsEnvelope(request, wrapper) && SaysMask(request, maskField);
    assert MasksAgree(request);
    var m, ok;
    inner, m, ok := Unwrap(request);
    entries := Split(m, ',');
  }

  // ---- the server itself -------------------------------------------------------

  datatype Reply = NotFound | Judged(verdict: Verdict)

  /** The part of the fake server a patch reads and changes. */
  class FakeServer {
    var resources: map<string, Object>
    var issued: nat
    const oneFieldPatch: set<string>

    constructor (resources: map<string, Object>, oneFieldPatch: set<string>)
      ensures this.resources == resources && issued == 0 && this.oneFieldPatch == oneFieldPatch
    {
      this.resources, issued, this.oneFieldPatch := resources, 0, oneFieldPatch;
    }

    function StoreAt(path: string): Store
      reads this
      requires path in resources
    {
      Store(resources[path], issued)
    }

    /** handlePatch, for a request whose mask is on the query string or in the body. */
    method HandlePatch(path: string, query: string, body: Object) returns (reply: Reply, ghost r: Request)
      modifies this
      ensures query != "" ==> r == Request(Split(query, ','), body)
      ensures query == "" ==> r == Request([], body) || Enveloped(body, r)
      ensures query == "" && MasksAgree(body) ==>
                if IsUpdate(body) then Enveloped(body, r) else r == Request([], body)
      ensures Patched(path, r, reply)
    {
      hide Enveloped, IsUpdate, MasksAgree, After, Judge;
      var mask, patch := MaskAndBody(query, body);
      r := Request(mask, patch);
      reply := Patch(path, Request(mask, patch));
    }

    /** What a patch of one resource may change, and how. */
    twostate predicate Patched(path: string, r: Request, reply: Reply)
      reads this
    {
      && resources.Keys == old(resources.Keys)
      && (forall p | p in resources && p != path :: resources[p] == old(resources[p]))
      && (path !in resources ==> reply == NotFound && issued == old(issued))
      && (path in resources ==>
            && reply == Judged(Judge(old(resources[path]), path in oneFieldPatch, r))
            && StoreAt(path) == After(old(StoreAt(path)), path in oneFieldPatch, r))
    }

    method Patch(path: string, r: Request) returns (reply: Reply)
      modifies this
      ensures Patched(path, r, reply)
    {
      hide ApplyMask, Lookup, MaskPresent, Judge, ChangedFields, Quoted, Fingerprint, PathsIn;
      if path !in resources {
        return NotFound;
      }
      var existing := resources[path];
      var verdict := Check(existing, path in oneFieldPatch, r.mask, r.body);
      if verdict != Accepted {
        return Judged(verdict);
      }
      var merged := existing + r.body;
      if r.mask != [] {
        merged := WriteMasked(existing, r.body, r.mask);
      }
      if LockOf(existing).Some? {
        issued := issued + 1;
        merged := merged[FINGERPRINT := JStr(Fingerprint(issued))];
      }
      resources := resources[path := merged];
      reply := Judged(Accepted);
    }
  }

  /** r is the patch some update envelope carries. */
  ghost predicate Enveloped(request: Object, r: Request) {
    && (exists k :: IsEnvelope(request, k) && r.body == request[k].fields)
    && (exists m :: SaysMask(request, m) && r.mask == Split(request[m].s, ','))
  }

  method MaskAndBody(query: string, body: Object) returns (mask: seq<string>, patch: Object)
    ensures query != "" ==> mask == Split(query, ',') && patch == body
    ensures query == "" ==> (mask == [] && patch == body) || Enveloped(body, Request(mask, patch))
    ensures query == "" && MasksAgree(body) ==>
              if IsUpdate(body) then Enveloped(body, Request(mask, patch)) else mask == [] && patch == body
  {
    if query != "" {
      return Split(query, ','), body;
    }
    var inner, m, ok := Unwrap(body);
    if ok {
      return Split(m, ','), inner;
    }
    return [], body;
  }

  method Check(existing: Object, oneField: bool, mask: seq<string>, patch: Object) returns (v: Verdict)
    ensures v == Judge(existing, oneField, Request(mask, patch))
  {
    var present := AllPresent(mask, patch);
    if !present {
      return BadMask;
    }
    var locked := LockOf(existing);
    if locked.Some? && Quoted(patch) != locked.value {
      return ConditionNotMet;
    }
    if oneField && |ChangedFields(existing, patch)| > 1 {
      return TooManyFields;
    }
    v := Accepted;
  }

  /** The check that every mask entry names something the body carries. */
  method AllPresent(mask: seq<string>, body: Object) returns (all: bool)
    ensures all <==> MaskPresent(mask, body)
  {
    for i := 0 to |mask|
      invariant forall j | 0 <= j < i :: Lookup(body, PathOf(mask[j])).Some?
    {
      var v := LookupDotted(body, mask[i]);
      if v.None? {
        return false;
      }
    }
    all := true;
  }

  method LookupDotted(o: Object, dotted: string) returns (v: Option<Json>)
    ensures v == Lookup(o, PathOf(dotted))
  {
    var p, cur := PathOf(dotted), JObj(o);
    for i := 0 to |p|
      invariant Lookup(o, p) == if i == |p| then Some(cur) else if cur.JObj? then Lookup(cur.fields, p[i..]) else None
    {
      if !cur.JObj? || p[i] !in cur.fields {
        return None;
      }
      cur := cur.fields[p[i]];
      assert p[i..][1..] == p[i + 1..];
    }
    v := Some(cur);
  }

  /** The loop of handlePatch that writes each masked value. */
  method WriteMasked(existing: Object, body: Object, mask: seq<string>) returns (merged: Object)
    ensures merged == ApplyMask(existing, body, PathsIn(mask))
  {
    merged := existing;
    ghost var ps := PathsIn(mask);
    for i := 0 to |mask|
      invariant ApplyMask(merged, body, ps[i..]) == ApplyMask(existing, body, ps)
    {
      assert ps[i..][0] == ps[i] && ps[i..][1..] == ps[i + 1..];
      var v := LookupDotted(body, mask[i]);
      merged := SetPath(merged, PathOf(mask[i]), if v.Some? then v.value else JNull);
    }
    assert ps[|mask|..] == [];
  }
}
