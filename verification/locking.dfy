/** One-field patching under optimistic locking (internal/gcprov/patch.go) against the server
    of module Server, with other writers at work in between. */
module Locking {
  import opened Values
  import opened Text
  import opened Edits
  import opened Server
  import Catalog
  import Patch
  import PatchLoops

  /** What other writers send after our lock is read, and after our patch. */
  datatype Turn = Turn(afterRead: seq<Request>, afterPatch: seq<Request>)

  /** One patch of ours: the store its lock was read from, the store it met, and itself. */
  datatype Step = Step(read: Store, met: Store, request: Request)

  /** The update in hand: the whole body and mask, and the type's lock field ("" if none). */
  datatype Job = Job(body: Object, mask: seq<string>, lockField: string)

  predicate Under(m: string, f: string) {
    m == f || HasPrefix(m, f + ".")
  }

  /** The mask's entries for one top-level field. */
  function Entries(f: string, mask: seq<string>): seq<string> {
    if mask == [] then []
    else Entries(f, mask[..|mask| - 1]) + if Under(mask[|mask| - 1], f) then [mask[|mask| - 1]] else []
  }

  function LockIn(o: Object, lockField: string): Json {
    if lockField == "" then JNull else OrNull(o, lockField)
  }

  /** The patch of one field, quoting the lock unless it is null. */
  function Part(job: Job, f: string, lock: Json): Request {
    var one := map[f := OrNull(job.body, f)];
    Request(Entries(f, job.mask), if lock == JNull then one else one[job.lockField := lock])
  }

  /** The patches sent from a store just read, in order; the first refusal is the last. */
  function Steps(s: Store, oneField: bool, job: Job, fields: seq<string>, others: seq<Turn>): (steps: seq<Step>)
    requires |others| == |fields|
    ensures |steps| <= |fields| && (fields != [] ==> steps != [])
    decreases |fields|
  {
    if fields == [] then []
    else
      var met, r := AfterAll(s, oneField, others[0].afterRead), Part(job, fields[0], LockIn(s.held, job.lockField));
      if Judge(met.held, oneField, r) != Accepted then [Step(s, met, r)]
      else [Step(s, met, r)] +
           Steps(AfterAll(After(met, oneField, r), oneField, others[0].afterPatch), oneField, job, fields[1..], others[1..])
  }

  /** What the server holds when the loop ends. */
  function Final(s: Store, oneField: bool, job: Job, fields: seq<string>, others: seq<Turn>): Store
    requires |others| == |fields|
    decreases |fields|
  {
    if fields == [] then s
    else
      var met, r := AfterAll(s, oneField, others[0].afterRead), Part(job, fields[0], LockIn(s.held, job.lockField));
      if Judge(met.held, oneField, r) != Accepted then met
      else Final(AfterAll(After(met, oneField, r), oneField, others[0].afterPatch), oneField, job, fields[1..], others[1..])
  }

  predicate Went(step: Step, oneField: bool) {
    Judge(step.met.held, oneField, step.request) == Accepted
  }

  // ---- whoever else writes -----------------------------------------------------

  /** The patch quotes the lock it read, and went through only if nothing was accepted
      since that read. */
  ghost predicate Fresh(step: Step, oneField: bool, turn: Turn) {
    && Locked(step.read)
    && step.met == AfterAll(step.read, oneField, turn.afterRead)
    && Quoted(step.request.body) == LockOf(step.read.held).value
    && (AcceptedOf(step.read, oneField, turn.afterRead) > 0 ==> !Went(step, oneField))
  }

  /** NO PATCH OF OURS LANDS ON SOMEONE ELSE'S WRITE: whatever other writers do and when,
      a patch is accepted only if nothing was accepted since its lock was read. */
  lemma {:induction false} PatchesAreFresh(s: Store, oneField: bool, job: Job, fields: seq<string>, others: seq<Turn>, i: nat)
    requires Locked(s) && job.lockField == FINGERPRINT && |others| == |fields| && FINGERPRINT !in fields
    requires i < |Steps(s, oneField, job, fields, others)|
    ensures Fresh(Steps(s, oneField, job, fields, others)[i], oneField, others[i])
    decreases |fields|
  {
    hide Judge, Part, LockIn, Locked, LockOf, Quoted, After, AfterAll, AcceptedOf, Fresh;
    assert fields[0] in fields;
    LockedHasLock(s);
    PartQuotes(s, job, fields[0]);
    var r := Part(job, fields[0], LockIn(s.held, job.lockField));
    RoundKeepsLock(s, oneField, r, others[0]);
    if i > 0 {
      var next := AfterAll(After(AfterAll(s, oneField, others[0].afterRead), oneField, r), oneField, others[0].afterPatch);
      PatchesAreFresh(next, oneField, job, fields[1..], others[1..], i - 1);
    }
  }

  lemma LockedHasLock(s: Store)
    requires Locked(s)
    ensures LockOf(s.held).Some?
  {}

  /** A refused patch is the last, and then the server holds what the others left. */
  lemma {:induction false} RefusalEndsTheRun(s: Store, oneField: bool, job: Job, fields: seq<string>, others: seq<Turn>, i: nat)
    requires |others| == |fields| && i < |Steps(s, oneField, job, fields, others)|
    ensures var steps := Steps(s, oneField, job, fields, others);
            if Went(steps[i], oneField) then i + 1 < |steps| || |steps| == |fields|
            else i + 1 == |steps| && Final(s, oneField, job, fields, others) == steps[i].met
    decreases |fields|
  {
    hide Judge, Part, LockIn, After, AfterAll;
    if i > 0 {
      var r := Part(job, fields[0], LockIn(s.held, job.lockField));
      var next := AfterAll(After(AfterAll(s, oneField, others[0].afterRead), oneField, r), oneField, others[0].afterPatch);
      RefusalEndsTheRun(next, oneField, job, fields[1..], others[1..], i - 1);
    }
  }

  lemma PartQuotes(s: Store, job: Job, f: string)
    requires LockOf(s.held).Some? && job.lockField == FINGERPRINT && f != FINGERPRINT
    ensures Quoted(Part(job, f, LockIn(s.held, job.lockField)).body) == LockOf(s.held).value
  {
    hide Entries;
  }

  /** One round, others included: the lock stays good, and does its work. */
  lemma RoundKeepsLock(s: Store, oneField: bool, r: Request, turn: Turn)
    requires Locked(s) && Quoted(r.body) == LockOf(s.held).value
    ensures var met := AfterAll(s, oneField, turn.afterRead);
            && (AcceptedOf(s, oneField, turn.afterRead) > 0 ==> Judge(met.held, oneField, r) != Accepted)
            && Locked(AfterAll(After(met, oneField, r), oneField, turn.afterPatch))
            && Fresh(Step(s, met, r), oneField, turn)
  {
    var met := AfterAll(s, oneField, turn.afterRead);
    LockHolds(s, oneField, turn.afterRead, r);
    LockStays(s, oneField, turn.afterRead);
    LockStays(met, oneField, [r]);
    assert [r][1..] == [];
    assert AfterAll(met, oneField, [r]) == AfterAll(After(met, oneField, r), oneField, []);
    hide Judge, Locked, After, AcceptedOf, LockOf, Quoted;
    assert AfterAll(After(met, oneField, r), oneField, []) == After(met, oneField, r);
    LockStays(After(met, oneField, r), oneField, turn.afterPatch);
  }

  /** A STALE FIRST LOCK CHANGES NOTHING: our only patch is refused. */
  lemma StaleFirstLock(s: Store, oneField: bool, job: Job, fields: seq<string>, others: seq<Turn>)
    requires Locked(s) && job.lockField == FINGERPRINT && |others| == |fields| && fields != [] && FINGERPRINT !in fields
    requires AcceptedOf(s, oneField, others[0].afterRead) > 0
    ensures |Steps(s, oneField, job, fields, others)| == 1
    ensures Final(s, oneField, job, fields, others) == AfterAll(s, oneField, others[0].afterRead)
  {
    PatchesAreFresh(s, oneField, job, fields, others, 0);
    hide Judge, Part, LockIn, After, AfterAll, AcceptedOf, Locked;
    RefusalEndsTheRun(s, oneField, job, fields, others, 0);
  }

  // ---- nobody else writes ------------------------------------------------------

  predicate Quiet(others: seq<Turn>) {
    forall t | t in others :: t == Turn([], [])
  }

  /** An object apart from its fingerprint. */
  function Unlocked(o: Object): Object {
    o - {FINGERPRINT}
  }

  /** A changed field's entries are those under its name. */
  lemma EntryIsUnder(p: Path, f: string)
    requires PatchLoops.DotFree(p) && '.' !in f
    ensures Under(PatchLoops.Dot(p), f) <==> p[0] == f
  {
    var m := PatchLoops.Dot(p);
    SplitJoin(p, '.');
    SplitPlain(f, '.');
    if HasPrefix(m, f + ".") {
      var tail := m[|f| + 1..];
      assert m == f + ['.'] + tail;
      SplitConcat(f, '.', tail);
    }
    if p[0] == f && |p| > 1 {
      assert m == f + ['.'] + Join(p[1..], '.');
      assert m[..|f| + 1] == f + ".";
    }
  }

  lemma {:induction false} EntriesConcat(f: string, a: seq<string>, b: seq<string>)
    ensures Entries(f, a + b) == Entries(f, a) + Entries(f, b)
    decreases |b|
  {
    if b == [] {
      assert a + b == a;
    } else {
      var n := |b| - 1;
      assert (a + b)[..|a| + n] == a + b[..n] && (a + b)[|a| + n] == b[n];
      EntriesConcat(f, a, b[..n]);
    }
  }

  lemma {:induction false} EntriesAll(f: string, mask: seq<string>)
    ensures (forall m | m in mask :: Under(m, f)) ==> Entries(f, mask) == mask
    ensures (forall m | m in mask :: !Under(m, f)) ==> Entries(f, mask) == []
  {
    if mask != [] {
      var n := |mask| - 1;
      EntriesAll(f, mask[..n]);
      assert mask == mask[..n] + [mask[n]];
    }
  }

  predicate DotFreePaths(edits: seq<Edit>) {
    forall p | p in Paths(edits) :: PatchLoops.DotFree(p)
  }

  /** What the mask of one change holds under a name. */
  lemma OwnEntries(e: Edit, f: string)
    requires WellFormed([e]) && DotFreePaths([e]) && '.' !in f
    ensures Entries(f, PatchLoops.Dotted(Paths([e]))) == if e.name == f then PatchLoops.Dotted(Paths([e])) else []
  {
    var ps := Paths([e]);
    var mask := PatchLoops.Dotted(ps);
    forall m | m in mask ensures Under(m, f) <==> e.name == f {
      var i :| 0 <= i < |mask| && mask[i] == m;
      assert ps[i] in ps;
      var g := PathHead([e], ps[i]);
      EntryIsUnder(ps[i], f);
    }
    EntriesAll(f, mask);
  }

  lemma NameIsDotFree(e: Edit)
    requires WellFormed([e]) && DotFreePaths([e])
    ensures '.' !in e.name
  {
    PathsWellFormed([e]);
    var p := Paths([e])[0];
    assert p in Paths([e]);
    var f := PathHead([e], p);
    assert p[0] in p;
  }

  lemma FirstEdit(edits: seq<Edit>)
    requires WellFormed(edits) && edits != [] && DotFreePaths(edits)
    ensures WellFormed([edits[0]]) && DotFreePaths([edits[0]]) && DotFreePaths(edits[1..])
    ensures Paths(edits) == Paths([edits[0]]) + Paths(edits[1..])
  {
    assert edits == [edits[0]] + edits[1..];
    PatchLoops.PathsConcat([edits[0]], edits[1..]);
  }

  /** THE PER-FIELD MASKS PARTITION THE MASK: what it holds under a changed field is that
      change's own entries, and under any other name nothing. */
  lemma {:induction false} EntriesAreOwn(edits: seq<Edit>, f: string)
    requires WellFormed(edits) && DotFreePaths(edits) && '.' !in f
    ensures forall e | e in edits && e.name == f :: Entries(f, PatchLoops.Dotted(Paths(edits))) == PatchLoops.Dotted(Paths([e]))
    ensures (forall e | e in edits :: e.name != f) ==> Entries(f, PatchLoops.Dotted(Paths(edits))) == []
    decreases |edits|
  {
    if edits != [] {
      FirstEdit(edits);
      var first, rest := PatchLoops.Dotted(Paths([edits[0]])), PatchLoops.Dotted(Paths(edits[1..]));
      OwnEntries(edits[0], f);
      EntriesAreOwn(edits[1..], f);
      PatchLoops.DottedConcat("", Paths([edits[0]]), Paths(edits[1..]));
      assert PatchLoops.Dotted(Paths(edits)) == first + rest;
      EntriesConcat(f, first, rest);
      assert forall e :: e in edits <==> e == edits[0] || e in edits[1..];
    }
  }

  lemma PathsOfDotted(ps: seq<Path>)
    requires forall p | p in ps :: PatchLoops.DotFree(p)
    ensures PathsIn(PatchLoops.Dotted(ps)) == ps
  {
    forall i | 0 <= i < |ps| ensures PathOf(PatchLoops.Dotted(ps)[i]) == ps[i] {
      assert ps[i] in ps;
      SplitJoin(ps[i], '.');
    }
  }

  /** The store with every change made, one new fingerprint each. */
  function Landed(s: Store, edits: seq<Edit>): Store {
    if edits == [] then s
    else
      var n := s.issued + |edits|;
      Store(ApplyEdits(s.held, edits)[FINGERPRINT := JStr(Fingerprint(n))], n)
  }

  /** Our patch of one field: the server accepts it on a current lock, and makes that
      field's change. */
  lemma PartLands(s: Store, oneField: bool, job: Job, e: Edit)
    requires LockOf(s.held).Some? && job.lockField == FINGERPRINT && e.name != FINGERPRINT
    requires WellFormed([e]) && DotFreePaths([e]) && AgreesAt(job.body, e)
    requires Entries(e.name, job.mask) == PatchLoops.Dotted(Paths([e]))
    ensures var r := Part(job, e.name, LockIn(s.held, job.lockField));
            && Judge(s.held, oneField, r) == Accepted
            && Quoted(r.body) == LockOf(s.held).value
            && After(s, oneField, r) == Landed(s, [e])
  {
    var r := Part(job, e.name, LockIn(s.held, job.lockField));
    PartQuotes(s, job, e.name);
    assert Agrees(r.body, [e]) by {
      assert AgreesAt(r.body, e);
    }
    assert ChangedFields(s.held, r.body) <= {e.name};
    assert r.mask == PatchLoops.Dotted(Paths([e]));
    hide Part, LockIn, Entries;
    AtMostOne(ChangedFields(s.held, r.body), e.name);
    MaskNamesBody(r, [e]);
    PathsOfDotted(Paths([e]));
    MaskAppliesEdits(s.held, r.body, [e]);
    PathsWellFormed([e]);
    hide Agrees, Paths, ApplyEdits, ApplyMask, WellFormed, MaskPresent, ChangedFields, DotFreePaths;
  }

  /** The mask of a change names what a body that agrees with it carries. */
  lemma MaskNamesBody(r: Request, edits: seq<Edit>)
    requires Agrees(r.body, edits) && DotFreePaths(edits) && r.mask == PatchLoops.Dotted(Paths(edits))
    ensures MaskPresent(r.mask, r.body)
  {
    var ps := Paths(edits);
    PathsOfDotted(ps);
    forall m | m in r.mask ensures Lookup(r.body, PathOf(m)).Some? {
      var i :| 0 <= i < |r.mask| && r.mask[i] == m;
      assert PathsIn(r.mask)[i] == ps[i] && ps[i] in ps;
      AgreeingBodiesMatch(r.body, r.body, edits, ps[i]);
    }
  }

  lemma AtMostOne(s: set<string>, k: string)
    requires s <= {k}
    ensures |s| <= 1
  {
    if k in s {
      assert s == {k};
    } else {
      assert s == {};
    }
  }

  /** Changes to other fields commute with a new fingerprint. */
  lemma EditsKeepLock(o: Object, x: Json, edits: seq<Edit>)
    requires WellFormed(edits) && forall e | e in edits :: e.name != FINGERPRINT
    ensures ApplyEdits(o[FINGERPRINT := x], edits) == ApplyEdits(o, edits)[FINGERPRINT := x]
  {
    var a, b := ApplyEdits(o[FINGERPRINT := x], edits), ApplyEdits(o, edits)[FINGERPRINT := x];
    forall k ensures At(a, k) == At(b, k) {
      ApplyEditsAt(o[FINGERPRINT := x], edits, k);
      ApplyEditsAt(o, edits, k);
    }
    SameObject(a, b);
  }

  /** Every patch went through, on the store its lock was read from, which is the one its
      predecessor left, quoting the fingerprint its predecessor produced. */
  predicate Undisturbed(steps: seq<Step>, oneField: bool, issued: nat) {
    && (forall i | 0 <= i < |steps| ::
          && Went(steps[i], oneField)
          && steps[i].met == steps[i].read
          && LockOf(steps[i].read.held) == Some(Quoted(steps[i].request.body)))
    && (forall i | 0 < i < |steps| ::
          && steps[i].read == After(steps[i - 1].met, oneField, steps[i - 1].request)
          && Quoted(steps[i].request.body) == Fingerprint(issued + i))
  }

  lemma QuietUnfold(s: Store, oneField: bool, job: Job, fields: seq<string>, others: seq<Turn>)
    requires Quiet(others) && |others| == |fields| && fields != []
    requires Judge(s.held, oneField, Part(job, fields[0], LockIn(s.held, job.lockField))) == Accepted
    ensures var r := Part(job, fields[0], LockIn(s.held, job.lockField));
            var next := After(s, oneField, r);
            && Steps(s, oneField, job, fields, others) ==
               [Step(s, s, r)] + Steps(next, oneField, job, fields[1..], others[1..])
            && Final(s, oneField, job, fields, others) == Final(next, oneField, job, fields[1..], others[1..])
  {
    hide Part, LockIn, Judge, After;
    assert others[0] in others;
  }

  /** As many steps as fields, undisturbed, from s on. */
  predicate QuietFrom(s: Store, steps: seq<Step>, n: nat, oneField: bool) {
    |steps| == n && (steps != [] ==> steps[0].read == s) && Undisturbed(steps, oneField, s.issued)
  }

  lemma UndisturbedCons(first: Step, rest: seq<Step>, n: nat, oneField: bool)
    requires QuietFrom(first.read, [first], 1, oneField)
    requires var next := After(first.met, oneField, first.request);
             && next.issued == first.read.issued + 1 && QuietFrom(next, rest, n, oneField)
             && LockOf(next.held) == Some(Fingerprint(next.issued))
    ensures QuietFrom(first.read, [first] + rest, n + 1, oneField)
  {
    hide After, Judge, LockOf, Quoted;
    var steps := [first] + rest;
    forall i | 0 <= i < |steps|
      ensures Went(steps[i], oneField) && steps[i].met == steps[i].read
      ensures LockOf(steps[i].read.held) == Some(Quoted(steps[i].request.body))
    {
      if i == 0 {
        assert Undisturbed([steps[0]], oneField, first.read.issued);
        assert [steps[0]][0] == steps[0];
      } else {
        assert steps[i] == rest[i - 1];
      }
    }
    forall i | 0 < i < |steps|
      ensures steps[i].read == After(steps[i - 1].met, oneField, steps[i - 1].request)
      ensures Quoted(steps[i].request.body) == Fingerprint(first.read.issued + i)
    {
      assert steps[i] == rest[i - 1];
      if i > 1 {
        assert steps[i - 1] == rest[i - 2];
      }
    }
  }

  /** What the loop leaves when no one interferes, and how each step went. */
  lemma {:induction false} QuietRun(s: Store, oneField: bool, job: Job, edits: seq<Edit>, others: seq<Turn>)
    requires LockOf(s.held).Some? && job.lockField == FINGERPRINT && Quiet(others) && |others| == |edits|
    requires WellFormed(edits) && DotFreePaths(edits) && Agrees(job.body, edits)
    requires forall e | e in edits :: e.name != FINGERPRINT && Entries(e.name, job.mask) == PatchLoops.Dotted(Paths([e]))
    ensures QuietFrom(s, Steps(s, oneField, job, PatchLoops.Fields(edits), others), |edits|, oneField)
    ensures Final(s, oneField, job, PatchLoops.Fields(edits), others) == Landed(s, edits)
    decreases |edits|
  {
    if edits != [] {
      hide After, Judge, Part, Entries, LockIn, DotFreePaths, Steps, Final, QuietFrom, Quiet, WellFormed, Agrees,
        ApplyEdits, LockOf, Paths, Landed, PatchLoops.Fields, PatchLoops.Dotted;
      var e, fields := edits[0], PatchLoops.Fields(edits);
      FirstEdit(edits);
      RestAgrees(job.body, edits);
      RestQuiet(edits, others);
      PartLands(s, oneField, job, e);
      QuietUnfold(s, oneField, job, fields, others);
      var r := Part(job, e.name, LockIn(s.held, job.lockField));
      var next := After(s, oneField, r);
      FirstStep(s, oneField, r);
      QuietRun(next, oneField, job, edits[1..], others[1..]);
      FirstThenRest(s, edits);
      UndisturbedCons(Step(s, s, r), Steps(next, oneField, job, fields[1..], others[1..]), |edits| - 1, oneField);
    }
  }

  lemma RestQuiet(edits: seq<Edit>, others: seq<Turn>)
    requires Quiet(others) && |others| == |edits| && edits != []
    ensures Quiet(others[1..]) && |others[1..]| == |edits[1..]|
    ensures PatchLoops.Fields(edits)[1..] == PatchLoops.Fields(edits[1..])
  {
    forall t | t in others[1..] ensures t in others {}
  }

  lemma FirstStep(s: Store, oneField: bool, r: Request)
    requires LockOf(s.held) == Some(Quoted(r.body)) && Judge(s.held, oneField, r) == Accepted
    ensures QuietFrom(s, [Step(s, s, r)], 1, oneField)
    ensures LockOf(After(s, oneField, r).held) == Some(Fingerprint(s.issued + 1))
    ensures After(s, oneField, r).issued == s.issued + 1
  {
    hide Judge, Written, Quoted;
  }

  lemma RestAgrees(body: Object, edits: seq<Edit>)
    requires WellFormed(edits) && edits != [] && Agrees(body, edits)
    ensures WellFormed(edits[1..]) && Agrees(body, edits[1..]) && AgreesAt(body, edits[0])
    ensures edits[0] in edits && forall e | e in edits[1..] :: e in edits
  {}

  lemma FirstChange(o: Object, edits: seq<Edit>)
    requires edits != []
    ensures ApplyEdits(ApplyEdits(o, [edits[0]]), edits[1..]) == ApplyEdits(o, edits)
    ensures ApplyEdits(o, []) == o
  {
    var o1 := o[edits[0].name := Changed(At(o, edits[0].name), edits[0].change)];
    hide Changed;
    assert [edits[0]][1..] == [];
    assert ApplyEdits(o1, [edits[0]][1..]) == o1;
  }

  /** The first change, and then the rest, is all of them. */
  lemma FirstThenRest(s: Store, edits: seq<Edit>)
    requires edits != [] && WellFormed(edits[1..]) && forall e | e in edits[1..] :: e.name != FINGERPRINT
    ensures Landed(Landed(s, [edits[0]]), edits[1..]) == Landed(s, edits)
  {
    hide ApplyEdits, WellFormed, Fingerprint;
    var one := ApplyEdits(s.held, [edits[0]]);
    FirstChange(s.held, edits);
    FirstChange(one, edits);
    EditsKeepLock(one, JStr(Fingerprint(s.issued + 1)), edits[1..]);
  }

  /** ONE FIELD AT A TIME IS ONE PATCH, when no one interferes: every patch is accepted,
      on the store its predecessor left and quoting the fingerprint it produced, and the
      object ends up as a single masked patch would leave it, fingerprint apart. */
  lemma QuietRunIsOnePatch(s: Store, oneField: bool, body: Object, edits: seq<Edit>, others: seq<Turn>)
    requires LockOf(s.held).Some? && Quiet(others) && |others| == |edits|
    requires edits != [] && WellFormed(edits) && DotFreePaths(edits) && Agrees(body, edits)
    requires forall e | e in edits :: e.name != FINGERPRINT
    ensures var job := Job(body, PatchLoops.Dotted(Paths(edits)), FINGERPRINT);
            var whole := Request(job.mask, body[FINGERPRINT := LockIn(s.held, FINGERPRINT)]);
            && PatchLoops.Heads(job.mask) == PatchLoops.Fields(edits)
            && QuietFrom(s, Steps(s, oneField, job, PatchLoops.Fields(edits), others), |edits|, oneField)
            && Judge(s.held, false, whole) == Accepted
            && Unlocked(Final(s, oneField, job, PatchLoops.Fields(edits), others).held) ==
               Unlocked(After(s, false, whole).held)
  {
    hide Steps, Final, QuietFrom, Paths, WellFormed, Agrees;
    var job := Job(body, PatchLoops.Dotted(Paths(edits)), FINGERPRINT);
    forall e | e in edits ensures Entries(e.name, job.mask) == PatchLoops.Dotted(Paths([e])) {
      EditAlone(edits, e);
      NameIsDotFree(e);
      EntriesAreOwn(edits, e.name);
    }
    PatchLoops.HeadsAreFields(edits);
    QuietRun(s, oneField, job, edits, others);
    WholeLands(s, body, edits);
    hide Judge, After, LockIn, Landed;
  }

  lemma EditAlone(edits: seq<Edit>, e: Edit)
    requires WellFormed(edits) && DotFreePaths(edits) && e in edits
    ensures WellFormed([e]) && DotFreePaths([e])
  {
    WellFormedEach(edits, e);
    forall p | p in Paths([e]) ensures p in Paths(edits) {
      PathsMember([e], p);
      PathsMember(edits, p);
    }
  }

  /** The whole change as a single patch. */
  lemma WholeLands(s: Store, body: Object, edits: seq<Edit>)
    requires LockOf(s.held).Some? && edits != [] && WellFormed(edits) && DotFreePaths(edits) && Agrees(body, edits)
    requires forall e | e in edits :: e.name != FINGERPRINT
    ensures var whole := Request(PatchLoops.Dotted(Paths(edits)), body[FINGERPRINT := LockIn(s.held, FINGERPRINT)]);
            && Judge(s.held, false, whole) == Accepted
            && Unlocked(After(s, false, whole).held) == Unlocked(Landed(s, edits).held)
  {
    var whole := Request(PatchLoops.Dotted(Paths(edits)), body[FINGERPRINT := LockIn(s.held, FINGERPRINT)]);
    assert Quoted(whole.body) == LockOf(s.held).value;
    AgreesWithLock(body, LockIn(s.held, FINGERPRINT), edits);
    hide LockIn, LockOf, Quoted;
    MaskNamesBody(whole, edits);
    PathsOfDotted(Paths(edits));
    MaskAppliesEdits(s.held, whole.body, edits);
    PathsWellFormed(edits);
    hide Agrees, Paths, ApplyEdits, ApplyMask, WellFormed, MaskPresent, ChangedFields, DotFreePaths, Fingerprint;
  }

  lemma AgreesWithLock(body: Object, lock: Json, edits: seq<Edit>)
    requires Agrees(body, edits) && forall e | e in edits :: e.name != FINGERPRINT
    ensures Agrees(body[FINGERPRINT := lock], edits)
  {
    forall e | e in edits ensures AgreesAt(body[FINGERPRINT := lock], e) {
      AgreesAtUpdate(body, e, FINGERPRINT, lock);
    }
  }

  /** So it is for the update any configuration asks for, on a type whose fingerprint no
      patch may name. */
  lemma UpdateIsOnePatch(ty: Catalog.Type, current: map<string, Value>, desired: map<string, Value>,
                         s: Store, oneField: bool, others: seq<Turn>)
    requires Catalog.LevelOk(ty.attributes) && LockOf(s.held).Some? && Quiet(others)
    requires forall k | k in ty.attributes && ty.attributes[k].canonical == FINGERPRINT :: k in Patch.Skipped(ty)
    requires |others| == |PatchLoops.Heads(PatchLoops.Dotted(Paths(Patch.Diff(ty, current, desired))))| > 0
    ensures var edits, body := Patch.Diff(ty, current, desired), Patch.PatchBody(ty, current, desired);
            var job := Job(body, PatchLoops.Dotted(Paths(edits)), FINGERPRINT);
            var whole := Request(job.mask, body[FINGERPRINT := LockIn(s.held, FINGERPRINT)]);
            && QuietFrom(s, Steps(s, oneField, job, PatchLoops.Heads(job.mask), others), |others|, oneField)
            && Judge(s.held, false, whole) == Accepted
            && Unlocked(Final(s, oneField, job, PatchLoops.Heads(job.mask), others).held) ==
               Unlocked(After(s, false, whole).held)
  {
    var edits, body := Patch.Diff(ty, current, desired), Patch.PatchBody(ty, current, desired);
    assert edits != [];
    DiffIsPatchable(ty, current, desired);
    PatchLoops.HeadsAreFields(edits);
    hide Patch.Diff, Patch.PatchBody, Catalog.LevelOk, WellFormed, Agrees, Paths, DotFreePaths, Steps, Final, Judge,
      After, QuietFrom, LockIn, LockOf, Quiet, Patch.Skipped;
    QuietRunIsOnePatch(s, oneField, body, edits, others);
  }

  lemma DiffIsPatchable(ty: Catalog.Type, current: map<string, Value>, desired: map<string, Value>)
    requires Catalog.LevelOk(ty.attributes) && Patch.Diff(ty, current, desired) != []
    requires forall k | k in ty.attributes && ty.attributes[k].canonical == FINGERPRINT :: k in Patch.Skipped(ty)
    ensures var edits := Patch.Diff(ty, current, desired);
            && WellFormed(edits) && DotFreePaths(edits) && Agrees(Patch.PatchBody(ty, current, desired), edits)
            && forall e | e in edits :: e.name != FINGERPRINT
  {
    var l, skip, all := ty.attributes, Patch.Skipped(ty), SortedNames(ty.attributes.Keys);
    var edits := Patch.Diff(ty, current, desired);
    Patch.SkippedHoldsOutputs(ty);
    hide Patch.DiffLevel, Patch.DiffAttr, WellFormed, Agrees, Paths, Patch.Options, BodyOf;
    Patch.DiffIsWellFormed(l, skip, all, current, desired);
    BodyAgrees(edits);
    Patch.OptionsKeepChange(l, skip, all, current, desired, all, BodyOf(edits));
    forall p | p in Paths(edits) ensures PatchLoops.DotFree(p) {
      Patch.MaskIsSettable(l, skip, all, current, desired, p);
      PatchLoops.SettableIsDotFree(l, p);
    }
    forall e | e in edits ensures e.name != FINGERPRINT {
      var k := Patch.DiffNames(l, skip, all, current, desired, e);
      assert e in [e];
      SkippedIsNotDiffed(l, skip, k, current, desired);
    }
  }

  lemma SkippedIsNotDiffed(l: Catalog.Level, skip: set<string>, k: string, have: map<string, Value>, want: map<string, Value>)
    requires k in l
    ensures k in skip ==> Patch.DiffAttr(l, skip, k, have, want) == []
  {}

  // ---- the loop ----------------------------------------------------------------

  method EntriesUnder(f: string, mask: seq<string>) returns (entries: seq<string>)
    ensures entries == Entries(f, mask)
  {
    entries := [];
    for i := 0 to |mask|
      invariant entries == Entries(f, mask[..i])
    {
      assert mask[..i + 1][..i] == mask[..i];
      if Under(mask[i], f) {
        entries := entries + [mask[i]];
      }
    }
    assert mask[..|mask|] == mask;
  }

  /** Other writers' patches, one after another. */
  method Interfere(server: FakeServer, path: string, rs: seq<Request>)
    requires path in server.resources
    modifies server
    ensures server.resources.Keys == old(server.resources.Keys)
    ensures forall p | p in server.resources && p != path :: server.resources[p] == old(server.resources[p])
    ensures server.StoreAt(path) == AfterAll(old(server.StoreAt(path)), path in server.oneFieldPatch, rs)
  {
    hide After, Judge;
    for i := 0 to |rs|
      invariant server.resources.Keys == old(server.resources.Keys)
      invariant forall p | p in server.resources && p != path :: server.resources[p] == old(server.resources[p])
      invariant AfterAll(server.StoreAt(path), path in server.oneFieldPatch, rs[i..]) ==
                AfterAll(old(server.StoreAt(path)), path in server.oneFieldPatch, rs)
    {
      assert rs[i..][0] == rs[i] && rs[i..][1..] == rs[i + 1..];
      var reply := server.Patch(path, rs[i]);
    }
    assert rs[|rs|..] == [];
  }

  /** patchOneFieldAtATime: the lock first comes from the observation in hand, and is then
      read afresh before each patch. sent counts what the server accepted; a refusal before
      anything was sent is an error the caller sees as one that changed nothing. */
  method PatchOneFieldAtATime(server: FakeServer, path: string, observed: Json, job: Job, fields: seq<string>,
                              others: seq<Turn>)
    returns (sent: nat, failure: Option<Reply>)
    requires path in server.resources && |others| == |fields|
    requires observed == LockIn(server.resources[path], job.lockField)
    requires forall f | f in fields :: Entries(f, job.mask) != []
    requires forall m | m in job.mask :: m != "" && ',' !in m
    modifies server
    ensures server.resources.Keys == old(server.resources.Keys)
    ensures forall p | p in server.resources && p != path :: server.resources[p] == old(server.resources[p])
    ensures var one, s := path in server.oneFieldPatch, old(server.StoreAt(path));
            && server.StoreAt(path) == Final(s, one, job, fields, others)
            && |Steps(s, one, job, fields, others)| == sent + (if failure.Some? then 1 else 0)
            && (failure.None? <==> sent == |fields|)
  {
    sent, failure := 0, None;
    var lock := observed;
    ghost var one, s := path in server.oneFieldPatch, server.StoreAt(path);
    assert job.lockField == "" ==> lock == JNull;
    assert fields[0..] == fields && others[0..] == others;
    hide Judge, After, AfterAll, Entries, Steps, Final, Part, LockIn;
    for i := 0 to |fields|
      invariant server.resources.Keys == old(server.resources.Keys)
      invariant forall p | p in server.resources && p != path :: server.resources[p] == old(server.resources[p])
      invariant sent == i && failure.None?
      invariant i == 0 ==> lock == LockIn(server.resources[path], job.lockField)
      invariant job.lockField == "" ==> lock == JNull
      invariant Continues(server.StoreAt(path), s, one, job, fields, others, i)
    {
      if i > 0 {
        lock := FreshLock(server.resources[path], job.lockField, lock);
      }
      ghost var read := server.StoreAt(path);
      Interfere(server, path, others[i].afterRead);
      var reply := SendPart(server, path, job, fields[i], lock);
      OneRound(read, s, one, job, fields, others, i);
      if reply != Judged(Accepted) {
        failure := Some(reply);
        return;
      }
      sent := sent + 1;
      Interfere(server, path, others[i].afterPatch);
    }
    AllRounds(server.StoreAt(path), s, one, job, fields, others);
  }

  /** freshLock, from the resource as read, where the type has a lock at all. */
  method FreshLock(held: Object, lockField: string, lock: Json) returns (fresher: Json)
    requires lockField == "" ==> lock == JNull
    ensures fresher == LockIn(held, lockField)
  {
    fresher := if lockField != "" then OrNull(held, lockField) else lock;
  }

  /** After i rounds the loop has come from s to now. */
  predicate Continues(now: Store, s: Store, one: bool, job: Job, fields: seq<string>, others: seq<Turn>, i: nat)
    requires i <= |fields| == |others|
  {
    && Final(now, one, job, fields[i..], others[i..]) == Final(s, one, job, fields, others)
    && |Steps(now, one, job, fields[i..], others[i..])| + i == |Steps(s, one, job, fields, others)|
  }

  lemma OneRound(read: Store, s: Store, one: bool, job: Job, fields: seq<string>, others: seq<Turn>, i: nat)
    requires i < |fields| == |others| && Continues(read, s, one, job, fields, others, i)
    ensures var met, r := AfterAll(read, one, others[i].afterRead), Part(job, fields[i], LockIn(read.held, job.lockField));
            if Judge(met.held, one, r) == Accepted
            then Continues(AfterAll(After(met, one, r), one, others[i].afterPatch), s, one, job, fields, others, i + 1)
            else Final(s, one, job, fields, others) == met && |Steps(s, one, job, fields, others)| == i + 1
  {
    hide Judge, After, AfterAll, Part, LockIn;
    assert fields[i..][0] == fields[i] && fields[i..][1..] == fields[i + 1..];
    assert others[i..][0] == others[i] && others[i..][1..] == others[i + 1..];
  }

  lemma AllRounds(now: Store, s: Store, one: bool, job: Job, fields: seq<string>, others: seq<Turn>)
    requires |fields| == |others| && Continues(now, s, one, job, fields, others, |fields|)
    ensures now == Final(s, one, job, fields, others) && |Steps(s, one, job, fields, others)| == |fields|
  {}

  /** sendPatch of one field's part, its mask on the query string. */
  method SendPart(server: FakeServer, path: string, job: Job, f: string, lock: Json) returns (reply: Reply)
    requires path in server.resources && Entries(f, job.mask) != []
    requires forall m | m in job.mask :: m != "" && ',' !in m
    modifies server
    ensures server.Patched(path, Part(job, f, lock), reply)
  {
    var mask := EntriesUnder(f, job.mask);
    EntriesFromMask(f, job.mask);
    var part := map[f := OrNull(job.body, f)];
    if lock != JNull {
      part := part[job.lockField := lock];
    }
    assert mask[0] in mask;
    SplitJoin(mask, ',');
    ghost var r;
    reply, r := server.HandlePatch(path, Join(mask, ','), part);
  }

  lemma {:induction false} EntriesFromMask(f: string, mask: seq<string>)
    ensures forall m | m in Entries(f, mask) :: m in mask
  {
    if mask != [] {
      EntriesFromMask(f, mask[..|mask| - 1]);
    }
  }
}
