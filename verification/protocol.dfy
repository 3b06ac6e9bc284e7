/** Creating and updating against a server that may answer anything (internal/gcprov/crud.go,
    patch.go and setters.go). */
module Protocol {
  // The rule all of it serves: once Google has made something, losing track of it is worse
  // than any failure, because the host drops the result of a call that returns an error. So
  // from the first accepted request on a failure is reported and the resource is read back,
  // and what that reading finds decides what the caller is told.

  import opened Values
  import opened Text
  import opened Catalog
  import opened Edits
  import CleanPlan
  import Names
  import Patch
  import PatchLoops

  datatype State = State(id: string, attributes: map<string, Value>)

  /** What Read comes back with. */
  datatype Reading = Found(state: State) | Absent | Unreadable

  /** A request that changes something at Google. */
  datatype Call = Create | Whole | Field(name: string) | Set(setter: Setter)

  datatype Event = Sent(call: Call, accepted: bool) | Awaited(ok: bool) | ReadBack(reading: Reading)

  datatype Error = Unsupported | NotSent | Refused | NotDone | CannotRead | Gone

  function Calls(log: seq<Event>): seq<Call> {
    if log == [] then []
    else Calls(log[..|log| - 1]) + if log[|log| - 1].Sent? then [log[|log| - 1].call] else []
  }

  /** Something at Google changed. */
  predicate Changed(log: seq<Event>) {
    exists i :: 0 <= i < |log| && log[i].Sent? && log[i].accepted
  }

  /** Google, and everything else an update cannot foresee: each answer is arbitrary, and
      only what was asked, and whether it was accepted, is remembered. A request that is
      not accepted applied nothing. */
  class Google {
    ghost var log: seq<Event>

    constructor ()
      ensures log == []
    {
      log := [];
    }

    method Send(call: Call) returns (accepted: bool)
      modifies this
      ensures log == old(log) + [Sent(call, accepted)]
    {
      accepted := *;
      log := log + [Sent(call, accepted)];
    }

    method Await() returns (ok: bool)
      modifies this
      ensures log == old(log) + [Awaited(ok)]
    {
      ok := *;
      log := log + [Awaited(ok)];
    }

    /** An await that also says what was made, if it knows. */
    method AwaitResult() returns (ok: bool, made: Option<Object>)
      modifies this
      ensures log == old(log) + [Awaited(ok)]
    {
      ok := Await();
      made := *;
    }

    method Read() returns (r: Reading)
      modifies this
      ensures log == old(log) + [ReadBack(r)]
    {
      r := *;
      log := log + [ReadBack(r)];
    }

    /** A step that changes nothing at Google and may fail: building a url, a GET, or the
        caller's cancellation. */
    method Try() returns (ok: bool)
    {
      ok := *;
    }
  }

  // ---- logs --------------------------------------------------------------------

  lemma {:induction false} CallsConcat(a: seq<Event>, b: seq<Event>)
    ensures Calls(a + b) == Calls(a) + Calls(b)
    decreases |b|
  {
    if b == [] {
      assert a + b == a;
    } else {
      var n := |b| - 1;
      assert (a + b)[..|a| + n] == a + b[..n] && (a + b)[|a| + n] == b[n];
      CallsConcat(a, b[..n]);
    }
  }

  lemma ChangedConcat(a: seq<Event>, b: seq<Event>)
    ensures Changed(a + b) <==> Changed(a) || Changed(b)
  {
    forall i | 0 <= i < |b| ensures (a + b)[|a| + i] == b[i] {}
    forall i | 0 <= i < |a| ensures (a + b)[i] == a[i] {}
    if i :| 0 <= i < |a + b| && (a + b)[i].Sent? && (a + b)[i].accepted {
      assert i < |a| ==> a[i].accepted;
      assert i >= |a| ==> b[i - |a|].accepted;
    }
  }

  lemma CallsOne(e: Event)
    ensures Calls([e]) == if e.Sent? then [e.call] else []
    ensures Changed([e]) <==> e.Sent? && e.accepted
  {
    assert [e][..0] == [];
    assert [e][0] == e;
  }

  /** One more event; the calls and the changes add up. */
  lemma Then(log: seq<Event>, e: Event)
    ensures Calls(log + [e]) == Calls(log) + if e.Sent? then [e.call] else []
    ensures Changed(log + [e]) <==> Changed(log) || (e.Sent? && e.accepted)
  {
    CallsOne(e);
    CallsConcat(log, [e]);
    ChangedConcat(log, [e]);
  }

  function SetCalls(setters: seq<Setter>): (calls: seq<Call>)
    ensures |calls| == |setters| && forall i | 0 <= i < |setters| :: calls[i] == Set(setters[i])
  {
    seq(|setters|, i requires 0 <= i < |setters| => Set(setters[i]))
  }

  /** One more setter called is still a beginning of all of them. */
  lemma SetNext(setters: seq<Setter>, i: nat)
    requires i < |setters|
    ensures SetCalls(setters[..i + 1]) == SetCalls(setters[..i]) + [Set(setters[i])]
    ensures SetCalls(setters[..i]) <= SetCalls(setters) && SetCalls(setters[..i + 1]) <= SetCalls(setters)
    ensures SetCalls([]) == []
  {}

  /** Never both a state and an error, and never neither. */
  predicate OneOf(st: Option<State>, err: Option<Error>) {
    st.Some? != err.Some?
  }

  /** The run ended by reading the resource back, and the caller is told what that found:
      its state, or an error when it found none. */
  predicate Reported(log: seq<Event>, st: Option<State>, err: Option<Error>) {
    && log != [] && log[|log| - 1].ReadBack?
    && match log[|log| - 1].reading
       case Found(s) => st == Some(s) && err == None
       case _ => st == None && err.Some?
  }

  // ---- setters -----------------------------------------------------------------

  /** callSetter: sent says whether the request reached Google. */
  method CallSetter(g: Google, s: Setter) returns (sent: bool, err: Option<Error>, ghost run: seq<Event>)
    modifies g
    ensures g.log == old(g.log) + run
    ensures sent <==> Changed(run)
    ensures !sent ==> err.Some?
    ensures Calls(run) == [] || Calls(run) == [Set(s)]
    ensures sent ==> Calls(run) == [Set(s)]
  {
    run := [];
    var ok := g.Try();
    if !ok {
      return false, Some(NotSent), run;
    }
    sent := g.Send(Set(s));
    Then(run, Sent(Set(s), sent));
    run := run + [Sent(Set(s), sent)];
    if !sent {
      return false, Some(Refused), run;
    }
    ok := g.Await();
    Then(run, Awaited(ok));
    run := run + [Awaited(ok)];
    err := if ok then None else Some(NotDone);
  }

  /** updateThroughSetters. `patched` says that something was sent already, `failed` how
      that went. The setters are called in order up to the first that fails; and once
      anything is changed, the resource is read back and what that finds is reported. */
  method UpdateThroughSetters(g: Google, setters: seq<Setter>, patched: bool, failed: Option<Error>)
    returns (st: Option<State>, err: Option<Error>, ghost run: seq<Event>)
    modifies g
    ensures g.log == old(g.log) + run
    ensures OneOf(st, err)
    ensures Calls(run) <= SetCalls(setters)
    ensures patched || Changed(run) || setters == [] ==> Reported(run, st, err)
    ensures !(patched || Changed(run) || setters == []) ==> err.Some?
    ensures patched && failed.Some? && err.Some? ==> err == failed
  {
    hide Calls, Changed, SetCalls, Reported;
    NothingChanged();
    assert SetCalls(setters[..0]) == [];
    run := [];
    var sentAny, failure := patched, failed;
    for i := 0 to |setters|
      invariant g.log == old(g.log) + run
      invariant sentAny <==> patched || Changed(run)
      invariant patched && failed.Some? ==> failure == failed
      invariant Calls(run) == SetCalls(setters[..i])
      invariant i > 0 ==> sentAny
    {
      var live := g.Try();
      if !live {
        if !sentAny {
          return None, Some(NotSent), run;
        }
        break;
      }
      var sent, e, more := CallSetter(g, setters[i]);
      CallsConcat(run, more);
      ChangedConcat(run, more);
      run := run + more;
      SetNext(setters, i);
      if e.Some? && !sent && !sentAny {
        return None, e, run;
      }
      sentAny := sentAny || sent;
      if e.Some? {
        failure := if failure.None? then e else failure;
        break;
      }
    }
    assert setters[..|setters|] == setters;
    ghost var more;
    st, err, more := Conclude(g, failure);
    CallsConcat(run, more);
    ChangedConcat(run, more);
    EndsReported(run, more, st, err);
    run := run + more;
  }

  /** The truthful read an update ends with. */
  method Conclude(g: Google, failure: Option<Error>) returns (st: Option<State>, err: Option<Error>, ghost run: seq<Event>)
    modifies g
    ensures g.log == old(g.log) + run
    ensures Reported(run, st, err) && OneOf(st, err)
    ensures Calls(run) == [] && !Changed(run)
    ensures failure.Some? && err.Some? ==> err == failure
  {
    var r := g.Read();
    CallsOne(ReadBack(r));
    run := [ReadBack(r)];
    match r
    case Found(s) => st, err := Some(s), None;
    case Absent => st, err := None, Some(if failure.Some? then failure.value else Gone);
    case Unreadable => st, err := None, Some(if failure.Some? then failure.value else CannotRead);
  }

  // ---- updates -----------------------------------------------------------------

  datatype Verb = NoVerb | PatchVerb | PutVerb

  /** What the catalog says of a type's updates, beside its attributes. */
  datatype Route = Route(known: bool, verb: Verb, oneField: bool, lockField: string)

  function FieldCalls(fields: seq<string>): (calls: seq<Call>)
    ensures |calls| == |fields| && forall i | 0 <= i < |fields| :: calls[i] == Field(fields[i])
  {
    seq(|fields|, i requires 0 <= i < |fields| => Field(fields[i]))
  }

  /** The calls made are some of the first, in order, and then some of the second, none of
      which is made before one of the first where there are any. */
  ghost predicate InOrder(calls: seq<Call>, first: seq<Call>, second: seq<Call>) {
    exists a, b :: a <= first && b <= second && calls == a + b && (b != [] && first != [] ==> a != [])
  }

  /** One field's patch and its await. */
  method SendField(g: Google, f: string) returns (accepted: bool, done: bool, ghost run: seq<Event>)
    modifies g
    ensures g.log == old(g.log) + run
    ensures Calls(run) == [Field(f)] && (Changed(run) <==> accepted)
    ensures done ==> accepted
  {
    hide Calls, Changed;
    accepted := g.Send(Field(f));
    CallsOne(Sent(Field(f), accepted));
    run := [Sent(Field(f), accepted)];
    if !accepted {
      return false, false, run;
    }
    done := g.Await();
    Then(run, Awaited(done));
    run := run + [Awaited(done)];
  }

  /** patchOneFieldAtATime */
  method PatchOneFieldAtATime(g: Google, lockField: string, fields: seq<string>, setters: seq<Setter>)
    returns (st: Option<State>, err: Option<Error>, ghost run: seq<Event>)
    requires fields != []
    modifies g
    ensures g.log == old(g.log) + run
    ensures OneOf(st, err)
    ensures InOrder(Calls(run), FieldCalls(fields), SetCalls(setters))
    ensures if Changed(run) then Reported(run, st, err) else err.Some?
  {
    hide Calls, Changed, Reported, InOrder, SetCalls, FieldCalls;
    NothingChanged();
    assert FieldCalls([]) == [];
    run := [];
    var failure := None;
    for i := 0 to |fields|
      invariant g.log == old(g.log) + run
      invariant Calls(run) == FieldCalls(fields[..i]) && (if i > 0 then Changed(run) else run == [])
    {
      if i == 0 {
        var live := g.Try();
        if !live {
          NoCalls(FieldCalls(fields), SetCalls(setters));
          return None, Some(NotSent), run;
        }
      } else if lockField != "" {
        var read := g.Try();
        if !read {
          failure := Some(CannotRead);
          break;
        }
      }
      FieldNext(fields, i);
      var accepted, done, more := SendField(g, fields[i]);
      CallsConcat(run, more);
      ChangedConcat(run, more);
      run := run + more;
      if !accepted && i == 0 {
        Prefixes(Calls(run), [], fields[..1], fields, setters);
        return None, Some(Refused), run;
      }
      if !done {
        failure := Some(if accepted then NotDone else Refused);
        break;
      }
    }
    ghost var sent := Calls(run);
    ghost var n :| 0 < n <= |fields| && sent == FieldCalls(fields[..n]);
    ghost var more;
    st, err, more := UpdateThroughSetters(g, setters, true, failure);
    CallsConcat(run, more);
    ChangedConcat(run, more);
    Prefixes(sent, Calls(more), fields[..n], fields, setters);
    EndsReported(run, more, st, err);
    run := run + more;
  }

  lemma FieldNext(fields: seq<string>, i: nat)
    requires i < |fields|
    ensures FieldCalls(fields[..i + 1]) == FieldCalls(fields[..i]) + [Field(fields[i])]
  {}

  lemma NoCalls(first: seq<Call>, second: seq<Call>)
    ensures InOrder([], first, second)
  {
    var none: seq<Call> := [];
    assert none <= first && none <= second && [] == none + none;
  }

  lemma Prefixes(a: seq<Call>, b: seq<Call>, part: seq<string>, fields: seq<string>, setters: seq<Setter>)
    requires part <= fields && part != [] && a == FieldCalls(part) && b <= SetCalls(setters)
    ensures InOrder(a + b, FieldCalls(fields), SetCalls(setters))
    ensures b == [] ==> InOrder(a, FieldCalls(fields), SetCalls(setters))
  {
    assert a <= FieldCalls(fields);
    if b == [] {
      assert a + b == a;
    }
  }

  lemma EndsReported(run: seq<Event>, more: seq<Event>, st: Option<State>, err: Option<Error>)
    requires Reported(more, st, err)
    ensures Reported(run + more, st, err)
  {
    assert (run + more)[|run + more| - 1] == more[|more| - 1];
  }

  /** The calls an update may make of its own, before its setters. */
  function OwnCalls(route: Route, mask: seq<string>): seq<Call> {
    if mask == [] then []
    else if route.oneField && |PatchLoops.Heads(mask)| > 1 then FieldCalls(PatchLoops.Heads(mask))
    else [Whole]
  }

  /** THE ORPHAN RULE, for every run of Update, whatever Google answers: it returns a state
      or an error, never neither; once anything has changed, what it returns is what reading
      the resource back found, and an error only if that found no state; and if nothing
      changed it returns an error, unless there was nothing to change, when it asks Google
      nothing at all. Calls go out in order, its own before any setter. */
  method Update(g: Google, ty: Type, route: Route, current: State, desired: map<string, Value>)
    returns (st: Option<State>, err: Option<Error>, ghost run: seq<Event>)
    requires LevelOk(ty.attributes)
    requires forall k | k in desired && k in ty.attributes :: Names.AliasFree(Some(ty.attributes[k]), desired[k])
    modifies g
    ensures g.log == old(g.log) + run
    ensures OneOf(st, err)
    ensures Changed(run) ==> Reported(run, st, err)
    ensures !Changed(run) && err.None? <==> NothingToDo(ty, route, current, desired)
    ensures NothingToDo(ty, route, current, desired) ==> run == [] && st == Some(current)
    ensures Dispatched(ty, route, current, desired, run)
  {
    run := [];
    NothingChanged();
    NothingDispatched(ty, route, current, desired);
    WireNamesOk(ty.attributes);
    hide LevelOk, NamesOk, Names.AliasFree, Calls, Changed, Reported, Dispatched, NothingToDo;
    if !route.known || (route.verb == NoVerb && ty.setters == []) {
      return None, Some(Unsupported), run;
    }
    var body, mask := PatchLoops.BuildMask(ty, current.attributes, desired);
    var due := PatchLoops.FindChangedSetters(ty.attributes, ty.setters, current.attributes, desired);
    Decided(ty, route, current, desired, mask, due);
    if mask == [] && due == [] {
      return Some(current), None, run;
    }
    if mask != [] && route.verb == NoVerb {
      return None, Some(Unsupported), run;
    }
    hide InOrder, OwnCalls, SetCalls;
    if mask == [] {
      st, err, run := UpdateThroughSetters(g, due, false, None);
      OnlySecond(Calls(run), SetCalls(due));
    } else {
      st, err, run := SendUpdate(g, route, mask, due);
    }
    DispatchedAs(ty, route, current, desired, mask, due, run);
  }

  ghost function Due(ty: Type, current: State, desired: map<string, Value>): seq<Setter> {
    CleanPlan.ChangedSetters(ty.attributes, ty.setters, current.attributes, desired)
  }

  ghost function MaskOf(ty: Type, current: State, desired: map<string, Value>): seq<string> {
    PatchLoops.Dotted(Paths(Patch.Diff(ty, current.attributes, desired)))
  }

  /** The type can be updated, and configuration differs from the resource in nothing an
      update can reach. */
  ghost predicate NothingToDo(ty: Type, route: Route, current: State, desired: map<string, Value>) {
    && route.known && (route.verb != NoVerb || ty.setters != [])
    && Patch.Diff(ty, current.attributes, desired) == [] && Due(ty, current, desired) == []
  }

  /** The calls made are the update's own for its mask, then the setters due. */
  ghost predicate Dispatched(ty: Type, route: Route, current: State, desired: map<string, Value>, run: seq<Event>) {
    InOrder(Calls(run), OwnCalls(route, MaskOf(ty, current, desired)), SetCalls(Due(ty, current, desired)))
  }

  lemma NothingDispatched(ty: Type, route: Route, current: State, desired: map<string, Value>)
    ensures Dispatched(ty, route, current, desired, [])
  {
    hide InOrder, MaskOf, Due;
    NoCalls(OwnCalls(route, MaskOf(ty, current, desired)), SetCalls(Due(ty, current, desired)));
  }

  lemma Decided(ty: Type, route: Route, current: State, desired: map<string, Value>, mask: seq<string>, due: seq<Setter>)
    requires LevelOk(ty.attributes) && mask == MaskOf(ty, current, desired) && due == Due(ty, current, desired)
    requires route.known && (route.verb != NoVerb || ty.setters != [])
    ensures NothingToDo(ty, route, current, desired) <==> mask == [] && due == []
    ensures OwnCalls(route, []) == []
  {
    PatchLoops.MaskIsEmptyWith(ty, current.attributes, desired);
    hide LevelOk, Patch.Diff, Due;
  }

  lemma DispatchedAs(ty: Type, route: Route, current: State, desired: map<string, Value>, mask: seq<string>,
                     due: seq<Setter>, run: seq<Event>)
    requires mask == MaskOf(ty, current, desired) && due == Due(ty, current, desired)
    requires InOrder(Calls(run), OwnCalls(route, mask), SetCalls(due))
    ensures Dispatched(ty, route, current, desired, run)
  {
    hide InOrder, MaskOf, Due;
  }

  lemma NothingChanged()
    ensures !Changed([]) && Calls([]) == []
  {}

  lemma WireNamesOk(l: Level)
    requires LevelOk(l)
    ensures NamesOk(l)
  {}

  lemma OnlySecond(calls: seq<Call>, second: seq<Call>)
    requires calls <= second
    ensures InOrder(calls, [], second)
  {
    var none: seq<Call> := [];
    assert none <= [] && calls == none + calls;
  }

  /** The part of Update that follows a mask that is not empty. */
  method SendUpdate(g: Google, route: Route, mask: seq<string>, setters: seq<Setter>)
    returns (st: Option<State>, err: Option<Error>, ghost run: seq<Event>)
    requires mask != []
    modifies g
    ensures g.log == old(g.log) + run
    ensures OneOf(st, err)
    ensures InOrder(Calls(run), OwnCalls(route, mask), SetCalls(setters))
    ensures if Changed(run) then Reported(run, st, err) else err.Some?
  {
    hide Calls, Changed, SetCalls, Reported, InOrder, FieldCalls, PatchLoops.Heads;
    NothingChanged();
    run := [];
    NoCalls(OwnCalls(route, mask), SetCalls(setters));
    var addressed := g.Try();
    if !addressed {
      return None, Some(NotSent), run;
    }
    if route.oneField {
      var fields := PatchLoops.TopLevelFields(mask);
      if |fields| > 1 {
        st, err, run := PatchOneFieldAtATime(g, route.lockField, fields, setters);
        return;
      }
    }
    if route.verb == PutVerb {
      var readable := g.Try();
      if !readable {
        return None, Some(NotSent), run;
      }
    }
    var live := g.Try();
    if !live {
      return None, Some(NotSent), run;
    }
    st, err, run := SendWhole(g, setters);
  }

  /** sendPatch of the whole change, its await, and the setters. */
  method SendWhole(g: Google, setters: seq<Setter>)
    returns (st: Option<State>, err: Option<Error>, ghost run: seq<Event>)
    modifies g
    ensures g.log == old(g.log) + run
    ensures OneOf(st, err)
    ensures InOrder(Calls(run), [Whole], SetCalls(setters))
    ensures if Changed(run) then Reported(run, st, err) else err.Some?
  {
    hide Calls, Changed, SetCalls, Reported, InOrder;
    var accepted := g.Send(Whole);
    CallsOne(Sent(Whole, accepted));
    run := [Sent(Whole, accepted)];
    if !accepted {
      FirstThenSecond([Whole], [], SetCalls(setters));
      return None, Some(Refused), run;
    }
    var done := g.Await();
    Then(run, Awaited(done));
    run := run + [Awaited(done)];
    assert Calls(run) == [Whole];
    ghost var more;
    st, err, more := UpdateThroughSetters(g, setters, true, if done then None else Some(NotDone));
    CallsConcat(run, more);
    ChangedConcat(run, more);
    FirstThenSecond([Whole], Calls(more), SetCalls(setters));
    EndsReported(run, more, st, err);
    run := run + more;
  }

  lemma FirstThenSecond(first: seq<Call>, b: seq<Call>, second: seq<Call>)
    requires first != [] && b <= second
    ensures InOrder(first + b, first, second)
    ensures b == [] ==> InOrder(first, first, second)
  {
    assert first <= first && first + b == first + b;
    if b == [] {
      assert first + b == first;
    }
  }

  // ---- creates -----------------------------------------------------------------

  /** How a create's id is found (ProviderID and outsideCreatedCollection): from an answer,
      or with none from the attributes the create was given; and which ids cannot name
      something it made. `observed` is what an answer says, under schema names. */
  datatype Naming = Naming(idOf: Option<Object> -> Option<string>, outside: string -> bool,
                           observed: Option<Object> -> map<string, Value>)

  /** createdID */
  function CreatedID(n: Naming, awaited: Option<Object>): Option<string> {
    var id := n.idOf(awaited);
    if awaited.None? || (id.Some? && !n.outside(id.value)) then id else n.idOf(None)
  }

  /** An answer never costs a created resource its id: there is none only when the create's
      own attributes give none. With an answer the id is its own if that names something
      this create could have made, and otherwise the attributes'. */
  lemma CreatedIDFallsBack(n: Naming, awaited: Option<Object>)
    ensures n.idOf(None).Some? ==> CreatedID(n, awaited).Some?
    ensures CreatedID(n, awaited).Some? && CreatedID(n, awaited) != n.idOf(None) ==>
              awaited.Some? && CreatedID(n, awaited) == n.idOf(awaited) && !n.outside(CreatedID(n, awaited).value)
  {}

  function DeclaredOnly(l: Level, attrs: map<string, Value>): map<string, Value> {
    map k | k in attrs && k in l :: attrs[k]
  }

  /** bestEffortState; None is an error. */
  function BestEffort(ty: Type, n: Naming, desired: map<string, Value>, awaited: Option<Object>): Option<State> {
    var id := CreatedID(n, awaited);
    if id.None? then None else Some(State(id.value, DeclaredOnly(ty.attributes, desired + n.observed(awaited))))
  }

  /** setAfterCreate */
  method SetAfterCreate(g: Google, ty: Type, st: State, desired: map<string, Value>)
    returns (now: State, ghost run: seq<Event>)
    requires NamesOk(ty.attributes)
    modifies g
    ensures g.log == old(g.log) + run
    ensures Calls(run) <= SetCalls(CleanPlan.ChangedSetters(ty.attributes, ty.setters, st.attributes, desired))
    ensures now == st || (run != [] && run[|run| - 1] == ReadBack(Found(now)))
    ensures run != [] && run[|run| - 1].ReadBack? && run[|run| - 1].reading.Found? ==> now == run[|run| - 1].reading.state
  {
    hide Calls, Changed, NamesOk, CleanPlan.ChangedSetters, SetCalls;
    NothingChanged();
    run, now := [], st;
    var due := PatchLoops.FindChangedSetters(ty.attributes, ty.setters, st.attributes, desired);
    if due == [] {
      return;
    }
    var live := g.Try();
    if !live {
      return;
    }
    for i := 0 to |due|
      invariant g.log == old(g.log) + run
      invariant Calls(run) == SetCalls(due[..i])
    {
      var sent, err, more := CallSetter(g, due[i]);
      CallsConcat(run, more);
      run := run + more;
      SetNext(due, i);
      if err.Some? {
        break;
      }
    }
    assert Calls(run) <= SetCalls(due);
    var r := g.Read();
    Then(run, ReadBack(r));
    run := run + [ReadBack(r)];
    if r.Found? {
      now := r.state;
    }
  }

  /** The id the create gave the resource was read. */
  predicate Looked(run: seq<Event>) {
    |run| > 2 && run[2].ReadBack?
  }

  /** How a create that Google accepted is reported: by the state read back, or a later
      reading of the same resource after its setters; failing that, where the await
      succeeded and reading found nothing yet, by what the create itself knows. */
  predicate CreateReported(ty: Type, n: Naming, desired: map<string, Value>, made: Option<Object>,
                           run: seq<Event>, st: Option<State>, err: Option<Error>) {
    && |run| >= 2 && run[0] == Sent(Create, true) && run[1].Awaited?
    && (Looked(run) <==> CreatedID(n, made).Some?)
    && if !Looked(run) then |run| == 2 && st == None
       else
         match run[2].reading
         case Found(s) => st == Some(s) || (st.Some? && run[|run| - 1] == ReadBack(Found(st.value)))
         case Absent => |run| == 3 && st == if run[1].ok then BestEffort(ty, n, desired, made) else None
         case Unreadable => |run| == 3 && st == None
  }

  /** THE ORPHAN RULE, for every run of Create. It returns a state or an error, never
      neither; nothing is created without its being asked for first; and once Google has
      accepted the create, the error that makes the host drop the resource is returned
      exactly when reading it back found no state and either the await failed, or there was
      no id to read, or the reading itself failed. In particular the state built from what
      the create knows is never missing where it is wanted. */
  method CreateResource(g: Google, ty: Type, known: bool, blocked: bool, n: Naming, desired: map<string, Value>)
    returns (st: Option<State>, err: Option<Error>, ghost made: Option<Object>, ghost run: seq<Event>)
    requires NamesOk(ty.attributes)
    modifies g
    ensures g.log == old(g.log) + run
    ensures OneOf(st, err)
    ensures !known || blocked ==> run == []
    ensures run == [] || run == [Sent(Create, false)] || CreateReported(ty, n, desired, made, run, st, err)
    ensures run == [] || run == [Sent(Create, false)] ==> err.Some?
    ensures |run| > 1 ==>
              (err.Some? <==> !(Looked(run) && run[2].reading.Found?) &&
                              (!run[1].ok || CreatedID(n, made).None? || run[2].reading.Unreadable?))
  {
    run, made := [], None;
    if !known || blocked {
      return None, Some(Unsupported), made, run;
    }
    var expanded := g.Try();
    if !expanded {
      return None, Some(NotSent), made, run;
    }
    var live := g.Try();
    if !live {
      return None, Some(NotSent), made, run;
    }
    var accepted := g.Send(Create);
    run := [Sent(Create, accepted)];
    if !accepted {
      return None, Some(Refused), made, run;
    }
    var ok, awaited := g.AwaitResult();
    run := run + [Awaited(ok)];
    made := awaited;
    var reading, more := ReadAfterCreate(g, n, awaited);
    run := run + more;
    if reading.Found? {
      var now, after := SetAfterCreate(g, ty, reading.state, desired);
      run := run + after;
      return Some(now), None, made, run;
    }
    if !ok {
      return None, Some(NotDone), made, run;
    }
    if reading.Absent? {
      st := BestEffort(ty, n, desired, awaited);
      err := if st.None? then Some(CannotRead) else None;
      return;
    }
    return None, Some(CannotRead), made, run;
  }

  /** readAfterCreate: an id that cannot be computed is a reading that failed. */
  method ReadAfterCreate(g: Google, n: Naming, awaited: Option<Object>) returns (r: Reading, ghost run: seq<Event>)
    modifies g
    ensures g.log == old(g.log) + run
    ensures if CreatedID(n, awaited).None? then run == [] && r == Unreadable else run == [ReadBack(r)]
  {
    run := [];
    if CreatedID(n, awaited).None? {
      return Unreadable, run;
    }
    r := g.Read();
    run := [ReadBack(r)];
  }
}
