/** Naming the generated types, for good: the append-only lock (internal/gen/names.go). */
module NameLock {
  import opened Values
  import opened Text

  /** A type before it has a name. */
  datatype Candidate = Candidate(service: string, resource: string, scope: string, qualified: bool)
  {
    function Key(): string {
      if scope == "" then service + "/" + resource else service + "/" + scope + "/" + resource
    }

    function Short(): string {
      "gcp." + resource
    }

    function Qualified(): string {
      "gcp." + service + "." + resource
    }

    function Scoped(): string {
      "gcp." + service + "." + scope + "." + resource
    }
  }

  /** From a name to the key of the candidate that holds it. */
  type Holders = map<string, string>

  const GENERIC_WORDS := {
    "instance", "policy", "group", "metric", "schema", "queue", "job", "rule", "config", "key", "service", "cluster",
    "database", "table", "template", "version", "connection", "endpoint", "gateway", "repository", "resource",
    "operation", "channel", "trigger", "backup", "connector", "snapshot", "index", "user"}

  predicate Clash(c: Candidate, name: string, taken: Holders) {
    name in taken && taken[name] != c.Key()
  }

  function IfFree(c: Candidate, name: string, taken: Holders): Option<string> {
    if Clash(c, name, taken) then None else Some(name)
  }

  /** nameFor; wanted is how many newcomers want the bare resource name. */
  function NameFor(c: Candidate, wanted: nat, taken: Holders): Option<string> {
    if c.scope != "" then IfFree(c, c.Scoped(), taken)
    else if c.qualified then IfFree(c, c.Qualified(), taken)
    else
      var name := if wanted > 1 || c.resource in GENERIC_WORDS then c.Qualified() else c.Short();
      IfFree(c, if Clash(c, name, taken) then c.Qualified() else name, taken)
  }

  /** THE SHORT NAME goes to a newcomer exactly when it is an ordinary one, its resource is no
      generic word, no other newcomer wants it, and nobody holds it. */
  lemma ShortNameIff(c: Candidate, wanted: nat, taken: Holders)
    ensures NameFor(c, wanted, taken) == Some(c.Short()) <==>
            && c.scope == "" && !c.qualified && wanted <= 1 && c.resource !in GENERIC_WORDS
            && (c.Short() in taken ==> taken[c.Short()] == c.Key())
  {
    assert |c.Qualified()| > |c.Short()| && |c.Scoped()| > |c.Short()|;
  }

  predicate Competes(c: Candidate, resource: string) {
    c.scope == "" && !c.qualified && c.resource == resource
  }

  function Wanted(newcomers: seq<Candidate>, resource: string): nat {
    if newcomers == [] then 0
    else Wanted(newcomers[1..], resource) + if Competes(newcomers[0], resource) then 1 else 0
  }

  // ---- one call ----------------------------------------------------------------

  /** How far naming the newcomers has got. */
  datatype Progress = Progress(out: map<Candidate, string>, taken: Holders, given: map<string, string>)

  /** Names the rest of the newcomers, all being every one of this call; None if one cannot
      be named. */
  function NameAll(rest: seq<Candidate>, all: seq<Candidate>, p: Progress): Option<Progress> {
    if rest == [] then Some(p)
    else
      var c := rest[0];
      var name := NameFor(c, Wanted(all, c.resource), p.taken);
      if name.None? then None
      else
        NameAll(rest[1..], all, Progress(p.out[c := name.value], p.taken[name.value := c.Key()],
                                         p.given[c.Key() := name.value]))
  }

  function Newcomers(cands: seq<Candidate>, names: map<string, string>): seq<Candidate> {
    if cands == [] then []
    else (if cands[0].Key() in names then [] else [cands[0]]) + Newcomers(cands[1..], names)
  }

  function Insert(c: Candidate, s: seq<Candidate>): seq<Candidate> {
    if s == [] || Le(c.Key(), s[0].Key()) then [c] + s else [s[0]] + Insert(c, s[1..])
  }

  function SortByKey(s: seq<Candidate>): seq<Candidate> {
    if s == [] then [] else Insert(s[0], SortByKey(s[1..]))
  }

  function KnownOf(cands: seq<Candidate>, names: map<string, string>): map<Candidate, string> {
    map c | c in cands && c.Key() in names :: names[c.Key()]
  }

  /** Whoever the lock says holds each name. */
  ghost predicate Inverse(taken: Holders, names: map<string, string>) {
    && (forall k | k in names :: names[k] in taken && taken[names[k]] == k)
    && (forall n | n in taken :: taken[n] in names && names[taken[n]] == n)
  }

  predicate Injective(names: map<string, string>) {
    forall k, l | k in names && l in names && names[k] == names[l] :: k == l
  }

  /** What Assign makes of the candidates: their names, and the lock they leave. */
  datatype Naming = Named(out: map<Candidate, string>, names: map<string, string>) | Refused

  function Holding(names: map<string, string>): Holders
    requires Injective(names)
  {
    map n | n in names.Values :: var k :| k in names && names[k] == n; k
  }

  lemma HoldingIsInverse(names: map<string, string>)
    requires Injective(names)
    ensures Inverse(Holding(names), names)
  {
    forall k | k in names ensures names[k] in names.Values {}
  }

  function Assigned(cands: seq<Candidate>, names: map<string, string>): Naming
    requires Injective(names)
  {
    var queue := SortByKey(Newcomers(cands, names));
    match NameAll(queue, queue, Progress(KnownOf(cands, names), Holding(names), map[]))
    case None => Refused
    case Some(p) => Named(p.out, names + p.given)
  }

  // ---- naming newcomers keeps the lock sound -----------------------------------

  /** Every name given is held by whoever it was given to. */
  ghost predicate Sound(p: Progress) {
    && (forall k | k in p.given :: p.given[k] in p.taken && p.taken[p.given[k]] == k)
    && (forall c | c in p.out :: p.out[c] in p.taken && p.taken[p.out[c]] == c.Key())
  }

  ghost predicate Extends(more: Holders, taken: Holders) {
    forall n | n in taken :: n in more && more[n] == taken[n]
  }

  lemma {:induction false} NameAllIsSound(rest: seq<Candidate>, all: seq<Candidate>, p: Progress)
    requires Sound(p) && NameAll(rest, all, p).Some?
    ensures var q := NameAll(rest, all, p).value;
            && Sound(q) && Extends(q.taken, p.taken)
            && (forall k :: k in q.given <==> k in p.given || exists c :: c in rest && c.Key() == k)
            && (forall c :: c in q.out <==> c in p.out || c in rest)
            && (forall c | c in p.out && c !in rest :: q.out[c] == p.out[c])
  {
    if rest != [] {
      var c := rest[0];
      var name := NameFor(c, Wanted(all, c.resource), p.taken).value;
      assert !Clash(c, name, p.taken);
      var next := Progress(p.out[c := name], p.taken[name := c.Key()], p.given[c.Key() := name]);
      assert Sound(next) && Extends(next.taken, p.taken);
      NameAllIsSound(rest[1..], all, next);
      assert forall d :: d in rest <==> d == c || d in rest[1..];
    }
  }

  // ---- sorting -----------------------------------------------------------------

  lemma {:induction false} InsertHolds(c: Candidate, s: seq<Candidate>)
    ensures multiset(Insert(c, s)) == multiset(s) + multiset{c}
  {
    if s != [] && !Le(c.Key(), s[0].Key()) {
      InsertHolds(c, s[1..]);
      assert s == [s[0]] + s[1..];
    }
  }

  lemma {:induction false} SortHolds(s: seq<Candidate>)
    ensures multiset(SortByKey(s)) == multiset(s)
  {
    if s != [] {
      SortHolds(s[1..]);
      InsertHolds(s[0], SortByKey(s[1..]));
      assert s == [s[0]] + s[1..];
    }
  }

  predicate Ascending(s: seq<Candidate>) {
    forall i, j | 0 <= i < j < |s| :: Le(s[i].Key(), s[j].Key())
  }

  lemma {:induction false} InsertAscends(c: Candidate, s: seq<Candidate>)
    requires Ascending(s)
    ensures Ascending(Insert(c, s))
  {
    if s != [] {
      if Le(c.Key(), s[0].Key()) {
        forall j | 0 <= j < |s| ensures Le(c.Key(), s[j].Key()) {
          if j > 0 {
            LeTransitive(c.Key(), s[0].Key(), s[j].Key());
          }
        }
      } else {
        LeTotal(c.Key(), s[0].Key());
        InsertAscends(c, s[1..]);
        InsertHolds(c, s[1..]);
        var rest := Insert(c, s[1..]);
        forall d | d in rest ensures Le(s[0].Key(), d.Key()) {
          assert d in multiset(rest);
          assert d == c || d in s[1..];
        }
      }
    }
  }

  lemma {:induction false} SortAscends(s: seq<Candidate>)
    ensures Ascending(SortByKey(s))
  {
    if s != [] {
      SortAscends(s[1..]);
      InsertAscends(s[0], SortByKey(s[1..]));
    }
  }

  lemma SameMembers(a: seq<Candidate>, b: seq<Candidate>)
    requires multiset(a) == multiset(b)
    ensures forall c :: c in a <==> c in b
  {
    forall c ensures c in a <==> c in b {
      assert c in a <==> c in multiset(a);
      assert c in b <==> c in multiset(b);
    }
  }

  // ---- what every call keeps ---------------------------------------------------

  ghost predicate DistinctKeys(cands: seq<Candidate>) {
    forall c, d | c in cands && d in cands && c.Key() == d.Key() :: c == d
  }

  lemma {:induction false} NewcomersAre(cands: seq<Candidate>, names: map<string, string>)
    ensures forall c :: c in Newcomers(cands, names) <==> c in cands && c.Key() !in names
  {
    if cands != [] {
      NewcomersAre(cands[1..], names);
      assert forall c :: c in cands <==> c == cands[0] || c in cands[1..];
    }
  }

  /** The newcomers of a call, in the order they are named. */
  lemma QueueIs(cands: seq<Candidate>, names: map<string, string>)
    ensures forall c :: c in SortByKey(Newcomers(cands, names)) <==> c in cands && c.Key() !in names
  {
    NewcomersAre(cands, names);
    SortHolds(Newcomers(cands, names));
    SameMembers(SortByKey(Newcomers(cands, names)), Newcomers(cands, names));
  }

  /** A NAME, ONCE GIVEN, IS FOR GOOD: whatever the candidates, a lock in which no two keys
      share a name stays one, keeps every entry, and gains one for each newcomer; every
      candidate is named, one the lock knows by its recorded name; and candidates that share
      a name share a key. */
  lemma AssignKeepsLock(cands: seq<Candidate>, names: map<string, string>)
    requires Injective(names) && Assigned(cands, names).Named?
    ensures var r := Assigned(cands, names);
            && Injective(r.names)
            && (forall k | k in names :: k in r.names && r.names[k] == names[k])
            && (forall k :: k in r.names <==> k in names || exists c :: c in cands && c.Key() == k)
            && (forall c :: c in r.out <==> c in cands)
            && (forall c | c in cands && c.Key() in names :: r.out[c] == names[c.Key()])
            && (forall c, d | c in cands && d in cands && r.out[c] == r.out[d] :: c.Key() == d.Key())
  {
    var queue, p := SortByKey(Newcomers(cands, names)), Progress(KnownOf(cands, names), Holding(names), map[]);
    var q := NameAll(queue, queue, p).value;
    HoldingIsInverse(names);
    QueueIs(cands, names);
    hide SortByKey, Newcomers, NameAll, Holding;
    NameAllIsSound(queue, queue, p);
    Combined(names, p.taken, q);
  }

  /** The old lock and the new names, each held by its key, are together injective. */
  lemma Combined(names: map<string, string>, taken: Holders, q: Progress)
    requires Inverse(taken, names) && Extends(q.taken, taken) && Sound(q)
    requires forall k | k in q.given :: k !in names
    ensures Injective(names + q.given)
  {
    var all := names + q.given;
    forall k | k in all ensures all[k] in q.taken && q.taken[all[k]] == k {
      if k in names {
        assert names[k] in taken;
      }
    }
  }

  lemma {:induction false} NameAllAgrees(rest: seq<Candidate>, all: seq<Candidate>, p: Progress)
    requires DistinctKeys(rest) && NameAll(rest, all, p).Some?
    ensures var q := NameAll(rest, all, p).value;
            && (forall c | c in rest :: c in q.out && c.Key() in q.given && q.given[c.Key()] == q.out[c])
            && (forall k | k in p.given && (forall c | c in rest :: c.Key() != k) :: k in q.given && q.given[k] == p.given[k])
            && (forall c | c in p.out && c !in rest :: c in q.out && q.out[c] == p.out[c])
  {
    if rest != [] {
      var c := rest[0];
      var name := NameFor(c, Wanted(all, c.resource), p.taken).value;
      assert forall d :: d in rest <==> d == c || d in rest[1..];
      NameAllAgrees(rest[1..], all, Progress(p.out[c := name], p.taken[name := c.Key()], p.given[c.Key() := name]));
    }
  }

  /** With distinct keys, what a candidate is called is what the lock records for it. */
  lemma OutIsLock(cands: seq<Candidate>, names: map<string, string>)
    requires Injective(names) && DistinctKeys(cands) && Assigned(cands, names).Named?
    ensures var r := Assigned(cands, names);
            forall c | c in cands :: c in r.out && c.Key() in r.names && r.out[c] == r.names[c.Key()]
  {
    var queue, p := SortByKey(Newcomers(cands, names)), Progress(KnownOf(cands, names), Holding(names), map[]);
    QueueIs(cands, names);
    hide SortByKey, Newcomers, NameAll, Holding;
    NameAllAgrees(queue, queue, p);
    AssignKeepsLock(cands, names);
  }

  // ---- histories ---------------------------------------------------------------

  /** One call, as the lock sees it: a refused one leaves it alone. */
  function LockAfter(cands: seq<Candidate>, names: map<string, string>): map<string, string>
    requires Injective(names)
  {
    var r := Assigned(cands, names);
    if r.Refused? then names else r.names
  }

  lemma LockAfterIsInjective(cands: seq<Candidate>, names: map<string, string>)
    requires Injective(names)
    ensures Injective(LockAfter(cands, names))
    ensures forall k | k in names :: k in LockAfter(cands, names) && LockAfter(cands, names)[k] == names[k]
  {
    if Assigned(cands, names).Named? {
      AssignKeepsLock(cands, names);
    }
  }

  /** The lock after any sequence of calls, over any corpora. */
  function History(names: map<string, string>, corpora: seq<seq<Candidate>>): (now: map<string, string>)
    requires Injective(names)
    ensures Injective(now)
    decreases |corpora|
  {
    if corpora == [] then names
    else
      LockAfterIsInjective(corpora[0], names);
      History(LockAfter(corpora[0], names), corpora[1..])
  }

  lemma {:induction false} HistoryKeeps(names: map<string, string>, corpora: seq<seq<Candidate>>)
    requires Injective(names)
    ensures forall k | k in names :: k in History(names, corpora) && History(names, corpora)[k] == names[k]
    decreases |corpora|
  {
    if corpora != [] {
      LockAfterIsInjective(corpora[0], names);
      HistoryKeeps(LockAfter(corpora[0], names), corpora[1..]);
    }
  }

  /** NAMES ARE STABLE OVER WHOLE HISTORIES: what a candidate is called by one call, it is
      called by every later one that succeeds, whatever came between. */
  lemma NamesAreStable(names: map<string, string>, cands: seq<Candidate>, between: seq<seq<Candidate>>,
                       later: seq<Candidate>, c: Candidate)
    requires Injective(names) && c in cands && c in later && DistinctKeys(cands)
    requires Assigned(cands, names).Named?
    requires Assigned(later, History(names, [cands] + between)).Named?
    ensures c in Assigned(cands, names).out && c in Assigned(later, History(names, [cands] + between)).out
    ensures Assigned(later, History(names, [cands] + between)).out[c] == Assigned(cands, names).out[c]
  {
    LockAfterIsInjective(cands, names);
    var lock := LockAfter(cands, names);
    assert ([cands] + between)[0] == cands && ([cands] + between)[1..] == between;
    var now := History(lock, between);
    AssignKeepsLock(cands, names);
    OutIsLock(cands, names);
    HistoryKeeps(lock, between);
    AssignKeepsLock(later, now);
  }

  // ---- the order of candidates does not matter ---------------------------------

  function KeysOf(s: seq<Candidate>): (keys: seq<string>)
    ensures |keys| == |s| && forall i | 0 <= i < |s| :: keys[i] == s[i].Key()
  {
    seq(|s|, i requires 0 <= i < |s| => s[i].Key())
  }

  predicate NoRepeats(s: seq<Candidate>) {
    forall i, j | 0 <= i < j < |s| :: s[i].Key() != s[j].Key()
  }

  /** Candidates with different keys can be sorted in one way only. */
  lemma SortIsUnique(a: seq<Candidate>, b: seq<Candidate>)
    requires Ascending(a) && Ascending(b) && NoRepeats(a) && NoRepeats(b) && DistinctKeys(a)
    requires forall c :: c in a <==> c in b
    ensures a == b
  {
    var ka, kb := KeysOf(a), KeysOf(b);
    forall k ensures k in ka <==> k in kb {
      if k in ka {
        var i :| 0 <= i < |a| && ka[i] == k;
        assert a[i] in b;
      }
      if k in kb {
        var i :| 0 <= i < |b| && kb[i] == k;
        assert b[i] in a;
      }
    }
    SortedUnique(ka, kb);
    forall i | 0 <= i < |a| ensures a[i] == b[i] {
      assert ka[i] == kb[i] && a[i] in a && b[i] in b;
    }
  }

  /** The same candidates, each once, with no two keys alike. */
  ghost predicate SameCorpus(a: seq<Candidate>, b: seq<Candidate>) {
    DistinctKeys(a) && NoRepeats(a) && NoRepeats(b) && forall c :: c in a <==> c in b
  }

  lemma {:induction false} SortedNoRepeats(s: seq<Candidate>)
    requires NoRepeats(s)
    ensures NoRepeats(SortByKey(s))
  {
    SortHolds(s);
    var t := SortByKey(s);
    forall c ensures multiset(s)[c] <= 1 {
      OnceOnly(s, c);
    }
    forall i, j | 0 <= i < j < |t| ensures t[i].Key() != t[j].Key() {
      SameMembers(t, s);
      assert t[i] in s && t[j] in s;
      var m :| 0 <= m < |s| && s[m] == t[i];
      var n :| 0 <= n < |s| && s[n] == t[j];
      if m == n {
        TwiceIn(t, i, j);
      }
    }
  }

  lemma {:induction false} OnceOnly(s: seq<Candidate>, c: Candidate)
    requires NoRepeats(s)
    ensures multiset(s)[c] <= 1
  {
    if s != [] {
      assert s == [s[0]] + s[1..];
      if s[0] == c {
        forall j | 0 <= j < |s[1..]| ensures s[1..][j] != c {
          assert s[0].Key() != s[j + 1].Key();
        }
        assert c !in multiset(s[1..]);
      } else {
        OnceOnly(s[1..], c);
      }
    }
  }

  lemma TwiceIn(s: seq<Candidate>, i: nat, j: nat)
    requires i < j < |s| && s[i] == s[j]
    ensures multiset(s)[s[i]] >= 2
  {
    assert s == s[..j] + s[j..];
    assert s[i] in s[..j] by {
      assert s[..j][i] == s[i];
    }
    assert s[j..][0] == s[i];
    assert s[i] in multiset(s[..j]) && s[i] in multiset(s[j..]);
  }

  lemma {:induction false} NewcomersNoRepeats(cands: seq<Candidate>, names: map<string, string>)
    requires NoRepeats(cands)
    ensures NoRepeats(Newcomers(cands, names))
  {
    if cands != [] {
      NewcomersNoRepeats(cands[1..], names);
      NewcomersAre(cands[1..], names);
    }
  }

  /** THE ORDER CANDIDATES COME IN DOES NOT MATTER: names, lock and refusal are the same. */
  lemma OrderDoesNotMatter(a: seq<Candidate>, b: seq<Candidate>, names: map<string, string>)
    requires Injective(names) && SameCorpus(a, b)
    ensures Assigned(a, names) == Assigned(b, names)
  {
    var s, t := Newcomers(a, names), Newcomers(b, names);
    QueueIs(a, names);
    QueueIs(b, names);
    NewcomersNoRepeats(a, names);
    NewcomersNoRepeats(b, names);
    SortedNoRepeats(s);
    SortedNoRepeats(t);
    SortAscends(s);
    SortAscends(t);
    assert KnownOf(a, names) == KnownOf(b, names);
    hide SortByKey, Newcomers, NameAll;
    SortIsUnique(SortByKey(s), SortByKey(t));
  }

  // ---- Assign ------------------------------------------------------------------

  class Lock {
    var names: map<string, string>

    constructor ()
      ensures names == map[]
    {
      names := map[];
    }

    /** Assign; None is an error, and then the lock is as it was. */
    method Assign(cands: seq<Candidate>) returns (out: Option<map<Candidate, string>>)
      requires Injective(names)
      modifies this
      ensures Injective(names)
      ensures match Assigned(cands, old(names))
              case Refused => out == None && names == old(names)
              case Named(o, n) => out == Some(o) && names == n
    {
      hide SortByKey, Newcomers, NameAll, Assigned, Injective, Holding, KnownOf, Wanted;
      var taken := Taken(names);
      var known, newcomers := Divide(cands, names);
      var queue := SortByKey(newcomers);
      var wants := CountWants(queue);
      var p := NameQueue(queue, wants, Progress(known, taken, map[]));
      AssignedIs(cands, names);
      LockAfterIsInjective(cands, names);
      if p.None? {
        return None;
      }
      names := Commit(names, p.value.given);
      out := Some(p.value.out);
    }
  }

  lemma AssignedIs(cands: seq<Candidate>, names: map<string, string>)
    requires Injective(names)
    ensures var queue := SortByKey(Newcomers(cands, names));
            var p := NameAll(queue, queue, Progress(KnownOf(cands, names), Holding(names), map[]));
            Assigned(cands, names) == if p.None? then Refused else Named(p.value.out, names + p.value.given)
  {}

  /** The loop that inverts the lock. */
  method Taken(names: map<string, string>) returns (taken: Holders)
    requires Injective(names)
    ensures taken == Holding(names)
  {
    taken := map[];
    var todo := names.Keys;
    while todo != {}
      invariant todo <= names.Keys
      invariant forall k | k in names && k !in todo :: names[k] in taken && taken[names[k]] == k
      invariant forall n | n in taken :: taken[n] in names && names[taken[n]] == n
    {
      var k :| k in todo;
      todo := todo - {k};
      taken := taken[names[k] := k];
    }
    HoldingIsInverse(names);
    assert forall n :: n in taken <==> n in Holding(names);
  }

  /** The loop that hands out the recorded names and collects the newcomers. */
  method Divide(cands: seq<Candidate>, names: map<string, string>)
    returns (known: map<Candidate, string>, newcomers: seq<Candidate>)
    ensures known == KnownOf(cands, names) && newcomers == Newcomers(cands, names)
  {
    known, newcomers := map[], [];
    for i := 0 to |cands|
      invariant known == KnownOf(cands[..i], names)
      invariant newcomers + Newcomers(cands[i..], names) == Newcomers(cands, names)
    {
      hide Newcomers, KnownOf;
      DivideStep(cands, i, names, newcomers);
      if cands[i].Key() in names {
        known := known[cands[i] := names[cands[i].Key()]];
      } else {
        newcomers := newcomers + [cands[i]];
      }
    }
    assert cands[..|cands|] == cands && cands[|cands|..] == [];
  }

  lemma DivideStep(cands: seq<Candidate>, i: nat, names: map<string, string>, sofar: seq<Candidate>)
    requires i < |cands|
    ensures KnownOf(cands[..i + 1], names) ==
            if cands[i].Key() in names then KnownOf(cands[..i], names)[cands[i] := names[cands[i].Key()]]
            else KnownOf(cands[..i], names)
    ensures sofar + Newcomers(cands[i..], names) ==
            (if cands[i].Key() in names then sofar else sofar + [cands[i]]) + Newcomers(cands[i + 1..], names)
  {
    assert cands[i..][0] == cands[i] && cands[i..][1..] == cands[i + 1..];
    assert forall c :: c in cands[..i + 1] <==> c in cands[..i] || c == cands[i];
  }

  function Count(wants: map<string, nat>, r: string): nat {
    if r in wants then wants[r] else 0
  }

  method CountWants(newcomers: seq<Candidate>) returns (wants: map<string, nat>)
    ensures forall r :: Count(wants, r) == Wanted(newcomers, r)
  {
    wants := map[];
    for i := |newcomers| downto 0
      invariant forall r :: Count(wants, r) == Wanted(newcomers[i..], r)
    {
      var c := newcomers[i];
      assert newcomers[i..][0] == c && newcomers[i..][1..] == newcomers[i + 1..];
      if c.scope == "" && !c.qualified {
        wants := wants[c.resource := Count(wants, c.resource) + 1];
      }
    }
  }

  method NameQueue(queue: seq<Candidate>, wants: map<string, nat>, start: Progress) returns (p: Option<Progress>)
    requires forall r :: Count(wants, r) == Wanted(queue, r)
    ensures p == NameAll(queue, queue, start)
  {
    var now := start;
    for i := 0 to |queue|
      invariant NameAll(queue[i..], queue, now) == NameAll(queue, queue, start)
    {
      var c := queue[i];
      assert queue[i..][0] == c && queue[i..][1..] == queue[i + 1..];
      var name := NameFor(c, Count(wants, c.resource), now.taken);
      if name.None? {
        return None;
      }
      now := Progress(now.out[c := name.value], now.taken[name.value := c.Key()], now.given[c.Key() := name.value]);
    }
    assert queue[|queue|..] == [];
    p := Some(now);
  }

  method Commit(names: map<string, string>, given: map<string, string>) returns (now: map<string, string>)
    ensures now == names + given
  {
    now := names;
    var todo := given.Keys;
    while todo != {}
      invariant todo <= given.Keys
      invariant now == names + map k | k in given && k !in todo :: given[k]
    {
      var k :| k in todo;
      todo := todo - {k};
      now := now[k := given[k]];
    }
  }
}
