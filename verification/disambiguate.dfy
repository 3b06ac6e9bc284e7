/** Telling apart different resources that share a name, by walking their paths
    (internal/gen/collisions.go, pathWalker and disambiguateByPath).

    Every round extends the names that still collide by the next segment to the left that says
    what a resource is and not where it lives. */
module Disambiguate {
  import opened Values
  import opened Text
  import opened Collisions

  /** How a path segment is spelled in a name: singular, and in lower case. */
  type Speller = string -> string

  /** Segments that say where a resource lives and not what it is. */
  predicate IsPlace(s: string) {
    s in {"projects", "organizations", "folders", "billingAccounts", "locations", "zones", "regions"}
  }

  /** What a walker at this cursor has still to give, leftward. */
  function Ahead(path: Segments, cursor: int, spell: Speller): seq<string>
    requires cursor < |path|
    decreases cursor + 1
  {
    if cursor < 0 then []
    else (if IsPlace(path[cursor]) then [] else [spell(path[cursor])]) + Ahead(path, cursor - 1, spell)
  }

  /** pathWalker.next: the next segment, and the cursor after it. */
  method Next(path: Segments, cursor: int, spell: Speller) returns (seg: Option<string>, now: int)
    requires cursor < |path|
    ensures now < |path|
    ensures match seg
            case None => Ahead(path, cursor, spell) == [] && Ahead(path, now, spell) == []
            case Some(s) => Ahead(path, cursor, spell) == [s] + Ahead(path, now, spell)
  {
    now := cursor;
    while now >= 0
      invariant now < |path| && Ahead(path, now, spell) == Ahead(path, cursor, spell)
    {
      var s := path[now];
      now := now - 1;
      if IsPlace(s) {
        continue;
      }
      return Some(spell(s)), now;
    }
    seg := None;
  }

  // ---- what the rounds compute -------------------------------------------------

  /** A survivor: its name so far, whether that was extended, and the segments ahead. */
  datatype Walk = Walk(name: string, qualified: bool, ahead: seq<string>)

  predicate Collides(ws: seq<Walk>, k: nat)
    requires k < |ws|
  {
    exists j :: 0 <= j < |ws| && j != k && ws[j].name == ws[k].name
  }

  function Stepped(w: Walk): Walk {
    if w.ahead == [] then w else Walk(w.ahead[0] + "." + w.name, true, w.ahead[1..])
  }

  /** One round: whoever collides takes one step. */
  function Round(ws: seq<Walk>): (next: seq<Walk>)
    ensures |next| == |ws|
    ensures forall k | 0 <= k < |ws| :: next[k] == if Collides(ws, k) then Stepped(ws[k]) else ws[k]
  {
    seq(|ws|, k requires 0 <= k < |ws| => if Collides(ws, k) then Stepped(ws[k]) else ws[k])
  }

  function Left(ws: seq<Walk>): nat {
    if ws == [] then 0 else |ws[0].ahead| + Left(ws[1..])
  }

  /** Each walk of `next` is as in ws or one step on. */
  predicate StepsOn(ws: seq<Walk>, next: seq<Walk>) {
    |next| == |ws| && forall k | 0 <= k < |ws| :: next[k] == ws[k] || next[k] == Stepped(ws[k])
  }

  lemma {:induction false} RoundShrinks(ws: seq<Walk>, next: seq<Walk>)
    requires StepsOn(ws, next)
    ensures Left(next) <= Left(ws) && (next != ws ==> Left(next) < Left(ws))
  {
    if ws != [] {
      assert forall k | 0 <= k < |ws| - 1 :: ws[1..][k] == ws[k + 1] && next[1..][k] == next[k + 1];
      RoundShrinks(ws[1..], next[1..]);
      assert next == [next[0]] + next[1..] && ws == [ws[0]] + ws[1..];
    }
  }

  /** Rounds until one changes nothing. */
  function Settled(ws: seq<Walk>): (end: seq<Walk>)
    ensures |end| == |ws|
    decreases Left(ws)
  {
    if Round(ws) == ws then ws
    else
      RoundShrinks(ws, Round(ws));
      Settled(Round(ws))
  }

  /** SURVIVORS END UP APART, or have nothing left to tell them apart by: two share a name
      only if both have walked their whole path. */
  lemma {:induction false} SettledIsApart(ws: seq<Walk>, j: nat, k: nat)
    requires j < |ws| && k < |ws| && j != k
    ensures Settled(ws)[j].name == Settled(ws)[k].name ==> Settled(ws)[j].ahead == [] && Settled(ws)[k].ahead == []
    decreases Left(ws)
  {
    if Round(ws) == ws {
      if ws[j].name == ws[k].name {
        assert Collides(ws, j) && Collides(ws, k);
        assert Round(ws)[j] == Stepped(ws[j]) && Round(ws)[k] == Stepped(ws[k]);
        StepIsLonger(ws[j]);
        StepIsLonger(ws[k]);
      }
    } else {
      RoundShrinks(ws, Round(ws));
      SettledIsApart(Round(ws), j, k);
    }
  }

  lemma StepIsLonger(w: Walk)
    ensures Stepped(w) == w <==> w.ahead == []
  {
    assert w.ahead != [] ==> |Stepped(w).name| > |w.name|;
  }

  function Extended(name: string, segs: seq<string>): string
    decreases |segs|
  {
    if segs == [] then name else Extended(segs[0] + "." + name, segs[1..])
  }

  /** w is v some steps on: that many of the segments ahead are in its name. */
  ghost predicate WalkedFrom(v: Walk, w: Walk) {
    exists n :: 0 <= n <= |v.ahead| && WalkedBy(v, w, n)
  }

  predicate WalkedBy(v: Walk, w: Walk, n: nat)
    requires n <= |v.ahead|
  {
    w == Walk(Extended(v.name, v.ahead[..n]), v.qualified || n > 0, v.ahead[n..])
  }

  /** A final name is the one it started as, extended by the nearest segments of its own
      path, and marked as extended if it was. */
  lemma {:induction false} SettledIsWalked(ws: seq<Walk>, k: nat)
    requires k < |ws|
    ensures WalkedFrom(ws[k], Settled(ws)[k])
    decreases Left(ws)
  {
    if Round(ws) == ws {
      WalkedNowhere(ws[k]);
    } else {
      RoundShrinks(ws, Round(ws));
      SettledIsWalked(Round(ws), k);
      hide Collides, WalkedFrom;
      if Round(ws)[k] != ws[k] {
        WalkedFurther(ws[k], Settled(ws)[k]);
      }
    }
  }

  lemma WalkedNowhere(v: Walk)
    ensures WalkedFrom(v, v)
  {
    assert v.ahead[..0] == [] && WalkedBy(v, v, 0);
  }

  lemma WalkedFurther(v: Walk, w: Walk)
    requires WalkedFrom(Stepped(v), w)
    ensures WalkedFrom(v, w)
  {
    if v.ahead != [] {
      var u := Stepped(v);
      var n :| 0 <= n <= |u.ahead| && WalkedBy(u, w, n);
      OneFurther(v, w, n);
    }
  }

  lemma OneFurther(v: Walk, w: Walk, n: nat)
    requires v.ahead != [] && n <= |Stepped(v).ahead| && WalkedBy(Stepped(v), w, n)
    ensures WalkedBy(v, w, n + 1)
  {
    var segs := v.ahead[..n + 1];
    assert segs[0] == v.ahead[0] && segs[1..] == Stepped(v).ahead[..n];
    assert Extended(v.name, segs) == Extended(segs[0] + "." + v.name, segs[1..]);
    hide Extended;
    assert v.ahead[n + 1..] == Stepped(v).ahead[n..];
  }

  // ---- the order of the survivors ----------------------------------------------

  predicate NoTwice(at: seq<nat>) {
    forall j, k | 0 <= j < k < |at| :: at[j] != at[k]
  }

  /** vs are the walks of ws in another order: its walk k is walk f[k] of ws. */
  predicate Reorders(f: seq<nat>, vs: seq<Walk>, ws: seq<Walk>) {
    && |f| == |vs| && NoTwice(f)
    && (forall k | 0 <= k < |f| :: f[k] < |ws| && vs[k] == ws[f[k]])
    && forall j: nat | j < |ws| :: j in f
  }

  lemma CollidesAlike(f: seq<nat>, vs: seq<Walk>, ws: seq<Walk>, k: nat)
    requires Reorders(f, vs, ws) && k < |vs|
    ensures Collides(vs, k) <==> Collides(ws, f[k])
  {
    if j :| 0 <= j < |vs| && j != k && vs[j].name == vs[k].name {
      assert f[j] != f[k] by {
        if j < k {
          assert f[j] != f[k];
        } else {
          assert f[k] != f[j];
        }
      }
    }
    if i :| 0 <= i < |ws| && i != f[k] && ws[i].name == ws[f[k]].name {
      assert i in f;
      var j :| 0 <= j < |f| && f[j] == i;
      assert vs[j].name == vs[k].name;
    }
  }

  lemma RoundAlike(f: seq<nat>, vs: seq<Walk>, ws: seq<Walk>)
    requires Reorders(f, vs, ws)
    ensures Reorders(f, Round(vs), Round(ws))
    ensures Round(vs) == vs <==> Round(ws) == ws
  {
    forall k | 0 <= k < |f| ensures Round(vs)[k] == Round(ws)[f[k]] {
      CollidesAlike(f, vs, ws, k);
    }
    hide Collides, Stepped;
    if Round(vs) == vs {
      forall j: nat | j < |ws| ensures Round(ws)[j] == ws[j] {
        assert j in f;
        var k :| 0 <= k < |f| && f[k] == j;
        assert Round(vs)[k] == vs[k];
      }
    }
  }

  /** THE ORDER OF THE SURVIVORS DOES NOT MATTER: met in another order, each ends up with
      the name it had. */
  lemma {:induction false} SettledIgnoresOrder(f: seq<nat>, vs: seq<Walk>, ws: seq<Walk>)
    requires Reorders(f, vs, ws)
    ensures Reorders(f, Settled(vs), Settled(ws))
    decreases Left(vs)
  {
    hide Reorders;
    RoundAlike(f, vs, ws);
    if Round(vs) != vs {
      RoundShrinks(vs, Round(vs));
      SettledIgnoresOrder(f, Round(vs), Round(ws));
    }
  }

  lemma OneIsSettled(ws: seq<Walk>)
    requires |ws| < 2
    ensures Settled(ws) == ws
  {
    assert Round(ws) == ws;
  }

  // ---- the loops ---------------------------------------------------------------

  lemma NoTwiceConcat(a: seq<nat>, b: seq<nat>)
    requires NoTwice(a) && NoTwice(b) && forall x | x in a :: x !in b
    ensures NoTwice(a + b)
  {
    forall j, k | 0 <= j < k < |a + b| ensures (a + b)[j] != (a + b)[k] {
      if j < |a| && k >= |a| {
        assert a[j] in a && b[k - |a|] in b;
      }
    }
  }

  /** The entry survivor k has, and where its walker stands, are those of walk w. */
  predicate Shows(p: Pending, was: Pending, cursor: int, w: Walk, spell: Speller) {
    && p == was.(resource := w.name, qualified := w.qualified)
    && cursor < |p.path| && Ahead(p.path, cursor, spell) == w.ahead
  }

  function StartOf(p: Pending, spell: Speller): Walk {
    Walk(p.resource, p.qualified, Ahead(p.path, |p.path| - 2, spell))
  }

  function Start(ps: seq<Pending>, survivors: seq<nat>, spell: Speller): (ws: seq<Walk>)
    requires InRange(ps, survivors)
    ensures |ws| == |survivors| && forall k | 0 <= k < |ws| :: ws[k] == StartOf(ps[survivors[k]], spell)
  {
    seq(|survivors|, k requires 0 <= k < |survivors| => StartOf(ps[survivors[k]], spell))
  }

  /** The positions whose names collide, group by group in whatever order a map gives. */
  method FindColliding(names: seq<string>, ghost ws: seq<Walk>) returns (colliding: seq<nat>)
    requires |names| == |ws| && forall k | 0 <= k < |ws| :: names[k] == ws[k].name
    ensures NoTwice(colliding)
    ensures forall k | 0 <= k < |ws| :: k in colliding <==> Collides(ws, k)
    ensures forall k | k in colliding :: k < |ws|
  {
    var groups := GroupByName(names);
    colliding := [];
    var todo := groups.Keys;
    while todo != {}
      invariant todo <= groups.Keys && NoTwice(colliding)
      invariant forall k | k in colliding :: k < |names| && names[k] in groups && names[k] !in todo
      invariant forall k | 0 <= k < |names| && names[k] !in todo :: k in colliding <==> |groups[names[k]]| > 1
    {
      var n :| n in todo;
      todo := todo - {n};
      if |groups[n]| > 1 {
        NoTwiceConcat(colliding, groups[n]);
        colliding := colliding + groups[n];
      }
    }
    forall k | 0 <= k < |ws| ensures k in colliding <==> Collides(ws, k) {
      GroupTells(names, groups, ws, k);
    }
  }

  ghost predicate Grouped(names: seq<string>, groups: map<string, seq<nat>>) {
    && (forall k | 0 <= k < |names| :: names[k] in groups && k in groups[names[k]])
    && forall n | n in groups :: NoTwice(groups[n]) && forall k | k in groups[n] :: k < |names| && names[k] == n
  }

  lemma GroupTells(names: seq<string>, groups: map<string, seq<nat>>, ws: seq<Walk>, k: nat)
    requires |names| == |ws| && (forall i | 0 <= i < |ws| :: names[i] == ws[i].name)
    requires Grouped(names, groups) && k < |ws|
    ensures Collides(ws, k) <==> |groups[names[k]]| > 1
  {
    var g := groups[names[k]];
    var i :| 0 <= i < |g| && g[i] == k;
    if |g| > 1 {
      var j := if i == 0 then 1 else 0;
      assert g[j] in g;
      assert g[j] != k by {
        if i < j {
          assert g[i] != g[j];
        } else {
          assert g[j] != g[i];
        }
      }
      assert ws[g[j]].name == ws[k].name;
    }
    if j :| 0 <= j < |ws| && j != k && ws[j].name == ws[k].name {
      assert j in g;
    }
  }

  method GroupByName(names: seq<string>) returns (groups: map<string, seq<nat>>)
    ensures Grouped(names, groups)
  {
    groups := map[];
    for i := 0 to |names|
      invariant Grouped(names[..i], groups)
    {
      var n := names[i];
      assert forall k | 0 <= k < i :: names[..i + 1][k] == names[..i][k];
      var held := if n in groups then groups[n] else [];
      NoTwiceConcat(held, [i]);
      groups := groups[n := held + [i]];
    }
    assert names[..|names|] == names;
  }

  /** Every survivor shows its walk, and nothing else has changed. */
  ghost predicate Showing(now: seq<Pending>, was: seq<Pending>, survivors: seq<nat>, cursors: seq<int>, ws: seq<Walk>,
                          spell: Speller)
  {
    && |now| == |was| && InRange(was, survivors) && |cursors| == |survivors| == |ws|
    && (forall k | 0 <= k < |ws| :: Shows(now[survivors[k]], was[survivors[k]], cursors[k], ws[k], spell))
    && (forall i | 0 <= i < |was| && i !in survivors :: now[i] == was[i])
  }

  /** The walks after the colliding positions in `done` took their steps. */
  function Partly(ws: seq<Walk>, done: seq<nat>): (now: seq<Walk>)
    ensures |now| == |ws| && forall k | 0 <= k < |ws| :: now[k] == if k in done then Stepped(ws[k]) else ws[k]
  {
    seq(|ws|, k requires 0 <= k < |ws| => if k in done then Stepped(ws[k]) else ws[k])
  }

  /** One round of disambiguateByPath's inner loop. */
  method StepColliding(ship: array<Pending>, survivors: seq<nat>, was: seq<int>, colliding: seq<nat>, spell: Speller,
                       ghost start: seq<Pending>, ghost ws: seq<Walk>) returns (cursors: seq<int>, progressed: bool)
    requires NoTwice(survivors) && NoTwice(colliding) && forall k | k in colliding :: k < |survivors|
    requires Showing(ship[..], start, survivors, was, ws, spell)
    modifies ship
    ensures Showing(ship[..], start, survivors, cursors, Partly(ws, colliding), spell)
    ensures progressed <==> Partly(ws, colliding) != ws
  {
    hide Showing, Stepped, Ahead;
    cursors, progressed := was, false;
    assert Partly(ws, colliding[..0]) == ws;
    for n := 0 to |colliding|
      invariant Showing(ship[..], start, survivors, cursors, Partly(ws, colliding[..n]), spell)
      invariant progressed <==> Partly(ws, colliding[..n]) != ws
    {
      var k := colliding[n];
      assert k in colliding;
      ghost var shown, before := ship[..], Partly(ws, colliding[..n]);
      ShowsAt(shown, start, survivors, cursors, before, k, spell);
      PartlyNext(ws, colliding, n);
      var i := survivors[k];
      var p := ship[i];
      var seg, now := Next(p.path, cursors[k], spell);
      StepShows(p, start[i], cursors[k], ws[k], seg, now, spell);
      if seg.Some? {
        p := p.(resource := seg.value + "." + p.resource, qualified := true);
        ship[i] := p;
        progressed := true;
      }
      ShowNext(shown, start, survivors, cursors, before, k, p, now, Stepped(ws[k]), spell);
      assert ship[..] == shown[i := p];
      cursors := cursors[k := now];
    }
    assert colliding[..|colliding|] == colliding;
  }

  lemma ShowsAt(now: seq<Pending>, was: seq<Pending>, survivors: seq<nat>, cursors: seq<int>, ws: seq<Walk>, k: nat,
                spell: Speller)
    requires Showing(now, was, survivors, cursors, ws, spell) && k < |survivors|
    ensures |cursors| == |survivors| == |ws| && survivors[k] < |now| == |was|
    ensures Shows(now[survivors[k]], was[survivors[k]], cursors[k], ws[k], spell)
  {}

  /** An entry that takes its walker's next segment shows its walk one step on. */
  lemma StepShows(p: Pending, was: Pending, cursor: int, w: Walk, seg: Option<string>, now: int, spell: Speller)
    requires Shows(p, was, cursor, w, spell) && now < |p.path|
    requires match seg
             case None => Ahead(p.path, cursor, spell) == [] && Ahead(p.path, now, spell) == []
             case Some(s) => Ahead(p.path, cursor, spell) == [s] + Ahead(p.path, now, spell)
    ensures seg.Some? <==> w.ahead != []
    ensures Shows(if seg.None? then p else p.(resource := seg.value + "." + p.resource, qualified := true), was, now,
                  Stepped(w), spell)
  {
    hide Ahead;
  }

  lemma PartlyNext(ws: seq<Walk>, colliding: seq<nat>, n: nat)
    requires NoTwice(colliding) && n < |colliding| && colliding[n] < |ws|
    ensures var k, before, next := colliding[n], Partly(ws, colliding[..n]), Partly(ws, colliding[..n + 1]);
            && before[k] == ws[k] && next == before[k := Stepped(ws[k])]
            && (next != ws <==> before != ws || ws[k].ahead != [])
  {
    var k, before, next := colliding[n], Partly(ws, colliding[..n]), Partly(ws, colliding[..n + 1]);
    StepIsLonger(ws[k]);
    hide Stepped;
    assert k !in colliding[..n];
    assert forall j :: j in colliding[..n + 1] <==> j in colliding[..n] || j == k;
    if before != ws {
      var j :| 0 <= j < |ws| && before[j] != ws[j];
      assert next[j] != ws[j];
    }
  }

  lemma ShowNext(shown: seq<Pending>, start: seq<Pending>, survivors: seq<nat>, cursors: seq<int>, ws: seq<Walk>,
                 k: nat, p: Pending, cursor: int, w: Walk, spell: Speller)
    requires NoTwice(survivors) && k < |survivors| && Showing(shown, start, survivors, cursors, ws, spell)
    requires Shows(p, start[survivors[k]], cursor, w, spell)
    ensures Showing(shown[survivors[k] := p], start, survivors, cursors[k := cursor], ws[k := w], spell)
  {
    hide Shows;
    var i := survivors[k];
    assert i in survivors;
    forall j | 0 <= j < |ws| && j != k ensures survivors[j] != i {
      assert j < k ==> survivors[j] != survivors[k];
      assert k < j ==> survivors[k] != survivors[j];
    }
  }

  /** disambiguateByPath, in place: the survivors get their settled names, and no other
      entry changes. */
  method DisambiguateByPath(ship: array<Pending>, survivors: seq<nat>, spell: Speller)
    requires InRange(ship[..], survivors) && NoTwice(survivors)
    modifies ship
    ensures forall i | 0 <= i < ship.Length && i !in survivors :: ship[i] == old(ship[i])
    ensures var end := Settled(Start(old(ship[..]), survivors, spell));
            forall k | 0 <= k < |survivors| ::
              ship[survivors[k]] == old(ship[survivors[k]]).(resource := end[k].name, qualified := end[k].qualified)
  {
    ghost var start := ship[..];
    ghost var ws := Start(start, survivors, spell);
    var cursors := Cursors(ship[..], survivors);
    assert Showing(ship[..], start, survivors, cursors, ws, spell);
    while true
      invariant Showing(ship[..], start, survivors, cursors, ws, spell)
      invariant Settled(ws) == Settled(Start(start, survivors, spell))
      decreases Left(ws)
    {
      var names := NamesOf(ship[..], survivors);
      assert forall k | 0 <= k < |ws| :: names[k] == ws[k].name by {
        forall k | 0 <= k < |ws| ensures names[k] == ws[k].name {
          assert Shows(ship[..][survivors[k]], start[survivors[k]], cursors[k], ws[k], spell);
        }
      }
      var colliding := FindColliding(names, ws);
      RoundIs(ws, colliding);
      if colliding == [] {
        break;
      }
      var progressed;
      cursors, progressed := StepColliding(ship, survivors, cursors, colliding, spell, start, ws);
      if !progressed {
        break;
      }
      RoundShrinks(ws, Round(ws));
      ws := Round(ws);
    }
    EndShown(ship[..], start, survivors, cursors, ws, spell);
  }

  lemma RoundIs(ws: seq<Walk>, colliding: seq<nat>)
    requires forall k | 0 <= k < |ws| :: k in colliding <==> Collides(ws, k)
    ensures Partly(ws, colliding) == Round(ws)
    ensures colliding == [] ==> Round(ws) == ws
  {
    hide Collides, Stepped;
  }

  lemma EndShown(now: seq<Pending>, start: seq<Pending>, survivors: seq<nat>, cursors: seq<int>, ws: seq<Walk>,
                 spell: Speller)
    requires Showing(now, start, survivors, cursors, ws, spell)
    ensures forall k | 0 <= k < |survivors| ::
              now[survivors[k]] == start[survivors[k]].(resource := ws[k].name, qualified := ws[k].qualified)
  {
    forall k | 0 <= k < |survivors|
      ensures now[survivors[k]] == start[survivors[k]].(resource := ws[k].name, qualified := ws[k].qualified)
    {
      assert Shows(now[survivors[k]], start[survivors[k]], cursors[k], ws[k], spell);
    }
  }

  function Cursors(ps: seq<Pending>, survivors: seq<nat>): (cursors: seq<int>)
    requires InRange(ps, survivors)
    ensures |cursors| == |survivors| && forall k | 0 <= k < |survivors| :: cursors[k] == |ps[survivors[k]].path| - 2
  {
    seq(|survivors|, k requires 0 <= k < |survivors| => |ps[survivors[k]].path| - 2)
  }

  function NamesOf(ps: seq<Pending>, survivors: seq<nat>): (names: seq<string>)
    requires InRange(ps, survivors)
    ensures |names| == |survivors| && forall k | 0 <= k < |survivors| :: names[k] == ps[survivors[k]].resource
  {
    seq(|survivors|, k requires 0 <= k < |survivors| => ps[survivors[k]].resource)
  }
}
