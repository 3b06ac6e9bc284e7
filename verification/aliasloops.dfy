/** The loops of internal/gen/collisions.go, proved against module Aliases.

    Entries of one service that want one name are grouped, and a group's by canonical path; of
    each such cluster the winner is kept and the others lose to it; what is left of a group
    are different resources, told apart by walking their paths. */
module AliasLoops {
  import opened Values
  import opened Text
  import opened Collisions
  import opened Disambiguate
  import opened Aliases
  import opened Shuffled

  // ---- grouping ----------------------------------------------------------------

  /** Indices by tag, and the tags each once: what the source keeps in a map and a list
      of its keys in first-seen order. */
  datatype Groups = Groups(order: seq<string>, members: map<string, seq<nat>>)

  ghost predicate GroupedBy(ps: seq<Pending>, at: seq<nat>, tag: Pending -> string, g: Groups) {
    && Text.Distinct(g.order)
    && (forall l :: l in g.order <==> l in g.members)
    && (forall i | i in at :: Labelled(ps, tag, i) in g.members)
    && (forall l | l in g.members :: g.members[l] == Having(ps, at, tag, l) && g.members[l] != [])
  }

  /** One more entry, in the group of its tag. */
  lemma GroupedOneMore(ps: seq<Pending>, at: seq<nat>, tag: Pending -> string, g: Groups, i: nat)
    requires GroupedBy(ps, at, tag, g)
    ensures var l := Labelled(ps, tag, i);
            var held := if l in g.members then g.members[l] else [];
            var order := if l in g.members then g.order else g.order + [l];
            GroupedBy(ps, at + [i], tag, Groups(order, g.members[l := held + [i]]))
  {
    var l := Labelled(ps, tag, i);
    forall m ensures Having(ps, at + [i], tag, m) == Having(ps, at, tag, m) + if m == l then [i] else [] {
      assert (at + [i])[..|at|] == at;
    }
    hide Having, Labelled;
    if l !in g.members {
      NoneHave(ps, at, tag, l);
    }
    GroupedStep(ps, at, tag, g, i);
  }

  lemma GroupedStep(ps: seq<Pending>, at: seq<nat>, tag: Pending -> string, g: Groups, i: nat)
    requires GroupedBy(ps, at, tag, g)
    requires var l := Labelled(ps, tag, i);
             && (forall m :: Having(ps, at + [i], tag, m) == Having(ps, at, tag, m) + if m == l then [i] else [])
             && (l !in g.members ==> Having(ps, at, tag, l) == [])
    ensures var l := Labelled(ps, tag, i);
            var held := if l in g.members then g.members[l] else [];
            var order := if l in g.members then g.order else g.order + [l];
            GroupedBy(ps, at + [i], tag, Groups(order, g.members[l := held + [i]]))
  {
    hide Having, Labelled;
    var l := Labelled(ps, tag, i);
    forall j | j in at + [i] ensures j in at || j == i {}
    var order := if l in g.members then g.order else g.order + [l];
    assert forall m :: m in order <==> m in g.order || m == l;
    assert Text.Distinct(order);
  }

  lemma NoneHave(ps: seq<Pending>, at: seq<nat>, tag: Pending -> string, l: string)
    requires forall i | i in at :: Labelled(ps, tag, i) != l
    ensures Having(ps, at, tag, l) == []
  {
    hide Having, Labelled;
    var some := Having(ps, at, tag, l);
    assert |some| > 0 ==> some[0] in some;
    HavingAre(ps, at, tag, l);
  }

  lemma NoGroups(ps: seq<Pending>, tag: Pending -> string)
    ensures GroupedBy(ps, [], tag, Groups([], map[]))
  {}

  method Group(ps: seq<Pending>, at: seq<nat>, tag: Pending -> string) returns (g: Groups)
    ensures GroupedBy(ps, at, tag, g)
  {
    hide Having, Labelled, GroupedBy;
    g := Groups([], map[]);
    NoGroups(ps, tag);
    for n := 0 to |at|
      invariant GroupedBy(ps, at[..n], tag, g)
    {
      var l := Labelled(ps, tag, at[n]);
      GroupedOneMore(ps, at[..n], tag, g, at[n]);
      assert at[..n + 1] == at[..n] + [at[n]];
      var held := if l in g.members then g.members[l] else [];
      var order := if l in g.members then g.order else g.order + [l];
      g := Groups(order, g.members[l := held + [at[n]]]);
    }
    assert at[..|at|] == at;
  }

  lemma NextTag(ps: seq<Pending>, at: seq<nat>, tag: Pending -> string, g: Groups, c: nat)
    requires GroupedBy(ps, at, tag, g) && c < |g.order|
    ensures g.order[c] in g.members && g.order[c] !in g.order[..c]
    ensures g.members[g.order[c]] == Having(ps, at, tag, g.order[c]) != []
    ensures g.order[..c + 1] == g.order[..c] + [g.order[c]]
  {
    hide Having, Labelled;
    assert g.order[c] in g.order;
  }

  // ---- one cluster -------------------------------------------------------------

  method FindWinner(ps: seq<Pending>, members: seq<nat>) returns (winner: nat)
    requires members != [] && InRange(ps, members)
    ensures winner == Kept(ps, members)
  {
    winner := members[0];
    for n := 1 to |members|
      invariant winner < |ps| && Winner(ps, members[n..], winner) == Kept(ps, members)
    {
      hide Preferred;
      assert members[n..][0] == members[n] && members[n..][1..] == members[n + 1..];
      if Preferred(ps[members[n]].path, ps[winner].path, UrlOf(ps[winner])) {
        winner := members[n];
      }
    }
    assert members[|members|..] == [];
  }

  /** Each of these but the winner lost, once, to it. */
  ghost predicate LoseTo(members: seq<nat>, winner: nat, losers: seq<Loser>) {
    && Once(losers)
    && (forall i :: Lost(losers, i) <==> i in members && i != winner)
    && forall n | 0 <= n < |losers| :: losers[n].winner == winner
  }

  lemma {:induction false} LostConcat(a: seq<Loser>, b: seq<Loser>, i: nat)
    ensures Lost(a + b, i) <==> Lost(a, i) || Lost(b, i)
  {
    if Lost(b, i) {
      var n :| 0 <= n < |b| && b[n].index == i;
      assert (a + b)[|a| + n].index == i;
    }
    if Lost(a, i) {
      var n :| 0 <= n < |a| && a[n].index == i;
      assert (a + b)[n].index == i;
    }
    if n :| 0 <= n < |a + b| && (a + b)[n].index == i {
      assert if n < |a| then a[n].index == i else b[n - |a|].index == i;
    }
  }

  lemma OnceConcat(a: seq<Loser>, b: seq<Loser>)
    requires Once(a) && Once(b) && forall i :: !(Lost(a, i) && Lost(b, i))
    ensures Once(a + b)
  {
    forall m, n | 0 <= m < n < |a + b| ensures (a + b)[m].index != (a + b)[n].index {
      if m < |a| && n >= |a| {
        assert Lost(a, a[m].index) && Lost(b, b[n - |a|].index);
      }
    }
  }

  lemma OneMoreLoser(members: seq<nat>, m: nat, winner: nat, losers: seq<Loser>)
    requires LoseTo(members, winner, losers) && m !in members
    ensures LoseTo(members + [m], winner, losers + if m == winner then [] else [Loser(m, winner)])
  {
    hide Lost;
    var one := [Loser(m, winner)];
    if m != winner {
      assert forall i :: Lost(one, i) <==> i == m by {
        OneLost(m, winner);
      }
      OnceConcat(losers, one);
    } else {
      assert losers + [] == losers;
    }
    forall i ensures Lost(losers + one, i) <==> Lost(losers, i) || Lost(one, i) {
      LostConcat(losers, one, i);
    }
  }

  lemma OneLost(m: nat, winner: nat)
    ensures forall i :: Lost([Loser(m, winner)], i) <==> i == m
  {
    assert [Loser(m, winner)][0].index == m;
  }

  method CollectLosers(members: seq<nat>, winner: nat) returns (losers: seq<Loser>)
    requires NoTwice(members)
    ensures LoseTo(members, winner, losers)
  {
    hide Lost;
    losers := [];
    assert LoseTo(members[..0], winner, losers) by {
      NoneLost();
    }
    for n := 0 to |members|
      invariant LoseTo(members[..n], winner, losers)
    {
      assert members[..n + 1] == members[..n] + [members[n]];
      OneMoreLoser(members[..n], members[n], winner, losers);
      hide LoseTo;
      if members[n] != winner {
        losers := losers + [Loser(members[n], winner)];
      } else {
        assert losers + [] == losers;
      }
    }
    assert members[..|members|] == members;
  }

  lemma NoneLost()
    ensures forall i :: !Lost([], i)
  {}

  // ---- one group ---------------------------------------------------------------

  /** The clusters of these shapes are settled: of each, what is kept survives, and the
      others have lost to it. */
  ghost predicate Through(ps: seq<Pending>, at: seq<nat>, shapes: seq<string>, survivors: seq<nat>, losers: seq<Loser>) {
    && Once(losers) && NoTwice(survivors)
    && (forall i :: i in survivors <==> i in at && Labelled(ps, Shape, i) in shapes && KeptFor(ps, at, i) == i)
    && (forall i :: Lost(losers, i) <==> i in at && Labelled(ps, Shape, i) in shapes && KeptFor(ps, at, i) != i)
    && forall n | 0 <= n < |losers| :: losers[n].winner == KeptFor(ps, at, losers[n].index)
  }

  /** One cluster: what its members have in common, and what is kept of them. */
  lemma ClusterFacts(ps: seq<Pending>, at: seq<nat>, l: string)
    requires InRange(ps, at) && NoTwice(at) && Having(ps, at, Shape, l) != []
    ensures forall i :: i in Having(ps, at, Shape, l) <==> i in at && Labelled(ps, Shape, i) == l
    ensures InRange(ps, Having(ps, at, Shape, l)) && NoTwice(Having(ps, at, Shape, l))
    ensures forall i | i in Having(ps, at, Shape, l) :: KeptFor(ps, at, i) == Kept(ps, Having(ps, at, Shape, l))
    ensures Kept(ps, Having(ps, at, Shape, l)) in Having(ps, at, Shape, l)
  {
    HavingAre(ps, at, Shape, l);
    hide Shape, Having, Kept;
  }

  /** One more shape adds one survivor, its cluster's. */
  lemma OneMoreSurvivor(ps: seq<Pending>, at: seq<nat>, shapes: seq<string>, l: string, cluster: seq<nat>, winner: nat,
                        survivors: seq<nat>, i: nat)
    requires i in survivors <==> i in at && Labelled(ps, Shape, i) in shapes && KeptFor(ps, at, i) == i
    requires i in cluster <==> i in at && Labelled(ps, Shape, i) == l
    requires winner in cluster && (i in cluster ==> KeptFor(ps, at, i) == winner)
    ensures i in survivors + [winner] <==> i in at && Labelled(ps, Shape, i) in shapes + [l] && KeptFor(ps, at, i) == i
  {
    hide KeptFor, Labelled, Shape;
  }

  lemma OneMoreLost(ps: seq<Pending>, at: seq<nat>, shapes: seq<string>, l: string, cluster: seq<nat>, winner: nat,
                    losers: seq<Loser>, more: seq<Loser>, i: nat)
    requires Lost(losers, i) <==> i in at && Labelled(ps, Shape, i) in shapes && KeptFor(ps, at, i) != i
    requires i in cluster <==> i in at && Labelled(ps, Shape, i) == l
    requires (i in cluster ==> KeptFor(ps, at, i) == winner) && (Lost(more, i) <==> i in cluster && i != winner)
    ensures Lost(losers + more, i) <==> i in at && Labelled(ps, Shape, i) in shapes + [l] && KeptFor(ps, at, i) != i
  {
    LostConcat(losers, more, i);
    hide KeptFor, Labelled, Shape, Lost;
  }

  lemma OneMoreCluster(ps: seq<Pending>, at: seq<nat>, shapes: seq<string>, l: string, winner: nat,
                       survivors: seq<nat>, losers: seq<Loser>, more: seq<Loser>)
    requires InRange(ps, at) && NoTwice(at) && Through(ps, at, shapes, survivors, losers) && l !in shapes
    requires var cluster := Having(ps, at, Shape, l);
             && InRange(ps, cluster) && cluster != [] && winner == Kept(ps, cluster) && LoseTo(cluster, winner, more)
    ensures Through(ps, at, shapes + [l], survivors + [winner], losers + more)
  {
    ClusterFacts(ps, at, l);
    hide Shape, Having, Kept, KeptFor, Lost, Labelled;
    var cluster := Having(ps, at, Shape, l);
    forall i
      ensures i in survivors + [winner] <==> i in at && Labelled(ps, Shape, i) in shapes + [l] && KeptFor(ps, at, i) == i
    {
      OneMoreSurvivor(ps, at, shapes, l, cluster, winner, survivors, i);
    }
    forall i
      ensures Lost(losers + more, i) <==> i in at && Labelled(ps, Shape, i) in shapes + [l] && KeptFor(ps, at, i) != i
    {
      OneMoreLost(ps, at, shapes, l, cluster, winner, losers, more, i);
    }
    assert winner in cluster && winner !in survivors;
    NoTwiceConcat(survivors, [winner]);
    OnceConcat(losers, more);
    forall n | 0 <= n < |losers + more|
      ensures (losers + more)[n].winner == KeptFor(ps, at, (losers + more)[n].index)
    {
      if n >= |losers| {
        LoserIsLost(more, n - |losers|);
      }
    }
  }

  lemma LoserIsLost(losers: seq<Loser>, n: nat)
    requires n < |losers|
    ensures Lost(losers, losers[n].index)
  {}

  lemma EachIsLost(losers: seq<Loser>)
    ensures forall l | l in losers :: Lost(losers, l.index)
  {
    forall l | l in losers ensures Lost(losers, l.index) {
      var n :| 0 <= n < |losers| && losers[n] == l;
    }
  }

  /** The clusters of one group, each settled on its winner. */
  method ResolveClusters(ps: seq<Pending>, at: seq<nat>) returns (survivors: seq<nat>, losers: seq<Loser>)
    requires InRange(ps, at) && NoTwice(at)
    ensures NoTwice(survivors) && forall i :: i in survivors <==> i in at && KeptFor(ps, at, i) == i
    ensures Once(losers) && forall i :: Lost(losers, i) <==> i in at && KeptFor(ps, at, i) != i
    ensures forall n | 0 <= n < |losers| :: losers[n].winner == KeptFor(ps, at, losers[n].index)
  {
    hide Shape, Kept, KeptFor, Having, Through, GroupedBy, LoseTo, Labelled, Lost, NoTwice;
    var clusters := Group(ps, at, Shape);
    survivors, losers := [], [];
    NoneThrough(ps, at);
    for c := 0 to |clusters.order|
      invariant Through(ps, at, clusters.order[..c], survivors, losers)
    {
      var l := clusters.order[c];
      NextTag(ps, at, Shape, clusters, c);
      ClusterFacts(ps, at, l);
      var winner := FindWinner(ps, clusters.members[l]);
      var more := CollectLosers(clusters.members[l], winner);
      OneMoreCluster(ps, at, clusters.order[..c], l, winner, survivors, losers, more);
      survivors := survivors + [winner];
      losers := losers + more;
    }
    assert clusters.order[..|clusters.order|] == clusters.order;
    AllThrough(ps, at, clusters, survivors, losers);
  }

  lemma NoneThrough(ps: seq<Pending>, at: seq<nat>)
    ensures Through(ps, at, [], [], [])
  {
    hide KeptFor, Labelled;
  }

  lemma AllThrough(ps: seq<Pending>, at: seq<nat>, g: Groups, survivors: seq<nat>, losers: seq<Loser>)
    requires GroupedBy(ps, at, Shape, g) && Through(ps, at, g.order, survivors, losers)
    ensures NoTwice(survivors) && forall i :: i in survivors <==> i in at && KeptFor(ps, at, i) == i
    ensures Once(losers) && forall i :: Lost(losers, i) <==> i in at && KeptFor(ps, at, i) != i
    ensures forall n | 0 <= n < |losers| :: losers[n].winner == KeptFor(ps, at, losers[n].index)
  {
    hide KeptFor, Labelled, Lost, Having, Shape;
  }

  // ---- names magic-modules keeps apart -----------------------------------------

  function MagicNames(ps: seq<Pending>, at: seq<nat>, lower: Speller): (names: seq<Option<string>>)
    requires InRange(ps, at)
    ensures |names| == |at| && forall k | 0 <= k < |at| :: names[k] == MagicOf(ps, at[k], lower)
  {
    seq(|at|, k requires 0 <= k < |at| => MagicName(ps[at[k]], lower))
  }

  ghost predicate NamesApart(ps: seq<Pending>, at: seq<nat>, names: seq<Option<string>>)
    requires InRange(ps, at) && |names| == |at|
  {
    && (forall k | 0 <= k < |at| :: names[k].Some?)
    && (forall j, k | 0 <= j < k < |at| :: names[j] != names[k])
    && exists k :: 0 <= k < |at| && names[k] == Some(ps[at[k]].resource)
  }

  lemma NamesTell(ps: seq<Pending>, at: seq<nat>, lower: Speller)
    requires InRange(ps, at) && NoTwice(at) && |at| > 1
    ensures NamesApart(ps, at, MagicNames(ps, at, lower)) <==> MagicApart(ps, at, lower)
  {
    hide MagicName;
    var names := MagicNames(ps, at, lower);
    assert Several(at) by {
      assert at[0] in at && at[1] in at && at[0] != at[1];
    }
    if MagicApart(ps, at, lower) {
      forall k | 0 <= k < |at| ensures names[k].Some? {
        assert at[k] in at;
      }
      forall j, k | 0 <= j < k < |at| ensures names[j] != names[k] {
        assert at[j] in at && at[k] in at;
      }
    }
    if NamesApart(ps, at, names) {
      forall i, j | i in at && j in at && i != j ensures MagicOf(ps, i, lower) != MagicOf(ps, j, lower) {
        var m :| 0 <= m < |at| && at[m] == i;
        var n :| 0 <= n < |at| && at[n] == j;
        assert if m < n then names[m] != names[n] else names[n] != names[m];
      }
      var k :| 0 <= k < |at| && names[k] == Some(ps[at[k]].resource);
      assert at[k] in at;
    }
  }

  /** The scan of namedApartByMagicModules. */
  method AreNamedApart(ps: seq<Pending>, at: seq<nat>, lower: Speller) returns (apart: bool)
    requires InRange(ps, at) && NoTwice(at) && |at| > 1
    ensures apart <==> MagicApart(ps, at, lower)
  {
    ghost var names := MagicNames(ps, at, lower);
    NamesTell(ps, at, lower);
    hide MagicName, MagicNames, MagicApart, NoTwice;
    var seen: set<Option<string>>, plain := {}, false;
    for k := 0 to |at|
      invariant forall j | 0 <= j < k :: names[j].Some?
      invariant forall n :: n in seen <==> n in names[..k]
      invariant forall i, j | 0 <= i < j < k :: names[i] != names[j]
      invariant plain <==> exists j :: 0 <= j < k && names[j] == Some(ps[at[j]].resource)
    {
      var n := MagicName(ps[at[k]], lower);
      assert n == names[k] == MagicOf(ps, at[k], lower);
      assert names[..k + 1] == names[..k] + [n];
      if n.None? {
        return false;
      }
      if n in seen {
        ghost var j :| 0 <= j < k && names[j] == n;
        assert !NamesApart(ps, at, names);
        return false;
      }
      seen := seen + {n};
      plain := plain || n == Some(ps[at[k]].resource);
    }
    apart := plain;
  }

  /** Every entry takes its magic-modules name. */
  method TakeMagicNames(ship: array<Pending>, at: seq<nat>, lower: Speller)
    requires InRange(ship[..], at) && NoTwice(at) && MagicApart(ship[..], at, lower)
    modifies ship
    ensures forall i | 0 <= i < ship.Length && i !in at :: ship[i] == old(ship[i])
    ensures NamedByMagic(ship[..], old(ship[..]), at, lower)
  {
    ghost var was := ship[..];
    forall k | 0 <= k < |at| ensures MagicOf(was, at[k], lower).Some? {
      assert at[k] in at;
    }
    for n := 0 to |at|
      invariant forall i | 0 <= i < ship.Length && i !in at[..n] :: ship[i] == was[i]
      invariant NamedByMagic(ship[..], was, at[..n], lower)
    {
      hide MagicApart;
      assert at[n] !in at[..n] && forall j :: j in at[..n + 1] <==> j in at[..n] || j == at[n];
      var p := ship[at[n]];
      assert MagicOf(was, at[n], lower) == MagicName(p, lower);
      ship[at[n]] := p.(resource := lower(p.mm.value.name));
    }
    assert at[..|at|] == at;
  }

  // ---- one service and name ----------------------------------------------------

  /** The survivors met cluster by cluster have the names they would have in the order of
      the entries. */
  lemma NamedInAnyOrder(now: seq<Pending>, was: seq<Pending>, at: seq<nat>, met: seq<nat>, spell: Speller)
    requires InRange(was, at) && NoTwice(at) && NoTwice(met) && NamedByPath(now, was, at, met, spell)
    requires forall i :: i in met <==> i in at && KeptFor(was, at, i) == i
    ensures NamedByPath(now, was, at, Survivors(was, at), spell)
  {
    SurvivorsAre(was, at);
    hide Survivors, KeptFor;
    var kept := Survivors(was, at);
    SameWalks(now, was, at, met, kept, spell);
  }

  function Identity(n: nat): (id: seq<nat>)
    ensures |id| == n && forall i | 0 <= i < n :: id[i] == i
  {
    seq(n, i requires 0 <= i < n => i)
  }

  lemma SameAcross(was: seq<Pending>, met: seq<nat>, kept: seq<nat>)
    requires InRange(was, kept) && forall i :: i in met <==> i in kept
    ensures Shuffles(Identity(|was|), was, was) && Across(Identity(|was|), kept, met)
  {
    var id := Identity(|was|);
    forall j: nat | j < |was| ensures j in id {
      assert id[j] == j;
    }
    forall k | k in kept ensures k < |was| {
      var n :| 0 <= n < |kept| && kept[n] == k;
    }
  }

  /** The walk of a survivor is the same in either order. */
  lemma SameWalk(was: seq<Pending>, met: seq<nat>, kept: seq<nat>, spell: Speller, k: nat) returns (m: nat)
    requires NoTwice(met) && NoTwice(kept) && InRange(was, met) && InRange(was, kept) && k < |kept|
    requires forall i :: i in met <==> i in kept
    ensures m < |met| && met[m] == kept[k]
    ensures Settled(Start(was, kept, spell))[k] == Settled(Start(was, met, spell))[m]
  {
    hide Settled, StartOf;
    var id := Identity(|was|);
    SameAcross(was, met, kept);
    hide Shuffles, Across, NoTwice;
    WalksAcross(id, was, was, kept, met, spell);
    var f := Positions(id, kept, met);
    SettledIgnoresOrder(f, Start(was, kept, spell), Start(was, met, spell));
    m := f[k];
  }

  lemma SameWalks(now: seq<Pending>, was: seq<Pending>, at: seq<nat>, met: seq<nat>, kept: seq<nat>, spell: Speller)
    requires NamedByPath(now, was, at, met, spell) && NoTwice(met) && NoTwice(kept) && InRange(was, kept)
    requires forall i :: i in met <==> i in kept
    ensures NamedByPath(now, was, at, kept, spell)
  {
    hide Settled, Start, Walked, NoTwice;
    forall k | 0 <= k < |kept|
      ensures now[kept[k]] == Walked(was[kept[k]], Settled(Start(was, kept, spell))[k])
    {
      var m := SameWalk(was, met, kept, spell, k);
    }
  }

  /** Fewer than two survivors need no telling apart. */
  lemma FewAreNamed(ps: seq<Pending>, at: seq<nat>, met: seq<nat>, spell: Speller)
    requires |met| < 2 && InRange(ps, met)
    ensures NamedByPath(ps, ps, at, met, spell)
  {
    OneIsSettled(Start(ps, met, spell));
  }

  /** An entry alone in its group is kept. */
  lemma AloneIsKept(ps: seq<Pending>, at: seq<nat>, i: nat)
    requires InRange(ps, at) && |at| < 2 && i in at
    ensures KeptFor(ps, at, i) == i
  {
    KeptForIs(ps, at, i);
    hide KeptFor;
    var k := KeptFor(ps, at, i);
    var m :| 0 <= m < |at| && at[m] == i;
    var n :| 0 <= n < |at| && at[n] == k;
  }

  lemma FewCannotCollide(was: seq<Pending>, at: seq<nat>, spell: Speller, lower: Speller)
    requires InRange(was, at) && NoTwice(at) && |at| < 2
    ensures GroupResolved(was, was, at, [], spell, lower) && !MagicApart(was, at, lower)
  {
    forall i, j | i in at && j in at ensures i == j {
      var m :| 0 <= m < |at| && at[m] == i;
      var n :| 0 <= n < |at| && at[n] == j;
    }
    assert !Several(at);
    forall i | i in at ensures KeptFor(was, at, i) == i {
      AloneIsKept(was, at, i);
    }
    FewAreNamed(was, at, at, spell);
    NamedInAnyOrder(was, was, at, at, spell);
    hide KeptFor, NamedByPath, Survivors;
  }

  /** One group of entries that want the same name. */
  method ResolveGroup(ship: array<Pending>, at: seq<nat>, spell: Speller, lower: Speller) returns (losers: seq<Loser>)
    requires InRange(ship[..], at) && NoTwice(at)
    modifies ship
    ensures GroupResolved(ship[..], old(ship[..]), at, losers, spell, lower)
    ensures Once(losers) && forall i | Lost(losers, i) :: i in at
    ensures forall i | 0 <= i < ship.Length && i !in at :: ship[i] == old(ship[i])
  {
    ghost var was := ship[..];
    hide GroupResolved, NamedByPath, NamedByMagic, MagicApart, KeptFor, Settled, Start, Lost;
    if |at| < 2 {
      FewCannotCollide(was, at, spell, lower);
      NoneLost();
      return [];
    }
    var apart := AreNamedApart(ship[..], at, lower);
    if apart {
      TakeMagicNames(ship, at, lower);
      GroupIsApart(ship[..], was, at, spell, lower);
      NoneLost();
      return [];
    }
    var survivors;
    survivors, losers := ResolveClusters(ship[..], at);
    AllInRange(was, at, survivors);
    if |survivors| > 1 {
      DisambiguateByPath(ship, survivors, spell);
      ByPath(ship[..], was, at, survivors, spell);
    } else {
      FewAreNamed(was, at, survivors, spell);
    }
    GroupIsKept(ship[..], was, at, survivors, losers, spell, lower);
  }

  lemma AllInRange(ps: seq<Pending>, at: seq<nat>, some: seq<nat>)
    requires InRange(ps, at) && forall i | i in some :: i in at
    ensures InRange(ps, some)
  {
    forall k | 0 <= k < |some| ensures some[k] < |ps| {
      assert some[k] in at;
      var n :| 0 <= n < |at| && at[n] == some[k];
    }
  }

  lemma GroupIsApart(now: seq<Pending>, was: seq<Pending>, at: seq<nat>, spell: Speller, lower: Speller)
    requires MagicApart(was, at, lower) && NamedByMagic(now, was, at, lower)
    ensures GroupResolved(now, was, at, [], spell, lower)
  {
    hide MagicApart, NamedByMagic, KeptFor;
  }

  lemma ByPath(now: seq<Pending>, was: seq<Pending>, at: seq<nat>, survivors: seq<nat>, spell: Speller)
    requires |now| == |was| && InRange(was, survivors)
    requires forall i | 0 <= i < |was| && i !in survivors :: now[i] == was[i]
    requires var end := Settled(Start(was, survivors, spell));
             forall k | 0 <= k < |survivors| ::
               now[survivors[k]] == was[survivors[k]].(resource := end[k].name, qualified := end[k].qualified)
    ensures NamedByPath(now, was, at, survivors, spell)
  {
    hide Settled;
  }

  lemma GroupIsKept(now: seq<Pending>, was: seq<Pending>, at: seq<nat>, survivors: seq<nat>, losers: seq<Loser>,
                    spell: Speller, lower: Speller)
    requires InRange(was, at) && NoTwice(at) && NoTwice(survivors) && !MagicApart(was, at, lower)
    requires forall i :: i in survivors <==> i in at && KeptFor(was, at, i) == i
    requires forall i :: Lost(losers, i) <==> i in at && KeptFor(was, at, i) != i
    requires forall n | 0 <= n < |losers| :: losers[n].winner == KeptFor(was, at, losers[n].index)
    requires NamedByPath(now, was, at, survivors, spell)
    ensures GroupResolved(now, was, at, losers, spell, lower)
  {
    NamedInAnyOrder(now, was, at, survivors, spell);
    hide MagicApart, NamedByPath, KeptFor, Survivors, Lost;
  }

  // ---- the whole corpus --------------------------------------------------------

  method FindUnscoped(ps: seq<Pending>) returns (at: seq<nat>)
    ensures at == Unscoped(ps)
  {
    at := [];
    for n := 0 to |ps|
      invariant at == Unscoped(ps[..n])
    {
      assert ps[..n + 1][..n] == ps[..n];
      if ps[n].scope == "" {
        at := at + [n];
      }
    }
    assert ps[..|ps|] == ps;
  }

  /** The entry belongs to a group with one of these tags. */
  predicate Tagged(was: seq<Pending>, tags: seq<string>, i: nat) {
    i < |was| && was[i].scope == "" && Wanted(was[i]) in tags
  }

  /** The groups with these tags are resolved; the others are untouched. */
  ghost predicate Sofar(now: seq<Pending>, was: seq<Pending>, tags: seq<string>, losers: seq<Loser>, spell: Speller,
                        lower: Speller)
  {
    && |now| == |was| && Once(losers)
    && (forall i: nat | Lost(losers, i) :: Tagged(was, tags, i))
    && (forall i: nat | i < |was| && !Tagged(was, tags, i) :: now[i] == was[i])
    && forall tag | tag in tags :: GroupResolved(now, was, Competitors(was, tag), losers, spell, lower)
  }

  lemma OneMoreGroup(now: seq<Pending>, before: seq<Pending>, was: seq<Pending>, tags: seq<string>, tag: string,
                     losers: seq<Loser>, more: seq<Loser>, spell: Speller, lower: Speller)
    requires Sofar(before, was, tags, losers, spell, lower) && tag !in tags && |now| == |was|
    requires var at := Competitors(was, tag);
             && GroupResolved(now, before, at, more, spell, lower)
             && Once(more) && (forall i | Lost(more, i) :: i in at)
             && forall i: nat | i < |was| && i !in at :: now[i] == before[i]
    ensures Sofar(now, was, tags + [tag], losers + more, spell, lower)
  {
    var at, all := Competitors(was, tag), losers + more;
    hide Lost, GroupResolved, Wanted, Competitors;
    CompetitorsAre(was, tag);
    forall i: nat ensures Lost(all, i) <==> Lost(losers, i) || Lost(more, i) {
      LostConcat(losers, more, i);
    }
    forall i | Lost(losers, i) ensures !Lost(more, i) {}
    OnceConcat(losers, more);
    forall t | t in tags + [tag] ensures GroupResolved(now, was, Competitors(was, t), all, spell, lower) {
      CompetitorsAre(was, t);
      if t == tag {
        forall i | i in at ensures i < |was| && before[i] == was[i] && !Lost(losers, i) {}
        assert Alike(before, was, at);
        MoreResolved(now, before, was, at, losers, more, spell, lower);
      } else {
        forall i | i in Competitors(was, t) ensures i < |was| && now[i] == before[i] && !Lost(more, i) {}
        assert Alike(before, now, Competitors(was, t));
        StillResolved(now, before, was, Competitors(was, t), losers, more, spell, lower);
      }
    }
  }

  // ---- a group is resolved by its own entries ----------------------------------

  /** Two corpora hold these entries alike. */
  predicate Alike(ps: seq<Pending>, qs: seq<Pending>, at: seq<nat>) {
    |ps| == |qs| && forall i | i in at :: i < |ps| && ps[i] == qs[i]
  }

  lemma {:induction false} ThoseAlike(at: seq<nat>, p: nat -> bool, q: nat -> bool)
    requires forall i | i in at :: p(i) == q(i)
    ensures Those(at, p) == Those(at, q)
  {
    if at != [] {
      var n := |at| - 1;
      var last := at[n];
      assert Those(at, p) == Those(at[..n], p) + if p(last) then [last] else [];
      assert Those(at, q) == Those(at[..n], q) + if q(last) then [last] else [];
      hide Those;
      assert last in at;
      forall i | i in at[..n] ensures i in at {}
      ThoseAlike(at[..n], p, q);
    }
  }

  lemma HavingAlike(ps: seq<Pending>, qs: seq<Pending>, at: seq<nat>, tag: Pending -> string, l: string)
    requires Alike(ps, qs, at)
    ensures Having(ps, at, tag, l) == Having(qs, at, tag, l)
  {
    ThoseAlike(at, Has(ps, tag, l), Has(qs, tag, l));
  }

  lemma {:induction false} WinnerAlike(ps: seq<Pending>, qs: seq<Pending>, rest: seq<nat>, w: nat)
    requires w < |ps| && InRange(ps, rest) && Alike(ps, qs, [w] + rest)
    ensures InRange(qs, rest) && Winner(ps, rest, w) == Winner(qs, rest, w)
    decreases |rest|
  {
    hide Preferred;
    assert w in [w] + rest;
    forall k | 0 <= k < |rest| ensures rest[k] in [w] + rest {
      assert ([w] + rest)[k + 1] == rest[k];
    }
    if rest != [] {
      var next := if Preferred(ps[rest[0]].path, ps[w].path, UrlOf(ps[w])) then rest[0] else w;
      assert rest[0] in [w] + rest;
      forall i | i in [next] + rest[1..] ensures i in [w] + rest {}
      WinnerAlike(ps, qs, rest[1..], next);
    }
  }

  lemma KeptForAlike(ps: seq<Pending>, qs: seq<Pending>, at: seq<nat>, i: nat)
    requires Alike(ps, qs, at) && InRange(ps, at) && i in at
    ensures KeptFor(ps, at, i) == KeptFor(qs, at, i)
  {
    var l := Labelled(ps, Shape, i);
    HavingAlike(ps, qs, at, Shape, l);
    HavingAre(ps, at, Shape, l);
    hide Having, Shape;
    var cluster := Having(ps, at, Shape, l);
    assert InRange(ps, cluster) && InRange(qs, cluster);
    if cluster != [] {
      forall j | j in [cluster[0]] + cluster[1..] ensures j in cluster {}
      WinnerAlike(ps, qs, cluster[1..], cluster[0]);
    }
  }

  lemma SurvivorsAlike(ps: seq<Pending>, qs: seq<Pending>, at: seq<nat>)
    requires Alike(ps, qs, at) && InRange(ps, at)
    ensures Survivors(ps, at) == Survivors(qs, at)
  {
    hide KeptFor;
    forall i | i in at ensures IsKept(ps, at)(i) == IsKept(qs, at)(i) {
      KeptForAlike(ps, qs, at, i);
    }
    ThoseAlike(at, IsKept(ps, at), IsKept(qs, at));
  }

  lemma MagicAlike(ps: seq<Pending>, qs: seq<Pending>, at: seq<nat>, lower: Speller)
    requires Alike(ps, qs, at)
    ensures MagicApart(ps, at, lower) <==> MagicApart(qs, at, lower)
    ensures forall i | i in at :: MagicOf(ps, i, lower) == MagicOf(qs, i, lower)
  {
    hide MagicName;
  }

  lemma PathNamesAlike(now: seq<Pending>, ps: seq<Pending>, other: seq<Pending>, qs: seq<Pending>, at: seq<nat>,
                       kept: seq<nat>, spell: Speller)
    requires Alike(ps, qs, at) && Alike(now, other, at) && |now| == |ps| && forall i | i in kept :: i in at
    requires NamedByPath(now, ps, at, kept, spell)
    ensures NamedByPath(other, qs, at, kept, spell)
  {
    hide Settled, StartOf, Walked;
    forall k | 0 <= k < |kept| ensures kept[k] < |qs| && ps[kept[k]] == qs[kept[k]] && now[kept[k]] == other[kept[k]] {
      assert kept[k] in kept;
    }
    assert Start(ps, kept, spell) == Start(qs, kept, spell);
  }

  lemma NamesAlike(now: seq<Pending>, ps: seq<Pending>, other: seq<Pending>, qs: seq<Pending>, at: seq<nat>,
                   spell: Speller, lower: Speller)
    requires Alike(ps, qs, at) && Alike(now, other, at) && |now| == |ps| && InRange(ps, at) && NoTwice(at)
    requires Named(now, ps, at, spell, lower)
    ensures Named(other, qs, at, spell, lower)
  {
    MagicAlike(ps, qs, at, lower);
    SurvivorsAlike(ps, qs, at);
    SurvivorsAre(ps, at);
    hide MagicApart, NamedByPath, Survivors, KeptFor, MagicOf;
    if !MagicApart(ps, at, lower) {
      PathNamesAlike(now, ps, other, qs, at, Survivors(ps, at), spell);
    }
  }

  lemma DroppedAlike(ps: seq<Pending>, qs: seq<Pending>, at: seq<nat>, losers: seq<Loser>, all: seq<Loser>, lower: Speller)
    requires Alike(ps, qs, at) && InRange(ps, at) && Dropped(ps, at, losers, lower)
    requires forall i | i in at :: Lost(all, i) <==> Lost(losers, i)
    requires forall l | l in all && l.index in at :: l in losers
    ensures Dropped(qs, at, all, lower)
  {
    MagicAlike(ps, qs, at, lower);
    hide MagicApart, KeptFor, Lost;
    forall i | i in at ensures KeptFor(ps, at, i) == KeptFor(qs, at, i) {
      KeptForAlike(ps, qs, at, i);
    }
    forall n | 0 <= n < |all| && all[n].index in at ensures all[n].winner == KeptFor(qs, at, all[n].index) {
      assert all[n] in all;
      var m :| 0 <= m < |losers| && losers[m] == all[n];
    }
  }

  /** The group just resolved was untouched till now. */
  lemma MoreResolved(now: seq<Pending>, before: seq<Pending>, was: seq<Pending>, at: seq<nat>, losers: seq<Loser>,
                     more: seq<Loser>, spell: Speller, lower: Speller)
    requires GroupResolved(now, before, at, more, spell, lower)
    requires InRange(was, at) && NoTwice(at) && |now| == |before| && Alike(before, was, at)
    requires forall i | i in at :: !Lost(losers, i)
    ensures GroupResolved(now, was, at, losers + more, spell, lower)
  {
    forall i | i in at ensures Lost(losers + more, i) <==> Lost(more, i) {
      LostConcat(losers, more, i);
    }
    EachIsLost(losers);
    assert Dropped(before, at, more, lower) && Named(now, before, at, spell, lower);
    assert Alike(now, now, at) by {
      forall i | i in at ensures i < |now| {}
    }
    hide Dropped, Named, Lost;
    DroppedAlike(before, was, at, more, losers + more, lower);
    NamesAlike(now, before, now, was, at, spell, lower);
  }

  /** A group resolved before stays as it was. */
  lemma StillResolved(now: seq<Pending>, before: seq<Pending>, was: seq<Pending>, at: seq<nat>, losers: seq<Loser>,
                      more: seq<Loser>, spell: Speller, lower: Speller)
    requires GroupResolved(before, was, at, losers, spell, lower)
    requires InRange(was, at) && NoTwice(at) && |before| == |was| && Alike(before, now, at)
    requires forall i | i in at :: !Lost(more, i)
    ensures GroupResolved(now, was, at, losers + more, spell, lower)
  {
    forall i | i in at ensures Lost(losers + more, i) <==> Lost(losers, i) {
      LostConcat(losers, more, i);
    }
    EachIsLost(more);
    assert Dropped(was, at, losers, lower) && Named(before, was, at, spell, lower);
    assert Alike(was, was, at) by {
      forall i | i in at ensures i < |was| {}
    }
    hide Dropped, Named, Lost;
    DroppedAlike(was, was, at, losers, losers + more, lower);
    NamesAlike(before, was, now, was, at, spell, lower);
  }

  // ---- the loop ----------------------------------------------------------------

  lemma NoneSofar(was: seq<Pending>, spell: Speller, lower: Speller)
    ensures Sofar(was, was, [], [], spell, lower)
  {}

  lemma GroupIs(was: seq<Pending>, g: Groups, c: nat)
    requires GroupedBy(was, Unscoped(was), Wanted, g) && c < |g.order|
    ensures g.order[c] in g.members && g.members[g.order[c]] == Competitors(was, g.order[c])
    ensures InRange(was, Competitors(was, g.order[c])) && NoTwice(Competitors(was, g.order[c]))
  {
    CompetitorsAre(was, g.order[c]);
    NextTag(was, Unscoped(was), Wanted, g, c);
    hide Wanted, Unscoped, Having, GroupedBy;
  }

  lemma AllSofar(now: seq<Pending>, was: seq<Pending>, g: Groups, losers: seq<Loser>, spell: Speller, lower: Speller)
    requires GroupedBy(was, Unscoped(was), Wanted, g) && Sofar(now, was, g.order, losers, spell, lower)
    ensures CorpusResolved(now, was, losers, spell, lower)
  {
    hide Lost, Wanted, Having, GroupResolved, KeptFor;
    forall tag ensures GroupResolved(now, was, Competitors(was, tag), losers, spell, lower) {
      if tag !in g.order {
        NobodyWants(was, g, tag);
        NothingToResolve(now, was, losers, spell, lower);
      }
    }
  }

  lemma NobodyWants(was: seq<Pending>, g: Groups, tag: string)
    requires GroupedBy(was, Unscoped(was), Wanted, g) && tag !in g.order
    ensures Competitors(was, tag) == []
  {
    var none := Competitors(was, tag);
    assert |none| > 0 ==> none[0] in none;
    HavingAre(was, Unscoped(was), Wanted, tag);
    hide Wanted, Unscoped, Having;
  }

  lemma NothingToResolve(now: seq<Pending>, was: seq<Pending>, losers: seq<Loser>, spell: Speller, lower: Speller)
    requires |now| == |was|
    ensures GroupResolved(now, was, [], losers, spell, lower)
  {
    hide KeptFor, Lost;
  }

  function KeptOnly(ps: seq<Pending>, losers: seq<Loser>): seq<Pending> {
    if ps == [] then []
    else
      var n := |ps| - 1;
      KeptOnly(ps[..n], losers) + if Lost(losers, n) then [] else [ps[n]]
  }

  /** resolveWithinServiceCollisions. */
  method ResolveCollisions(ship: array<Pending>, spell: Speller, lower: Speller)
    returns (out: seq<Pending>, losers: seq<Loser>)
    modifies ship
    ensures CorpusResolved(ship[..], old(ship[..]), losers, spell, lower)
    ensures out == KeptOnly(ship[..], losers)
  {
    ghost var was := ship[..];
    hide Sofar, CorpusResolved, GroupResolved, GroupedBy, KeptOnly, NoTwice, Wanted, Competitors, Lost;
    var at := FindUnscoped(ship[..]);
    var groups := Group(ship[..], at, Wanted);
    losers := [];
    NoneSofar(was, spell, lower);
    for g := 0 to |groups.order|
      invariant Sofar(ship[..], was, groups.order[..g], losers, spell, lower)
    {
      var tag := groups.order[g];
      NextTag(was, at, Wanted, groups, g);
      GroupIs(was, groups, g);
      ghost var before := ship[..];
      var more := ResolveGroup(ship, groups.members[tag], spell, lower);
      OneMoreGroup(ship[..], before, was, groups.order[..g], tag, losers, more, spell, lower);
      losers := losers + more;
    }
    assert groups.order[..|groups.order|] == groups.order;
    AllSofar(ship[..], was, groups, losers, spell, lower);
    out := DropLosers(ship[..], losers);
  }

  /** The entries not dropped, in their order. */
  method DropLosers(ps: seq<Pending>, losers: seq<Loser>) returns (out: seq<Pending>)
    ensures out == KeptOnly(ps, losers)
  {
    var drop := set n | 0 <= n < |losers| :: losers[n].index;
    out := [];
    for n := 0 to |ps|
      invariant out == KeptOnly(ps[..n], losers)
    {
      assert ps[..n + 1][..n] == ps[..n];
      assert n in drop <==> Lost(losers, n);
      if n !in drop {
        out := out + [ps[n]];
      }
    }
    assert ps[..|ps|] == ps;
  }

  /** Kept and dropped together are all there was. */
  lemma {:induction false} KeptAndDropped(ps: seq<Pending>, losers: seq<Loser>)
    requires forall a, b | 0 <= a < b < |losers| :: losers[a].index != losers[b].index
    requires forall n | 0 <= n < |losers| :: losers[n].index < |ps|
    ensures |KeptOnly(ps, losers)| + |losers| == |ps|
    decreases |ps|
  {
    assert 0 < |losers| ==> losers[0].index < |ps|;
    if ps != [] {
      var n := |ps| - 1;
      if Lost(losers, n) {
        var k: nat :| k < |losers| && losers[k].index == n;
        WithoutOne(losers, k, n);
        KeptAndDropped(ps[..n], losers[..k] + losers[k + 1..]);
        SameKept(ps[..n], losers, losers[..k] + losers[k + 1..]);
      } else {
        forall k | 0 <= k < |losers| ensures losers[k].index < n {
          assert losers[k].index != n;
        }
        KeptAndDropped(ps[..n], losers);
      }
    }
  }

  lemma WithoutOne(losers: seq<Loser>, k: nat, n: nat)
    requires k < |losers| && losers[k].index == n
    requires forall a, b | 0 <= a < b < |losers| :: losers[a].index != losers[b].index
    requires forall a | 0 <= a < |losers| :: losers[a].index <= n
    ensures var rest := losers[..k] + losers[k + 1..];
            && (forall a, b | 0 <= a < b < |rest| :: rest[a].index != rest[b].index)
            && (forall a | 0 <= a < |rest| :: rest[a].index < n)
            && (forall i: nat | i < n :: Lost(losers, i) <==> Lost(rest, i))
  {
    var rest := losers[..k] + losers[k + 1..];
    forall a | 0 <= a < |rest| ensures rest[a].index < n {
      assert rest[a] == losers[if a < k then a else a + 1];
    }
    forall i: nat | i < n ensures Lost(losers, i) <==> Lost(rest, i) {
      LostConcat(losers[..k], losers[k + 1..], i);
      LostConcat(losers[..k] + [losers[k]], losers[k + 1..], i);
      LostConcat(losers[..k], [losers[k]], i);
      assert losers == losers[..k] + [losers[k]] + losers[k + 1..];
    }
  }

  lemma {:induction false} SameKept(ps: seq<Pending>, a: seq<Loser>, b: seq<Loser>)
    requires forall i: nat | i < |ps| :: Lost(a, i) <==> Lost(b, i)
    ensures KeptOnly(ps, a) == KeptOnly(ps, b)
    decreases |ps|
  {
    if ps != [] {
      SameKept(ps[..|ps| - 1], a, b);
    }
  }
}
