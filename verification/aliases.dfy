/** Dropping legacy aliases and telling the rest apart (internal/gen/collisions.go): of the
    entries of one service that want one name, one is kept for each canonical path. */
module Aliases {
  import opened Values
  import opened Text
  import opened Collisions
  import opened Disambiguate

  /** A dropped entry, and the entry of the same resource kept in its place. */
  datatype Loser = Loser(index: nat, winner: nat)

  predicate Lost(losers: seq<Loser>, i: nat) {
    exists n :: 0 <= n < |losers| && losers[n].index == i
  }

  // ---- groups and clusters -----------------------------------------------------

  /** Those of `at` that p holds of, in their order. */
  function Those(at: seq<nat>, p: nat -> bool): seq<nat> {
    if at == [] then []
    else Those(at[..|at| - 1], p) + if p(at[|at| - 1]) then [at[|at| - 1]] else []
  }

  lemma {:induction false} ThoseAre(at: seq<nat>, p: nat -> bool)
    ensures forall i :: i in Those(at, p) <==> i in at && p(i)
    ensures NoTwice(at) ==> NoTwice(Those(at, p))
  {
    if at != [] {
      var n := |at| - 1;
      var init, some := at[..n], Those(at[..n], p);
      ThoseAre(init, p);
      assert at == init + [at[n]];
      var last := if p(at[n]) then [at[n]] else [];
      assert Those(at, p) == some + last;
      hide Those;
      assert NoTwice(at) ==> NoTwice(init) && at[n] !in init;
      if NoTwice(at) {
        NoTwiceConcat(some, last);
      }
    }
  }

  function Labelled(ps: seq<Pending>, tag: Pending -> string, i: nat): string {
    if i < |ps| then tag(ps[i]) else ""
  }

  function Has(ps: seq<Pending>, tag: Pending -> string, l: string): nat -> bool {
    (i: nat) => Labelled(ps, tag, i) == l
  }

  /** The entries with one tag. */
  function Having(ps: seq<Pending>, at: seq<nat>, tag: Pending -> string, l: string): seq<nat> {
    Those(at, Has(ps, tag, l))
  }

  lemma HavingAre(ps: seq<Pending>, at: seq<nat>, tag: Pending -> string, l: string)
    ensures forall i :: i in Having(ps, at, tag, l) <==> i in at && Labelled(ps, tag, i) == l
    ensures NoTwice(at) ==> NoTwice(Having(ps, at, tag, l))
    ensures InRange(ps, at) ==> InRange(ps, Having(ps, at, tag, l))
  {
    ThoseAre(at, Has(ps, tag, l));
    var some := Having(ps, at, tag, l);
    if InRange(ps, at) {
      forall k | 0 <= k < |some| ensures some[k] < |ps| {
        assert some[k] in at;
      }
    }
  }

  /** What entries of one group have in common. */
  function Wanted(p: Pending): string {
    p.doc + "/" + p.resource
  }

  /** What entries of one resource have in common. */
  function Shape(p: Pending): string {
    Join(CanonicalPath(p.path), '.')
  }

  /** The entries a collision can be about: a scoped one has an identity of its own. */
  function Unscoped(ps: seq<Pending>): (at: seq<nat>)
    ensures InRange(ps, at) && NoTwice(at)
    ensures forall i: nat :: i in at <==> i < |ps| && ps[i].scope == ""
  {
    if ps == [] then []
    else
      var n := |ps| - 1;
      var init := Unscoped(ps[..n]);
      if ps[n].scope != "" then init
      else
        NoTwiceConcat(init, [n]);
        init + [n]
  }

  /** The entries of one service that want one name. */
  function Competitors(ps: seq<Pending>, tag: string): seq<nat> {
    Having(ps, Unscoped(ps), Wanted, tag)
  }

  lemma CompetitorsAre(ps: seq<Pending>, tag: string)
    ensures forall i: nat :: i in Competitors(ps, tag) <==> i < |ps| && ps[i].scope == "" && Wanted(ps[i]) == tag
    ensures NoTwice(Competitors(ps, tag)) && InRange(ps, Competitors(ps, tag))
  {
    hide Wanted, Having, Unscoped;
    HavingAre(ps, Unscoped(ps), Wanted, tag);
  }

  predicate Compete(ps: seq<Pending>, i: nat, j: nat) {
    i < |ps| && j < |ps| && ps[i].scope == "" && ps[j].scope == "" && Wanted(ps[i]) == Wanted(ps[j])
  }

  /** The entry kept of the resource entry i is, out of these. */
  function KeptFor(ps: seq<Pending>, at: seq<nat>, i: nat): nat {
    var cluster := Having(ps, at, Shape, Labelled(ps, Shape, i));
    if cluster != [] && InRange(ps, cluster) then Kept(ps, cluster) else i
  }

  function IsKept(ps: seq<Pending>, at: seq<nat>): nat -> bool {
    (i: nat) => KeptFor(ps, at, i) == i
  }

  function Survivors(ps: seq<Pending>, at: seq<nat>): seq<nat> {
    Those(at, IsKept(ps, at))
  }

  lemma SurvivorsAre(ps: seq<Pending>, at: seq<nat>)
    requires InRange(ps, at) && NoTwice(at)
    ensures var kept := Survivors(ps, at);
            && NoTwice(kept) && InRange(ps, kept)
            && forall i :: i in kept <==> i in at && KeptFor(ps, at, i) == i
  {
    hide KeptFor;
    ThoseAre(at, IsKept(ps, at));
    var kept := Survivors(ps, at);
    forall k | 0 <= k < |kept| ensures kept[k] < |ps| {
      assert kept[k] in at;
    }
  }

  /** What is kept for an entry is one of the group, is the same resource, and is kept for
      itself. */
  lemma KeptForIs(ps: seq<Pending>, at: seq<nat>, i: nat)
    requires InRange(ps, at) && i in at
    ensures var k := KeptFor(ps, at, i);
            i < |ps| && k in at && k < |ps| && Shape(ps[k]) == Shape(ps[i]) && KeptFor(ps, at, k) == k
  {
    var l := Labelled(ps, Shape, i);
    HavingAre(ps, at, Shape, l);
    hide Shape, Having, Kept;
    var cluster := Having(ps, at, Shape, l);
    assert i in cluster;
    var k := Kept(ps, cluster);
    assert k in cluster && Labelled(ps, Shape, k) == l;
    var n :| 0 <= n < |at| && at[n] == i;
  }

  lemma OneKeptEach(ps: seq<Pending>, at: seq<nat>, i: nat, j: nat)
    requires InRange(ps, at) && i in at && j in at && i < |ps| && j < |ps| && Shape(ps[i]) == Shape(ps[j])
    ensures KeptFor(ps, at, i) == KeptFor(ps, at, j)
  {
    var l := Shape(ps[i]);
    assert Labelled(ps, Shape, i) == l && Labelled(ps, Shape, j) == l;
    HavingAre(ps, at, Shape, l);
    hide Shape, Having, Kept;
    assert i in Having(ps, at, Shape, l);
  }

  // ---- names magic-modules keeps apart -----------------------------------------

  function MagicName(p: Pending, lower: Speller): Option<string> {
    if p.mm.Some? then Some(lower(p.mm.value.name)) else None
  }

  function MagicOf(ps: seq<Pending>, i: nat, lower: Speller): Option<string> {
    if i < |ps| then MagicName(ps[i], lower) else None
  }

  predicate Several(at: seq<nat>) {
    exists i, j :: i in at && j in at && i != j
  }

  /** A group magic-modules keeps apart: every entry has a magic-modules name, no two alike,
      and one of them is the name all want. */
  ghost predicate MagicApart(ps: seq<Pending>, at: seq<nat>, lower: Speller) {
    && Several(at)
    && (forall i | i in at :: MagicOf(ps, i, lower).Some?)
    && (forall i, j | i in at && j in at && i != j :: MagicOf(ps, i, lower) != MagicOf(ps, j, lower))
    && exists i :: i in at && i < |ps| && MagicOf(ps, i, lower) == Some(ps[i].resource)
  }

  // ---- what resolving computes -------------------------------------------------

  /** Who is dropped of a group, and for whom: nobody where magic-modules keeps it apart,
      and otherwise everybody but what is kept of each resource. */
  ghost predicate Dropped(was: seq<Pending>, at: seq<nat>, losers: seq<Loser>, lower: Speller) {
    && (forall i | i in at :: Lost(losers, i) <==> !MagicApart(was, at, lower) && KeptFor(was, at, i) != i)
    && (forall n | 0 <= n < |losers| && losers[n].index in at :: losers[n].winner == KeptFor(was, at, losers[n].index))
  }

  function Walked(p: Pending, w: Walk): Pending {
    p.(resource := w.name, qualified := w.qualified)
  }

  ghost predicate NamedByPath(now: seq<Pending>, was: seq<Pending>, at: seq<nat>, kept: seq<nat>, spell: Speller) {
    && |now| == |was| && InRange(was, kept)
    && (forall i | i in at && i !in kept && i < |was| :: now[i] == was[i])
    && forall k | 0 <= k < |kept| :: now[kept[k]] == Walked(was[kept[k]], Settled(Start(was, kept, spell))[k])
  }

  ghost predicate NamedByMagic(now: seq<Pending>, was: seq<Pending>, at: seq<nat>, lower: Speller) {
    && |now| == |was|
    && forall i | i in at :: i < |was| && MagicOf(was, i, lower).Some? &&
                             now[i] == was[i].(resource := MagicOf(was, i, lower).value)
  }

  /** The names a group ends up with. */
  ghost predicate Named(now: seq<Pending>, was: seq<Pending>, at: seq<nat>, spell: Speller, lower: Speller) {
    if MagicApart(was, at, lower) then NamedByMagic(now, was, at, lower)
    else NamedByPath(now, was, at, Survivors(was, at), spell)
  }

  ghost predicate GroupResolved(now: seq<Pending>, was: seq<Pending>, at: seq<nat>, losers: seq<Loser>, spell: Speller,
                                lower: Speller)
  {
    Dropped(was, at, losers, lower) && Named(now, was, at, spell, lower)
  }

  ghost predicate Once(losers: seq<Loser>) {
    forall a, b | 0 <= a < b < |losers| :: losers[a].index != losers[b].index
  }

  /** What becomes of a corpus: each group is resolved, each loser dropped once, and scoped
      entries are left as they came. */
  ghost predicate CorpusResolved(now: seq<Pending>, was: seq<Pending>, losers: seq<Loser>, spell: Speller, lower: Speller) {
    && |now| == |was| && Once(losers)
    && (forall i: nat | Lost(losers, i) :: i < |was| && was[i].scope == "")
    && (forall i: nat | i < |was| && was[i].scope != "" :: now[i] == was[i])
    && forall tag :: GroupResolved(now, was, Competitors(was, tag), losers, spell, lower)
  }

  // ---- what that means ---------------------------------------------------------

  lemma GroupAt(now: seq<Pending>, was: seq<Pending>, losers: seq<Loser>, spell: Speller, lower: Speller, i: nat)
    returns (at: seq<nat>)
    requires CorpusResolved(now, was, losers, spell, lower) && i < |was| && was[i].scope == ""
    ensures at == Competitors(was, Wanted(was[i])) && GroupResolved(now, was, at, losers, spell, lower)
    ensures NoTwice(at) && InRange(was, at) && i in at && forall j :: j in at <==> Compete(was, i, j)
  {
    hide Wanted, Competitors, GroupResolved;
    at := Competitors(was, Wanted(was[i]));
    CompetitorsAre(was, Wanted(was[i]));
  }

  /** ONE TYPE A RESOURCE: of two entries of a group with one canonical path, one at least is
      dropped, unless magic-modules names the whole group apart; and each loser is dropped for
      the kept entry of its own resource. */
  lemma AliasesAreDropped(now: seq<Pending>, was: seq<Pending>, losers: seq<Loser>, spell: Speller, lower: Speller,
                          i: nat, j: nat)
    requires CorpusResolved(now, was, losers, spell, lower) && Compete(was, i, j) && i != j && Shape(was[i]) == Shape(was[j])
    ensures Lost(losers, i) || Lost(losers, j) || MagicApart(was, Competitors(was, Wanted(was[i])), lower)
  {
    var at := GroupAt(now, was, losers, spell, lower, i);
    assert j in at;
    hide Shape, Wanted, Competitors, MagicApart, Named, KeptFor, Lost;
    OneKeptEach(was, at, i, j);
  }

  lemma LoserIsAnAlias(now: seq<Pending>, was: seq<Pending>, losers: seq<Loser>, spell: Speller, lower: Speller, n: nat)
    requires CorpusResolved(now, was, losers, spell, lower) && n < |losers|
    ensures var l := losers[n];
            && Compete(was, l.index, l.winner) && Shape(was[l.index]) == Shape(was[l.winner])
            && !Lost(losers, l.winner)
            && l.winner == KeptFor(was, Competitors(was, Wanted(was[l.index])), l.index)
  {
    var l := losers[n];
    assert Lost(losers, l.index);
    var at := GroupAt(now, was, losers, spell, lower, l.index);
    hide Shape, Wanted, Competitors, MagicApart, Named, KeptFor, Lost, Compete;
    KeptForIs(was, at, l.index);
  }

  /** The spellings of the resource entry i is share this base url. */
  ghost predicate OneUrl(ps: seq<Pending>, i: nat, url: string) {
    i < |ps| && forall k: nat | Compete(ps, i, k) :: Shape(ps[k]) == Shape(ps[i]) ==> UrlOf(ps[k]) == url
  }

  /** What is kept of a resource is preferred to every other spelling of it, where those
      share a base url. */
  lemma KeptOverAliases(now: seq<Pending>, was: seq<Pending>, losers: seq<Loser>, spell: Speller, lower: Speller,
                        i: nat, j: nat, url: string)
    requires CorpusResolved(now, was, losers, spell, lower) && Compete(was, i, j) && Shape(was[i]) == Shape(was[j])
    requires !Lost(losers, i) && !MagicApart(was, Competitors(was, Wanted(was[i])), lower)
    requires OneUrl(was, i, url)
    ensures Preferred(was[i].path, was[j].path, url)
  {
    var at := GroupAt(now, was, losers, spell, lower, i);
    assert j in at;
    hide Wanted, Competitors, MagicApart, Named, Lost, Preferred, Shape, Compete;
    var cluster := Having(was, at, Shape, Shape(was[i]));
    HavingAre(was, at, Shape, Shape(was[i]));
    hide Having, Kept;
    assert KeptFor(was, at, i) == i;
    assert Labelled(was, Shape, i) == Shape(was[i]) && Labelled(was, Shape, j) == Shape(was[j]);
    assert i in cluster && j in cluster;
    forall k | 0 <= k < |cluster| ensures UrlOf(was[cluster[k]]) == url {
      assert cluster[k] in cluster && Labelled(was, Shape, cluster[k]) == Shape(was[cluster[k]]);
      assert Compete(was, i, cluster[k]);
    }
    KeptIsPreferred(was, cluster, url, j);
  }

  /** The name of an entry that has walked its whole path. */
  function FullName(p: Pending, spell: Speller): string {
    Extended(p.resource, Ahead(p.path, |p.path| - 2, spell))
  }

  lemma WalkedOut(was: seq<Pending>, kept: seq<nat>, spell: Speller, k: nat)
    requires InRange(was, kept) && k < |kept|
    ensures var end := Settled(Start(was, kept, spell));
            end[k].ahead == [] ==> end[k].name == FullName(was[kept[k]], spell)
  {
    hide Settled, Ahead;
    var ws := Start(was, kept, spell);
    var v, w := ws[k], Settled(ws)[k];
    SettledIsWalked(ws, k);
    var n :| 0 <= n <= |v.ahead| && WalkedBy(v, w, n);
    assert w.ahead == [] ==> n == |v.ahead| && v.ahead[..n] == v.ahead;
  }

  lemma PathNamesApart(now: seq<Pending>, was: seq<Pending>, at: seq<nat>, kept: seq<nat>, spell: Speller, i: nat, j: nat)
    requires NamedByPath(now, was, at, kept, spell) && i in kept && j in kept && i != j
    ensures i < |was| && j < |was|
    ensures now[i].resource == now[j].resource ==>
              now[i].resource == FullName(was[i], spell) && now[j].resource == FullName(was[j], spell)
  {
    hide Settled, FullName;
    var k :| 0 <= k < |kept| && kept[k] == i;
    var n :| 0 <= n < |kept| && kept[n] == j;
    SettledIsApart(Start(was, kept, spell), k, n);
    WalkedOut(was, kept, spell, k);
    WalkedOut(was, kept, spell, n);
  }

  /** KEPT ENTRIES ARE TOLD APART: two of one group share a name only if both have walked
      their whole path. */
  lemma KeptAreApart(now: seq<Pending>, was: seq<Pending>, losers: seq<Loser>, spell: Speller, lower: Speller, i: nat, j: nat)
    requires CorpusResolved(now, was, losers, spell, lower) && Compete(was, i, j) && i != j
    requires !Lost(losers, i) && !Lost(losers, j) && now[i].resource == now[j].resource
    ensures now[i].resource == FullName(was[i], spell) && now[j].resource == FullName(was[j], spell)
  {
    var at := GroupAt(now, was, losers, spell, lower, i);
    assert j in at;
    hide Wanted, Competitors, Lost, FullName, NamedByPath, KeptFor, Compete;
    assert Dropped(was, at, losers, lower) && Named(now, was, at, spell, lower);
    if !MagicApart(was, at, lower) {
      SurvivorsAre(was, at);
      PathNamesApart(now, was, at, Survivors(was, at), spell, i, j);
    }
  }

  /** No entry changes but in its name, and no dropped one changes at all. */
  lemma OnlyNamesChange(now: seq<Pending>, was: seq<Pending>, losers: seq<Loser>, spell: Speller, lower: Speller, i: nat)
    requires CorpusResolved(now, was, losers, spell, lower) && i < |was|
    ensures now[i] == was[i].(resource := now[i].resource, qualified := now[i].qualified)
    ensures Lost(losers, i) ==> now[i] == was[i]
  {
    if was[i].scope == "" {
      var at := GroupAt(now, was, losers, spell, lower, i);
      hide Wanted, Competitors, Lost, KeptFor, Settled, Start;
      assert Dropped(was, at, losers, lower) && Named(now, was, at, spell, lower);
      if !MagicApart(was, at, lower) {
        SurvivorsAre(was, at);
        var kept := Survivors(was, at);
        hide MagicApart, Survivors;
        if i in kept {
          var k :| 0 <= k < |kept| && kept[k] == i;
        }
      }
    }
  }
}
