/** The order of the corpus: what internal/gen/collisions.go keeps, drops and names does not
    depend on it, as its notes on ties promise, where base urls agree. */
module Shuffled {
  import opened Values
  import opened Text
  import opened Collisions
  import opened Disambiguate
  import opened Aliases

  /** b is a in another order: its entry k is entry pi[k] of a. */
  ghost predicate Shuffles(pi: seq<nat>, b: seq<Pending>, a: seq<Pending>) {
    && |pi| == |b| && NoTwice(pi)
    && (forall k | 0 <= k < |b| :: pi[k] < |a| && b[k] == a[pi[k]])
    && forall j: nat | j < |a| :: j in pi
  }

  /** y holds the entries of b that x holds of a. */
  ghost predicate Across(pi: seq<nat>, y: seq<nat>, x: seq<nat>) {
    && (forall k | k in y :: k < |pi|)
    && forall k: nat | k < |pi| :: k in y <==> pi[k] in x
  }

  lemma Back(pi: seq<nat>, b: seq<Pending>, a: seq<Pending>, y: seq<nat>, x: seq<nat>, i: nat) returns (k: nat)
    requires Shuffles(pi, b, a) && Across(pi, y, x) && InRange(a, x) && i in x
    ensures k in y && k < |pi| && pi[k] == i
  {
    var n :| 0 <= n < |x| && x[n] == i;
    assert i in pi;
    k :| 0 <= k < |pi| && pi[k] == i;
  }

  lemma Injective(pi: seq<nat>, j: nat, k: nat)
    requires NoTwice(pi) && j < |pi| && k < |pi|
    ensures pi[j] == pi[k] <==> j == k
  {
    if j != k {
      assert if j < k then pi[j] != pi[k] else pi[k] != pi[j];
    }
  }

  lemma AcrossInRange(pi: seq<nat>, b: seq<Pending>, a: seq<Pending>, y: seq<nat>, x: seq<nat>)
    requires Shuffles(pi, b, a) && Across(pi, y, x)
    ensures InRange(b, y)
  {
    forall j | 0 <= j < |y| ensures y[j] < |b| {
      assert y[j] in y;
    }
  }

  lemma HavingAcross(pi: seq<nat>, b: seq<Pending>, a: seq<Pending>, y: seq<nat>, x: seq<nat>, tag: Pending -> string, l: string)
    requires Shuffles(pi, b, a) && Across(pi, y, x)
    ensures Across(pi, Having(b, y, tag, l), Having(a, x, tag, l))
  {
    hide Having;
    HavingAre(b, y, tag, l);
    HavingAre(a, x, tag, l);
    forall k: nat | k < |pi| ensures Labelled(b, tag, k) == Labelled(a, tag, pi[k]) {}
  }

  /** What decides between two spellings of one resource does not depend on which is met
      first: they share a base url, and are spelled apart. */
  ghost predicate Decided(a: seq<Pending>, x: seq<nat>) {
    forall i: nat, j: nat | i in x && j in x && i < |a| && j < |a| && i != j && Shape(a[i]) == Shape(a[j]) ::
      UrlOf(a[i]) == UrlOf(a[j]) && Join(a[i].path, '.') != Join(a[j].path, '.')
  }

  lemma ClusterOf(ps: seq<Pending>, at: seq<nat>, i: nat) returns (cluster: seq<nat>)
    requires InRange(ps, at) && i in at
    ensures i < |ps| && cluster == Having(ps, at, Shape, Shape(ps[i])) && cluster != [] && InRange(ps, cluster)
    ensures KeptFor(ps, at, i) == Kept(ps, cluster)
    ensures forall j :: j in cluster <==> j in at && j < |ps| && Shape(ps[j]) == Shape(ps[i])
  {
    var n :| 0 <= n < |at| && at[n] == i;
    var l := Labelled(ps, Shape, i);
    assert l == Shape(ps[i]);
    cluster := Having(ps, at, Shape, l);
    HavingAre(ps, at, Shape, l);
    hide Having, Kept, Shape;
    assert i in cluster;
    forall j ensures j in cluster <==> j in at && j < |ps| && Shape(ps[j]) == l {
      if j in at {
        var m :| 0 <= m < |at| && at[m] == j;
        assert Labelled(ps, Shape, j) == Shape(ps[j]);
      }
    }
  }

  lemma ClusterUrl(ps: seq<Pending>, x: seq<nat>, cluster: seq<nat>, i: nat)
    requires Decided(ps, x) && InRange(ps, cluster) && i in x && i < |ps|
    requires forall j | j in cluster :: j in x && j < |ps| && Shape(ps[j]) == Shape(ps[i])
    ensures ShareUrl(ps, cluster, UrlOf(ps[i]))
  {
    hide Shape, UrlOf;
    forall k | 0 <= k < |cluster| ensures UrlOf(ps[cluster[k]]) == UrlOf(ps[i]) {
      assert cluster[k] in cluster;
    }
  }

  lemma SamePaths(pi: seq<nat>, b: seq<Pending>, a: seq<Pending>, y: seq<nat>, x: seq<nat>)
    requires Shuffles(pi, b, a) && Across(pi, y, x) && InRange(a, x) && InRange(b, y)
    ensures PathsOf(b, y) == PathsOf(a, x)
  {
    forall p | p in PathsOf(b, y) ensures p in PathsOf(a, x) {
      var j :| 0 <= j < |y| && b[y[j]].path == p;
      assert y[j] in y && pi[y[j]] in x;
      var i :| 0 <= i < |x| && x[i] == pi[y[j]];
      assert a[x[i]].path == p;
    }
    forall p | p in PathsOf(a, x) ensures p in PathsOf(b, y) {
      var i :| 0 <= i < |x| && a[x[i]].path == p;
      assert x[i] in x;
      var k := Back(pi, b, a, y, x, x[i]);
      var j :| 0 <= j < |y| && y[j] == k;
      assert b[y[j]].path == p;
    }
  }

  lemma DecidedAcross(pi: seq<nat>, b: seq<Pending>, a: seq<Pending>, y: seq<nat>, x: seq<nat>)
    requires Shuffles(pi, b, a) && Across(pi, y, x) && Decided(a, x)
    ensures Decided(b, y)
  {
    hide Shape, UrlOf, Join;
    forall i: nat, j: nat | i in y && j in y && i < |b| && j < |b| && i != j && Shape(b[i]) == Shape(b[j])
      ensures UrlOf(b[i]) == UrlOf(b[j]) && Join(b[i].path, '.') != Join(b[j].path, '.')
    {
      Injective(pi, i, j);
      assert pi[i] in x && pi[j] in x;
    }
  }

  /** One entry is kept of a resource, however the corpus is ordered. */
  lemma KeptAcross(pi: seq<nat>, b: seq<Pending>, a: seq<Pending>, y: seq<nat>, x: seq<nat>, k: nat)
    requires Shuffles(pi, b, a) && Across(pi, y, x) && InRange(a, x) && Decided(a, x) && k in y
    ensures KeptFor(b, y, k) in y && KeptFor(b, y, k) < |pi| && k < |pi|
    ensures pi[KeptFor(b, y, k)] == KeptFor(a, x, pi[k])
  {
    AcrossInRange(pi, b, a, y, x);
    DecidedAcross(pi, b, a, y, x);
    KeptForIs(b, y, k);
    var i := pi[k];
    KeptForIs(a, x, i);
    var p := ClusterOf(b, y, k);
    var q := ClusterOf(a, x, i);
    HavingAcross(pi, b, a, y, x, Shape, Shape(a[i]));
    SamePaths(pi, b, a, p, q);
    ClusterUrl(b, y, p, k);
    ClusterUrl(a, x, q, i);
    WinnerIgnoresOrder(b, p, a, q, UrlOf(a[i]));
    hide Shape, UrlOf, Join, Kept, KeptFor, Having;
    assert pi[KeptFor(b, y, k)] in x;
  }

  lemma SurvivorsAcross(pi: seq<nat>, b: seq<Pending>, a: seq<Pending>, y: seq<nat>, x: seq<nat>)
    requires Shuffles(pi, b, a) && Across(pi, y, x) && InRange(a, x) && Decided(a, x) && NoTwice(x) && NoTwice(y)
    ensures Across(pi, Survivors(b, y), Survivors(a, x))
  {
    AcrossInRange(pi, b, a, y, x);
    SurvivorsAre(b, y);
    SurvivorsAre(a, x);
    hide Survivors, KeptFor, Decided, NoTwice;
    forall k: nat | k < |pi| ensures k in Survivors(b, y) <==> pi[k] in Survivors(a, x) {
      if k in y {
        KeptAcross(pi, b, a, y, x, k);
        Injective(pi, KeptFor(b, y, k), k);
      }
    }
  }

  lemma MagicAcross(pi: seq<nat>, b: seq<Pending>, a: seq<Pending>, y: seq<nat>, x: seq<nat>, lower: Speller)
    requires Shuffles(pi, b, a) && Across(pi, y, x) && InRange(a, x)
    ensures MagicApart(b, y, lower) <==> MagicApart(a, x, lower)
  {
    hide MagicName;
    forall k | k in y ensures pi[k] in x && MagicOf(b, k, lower) == MagicOf(a, pi[k], lower) {}
    if MagicApart(b, y, lower) {
      MagicThere(pi, b, a, y, x, lower);
    }
    if MagicApart(a, x, lower) {
      MagicBack(pi, b, a, y, x, lower);
    }
  }

  lemma MagicThere(pi: seq<nat>, b: seq<Pending>, a: seq<Pending>, y: seq<nat>, x: seq<nat>, lower: Speller)
    requires Shuffles(pi, b, a) && Across(pi, y, x) && InRange(a, x) && MagicApart(b, y, lower)
    requires forall k | k in y :: pi[k] in x && MagicOf(b, k, lower) == MagicOf(a, pi[k], lower)
    ensures MagicApart(a, x, lower)
  {
    var m, n :| m in y && n in y && m != n;
    Injective(pi, m, n);
    assert Several(x);
    forall i | i in x ensures MagicOf(a, i, lower).Some? {
      var k := Back(pi, b, a, y, x, i);
    }
    forall i, j | i in x && j in x && i != j ensures MagicOf(a, i, lower) != MagicOf(a, j, lower) {
      var k := Back(pi, b, a, y, x, i);
      var l := Back(pi, b, a, y, x, j);
    }
    var k :| k in y && k < |b| && MagicOf(b, k, lower) == Some(b[k].resource);
    assert pi[k] in x;
  }

  lemma MagicBack(pi: seq<nat>, b: seq<Pending>, a: seq<Pending>, y: seq<nat>, x: seq<nat>, lower: Speller)
    requires Shuffles(pi, b, a) && Across(pi, y, x) && InRange(a, x) && MagicApart(a, x, lower)
    requires forall k | k in y :: pi[k] in x && MagicOf(b, k, lower) == MagicOf(a, pi[k], lower)
    ensures MagicApart(b, y, lower)
  {
    var i, j :| i in x && j in x && i != j;
    var k := Back(pi, b, a, y, x, i);
    var l := Back(pi, b, a, y, x, j);
    assert Several(y);
    forall m, n | m in y && n in y && m != n ensures MagicOf(b, m, lower) != MagicOf(b, n, lower) {
      Injective(pi, m, n);
    }
    var p :| p in x && p < |a| && MagicOf(a, p, lower) == Some(a[p].resource);
    var q := Back(pi, b, a, y, x, p);
  }

  // ---- names -------------------------------------------------------------------

  function PositionOf(x: seq<nat>, i: nat): (n: nat)
    requires i in x
    ensures n < |x| && x[n] == i
  {
    if x[0] == i then 0 else 1 + PositionOf(x[1..], i)
  }

  /** Where each of these stands among those. */
  function Positions(pi: seq<nat>, y: seq<nat>, x: seq<nat>): (f: seq<nat>)
    requires forall n | 0 <= n < |y| :: y[n] < |pi| && pi[y[n]] in x
    ensures |f| == |y| && forall n | 0 <= n < |y| :: f[n] < |x| && x[f[n]] == pi[y[n]]
  {
    seq(|y|, n requires 0 <= n < |y| => PositionOf(x, pi[y[n]]))
  }

  lemma WalksAcross(pi: seq<nat>, b: seq<Pending>, a: seq<Pending>, y: seq<nat>, x: seq<nat>, spell: Speller)
    requires Shuffles(pi, b, a) && Across(pi, y, x) && InRange(a, x) && InRange(b, y) && NoTwice(x) && NoTwice(y)
    ensures (forall n | 0 <= n < |y| :: y[n] < |pi| && pi[y[n]] in x) && Reorders(Positions(pi, y, x), Start(b, y, spell), Start(a, x, spell))
  {
    hide StartOf;
    forall n | 0 <= n < |y| ensures y[n] < |pi| && pi[y[n]] in x {
      assert y[n] in y;
    }
    var f := Positions(pi, y, x);
    forall m, n | 0 <= m < n < |f| ensures f[m] != f[n] {
      assert y[m] in y && y[n] in y;
      Injective(pi, y[m], y[n]);
    }
    forall n | 0 <= n < |f| ensures Start(b, y, spell)[n] == Start(a, x, spell)[f[n]] {
      assert y[n] in y;
    }
    forall j: nat | j < |x| ensures j in f {
      assert x[j] in x;
      var k := Back(pi, b, a, y, x, x[j]);
      var n :| 0 <= n < |y| && y[n] == k;
      Injective(x, f[n], j);
      assert f[n] == j;
    }
  }

  lemma NamesAcross(pi: seq<nat>, b: seq<Pending>, a: seq<Pending>, y: seq<nat>, x: seq<nat>, s: seq<nat>, t: seq<nat>,
                    nowB: seq<Pending>, nowA: seq<Pending>, spell: Speller, k: nat)
    requires Shuffles(pi, b, a) && Across(pi, y, x) && Across(pi, s, t) && NoTwice(s) && NoTwice(t) && k in y
    requires NamedByPath(nowB, b, y, s, spell) && NamedByPath(nowA, a, x, t, spell)
    ensures k < |nowB| && pi[k] < |nowA| && nowB[k] == nowA[pi[k]]
  {
    hide Settled, Walked, StartOf;
    if k in s {
      WalksAcross(pi, b, a, s, t, spell);
      var f := Positions(pi, s, t);
      SettledIgnoresOrder(f, Start(b, s, spell), Start(a, t, spell));
      var n :| 0 <= n < |s| && s[n] == k;
      assert t[f[n]] == pi[k];
    }
  }

  lemma GroupAcross(pi: seq<nat>, b: seq<Pending>, a: seq<Pending>, y: seq<nat>, x: seq<nat>, nowB: seq<Pending>,
                    nowA: seq<Pending>, losersB: seq<Loser>, losersA: seq<Loser>, spell: Speller, lower: Speller, k: nat)
    requires Shuffles(pi, b, a) && Across(pi, y, x) && InRange(a, x) && Decided(a, x) && NoTwice(x) && NoTwice(y) && k in y
    requires GroupResolved(nowB, b, y, losersB, spell, lower) && GroupResolved(nowA, a, x, losersA, spell, lower)
    ensures k < |nowB| && pi[k] < |nowA| && nowB[k] == nowA[pi[k]]
    ensures Lost(losersB, k) <==> Lost(losersA, pi[k])
  {
    AcrossInRange(pi, b, a, y, x);
    MagicAcross(pi, b, a, y, x, lower);
    KeptAcross(pi, b, a, y, x, k);
    Injective(pi, KeptFor(b, y, k), k);
    assert Dropped(b, y, losersB, lower) && Dropped(a, x, losersA, lower);
    assert Named(nowB, b, y, spell, lower) && Named(nowA, a, x, spell, lower);
    assert k in y && pi[k] in x;
    hide MagicApart, KeptFor, Lost, Decided, Survivors, NamedByPath, NoTwice;
    assert Lost(losersB, k) <==> Lost(losersA, pi[k]);
    if !MagicApart(b, y, lower) {
      SurvivorsAcross(pi, b, a, y, x);
      SurvivorsAre(b, y);
      SurvivorsAre(a, x);
      NamesAcross(pi, b, a, y, x, Survivors(b, y), Survivors(a, x), nowB, nowA, spell, k);
    }
  }

  lemma GroupsAcross(pi: seq<nat>, b: seq<Pending>, a: seq<Pending>, tag: string)
    requires Shuffles(pi, b, a)
    ensures Across(pi, Competitors(b, tag), Competitors(a, tag))
  {
    hide Competitors, Wanted;
    CompetitorsAre(b, tag);
    CompetitorsAre(a, tag);
  }

  /** THE ORDER OF THE CORPUS DOES NOT MATTER: where the spellings of each resource share a
      base url and are spelled apart, the same entries are dropped and every entry ends up
      with the same name, in whatever order the corpus is given. */
  lemma CorpusOrderDoesNotMatter(pi: seq<nat>, b: seq<Pending>, a: seq<Pending>, nowB: seq<Pending>, nowA: seq<Pending>,
                                 losersB: seq<Loser>, losersA: seq<Loser>, spell: Speller, lower: Speller, k: nat)
    requires Shuffles(pi, b, a) && k < |b|
    requires CorpusResolved(nowB, b, losersB, spell, lower) && CorpusResolved(nowA, a, losersA, spell, lower)
    requires forall tag :: Decided(a, Competitors(a, tag))
    ensures k < |nowB| && pi[k] < |nowA| && nowB[k] == nowA[pi[k]]
    ensures Lost(losersB, k) <==> Lost(losersA, pi[k])
  {
    if b[k].scope == "" {
      var tag := Wanted(b[k]);
      hide Decided, GroupResolved, Wanted, Competitors, Lost;
      GroupsAcross(pi, b, a, tag);
      CompetitorsAre(b, tag);
      CompetitorsAre(a, tag);
      assert GroupResolved(nowB, b, Competitors(b, tag), losersB, spell, lower);
      assert GroupResolved(nowA, a, Competitors(a, tag), losersA, spell, lower);
      GroupAcross(pi, b, a, Competitors(b, tag), Competitors(a, tag), nowB, nowA, losersB, losersA, spell, lower, k);
    } else {
      hide GroupResolved, Decided, Competitors, Wanted;
    }
  }
}
