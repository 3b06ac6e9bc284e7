/** Types of one service that want the same name (internal/gen/collisions.go). */
module Collisions {
  import opened Values
  import opened Text

  type Segments = seq<string>

  // ---- which of two spellings of one resource to keep --------------------------

  predicate Rooted(p: Segments) {
    p != [] && p[0] == "projects"
  }

  function CanonicalPath(p: Segments): Segments {
    var out := if Rooted(p) then p[1..] else p;
    if out != [] && (out[0] == "zones" || out[0] == "regions") then ["locations"] + out[1..] else out
  }

  function Unrooted(p: Segments): Segments {
    if Rooted(p) then p[1..] else p
  }

  predicate IsAxis(s: string) {
    s == "zones" || s == "regions" || s == "locations"
  }

  /** WHICH PATHS ARE ONE RESOURCE: those that differ only in their root and in the spelling
      of the axis right after it. */
  lemma CanonicalPathsMatch(a: Segments, b: Segments)
    ensures CanonicalPath(a) == CanonicalPath(b) <==>
            var x, y := Unrooted(a), Unrooted(b);
            x == y || (x != [] && y != [] && IsAxis(x[0]) && IsAxis(y[0]) && x[1..] == y[1..])
  {
    var x, y := Unrooted(a), Unrooted(b);
    assert x != [] ==> x == [x[0]] + x[1..];
    assert y != [] ==> y == [y[0]] + y[1..];
    var u, v := CanonicalPath(a), CanonicalPath(b);
    assert x != [] ==> u[1..] == x[1..] && u[0] == if x[0] == "zones" || x[0] == "regions" then "locations" else x[0];
    assert y != [] ==> v[1..] == y[1..] && v[0] == if y[0] == "zones" || y[0] == "regions" then "locations" else y[0];
    assert u != [] ==> u == [u[0]] + u[1..];
    assert v != [] ==> v == [v[0]] + v[1..];
  }

  function AxisWord(p: Segments): string {
    if |p| > 2 && p[0] == "projects" then p[1] else if |p| > 1 && p[0] != "projects" then p[0] else ""
  }

  predicate Mentions(url: string, axis: string) {
    axis != "" && Index(url, "/" + axis + "/").Some?
  }

  predicate Preferred(a: Segments, b: Segments, url: string) {
    var x, y := AxisWord(a), AxisWord(b);
    if Rooted(a) != Rooted(b) then Rooted(a)
    else if x != y && (x == "locations" || y == "locations") then x == "locations"
    else if url != "" && Mentions(url, x) != Mentions(url, y) then Mentions(url, x)
    else Le(Join(a, '.'), Join(b, '.'))
  }

  /** PREFERENCE IS AN ORDER of paths, for any one base url: total, transitive, and a tie
      only between paths spelled alike. */
  lemma PreferenceIsOrder(a: Segments, b: Segments, c: Segments, url: string)
    ensures Preferred(a, b, url) || Preferred(b, a, url)
    ensures Preferred(a, b, url) && Preferred(b, c, url) ==> Preferred(a, c, url)
    ensures Preferred(a, b, url) && Preferred(b, a, url) ==> Join(a, '.') == Join(b, '.')
  {
    hide Mentions;
    LeTotal(Join(a, '.'), Join(b, '.'));
    if Le(Join(a, '.'), Join(b, '.')) && Le(Join(b, '.'), Join(c, '.')) {
      LeTransitive(Join(a, '.'), Join(b, '.'), Join(c, '.'));
    }
    if Le(Join(a, '.'), Join(b, '.')) && Le(Join(b, '.'), Join(a, '.')) {
      LeAntisymmetric(Join(a, '.'), Join(b, '.'));
    }
  }

  // ---- the winner of a cluster -------------------------------------------------

  /** A collection on its way to becoming a type: `mm` is the name and base url its
      magic-modules resource has, if there is one. */
  datatype Pending = Pending(doc: string, resource: string, scope: string, qualified: bool, path: Segments,
                             mm: Option<MagicModule>)
  datatype MagicModule = MagicModule(name: string, baseURL: string)

  function UrlOf(p: Pending): string {
    if p.mm.Some? then p.mm.value.baseURL else ""
  }

  predicate InRange(ps: seq<Pending>, members: seq<nat>) {
    forall j | 0 <= j < |members| :: members[j] < |ps|
  }

  /** The winner so far, w, against the rest of its cluster. */
  function Winner(ps: seq<Pending>, rest: seq<nat>, w: nat): (best: nat)
    requires w < |ps| && InRange(ps, rest)
    ensures best < |ps| && (best == w || best in rest)
  {
    if rest == [] then w
    else Winner(ps, rest[1..], if Preferred(ps[rest[0]].path, ps[w].path, UrlOf(ps[w])) then rest[0] else w)
  }

  /** Which member of a cluster is kept. */
  function Kept(ps: seq<Pending>, members: seq<nat>): (best: nat)
    requires members != [] && InRange(ps, members)
    ensures best < |ps| && best in members
  {
    Winner(ps, members[1..], members[0])
  }

  predicate ShareUrl(ps: seq<Pending>, members: seq<nat>, url: string)
    requires InRange(ps, members)
  {
    forall j | 0 <= j < |members| :: UrlOf(ps[members[j]]) == url
  }

  lemma {:induction false} WinnerIsPreferred(ps: seq<Pending>, rest: seq<nat>, w: nat, url: string)
    requires w < |ps| && InRange(ps, rest) && UrlOf(ps[w]) == url && ShareUrl(ps, rest, url)
    ensures var best := Winner(ps, rest, w);
            Preferred(ps[best].path, ps[w].path, url) &&
            forall j | 0 <= j < |rest| :: Preferred(ps[best].path, ps[rest[j]].path, url)
    decreases |rest|
  {
    hide Preferred;
    PreferenceIsOrder(ps[w].path, ps[w].path, ps[w].path, url);
    if rest != [] {
      var next := if Preferred(ps[rest[0]].path, ps[w].path, url) then rest[0] else w;
      WinnerIsPreferred(ps, rest[1..], next, url);
      var best := Winner(ps, rest, w);
      PreferenceIsOrder(ps[rest[0]].path, ps[w].path, ps[w].path, url);
      PreferenceIsOrder(ps[best].path, ps[next].path, ps[w].path, url);
      PreferenceIsOrder(ps[best].path, ps[next].path, ps[rest[0]].path, url);
      assert forall j | 0 < j < |rest| :: rest[j] == rest[1..][j - 1];
    }
  }

  /** Where a cluster's members share a base url, the one kept is preferred to them all: it
      is rooted at projects if any is, and of those rooted like it on the locations axis if
      any is. */
  lemma KeptIsPreferred(ps: seq<Pending>, members: seq<nat>, url: string, i: nat)
    requires members != [] && InRange(ps, members) && ShareUrl(ps, members, url) && i in members
    ensures var kept := ps[Kept(ps, members)].path;
            && i < |ps| && Preferred(kept, ps[i].path, url)
            && (Rooted(ps[i].path) ==> Rooted(kept))
            && (Rooted(ps[i].path) == Rooted(kept) && AxisWord(ps[i].path) == "locations" ==> AxisWord(kept) == "locations")
  {
    WinnerIsPreferred(ps, members[1..], members[0], url);
    var j :| 0 <= j < |members| && members[j] == i;
    assert j > 0 ==> members[1..][j - 1] == i;
    PreferredRules(ps[Kept(ps, members)].path, ps[i].path, url);
    hide Preferred, AxisWord;
  }

  lemma PreferredRules(a: Segments, b: Segments, url: string)
    ensures Preferred(a, b, url) && Rooted(b) ==> Rooted(a)
    ensures Preferred(a, b, url) && Rooted(a) == Rooted(b) && AxisWord(b) == "locations" ==> AxisWord(a) == "locations"
  {
    hide Mentions;
  }

  function PathsOf(ps: seq<Pending>, members: seq<nat>): set<Segments>
    requires InRange(ps, members)
  {
    set j | 0 <= j < |members| :: ps[members[j]].path
  }

  /** THE WINNER DOES NOT DEPEND ON THE ORDER a cluster is met in, where its members share
      a base url: one set of paths, met in any order in any two corpora, keeps one path. */
  lemma WinnerIgnoresOrder(ps: seq<Pending>, a: seq<nat>, qs: seq<Pending>, b: seq<nat>, url: string)
    requires a != [] && b != [] && InRange(ps, a) && InRange(qs, b)
    requires PathsOf(ps, a) == PathsOf(qs, b) && ShareUrl(ps, a, url) && ShareUrl(qs, b, url)
    ensures Join(ps[Kept(ps, a)].path, '.') == Join(qs[Kept(qs, b)].path, '.')
  {
    hide Preferred, Winner, Kept;
    var x, y := Kept(ps, a), Kept(qs, b);
    assert ps[x].path in PathsOf(qs, b) && qs[y].path in PathsOf(ps, a);
    var j :| 0 <= j < |b| && qs[b[j]].path == ps[x].path;
    var i :| 0 <= i < |a| && ps[a[i]].path == qs[y].path;
    KeptIsPreferred(ps, a, url, a[i]);
    KeptIsPreferred(qs, b, url, b[j]);
    PreferenceIsOrder(ps[x].path, qs[y].path, ps[x].path, url);
  }

  // ---- where the base urls differ ----------------------------------------------

  /** A base url on the zones axis. */
  predicate Zonal(url: string) {
    Mentions(url, "zones") && !Mentions(url, "regions")
  }

  /** Two spellings of one resource whose preference a base url decides: one on the zones
      axis and one on the regions axis, below the same root. */
  predicate UrlDecides(a: Segments, b: Segments) {
    && Rooted(a) == Rooted(b)
    && ((AxisWord(a) == "zones" && AxisWord(b) == "regions") || (AxisWord(a) == "regions" && AxisWord(b) == "zones"))
  }

  lemma {:induction false} LeAfter(p: string, a: string, b: string)
    ensures Le(p + a, p + b) <==> Le(a, b)
  {
    if p == "" {
      assert p + a == a && p + b == b;
    } else {
      assert (p + a)[1..] == p[1..] + a && (p + b)[1..] == p[1..] + b;
      LeAfter(p[1..], a, b);
    }
  }

  lemma JoinStarts(p: Segments)
    requires |p| > 1
    ensures Join(p, '.') == p[0] + ("." + Join(p[1..], '.'))
  {}

  /** Of a regions path and a zones path the regions one sorts first. */
  lemma RegionsFirst(a: Segments, b: Segments)
    requires UrlDecides(a, b)
    ensures Le(Join(a, '.'), Join(b, '.')) <==> AxisWord(a) == "regions"
  {
    assert |"zones"| != |"regions"|;
    JoinStarts(a);
    JoinStarts(b);
    hide Join;
    if Rooted(a) {
      JoinStarts(a[1..]);
      JoinStarts(b[1..]);
      LeAfter("projects", "." + Join(a[1..], '.'), "." + Join(b[1..], '.'));
      LeAfter(".", Join(a[1..], '.'), Join(b[1..], '.'));
    }
  }

  /** What a base url says of two spellings of one resource. */
  lemma PreferenceByUrl(a: Segments, b: Segments, url: string)
    requires UrlDecides(a, b)
    ensures Preferred(a, b, url) <==> AxisWord(a) == if Zonal(url) then "zones" else "regions"
  {
    RegionsFirst(a, b);
    assert |"zones"| != |"regions"| && |"locations"| != |"zones"| && |"locations"| != |"regions"|;
    assert url == "" ==> !Mentions(url, "zones");
    hide Join, Rooted, AxisWord, Mentions;
  }

  lemma PreferenceWithoutUrl(a: Segments, b: Segments, u: string, v: string)
    requires CanonicalPath(a) == CanonicalPath(b) && !UrlDecides(a, b)
    ensures Preferred(a, b, u) == Preferred(a, b, v)
  {
    var x, y := AxisWord(a), AxisWord(b);
    CanonicalPathsMatch(a, b);
    assert Rooted(a) == Rooted(b) && x != y ==> IsAxis(x) && IsAxis(y);
    hide Mentions, Join;
  }

  /** WHEN THE ORDER DECIDES: of two spellings of one resource, the path kept depends on
      which is met first exactly when one is on the zones axis and the other on the regions
      axis, below one root, and just one of their base urls is on the zones axis. */
  lemma OrderDecidesIff(ps: seq<Pending>, i: nat, j: nat)
    requires i < |ps| && j < |ps| && CanonicalPath(ps[i].path) == CanonicalPath(ps[j].path)
    requires Join(ps[i].path, '.') != Join(ps[j].path, '.')
    ensures ps[Kept(ps, [i, j])].path != ps[Kept(ps, [j, i])].path <==>
            UrlDecides(ps[i].path, ps[j].path) && Zonal(UrlOf(ps[i])) != Zonal(UrlOf(ps[j]))
  {
    var a, b, u, v := ps[i].path, ps[j].path, UrlOf(ps[i]), UrlOf(ps[j]);
    assert [i, j][1..] == [j] && [j, i][1..] == [i];
    OneRival(ps, j, i);
    OneRival(ps, i, j);
    PreferenceIsOrder(a, b, a, u);
    PreferenceIsOrder(a, b, a, v);
    if UrlDecides(a, b) {
      PreferenceByUrl(a, b, u);
      PreferenceByUrl(a, b, v);
      assert |"zones"| != |"regions"|;
    } else {
      PreferenceWithoutUrl(a, b, u, v);
    }
    hide Preferred, CanonicalPath, Join, Zonal, UrlDecides;
  }

  const ZONAL := Pending("d", "r", "", false, ["zones", "rs"], Some(MagicModule("A", "/regions/")))
  const REGIONAL := Pending("d", "r", "", false, ["regions", "rs"], Some(MagicModule("B", "/zones/")))

  /** An instance: each of these two is preferred by the other's base url. */
  lemma WinnerDependsOnOrder()
    ensures CanonicalPath(ZONAL.path) == CanonicalPath(REGIONAL.path)
    ensures Kept([ZONAL, REGIONAL], [0, 1]) == 1 && Kept([ZONAL, REGIONAL], [1, 0]) == 0
  {
    EachPrefersTheOther();
    hide Preferred;
    assert CanonicalPath(ZONAL.path) == ["locations", "rs"] && CanonicalPath(REGIONAL.path) == ["locations", "rs"];
    assert [0, 1][1..] == [1] && [1, 0][1..] == [0];
    OneRival([ZONAL, REGIONAL], 1, 0);
    OneRival([ZONAL, REGIONAL], 0, 1);
  }

  lemma EachPrefersTheOther()
    ensures Preferred(REGIONAL.path, ZONAL.path, UrlOf(ZONAL)) && Preferred(ZONAL.path, REGIONAL.path, UrlOf(REGIONAL))
  {
    assert "/" + "regions" + "/" == "/regions/" && "/" + "zones" + "/" == "/zones/";
    OwnAxisWins("regions", "zones", "rs");
    OwnAxisWins("zones", "regions", "rs");
    hide Preferred;
  }

  lemma OwnAxisWins(x: string, y: string, leaf: string)
    requires |x| != |y| && x != "" && y != "" && '/' !in x && '/' !in y
    requires x != "projects" && y != "projects" && x != "locations" && y != "locations"
    ensures Preferred([x, leaf], [y, leaf], "/" + x + "/")
  {
    MentionsOnly(x, y);
    hide Mentions;
  }

  lemma OneRival(ps: seq<Pending>, i: nat, w: nat)
    requires i < |ps| && w < |ps|
    ensures Winner(ps, [i], w) == if Preferred(ps[i].path, ps[w].path, UrlOf(ps[w])) then i else w
  {
    hide Preferred;
    assert [i][1..] == [];
  }

  lemma MentionsOnly(axis: string, other: string)
    requires |axis| != |other| && axis != "" && other != "" && '/' !in axis && '/' !in other
    ensures Mentions("/" + axis + "/", axis) && !Mentions("/" + axis + "/", other)
  {
    var url, mark := "/" + axis + "/", "/" + other + "/";
    assert OccursAt(url, url, 0) by {
      assert url[0..|url|] == url;
    }
    forall i: nat ensures !OccursAt(url, mark, i) {
      if i + |mark| <= |url| {
        var found, end := url[i..i + |mark|], |mark| - 1;
        assert mark[0] == '/' && mark[end] == '/';
        if i > 0 {
          assert found[0] == axis[i - 1] && axis[i - 1] in axis;
        } else {
          assert found[end] == axis[end - 1] && axis[end - 1] in axis;
        }
      }
    }
  }
}
