/** Reducing an absolute self link to a relative resource name (internal/gcprov/ids.go).

    The scheme, the host and the api's own path are cut away, up to the first place where the
    type's item path begins at a segment. A name may hold that path again further on, so it
    matters that the first such place is taken. */
module SelfLinks {
  import opened Values
  import opened Text

  /** p stands at i, at the start of a path segment. */
  predicate Anchored(path: string, p: string, i: nat) {
    OccursAt(path, p, i) && (i == 0 || path[i - 1] == '/')
  }

  /** The first place in path, from on, where p is anchored. */
  function FirstAnchored(path: string, p: string, from: nat): (r: Option<nat>)
    ensures r.Some? ==> from <= r.value < |path| && Anchored(path, p, r.value) &&
                        forall i | from <= i < r.value :: !Anchored(path, p, i)
    ensures r.None? ==> forall i | from <= i < |path| :: !Anchored(path, p, i)
    decreases |path| - from
  {
    if from >= |path| then None
    else if Anchored(path, p, from) then Some(from)
    else FirstAnchored(path, p, from + 1)
  }

  /** firstAnchoredIndex, which leaps from one occurrence to the next. */
  method FirstAnchoredIndex(path: string, p: string) returns (r: Option<nat>)
    ensures r == FirstAnchored(path, p, 0)
  {
    hide Index, OccursAt, FirstAnchored;
    Land(path, p, |path|);
    var off: nat := 0;
    while off < |path|
      invariant off <= |path|
      invariant FirstAnchored(path, p, 0) == FirstAnchored(path, p, off)
    {
      var rel := Index(path[off..], p);
      OccursFrom(path, p, off);
      if rel.None? {
        Skip(path, p, off, |path|);
        return None;
      }
      var i := rel.value + off;
      OccursInside(path, p, off, i);
      Skip(path, p, off, i);
      Land(path, p, i);
      if i == 0 || path[i - 1] == '/' {
        return Some(i);
      }
      off := i + 1;
    }
    return None;
  }

  lemma Land(path: string, p: string, i: nat)
    requires i <= |path|
    ensures i == |path| ==> FirstAnchored(path, p, i) == None
    ensures i < |path| && OccursAt(path, p, i) ==>
              FirstAnchored(path, p, i) == if i == 0 || path[i - 1] == '/' then Some(i) else FirstAnchored(path, p, i + 1)
  {}

  /** The next occurrence starts before the end, since off does. */
  lemma OccursInside(path: string, p: string, off: nat, i: nat)
    requires off < |path| && off <= i && OccursAt(path, p, i) && forall j: nat | off <= j < i :: !OccursAt(path, p, j)
    ensures i < |path|
  {
    assert p == "" ==> OccursAt(path, p, off);
  }

  /** Searching a suffix is searching from there on. */
  lemma OccursFrom(path: string, p: string, off: nat)
    requires off <= |path|
    ensures var rel := Index(path[off..], p);
            && (rel.Some? ==> OccursAt(path, p, off + rel.value))
            && forall j: nat | off <= j && (rel.Some? ==> j < off + rel.value) :: !OccursAt(path, p, j)
  {
    var rel := Index(path[off..], p);
    forall j: nat | off <= j ensures OccursAt(path[off..], p, j - off) <==> OccursAt(path, p, j) {
      if j + |p| <= |path| {
        assert path[off..][j - off..j - off + |p|] == path[j..j + |p|];
      }
    }
    assert rel.Some? ==> OccursAt(path[off..], p, off + rel.value - off);
  }

  /** Nothing is passed over on the way to the next occurrence. */
  lemma {:induction false} Skip(path: string, p: string, off: nat, i: nat)
    requires off <= i <= |path| && forall j: nat | off <= j < i :: !OccursAt(path, p, j)
    ensures FirstAnchored(path, p, off) == FirstAnchored(path, p, i)
    decreases i - off
  {
    if off < i {
      Skip(path, p, off + 1, i);
    }
  }

  // ---- reduction ---------------------------------------------------------------

  const SCHEME_END := "://"

  /** urlPath: a url's path, without scheme, host and leading "/". */
  function UrlPath(u: string): string {
    var i := Index(u, SCHEME_END);
    var rest := if i.None? then u else FromSlash(u[i.value + 3..]);
    if HasPrefix(rest, "/") then rest[1..] else rest
  }

  /** What follows a host, from its "/" on. */
  function FromSlash(u: string): string {
    if u == "" || u[0] == '/' then u else FromSlash(u[1..])
  }

  /** What every one of a type's own urls starts with, after the host. */
  function ApiPrefix(apiBaseURL: string, pathPrefix: string): string {
    UrlPath(apiBaseURL) + pathPrefix
  }

  /** The relative name of a self link; None is an error. */
  function Reduced(prefix: string, raw: string): Option<string> {
    var path := UrlPath(raw);
    var i := FirstAnchored(path, prefix, 0);
    if prefix == "" || i.None? then None else Some(path[i.value + |prefix|..])
  }

  method ReduceSelfLink(apiBaseURL: string, pathPrefix: string, raw: string) returns (name: Option<string>)
    ensures name == Reduced(ApiPrefix(apiBaseURL, pathPrefix), raw)
  {
    var prefix := ApiPrefix(apiBaseURL, pathPrefix);
    if prefix == "" {
      return None;
    }
    var path := UrlPath(raw);
    var i := FirstAnchoredIndex(path, prefix);
    return if i.Some? then Some(path[i.value + |prefix|..]) else None;
  }

  lemma {:induction false} PathAfterHost(host: string, path: string)
    requires '/' !in host
    ensures FromSlash(host + "/" + path) == "/" + path
  {
    var u := host + "/" + path;
    if host == "" {
      assert u == "/" + path;
    } else {
      assert host[0] in host && u[0] == host[0] && u[1..] == host[1..] + "/" + path;
      forall c | c in host[1..] ensures c in host {}
      PathAfterHost(host[1..], path);
    }
  }

  lemma UrlPathOf(scheme: string, host: string, path: string)
    requires ':' !in scheme && '/' !in host
    ensures UrlPath(scheme + SCHEME_END + host + "/" + path) == path
  {
    var u := scheme + SCHEME_END + host + "/" + path;
    assert u == scheme + SCHEME_END + (host + "/" + path);
    IndexAfter(scheme, SCHEME_END, host + "/" + path);
    assert u[|scheme| + 3..] == host + "/" + path;
    PathAfterHost(host, path);
    assert ("/" + path)[..1] == "/" && ("/" + path)[1..] == path;
  }

  /** REDUCTION UNDOES URL BUILDING, under any scheme and host: a type's own url for any
      relative name, even one that holds the api prefix again, reduces to that name, as
      long as the type has an api prefix at all. */
  lemma ReducesOwnUrl(scheme: string, host: string, base: string, pathPrefix: string, name: string,
                      otherScheme: string, otherHost: string)
    requires ':' !in scheme && '/' !in host && ':' !in otherScheme && '/' !in otherHost
    ensures var apiBaseURL := scheme + SCHEME_END + host + "/" + base;
            var answered := otherScheme + SCHEME_END + otherHost + "/" + base + pathPrefix + name;
            Reduced(ApiPrefix(apiBaseURL, pathPrefix), answered) == if base + pathPrefix == "" then None else Some(name)
  {
    var prefix := base + pathPrefix;
    UrlPathOf(scheme, host, base);
    UrlPathOf(otherScheme, otherHost, prefix + name);
    assert otherScheme + SCHEME_END + otherHost + "/" + base + pathPrefix + name ==
           otherScheme + SCHEME_END + otherHost + "/" + (prefix + name);
    assert (prefix + name)[0..0 + |prefix|] == prefix && (prefix + name)[|prefix|..] == name;
    assert Anchored(prefix + name, prefix, 0);
  }

  /** In general what is cut away is the least head that ends in an anchored prefix. */
  lemma ReducedIsLeast(prefix: string, raw: string)
    ensures var path := UrlPath(raw);
            if Reduced(prefix, raw).None?
            then prefix == "" || forall i: nat :: !Anchored(path, prefix, i)
            else exists i: nat :: Anchored(path, prefix, i) && Reduced(prefix, raw).value == path[i + |prefix|..] &&
                                  forall j | 0 <= j < i :: !Anchored(path, prefix, j)
  {
    var path := UrlPath(raw);
    var r := FirstAnchored(path, prefix, 0);
    if r.None? && prefix != "" {
      assert forall i: nat :: Anchored(path, prefix, i) ==> i < |path|;
    }
  }
}
