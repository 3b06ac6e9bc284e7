/** The static check of a type's create url (internal/catalog/catalog.go) and the bindings
    that fill it at run time (internal/gcprov/crud.go). */
module CreateCheck {
  import opened Values
  import opened Text
  import opened Catalog
  import opened Templates
  import Names

  // ---- the names in a template -------------------------------------------------

  /** The names ExpandURL asks for, in order. */
  function UsedNames(t: string): seq<string>
    decreases |t|
  {
    if t == "" then []
    else if t[0] != '{' then UsedNames(t[1..])
    else
      assert t[..1] == "{";
      var f := FindPlaceholder(t);
      if f.None? then [] else [f.value.name] + UsedNames(t[f.value.size..])
  }

  /** Every placeholder is closed. */
  predicate Terminated(t: string)
    decreases |t|
  {
    if t == "" then true
    else if t[0] != '{' then Terminated(t[1..])
    else
      assert t[..1] == "{";
      var f := FindPlaceholder(t);
      f.Some? && Terminated(t[f.value.size..])
  }

  /** A known scalar, which a url can carry. */
  predicate Renders(attrs: map<string, Value>, n: string, floats: FloatText) {
    Get(attrs, n).Known() && RawSegment(Get(attrs, n), floats).Some?
  }

  /** WHETHER A URL CAN BE BUILT: exactly when every placeholder is closed and every name
      holds a known scalar. */
  lemma {:induction false} ExpandsIff(t: string, attrs: map<string, Value>, floats: FloatText)
    ensures Expand(t, attrs, floats).Ok? <==> Terminated(t) && forall n | n in UsedNames(t) :: Renders(attrs, n, floats)
    decreases |t|
  {
    if t != "" {
      if t[0] != '{' {
        ExpandsIff(t[1..], attrs, floats);
      } else {
        assert t[..1] == "{";
        var f := FindPlaceholder(t);
        if f.Some? {
          ExpandsIff(t[f.value.size..], attrs, floats);
          var rest := UsedNames(t[f.value.size..]);
          assert UsedNames(t) == [f.value.name] + rest;
          assert Fill(f.value.name, f.value.reserved, attrs, floats).Ok? <==> Renders(attrs, f.value.name, floats);
          hide FindPlaceholder, RawSegment, Renders, Fill;
          assert forall n :: n in [f.value.name] + rest <==> n == f.value.name || n in rest;
        }
      }
    }
  }

  /** A url depends on the names in its template, and on nothing else. */
  lemma {:induction false} ExpandsAlike(t: string, a: map<string, Value>, b: map<string, Value>, floats: FloatText)
    requires forall n | n in UsedNames(t) :: Get(a, n) == Get(b, n) || (!Get(a, n).Known() && !Get(b, n).Known())
    ensures Expand(t, a, floats) == Expand(t, b, floats)
    decreases |t|
  {
    if t != "" {
      if t[0] != '{' {
        ExpandsAlike(t[1..], a, b, floats);
      } else {
        assert t[..1] == "{";
        var f := FindPlaceholder(t);
        if f.Some? {
          var rest := UsedNames(t[f.value.size..]);
          assert UsedNames(t) == [f.value.name] + rest;
          assert f.value.name in UsedNames(t) && forall n | n in rest :: n in UsedNames(t);
          ExpandsAlike(t[f.value.size..], a, b, floats);
        }
      }
    }
  }

  /** The names the check reads there: it takes a "%" off a single-brace name too. */
  function CheckedNames(t: string): seq<string>
    decreases |t|
  {
    if t == "" then []
    else if t[0] != '{' then CheckedNames(t[1..])
    else
      assert t[..1] == "{";
      var f := FindPlaceholder(t);
      if f.None? then []
      else [CheckedName(t, f.value.name)] + CheckedNames(t[f.value.size..])
  }

  function CheckedName(t: string, name: string): string {
    if HasPrefix(t, "{{") then name else TrimPrefix(name, "%")
  }

  /** No name in single braces begins with "%". */
  predicate MarkFree(t: string)
    decreases |t|
  {
    if t == "" then true
    else if t[0] != '{' then MarkFree(t[1..])
    else
      assert t[..1] == "{";
      var f := FindPlaceholder(t);
      f.None? || ((HasPrefix(t, "{{") || !Marked(f.value.name)) && MarkFree(t[f.value.size..]))
  }

  predicate Marked(n: string) {
    HasPrefix(n, "%")
  }

  /** The check reads the names ExpandURL asks for exactly when there is no such name. */
  lemma {:induction false} SameNames(t: string)
    ensures CheckedNames(t) == UsedNames(t) <==> MarkFree(t)
    ensures !MarkFree(t) ==> exists n :: n in UsedNames(t) && Marked(n)
    decreases |t|
  {
    if t != "" {
      if t[0] != '{' {
        SameNames(t[1..]);
      } else {
        assert t[..1] == "{";
        var f := FindPlaceholder(t);
        if f.Some? {
          var n, rest := f.value.name, t[f.value.size..];
          SameNames(rest);
          var used, checked := UsedNames(rest), CheckedNames(rest);
          assert UsedNames(t) == [n] + used && CheckedNames(t) == [CheckedName(t, n)] + checked;
          assert MarkFree(t) <==> (HasPrefix(t, "{{") || !Marked(n)) && MarkFree(rest);
          assert ([n] + used)[1..] == used && ([CheckedName(t, n)] + checked)[1..] == checked;
          assert CheckedName(t, n) == n <==> HasPrefix(t, "{{") || !Marked(n);
          hide UsedNames, CheckedNames, MarkFree, FindPlaceholder, CheckedName, Marked;
          if !MarkFree(rest) {
            var m :| m in used && Marked(m);
            assert m in [n] + used;
          }
          assert n in [n] + used;
        }
      }
    }
  }

  /** Closed, and read alike by the check and by ExpandURL. */
  predicate SpelledOut(t: string) {
    Terminated(t) && MarkFree(t)
  }

  method UrlPlaceholders(tmpl: string) returns (names: seq<string>)
    ensures names == CheckedNames(tmpl)
  {
    hide FindPlaceholder, CheckedName, CheckedNames;
    names := [];
    var i: nat := 0;
    CheckStep(tmpl, 0);
    while i < |tmpl|
      invariant i <= |tmpl|
      invariant CheckedNames(tmpl) == names + CheckedNames(tmpl[i..])
    {
      CheckStep(tmpl, i);
      if tmpl[i] != '{' {
        i := i + 1;
        continue;
      }
      var f := FindPlaceholder(tmpl[i..]);
      if f.None? {
        break;
      }
      names := names + [CheckedName(tmpl[i..], f.value.name)];
      i := i + f.value.size;
    }
    if i == |tmpl| {
      CheckStep(tmpl, i);
    }
  }

  /** What the scan reads at i. */
  lemma CheckStep(t: string, i: nat)
    requires i <= |t|
    ensures i == 0 ==> t[i..] == t
    ensures i == |t| ==> CheckedNames(t[i..]) == []
    ensures i < |t| && t[i] != '{' ==> CheckedNames(t[i..]) == CheckedNames(t[i + 1..])
    ensures i < |t| && t[i] == '{' ==>
              && HasPrefix(t[i..], "{")
              && var f := FindPlaceholder(t[i..]);
                 CheckedNames(t[i..]) ==
                 if f.None? then []
                 else [CheckedName(t[i..], f.value.name)] + CheckedNames(t[i + f.value.size..])
  {
    hide FindPlaceholder, CheckedName;
    var rest := t[i..];
    if i < |t| {
      assert rest[1..] == t[i + 1..] && rest[..1] == [t[i]];
      if t[i] == '{' {
        var f := FindPlaceholder(rest);
        assert f.Some? ==> rest[f.value.size..] == t[i + f.value.size..];
      }
    }
  }

  // ---- the check ---------------------------------------------------------------

  /** How a placeholder no attribute fills is filled: from a path into the attributes, or by
      a template of its own. */
  datatype Binding = Binding(attr: string, template: string)

  datatype Creation = Creation(attributes: Level, bindings: map<string, Binding>, template: string)

  predicate IsScope(n: string) {
    n in {"project", "region", "zone", "location"}
  }

  /** TopLevelAttr */
  ghost function TopLevelAttr(l: Level, n: string): Option<Attr> {
    if n in l then Some(l[n]) else if Names.KeyOf(l, n).Some? then Some(l[Names.KeyOf(l, n).value]) else None
  }

  ghost predicate Settable(c: Creation, n: string) {
    TopLevelAttr(c.attributes, n).Some? && !TopLevelAttr(c.attributes, n).value.output
  }

  /** The names among these that nothing can fill, while those in `expanding` may not answer
      for themselves. */
  ghost function Blocked(c: Creation, names: seq<string>, expanding: set<string>): set<string>
    decreases |c.bindings.Keys - expanding|, |names|
  {
    if names == [] then {} else BlockedOne(c, names[0], expanding) + Blocked(c, names[1..], expanding)
  }

  ghost function BlockedOne(c: Creation, n: string, expanding: set<string>): set<string>
    decreases |c.bindings.Keys - expanding|, 0
  {
    if IsScope(n) then {}
    else if n in c.bindings && n !in expanding then
      Shrinks(c.bindings.Keys, expanding, n);
      if c.bindings[n].template == "" then {}
      else Blocked(c, CheckedNames(c.bindings[n].template), expanding + {n})
    else if Settable(c, n) then {}
    else {n}
  }

  lemma Shrinks(keys: set<string>, expanding: set<string>, n: string)
    requires n in keys && n !in expanding
    ensures |keys - (expanding + {n})| < |keys - expanding|
  {
    assert keys - expanding == (keys - (expanding + {n})) + {n};
  }

  lemma {:induction false} NotBlocked(c: Creation, names: seq<string>, expanding: set<string>, n: string)
    requires Blocked(c, names, expanding) == {} && n in names
    ensures BlockedOne(c, n, expanding) == {}
    decreases |names|
  {
    if n != names[0] {
      NotBlocked(c, names[1..], expanding, n);
    }
  }

  /** The recursive closure of UnresolvedCreatePlaceholders; `seen` is what it has found. */
  method CheckTemplate(c: Creation, tmpl: string, expanding: set<string>, seen: set<string>) returns (now: set<string>)
    requires NamesOk(c.attributes)
    ensures now == seen + Blocked(c, CheckedNames(tmpl), expanding)
    decreases |c.bindings.Keys - expanding|
  {
    var names := UrlPlaceholders(tmpl);
    now := seen;
    for i := 0 to |names|
      invariant now + Blocked(c, names[i..], expanding) == seen + Blocked(c, names, expanding)
    {
      var n := names[i];
      assert names[i..][0] == n && names[i..][1..] == names[i + 1..];
      if IsScope(n) {
        continue;
      }
      if n in c.bindings && n !in expanding {
        Shrinks(c.bindings.Keys, expanding, n);
        if c.bindings[n].template != "" {
          now := CheckTemplate(c, c.bindings[n].template, expanding + {n}, now);
        }
        continue;
      }
      var settable := IsSettable(c, n);
      if settable {
        continue;
      }
      now := now + {n};
    }
    assert names[|names|..] == [];
  }

  method IsSettable(c: Creation, n: string) returns (yes: bool)
    requires NamesOk(c.attributes)
    ensures yes <==> Settable(c, n)
  {
    if n in c.attributes {
      return !c.attributes[n].output;
    }
    var todo := c.attributes.Keys;
    while todo != {}
      invariant todo <= c.attributes.Keys
      invariant forall k {:trigger c.attributes[k]} | k in c.attributes && k !in todo :: c.attributes[k].canonical != n
    {
      var k :| k in todo;
      todo := todo - {k};
      if c.attributes[k].canonical == n {
        Names.KeyOfWire(c.attributes, k);
        return !c.attributes[k].output;
      }
    }
    return false;
  }

  method UnresolvedCreatePlaceholders(c: Creation) returns (names: seq<string>)
    requires NamesOk(c.attributes)
    ensures names == SortedNames(Blocked(c, CheckedNames(c.template), {}))
  {
    var found := CheckTemplate(c, c.template, {}, {});
    assert found == Blocked(c, CheckedNames(c.template), {});
    names := SortedNames(found);
  }

  // ---- the bindings, at run time -----------------------------------------------

  /** lookupPath */
  function LookupPath(attrs: map<string, Value>, path: seq<string>): Option<Value>
    decreases |path|
  {
    if path == [] || !Get(attrs, path[0]).Known() then None
    else if |path| == 1 then Some(attrs[path[0]])
    else if attrs[path[0]].Map? then LookupPath(attrs[path[0]].entries, path[1..])
    else None
  }

  /** What one binding comes to, given the values so far; None for nothing. */
  function Bound(b: Binding, out: map<string, Value>, floats: FloatText): Option<Value> {
    if b.attr != "" then LookupPath(out, Split(b.attr, '.'))
    else if b.template != "" then
      var url := Expand(b.template, out, floats);
      if url.Ok? then Some(Str(url.text)) else None
    else None
  }

  /** One step of withCreateBindings: a value already known stays. */
  function Bind(c: Creation, out: map<string, Value>, n: string, floats: FloatText): map<string, Value> {
    if n !in c.bindings || Get(out, n).Known() then out
    else
      var v := Bound(c.bindings[n], out, floats);
      if v.Some? then out[n := v.value] else out
  }

  function Pass(c: Creation, out: map<string, Value>, order: seq<string>, floats: FloatText): map<string, Value> {
    if order == [] then out
    else Bind(c, Pass(c, out, order[..|order| - 1], floats), order[|order| - 1], floats)
  }

  /** Every binding, in some order. */
  predicate Covers(order: seq<string>, c: Creation) {
    forall n | n in c.bindings :: n in order
  }

  // ---- what the passes settle --------------------------------------------------

  predicate Known(attrs: map<string, Value>, n: string) {
    Get(attrs, n).Known()
  }

  /** Bound from what the attributes already hold. */
  predicate Near(c: Creation, attrs: map<string, Value>, n: string, floats: FloatText) {
    && n in c.bindings && !Known(attrs, n)
    && Bound(c.bindings[n], attrs, floats).Some? && Bound(c.bindings[n], attrs, floats).value.Known()
  }

  /** The attributes, and what is bound from them. */
  function WithNear(c: Creation, attrs: map<string, Value>, floats: FloatText): map<string, Value> {
    attrs + map n | n in c.bindings && Near(c, attrs, n, floats) :: Bound(c.bindings[n], attrs, floats).value
  }

  /** Bound by a template from those in turn. */
  predicate Far(c: Creation, attrs: map<string, Value>, n: string, floats: FloatText) {
    && n in c.bindings && !Known(WithNear(c, attrs, floats), n) && c.bindings[n].attr == ""
    && Bound(c.bindings[n], WithNear(c, attrs, floats), floats).Some?
  }

  /** All that two passes settle. */
  function Final(c: Creation, attrs: map<string, Value>, floats: FloatText): map<string, Value> {
    WithNear(c, attrs, floats) +
    map n | n in c.bindings && Far(c, attrs, n, floats) :: Bound(c.bindings[n], WithNear(c, attrs, floats), floats).value
  }

  /** What is known so far is what will be, and what the attributes held is known. */
  ghost predicate OnTheWay(c: Creation, attrs: map<string, Value>, out: map<string, Value>, floats: FloatText) {
    forall n ::
      && (Known(attrs, n) ==> Get(out, n) == Get(attrs, n))
      && (Known(Final(c, attrs, floats), n) && Known(out, n) ==> Get(out, n) == Get(Final(c, attrs, floats), n))
  }

  ghost predicate NearKnown(c: Creation, attrs: map<string, Value>, out: map<string, Value>, floats: FloatText) {
    forall n | Near(c, attrs, n, floats) :: Known(out, n)
  }

  /** Each name of Final is known to the attributes, near, or far. */
  lemma FinalIs(c: Creation, attrs: map<string, Value>, floats: FloatText, n: string)
    ensures Known(attrs, n) ==> Get(Final(c, attrs, floats), n) == Get(attrs, n) == Get(WithNear(c, attrs, floats), n)
    ensures Near(c, attrs, n, floats) ==>
              Get(Final(c, attrs, floats), n) == Bound(c.bindings[n], attrs, floats).value == Get(WithNear(c, attrs, floats), n)
    ensures Far(c, attrs, n, floats) ==>
              Get(Final(c, attrs, floats), n) == Bound(c.bindings[n], WithNear(c, attrs, floats), floats).value
    ensures Known(Final(c, attrs, floats), n) ==> Known(attrs, n) || Near(c, attrs, n, floats) || Far(c, attrs, n, floats)
    ensures Known(WithNear(c, attrs, floats), n) <==> Known(attrs, n) || Near(c, attrs, n, floats)
  {
    hide Bound;
  }

  /** A path that leads somewhere leads there still. */
  lemma SamePath(attrs: map<string, Value>, out: map<string, Value>, path: seq<string>)
    requires LookupPath(attrs, path).Some? && forall n | Known(attrs, n) :: Get(out, n) == Get(attrs, n)
    ensures LookupPath(out, path) == LookupPath(attrs, path)
  {
    assert Known(attrs, path[0]);
  }

  lemma StepStays(c: Creation, attrs: map<string, Value>, out: map<string, Value>, n: string, floats: FloatText)
    requires OnTheWay(c, attrs, out, floats)
    ensures OnTheWay(c, attrs, Bind(c, out, n, floats), floats)
    ensures forall k | Known(out, k) :: Get(Bind(c, out, n, floats), k) == Get(out, k)
    ensures Near(c, attrs, n, floats) ==> Known(Bind(c, out, n, floats), n)
    ensures Far(c, attrs, n, floats) && NearKnown(c, attrs, out, floats) ==> Known(Bind(c, out, n, floats), n)
  {
    hide Bound, Final, Near, Far, WithNear, OnTheWay, NearKnown;
    BindIs(c, out, n, floats);
    OnlyBound(c, attrs, n, floats);
    FinalIs(c, attrs, floats, n);
    if !Known(out, n) && n in c.bindings {
      StepValue(c, attrs, out, n, floats);
    }
    hide Bind;
    StillOnTheWay(c, attrs, out, Bind(c, out, n, floats), n, floats);
  }

  lemma OnlyBound(c: Creation, attrs: map<string, Value>, n: string, floats: FloatText)
    ensures Near(c, attrs, n, floats) || Far(c, attrs, n, floats) ==> n in c.bindings
  {
    hide Bound, WithNear;
  }

  lemma StillOnTheWay(c: Creation, attrs: map<string, Value>, out: map<string, Value>, now: map<string, Value>, n: string,
                      floats: FloatText)
    requires OnTheWay(c, attrs, out, floats)
    requires forall k | k != n || Known(out, n) :: Get(now, k) == Get(out, k)
    requires !Known(out, n) && Known(now, n) && Known(Final(c, attrs, floats), n) ==>
               Get(now, n) == Get(Final(c, attrs, floats), n)
    ensures OnTheWay(c, attrs, now, floats)
  {
    hide Final;
  }

  /** A step changes one name at most, and none that is known. */
  lemma BindIs(c: Creation, out: map<string, Value>, n: string, floats: FloatText)
    ensures var now := Bind(c, out, n, floats);
            && (forall k | k != n || Known(out, n) || n !in c.bindings :: Get(now, k) == Get(out, k))
            && (!Known(out, n) && n in c.bindings ==>
                  Get(now, n) == if Bound(c.bindings[n], out, floats).Some? then Bound(c.bindings[n], out, floats).value
                                 else Get(out, n))
  {
    hide Bound;
  }

  /** What the step makes of its own name. */
  lemma StepValue(c: Creation, attrs: map<string, Value>, out: map<string, Value>, n: string, floats: FloatText)
    requires OnTheWay(c, attrs, out, floats) && !Known(out, n) && n in c.bindings
    ensures !Known(attrs, n)
    ensures Near(c, attrs, n, floats) ==>
              Bound(c.bindings[n], out, floats) == Some(Get(Final(c, attrs, floats), n)) && Known(Final(c, attrs, floats), n)
    ensures Far(c, attrs, n, floats) ==>
              Bound(c.bindings[n], out, floats).None? ||
              Bound(c.bindings[n], out, floats) == Some(Get(Final(c, attrs, floats), n))
    ensures Far(c, attrs, n, floats) && NearKnown(c, attrs, out, floats) ==>
              Bound(c.bindings[n], out, floats) == Some(Get(Final(c, attrs, floats), n)) && Known(Final(c, attrs, floats), n)
  {
    FinalIs(c, attrs, floats, n);
    if Near(c, attrs, n, floats) {
      NearStep(c, attrs, out, n, floats);
    }
    if Far(c, attrs, n, floats) {
      FarStep(c, attrs, out, n, floats);
      FarIsKnown(c, attrs, n, floats);
    }
    hide Bound, Final, WithNear, NearKnown;
  }

  lemma FarIsKnown(c: Creation, attrs: map<string, Value>, n: string, floats: FloatText)
    requires Far(c, attrs, n, floats)
    ensures Bound(c.bindings[n], WithNear(c, attrs, floats), floats).value.Known()
  {
    hide WithNear;
  }

  lemma NearStep(c: Creation, attrs: map<string, Value>, out: map<string, Value>, n: string, floats: FloatText)
    requires OnTheWay(c, attrs, out, floats) && Near(c, attrs, n, floats)
    ensures Bound(c.bindings[n], out, floats) == Bound(c.bindings[n], attrs, floats)
  {
    var b := c.bindings[n];
    hide Final;
    if b.attr != "" {
      SamePath(attrs, out, Split(b.attr, '.'));
    } else {
      ExpandsIff(b.template, attrs, floats);
      ExpandsAlike(b.template, attrs, out, floats);
    }
  }

  lemma FarStep(c: Creation, attrs: map<string, Value>, out: map<string, Value>, n: string, floats: FloatText)
    requires OnTheWay(c, attrs, out, floats) && Far(c, attrs, n, floats)
    ensures var near := WithNear(c, attrs, floats);
            Bound(c.bindings[n], out, floats).None? || Bound(c.bindings[n], out, floats) == Bound(c.bindings[n], near, floats)
    ensures NearKnown(c, attrs, out, floats) ==>
              Bound(c.bindings[n], out, floats) == Bound(c.bindings[n], WithNear(c, attrs, floats), floats)
  {
    var t, near := c.bindings[n].template, WithNear(c, attrs, floats);
    ExpandsIff(t, near, floats);
    ExpandsIff(t, out, floats);
    forall k | k in UsedNames(t) && Known(out, k) ensures Get(out, k) == Get(near, k) {
      assert Renders(near, k, floats);
      FinalIs(c, attrs, floats, k);
    }
    if NearKnown(c, attrs, out, floats) {
      forall k | k in UsedNames(t) ensures Known(out, k) {
        assert Renders(near, k, floats);
        FinalIs(c, attrs, floats, k);
      }
    }
    if forall k | k in UsedNames(t) :: Known(out, k) {
      ExpandsAlike(t, near, out, floats);
    }
  }

  lemma {:induction false} PassSettles(c: Creation, attrs: map<string, Value>, out: map<string, Value>, order: seq<string>,
                                       floats: FloatText)
    requires OnTheWay(c, attrs, out, floats)
    ensures var now := Pass(c, out, order, floats);
            && OnTheWay(c, attrs, now, floats)
            && (forall k | Known(out, k) :: Get(now, k) == Get(out, k))
            && (forall n | n in order && Near(c, attrs, n, floats) :: Known(now, n))
            && (NearKnown(c, attrs, out, floats) ==> forall n | n in order && Far(c, attrs, n, floats) :: Known(now, n))
    decreases |order|
  {
    if order != [] {
      hide Bind, Near, Far, Final, OnTheWay;
      var last := |order| - 1;
      var before := Pass(c, out, order[..last], floats);
      PassSettles(c, attrs, out, order[..last], floats);
      StepStays(c, attrs, before, order[last], floats);
      assert forall n :: n in order <==> n in order[..last] || n == order[last];
    }
  }

  /** TWO PASSES SETTLE THE BINDINGS, in whatever orders they are made: what two levels of
      bindings can fill ends up filled, with values that do not depend on the orders. */
  lemma PassesSettle(c: Creation, attrs: map<string, Value>, first: seq<string>, second: seq<string>, floats: FloatText, n: string)
    requires Covers(first, c) && Covers(second, c)
    ensures Known(Final(c, attrs, floats), n) ==>
              Get(Pass(c, Pass(c, attrs, first, floats), second, floats), n) == Get(Final(c, attrs, floats), n)
  {
    forall k ensures Known(attrs, k) ==> Get(Final(c, attrs, floats), k) == Get(attrs, k) {
      FinalIs(c, attrs, floats, k);
    }
    assert OnTheWay(c, attrs, attrs, floats);
    var once := Pass(c, attrs, first, floats);
    PassSettles(c, attrs, attrs, first, floats);
    forall k | Near(c, attrs, k, floats) ensures Known(once, k) {
      assert k in first;
    }
    PassSettles(c, attrs, once, second, floats);
    FinalIs(c, attrs, floats, n);
    hide Bind, Near, Final, Pass, Bound;
  }

  /** withCreateBindings: two passes, each in the order its map iteration took. */
  method WithCreateBindings(c: Creation, attrs: map<string, Value>, floats: FloatText)
    returns (out: map<string, Value>, ghost first: seq<string>, ghost second: seq<string>)
    ensures Covers(first, c) && Covers(second, c)
    ensures out == Pass(c, Pass(c, attrs, first, floats), second, floats)
    ensures forall n | Known(Final(c, attrs, floats), n) :: Get(out, n) == Get(Final(c, attrs, floats), n)
  {
    out, first := OnePass(c, attrs, floats);
    out, second := OnePass(c, out, floats);
    forall n | Known(Final(c, attrs, floats), n) ensures Get(out, n) == Get(Final(c, attrs, floats), n) {
      PassesSettle(c, attrs, first, second, floats, n);
    }
  }

  method OnePass(c: Creation, attrs: map<string, Value>, floats: FloatText)
    returns (out: map<string, Value>, ghost order: seq<string>)
    ensures Covers(order, c) && out == Pass(c, attrs, order, floats)
  {
    out, order := attrs, [];
    var todo := c.bindings.Keys;
    while todo != {}
      invariant todo <= c.bindings.Keys
      invariant out == Pass(c, attrs, order, floats)
      invariant forall n | n in c.bindings && n !in todo :: n in order
    {
      var n :| n in todo;
      todo := todo - {n};
      assert (order + [n])[..|order|] == order;
      order := order + [n];
      if Get(out, n).Known() {
        continue;
      }
      var v := Bound(c.bindings[n], out, floats);
      if v.Some? {
        out := out[n := v.value];
      }
    }
  }

  // ---- the check is sound ------------------------------------------------------

  /** Some template of the type asks for the name. */
  predicate Mentioned(c: Creation, n: string) {
    n in UsedNames(c.template) || exists b :: b in c.bindings && n in UsedNames(c.bindings[b].template)
  }

  /** What the generator writes: each binding sets one field, templates name attribute keys,
      and no binding's binding has a binding of its own. */
  ghost predicate WellBound(c: Creation) {
    && (forall b | b in c.bindings :: (c.bindings[b].attr == "") != (c.bindings[b].template == ""))
    && (forall n | Mentioned(c, n) && Settable(c, n) :: n in c.attributes)
    && forall n, m, k | n in c.bindings && m in c.bindings && m != n && m in UsedNames(c.bindings[n].template) &&
                        k in UsedNames(c.bindings[m].template) && k in c.bindings :: k == n || k == m
  }

  /** What a create is configured with: scope settings, named settable attributes and bound
      paths hold known scalars, and so does whatever else a template names that is known. */
  ghost predicate Supplied(c: Creation, attrs: map<string, Value>, floats: FloatText) {
    && (forall n | IsScope(n) && Mentioned(c, n) :: Renders(attrs, n, floats))
    && (forall n | n in c.attributes && Settable(c, n) && Mentioned(c, n) :: Renders(attrs, n, floats))
    && (forall n | Mentioned(c, n) && Known(attrs, n) :: Renders(attrs, n, floats))
    && (forall b | b in c.bindings && c.bindings[b].attr != "" ::
          var v := LookupPath(attrs, Split(c.bindings[b].attr, '.'));
          v.Some? && v.value.Known() && RawSegment(v.value, floats).Some?)
  }

  /** A name that nothing blocks, and that is not bound, is supplied. */
  lemma SuppliedName(c: Creation, attrs: map<string, Value>, floats: FloatText, n: string, expanding: set<string>)
    requires WellBound(c) && Supplied(c, attrs, floats) && Mentioned(c, n) && BlockedOne(c, n, expanding) == {}
    requires n !in c.bindings || n in expanding || Known(attrs, n) || IsScope(n)
    ensures Renders(attrs, n, floats)
  {
    hide Mentioned, Blocked, UsedNames, Renders, LookupPath;
  }

  lemma BoundByPath(c: Creation, attrs: map<string, Value>, floats: FloatText, n: string)
    requires Supplied(c, attrs, floats) && n in c.bindings && c.bindings[n].attr != "" && !Known(attrs, n)
    ensures Near(c, attrs, n, floats) && Renders(WithNear(c, attrs, floats), n, floats)
  {
    FinalIs(c, attrs, floats, n);
  }

  lemma BoundByTemplate(b: Binding, attrs: map<string, Value>, floats: FloatText)
    requires b.attr == "" && b.template != "" && Terminated(b.template)
    requires forall k | k in UsedNames(b.template) :: Renders(attrs, k, floats)
    ensures var v := Bound(b, attrs, floats);
            v.Some? && v.value.Known() && RawSegment(v.value, floats).Some?
  {
    ExpandsIff(b.template, attrs, floats);
  }

  /** A name to be bound by a template the two scans do not read alike. */
  predicate Garbled(c: Creation, attrs: map<string, Value>, n: string) {
    n in c.bindings && !Known(attrs, n) && c.bindings[n].attr == "" && !SpelledOut(c.bindings[n].template)
  }

  /** A name no pass can fill: marked, garbled, or bound by a template that asks for such. */
  predicate Dead(c: Creation, attrs: map<string, Value>, n: string) {
    || Marked(n)
    || Garbled(c, attrs, n)
    || (n in c.bindings && !Known(attrs, n) && c.bindings[n].attr == "" &&
        exists m :: m in UsedNames(c.bindings[n].template) && Garbled(c, attrs, m))
  }

  /** Nothing is called anything that begins with "%". */
  ghost predicate NoMarkedNames(c: Creation, attrs: map<string, Value>) {
    forall n | Marked(n) :: n !in c.bindings && !Known(attrs, n)
  }

  ghost predicate DeadUnknown(c: Creation, attrs: map<string, Value>, out: map<string, Value>) {
    forall n | Dead(c, attrs, n) :: !Known(out, n)
  }

  /** A dead name is bound to nothing. */
  lemma DeadIsUnbound(c: Creation, attrs: map<string, Value>, out: map<string, Value>, n: string, floats: FloatText)
    requires NoMarkedNames(c, attrs) && DeadUnknown(c, attrs, out) && Dead(c, attrs, n) && n in c.bindings
    ensures Bound(c.bindings[n], out, floats).None?
  {
    var t := c.bindings[n].template;
    ExpandsIff(t, out, floats);
    SameNames(t);
    hide UsedNames, Terminated, MarkFree, Marked, Expand, RawSegment;
    assert !Marked(n);
    if Terminated(t) {
      var m :| m in UsedNames(t) && (Marked(m) || Garbled(c, attrs, m));
      assert Dead(c, attrs, m);
      assert !Known(out, m);
    }
  }

  lemma {:induction false} DeadStays(c: Creation, attrs: map<string, Value>, out: map<string, Value>, order: seq<string>,
                                     floats: FloatText)
    requires NoMarkedNames(c, attrs) && DeadUnknown(c, attrs, out)
    ensures DeadUnknown(c, attrs, Pass(c, out, order, floats))
    decreases |order|
  {
    if order != [] {
      var last := |order| - 1;
      var before := Pass(c, out, order[..last], floats);
      DeadStays(c, attrs, out, order[..last], floats);
      hide Bound, Dead;
      BindIs(c, before, order[last], floats);
      if Dead(c, attrs, order[last]) && order[last] in c.bindings {
        DeadIsUnbound(c, attrs, before, order[last], floats);
      }
      hide Bind;
      assert Pass(c, out, order, floats) == Bind(c, before, order[last], floats);
    }
  }

  lemma DeadAtFirst(c: Creation, attrs: map<string, Value>)
    requires NoMarkedNames(c, attrs)
    ensures DeadUnknown(c, attrs, attrs)
  {
    hide SpelledOut, UsedNames, Marked;
  }

  /** A template's names, where the check found nothing wrong with them. */
  lemma CheckedAre(c: Creation, t: string, expanding: set<string>, n: string)
    requires MarkFree(t) && Blocked(c, CheckedNames(t), expanding) == {} && n in UsedNames(t)
    ensures BlockedOne(c, n, expanding) == {}
  {
    SameNames(t);
    NotBlocked(c, UsedNames(t), expanding, n);
  }

  lemma BlockedTemplate(c: Creation, n: string, expanding: set<string>)
    requires n in c.bindings && n !in expanding && !IsScope(n) && c.bindings[n].template != ""
    requires BlockedOne(c, n, expanding) == {}
    ensures Blocked(c, CheckedNames(c.bindings[n].template), expanding + {n}) == {}
  {
    hide CheckedNames, Blocked;
  }

  /** A name inside a binding's template comes out, by the first pass at the latest. */
  lemma InnerName(c: Creation, attrs: map<string, Value>, floats: FloatText, n: string, m: string)
    requires WellBound(c) && Supplied(c, attrs, floats) && n in c.bindings
    requires m in UsedNames(c.bindings[n].template) && BlockedOne(c, m, {n}) == {} && !Garbled(c, attrs, m)
    ensures Renders(WithNear(c, attrs, floats), m, floats)
  {
    hide UsedNames, CheckedNames, Terminated, MarkFree, Blocked, BlockedOne, Bound, Settable, LookupPath;
    FinalIs(c, attrs, floats, m);
    assert Mentioned(c, m);
    if m !in c.bindings || m == n || Known(attrs, m) || IsScope(m) {
      SuppliedName(c, attrs, floats, m, {n});
    } else if c.bindings[m].attr != "" {
      BoundByPath(c, attrs, floats, m);
    } else {
      var t := c.bindings[m].template;
      BlockedTemplate(c, m, {n});
      forall k | k in UsedNames(t) ensures Renders(attrs, k, floats) {
        CheckedAre(c, t, {n} + {m}, k);
        assert Mentioned(c, k);
        SuppliedName(c, attrs, floats, k, {n} + {m});
      }
      BoundByTemplate(c.bindings[m], attrs, floats);
    }
  }

  /** A name of the create url comes out, by the second. */
  lemma OuterName(c: Creation, attrs: map<string, Value>, floats: FloatText, n: string)
    requires WellBound(c) && Supplied(c, attrs, floats)
    requires n in UsedNames(c.template) && BlockedOne(c, n, {}) == {} && !Dead(c, attrs, n)
    ensures Renders(Final(c, attrs, floats), n, floats)
  {
    hide UsedNames, CheckedNames, Terminated, MarkFree, Blocked, BlockedOne, Bound, Settable, LookupPath, WithNear;
    FinalIs(c, attrs, floats, n);
    assert Mentioned(c, n);
    if n !in c.bindings || Known(attrs, n) || IsScope(n) {
      SuppliedName(c, attrs, floats, n, {});
    } else if c.bindings[n].attr != "" {
      BoundByPath(c, attrs, floats, n);
    } else {
      var t := c.bindings[n].template;
      BlockedTemplate(c, n, {});
      assert {} + {n} == {n};
      forall m | m in UsedNames(t) ensures Renders(WithNear(c, attrs, floats), m, floats) {
        CheckedAre(c, t, {n}, m);
        InnerName(c, attrs, floats, n, m);
      }
      BoundByTemplate(c.bindings[n], WithNear(c, attrs, floats), floats);
      if Near(c, attrs, n, floats) {
        NearRenders(c, attrs, floats, n);
      }
    }
  }

  lemma NearRenders(c: Creation, attrs: map<string, Value>, floats: FloatText, n: string)
    requires Near(c, attrs, n, floats) && c.bindings[n].attr == ""
    ensures RawSegment(Bound(c.bindings[n], attrs, floats).value, floats).Some?
  {}

  /** The create template is closed, and asks for no name that no pass can fill. */
  predicate Readable(c: Creation, attrs: map<string, Value>) {
    Terminated(c.template) && forall n | n in UsedNames(c.template) :: !Dead(c, attrs, n)
  }

  /** WHAT THE STATIC CHECK IS WORTH: where it names nothing, the create url is built exactly
      if the templates can be read, and is then the same url in whatever orders the two
      passes take the bindings. */
  lemma CreateUrlIsBuilt(c: Creation, attrs: map<string, Value>, floats: FloatText, first: seq<string>, second: seq<string>)
    requires WellBound(c) && Supplied(c, attrs, floats) && NoMarkedNames(c, attrs)
    requires Covers(first, c) && Covers(second, c)
    requires Blocked(c, CheckedNames(c.template), {}) == {}
    ensures var out := Pass(c, Pass(c, attrs, first, floats), second, floats);
            && (Expand(c.template, out, floats).Ok? <==> Readable(c, attrs))
            && (Readable(c, attrs) ==> Expand(c.template, out, floats) == Expand(c.template, Final(c, attrs, floats), floats))
  {
    var once := Pass(c, attrs, first, floats);
    var out := Pass(c, once, second, floats);
    hide WellBound, Supplied, Covers, Dead, Final, Pass, UsedNames, Terminated, CheckedNames, NoMarkedNames, Expand,
      RawSegment, Blocked, BlockedOne;
    if Readable(c, attrs) {
      UrlComesOut(c, attrs, floats, first, second);
    } else {
      DeadAtFirst(c, attrs);
      DeadStays(c, attrs, attrs, first, floats);
      DeadStays(c, attrs, once, second, floats);
      ExpandsIff(c.template, out, floats);
      if Terminated(c.template) {
        var n :| n in UsedNames(c.template) && Dead(c, attrs, n);
        assert !Renders(out, n, floats);
      }
    }
  }

  lemma UrlComesOut(c: Creation, attrs: map<string, Value>, floats: FloatText, first: seq<string>, second: seq<string>)
    requires WellBound(c) && Supplied(c, attrs, floats) && Covers(first, c) && Covers(second, c)
    requires Blocked(c, CheckedNames(c.template), {}) == {} && Readable(c, attrs)
    ensures var out := Pass(c, Pass(c, attrs, first, floats), second, floats);
            && Expand(c.template, out, floats).Ok?
            && Expand(c.template, out, floats) == Expand(c.template, Final(c, attrs, floats), floats)
  {
    var out, final := Pass(c, Pass(c, attrs, first, floats), second, floats), Final(c, attrs, floats);
    SameNames(c.template);
    assert MarkFree(c.template) by {
      hide SpelledOut, UsedNames;
      assert forall n | Marked(n) :: Dead(c, attrs, n);
    }
    hide WellBound, Supplied, Covers, Dead, Final, Pass, UsedNames, Terminated, CheckedNames, Expand, RawSegment,
      MarkFree, Blocked, BlockedOne;
    forall n | n in UsedNames(c.template) ensures Renders(final, n, floats) && Get(out, n) == Get(final, n) {
      CheckedAre(c, c.template, {}, n);
      OuterName(c, attrs, floats, n);
      PassesSettle(c, attrs, first, second, floats, n);
    }
    ExpandsIff(c.template, final, floats);
    ExpandsAlike(c.template, out, final, floats);
  }

  // ---- two templates the check passes ------------------------------------------

  const TEXT := Attr("x", KindString, map[], None, false, false, false, false, false, false, "")

  lemma OneMarkedName(x: string)
    requires NameOk(x)
    ensures var t := "{%" + x + "}";
            t[..1] == "{" && !HasPrefix(t, "{{") && FindPlaceholder(t) == Some(Found("%" + x, false, |t|))
  {
    var t, content := "{%" + x + "}", "%" + x;
    MarkedIsTrimmed("%", x);
    FindsSingle(content, "");
    assert t == "{" + content + "}" + "";
    assert content[..1] == "%" && t[..2] == "{%";
    hide FindPlaceholder;
  }

  /** A marked name in single braces passes for the attribute without the mark, and is then
      asked for with it. */
  lemma MarkedPasses(x: string, v: Value, floats: FloatText)
    requires NameOk(x)
    ensures var c := Creation(map[x := TEXT], map[], "{%" + x + "}");
            && Blocked(c, CheckedNames(c.template), {}) == {}
            && Expand(c.template, map[x := v], floats) == Err(NotSet("%" + x))
  {
    var c := Creation(map[x := TEXT], map[], "{%" + x + "}");
    var t := c.template;
    OneMarkedName(x);
    hide FindPlaceholder;
    assert t[|t|..] == "" && ("%" + x)[..1] == "%" && ("%" + x)[1..] == x;
    assert CheckedNames(t) == [CheckedName(t, "%" + x)] + CheckedNames("");
    assert CheckedNames(t) == [x];
    assert Settable(c, x) && BlockedOne(c, x, {}) == {};
    assert [x][1..] == [] && Blocked(c, [], {}) == {};
    assert |"%" + x| != |x|;
    assert Fill("%" + x, false, map[x := v], floats) == Err(NotSet("%" + x));
  }

  /** A placeholder that is not closed passes unread. */
  lemma UnclosedPasses(x: string, attrs: map<string, Value>, floats: FloatText)
    requires '}' !in x
    ensures var c := Creation(map[], map[], "{" + x);
            Blocked(c, CheckedNames(c.template), {}) == {} && Expand(c.template, attrs, floats) == Err(Unterminated)
  {
    var t := "{" + x;
    assert t[..1] == "{";
    forall i: nat ensures !OccursAt(t[1..], "}", i) && (|t| > 1 ==> !OccursAt(t[2..], "}}", i)) {
      assert forall k | 0 <= k < |t| :: t[k] != '}';
      assert "}}"[0] == '}' && "}"[0] == '}';
    }
    assert FindPlaceholder(t).None?;
    hide FindPlaceholder;
    assert CheckedNames(t) == [];
  }
}
