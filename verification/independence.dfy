/** What an element of an unordered list is read as, whichever element of the reference it is
    handed (internal/gcprov/reconcile.go: the note on unmatched, and list). */
module Independence {
  import opened Values
  import opened Catalog
  import opened Text
  import opened Matching
  import opened Reconcile

  // ---- one leaf ----------------------------------------------------------------

  /** s is another way to write the answered string. */
  predicate OtherSpelling(r: Reconciler, a: Attr, s: string, got: Value) {
    && got.Str? && s != got.s
    && (ProjectAlias(r, s, got.s) || (a.equivalence != "" && r.equivalent(a.equivalence, s, got.s)))
  }

  /** The answered string names a project that has two names. */
  predicate NamesAProject(r: Reconciler, g: string) {
    && r.aliases.Some? && LooksLikeAProjectName(g)
    && var p, n := r.aliases.value, g[|PROJECTS|..];
       && p.id != "" && p.number != "" && p.id != p.number
       && ((n == p.number && '/' !in p.id) || (n == p.id && '/' !in p.number))
  }

  /** The catalog names a rule by which the answered string has another spelling. */
  ghost predicate RuleRelates(r: Reconciler, a: Attr, g: string) {
    a.equivalence != "" && exists s :: s != g && r.equivalent(a.equivalence, s, g)
  }

  ghost predicate SpelledOneWay(r: Reconciler, a: Attr, got: Value) {
    got.Str? ==> !NamesAProject(r, got.s) && !RuleRelates(r, a, got.s)
  }

  lemma ProjectSpelling(r: Reconciler, g: string) returns (s: string)
    requires NamesAProject(r, g)
    ensures s != g && ProjectAlias(r, s, g)
  {
    var p, n := r.aliases.value, g[|PROJECTS|..];
    var other := if n == p.number && '/' !in p.id then p.id else p.number;
    s := PROJECTS + other;
    assert s[..|PROJECTS|] == PROJECTS && s[|PROJECTS|..] == other;
    assert g == g[..|PROJECTS|] + n;
  }

  lemma OneProjectSpelling(r: Reconciler, s: string, g: string)
    requires s != g && ProjectAlias(r, s, g)
    ensures NamesAProject(r, g)
  {
    assert s == s[..|PROJECTS|] + s[|PROJECTS|..] && g == g[..|PROJECTS|] + g[|PROJECTS|..];
  }

  /** Whether a string has another spelling can be told from the string. */
  lemma OtherSpellingIff(r: Reconciler, a: Attr, got: Value)
    ensures (exists s :: OtherSpelling(r, a, s, got)) <==> !SpelledOneWay(r, a, got)
  {
    hide ProjectAlias, NamesAProject;
    if got.Str? && NamesAProject(r, got.s) {
      var s := ProjectSpelling(r, got.s);
      assert OtherSpelling(r, a, s, got);
    }
    if got.Str? && RuleRelates(r, a, got.s) {
      var s :| s != got.s && r.equivalent(a.equivalence, s, got.s);
      assert OtherSpelling(r, a, s, got);
    }
    if s :| OtherSpelling(r, a, s, got) {
      if ProjectAlias(r, s, got.s) {
        OneProjectSpelling(r, s, got.s);
      }
    }
  }

  /** A scalar is read alone as the answer retyped; and against a reference that spells it
      otherwise, as the reference. */
  lemma LeafIs(r: Reconciler, a: Attr, ref: Value, inc: Value)
    ensures var got := AsDeclaredKind(a, inc);
            Leaf(r, a, ref, inc) == if ref.Str? && OtherSpelling(r, a, ref.s, got) then ref else got
  {
    hide AsDeclaredKind, ProjectAlias;
  }

  lemma LeafIsIndependent(r: Reconciler, a: Attr, inc: Value)
    ensures (forall ref :: Leaf(r, a, ref, inc) == Leaf(r, a, Zero, inc)) <==> SpelledOneWay(r, a, AsDeclaredKind(a, inc))
  {
    var got := AsDeclaredKind(a, inc);
    forall ref ensures Leaf(r, a, ref, inc) == if ref.Str? && OtherSpelling(r, a, ref.s, got) then ref else got {
      LeafIs(r, a, ref, inc);
    }
    OtherSpellingIff(r, a, got);
    hide Leaf, SpelledOneWay, AsDeclaredKind;
    if s :| OtherSpelling(r, a, s, got) {
      assert Leaf(r, a, Str(s), inc) == Str(s) && Leaf(r, a, Zero, inc) == got;
      assert Str(s) != got;
    }
  }

  // ---- any element -------------------------------------------------------------

  /** The answer reads the same against any reference: it holds no computed field and no
      string with two spellings, and no reference reorders an unordered list in it. */
  ghost predicate Independent(r: Reconciler, a: Attr, inc: Value)
    decreases a
  {
    if !inc.Known() || a.freeform then true
    else if IsObject(a) then
      inc.Map? ==> forall k | k in inc.entries && k in a.fields ::
        !a.fields[k].output && Independent(r, a.fields[k], inc.entries[k])
    else if IsList(a) then
      inc.List? ==>
        && (forall i | 0 <= i < |inc.items| :: Independent(r, a.elem.value, inc.items[i]))
        && (a.unordered ==> Descending(ListItems(r, a, Zero, inc.items)))
    else SpelledOneWay(r, a, AsDeclaredKind(a, inc))
  }

  ghost predicate ReadsAlike(r: Reconciler, a: Attr, inc: Value) {
    forall ref :: Reconcile.Reconcile(r, a, ref, inc) == Reconcile.Reconcile(r, a, Zero, inc)
  }

  /** What an object inside an unordered list reads as. */
  lemma UnmatchedKey(r: Reconciler, a: Attr, ref: Value, inc: map<string, Value>, k: string)
    requires r.unmatched
    ensures k in ObjectEntries(r, a, ref, inc) <==> k in a.fields && k in inc && (ref.Map? ==> !a.fields[k].output)
    ensures k in ObjectEntries(r, a, ref, inc) ==>
              ObjectEntries(r, a, ref, inc)[k] == Reconcile.Reconcile(r, a.fields[k], Get(Entries(ref), k), inc[k])
  {
    hide Reconcile.Reconcile;
  }

  lemma ReadsObject(r: Reconciler, a: Attr, ref: Value, inc: Value)
    requires inc.Map? && !a.freeform && IsObject(a)
    ensures Reconcile.Reconcile(r, a, ref, inc) == Map(ObjectEntries(r, a, ref, inc.entries))
  {
    hide ObjectEntries;
  }

  predicate SameAt(m: map<string, Value>, n: map<string, Value>, k: string) {
    (k in m <==> k in n) && (k in m ==> m[k] == n[k])
  }

  lemma SameMaps(m: map<string, Value>, n: map<string, Value>)
    ensures m == n <==> forall k :: SameAt(m, n, k)
  {
    if forall k :: SameAt(m, n, k) {
      forall k ensures k in m <==> k in n {
        assert SameAt(m, n, k);
      }
      assert m.Keys == n.Keys;
      forall k | k in m ensures m[k] == n[k] {
        assert SameAt(m, n, k);
      }
    }
  }

  lemma KeyAlike(r: Reconciler, a: Attr, x: Value, y: Value, inc: map<string, Value>, k: string)
    requires r.unmatched
    ensures SameAt(ObjectEntries(r, a, x, inc), ObjectEntries(r, a, y, inc), k) <==>
            (k in a.fields && k in inc ==> FieldAlike(r, a, x, y, inc, k))
  {
    UnmatchedKey(r, a, x, inc, k);
    UnmatchedKey(r, a, y, inc, k);
    hide Reconcile.Reconcile, ObjectEntries;
  }

  /** Two references an object reads alike against. */
  lemma ObjectAlike(r: Reconciler, a: Attr, x: Value, y: Value, inc: map<string, Value>)
    requires r.unmatched
    ensures ObjectEntries(r, a, x, inc) == ObjectEntries(r, a, y, inc) <==>
            forall k | k in a.fields && k in inc :: FieldAlike(r, a, x, y, inc, k)
  {
    var m, n := ObjectEntries(r, a, x, inc), ObjectEntries(r, a, y, inc);
    SameMaps(m, n);
    hide Reconcile.Reconcile, ObjectEntries, SameAt, FieldAlike;
    forall k
      ensures SameAt(m, n, k) <==> (k in a.fields && k in inc ==> FieldAlike(r, a, x, y, inc, k))
    {
      KeyAlike(r, a, x, y, inc, k);
    }
  }

  /** The field is dropped against both, or reads alike against what each holds of it. */
  predicate FieldAlike(r: Reconciler, a: Attr, x: Value, y: Value, inc: map<string, Value>, k: string)
    requires k in a.fields && k in inc
  {
    var f := a.fields[k];
    && ((x.Map? ==> !f.output) <==> (y.Map? ==> !f.output))
    && ((x.Map? ==> !f.output) ==>
         Reconcile.Reconcile(r, f, Get(Entries(x), k), inc[k]) == Reconcile.Reconcile(r, f, Get(Entries(y), k), inc[k]))
  }

  lemma ObjectIsIndependent(r: Reconciler, a: Attr, inc: Value)
    requires r.unmatched && inc.Map? && !a.freeform && IsObject(a)
    requires forall k | k in inc.entries && k in a.fields ::
               ReadsAlike(r, a.fields[k], inc.entries[k]) <==> Independent(r, a.fields[k], inc.entries[k])
    ensures ReadsAlike(r, a, inc) <==> Independent(r, a, inc)
  {
    var m := inc.entries;
    forall ref
      ensures Reconcile.Reconcile(r, a, ref, inc) == Reconcile.Reconcile(r, a, Zero, inc) <==>
              forall k | k in a.fields && k in m :: FieldAlike(r, a, ref, Zero, m, k)
    {
      ReadsObject(r, a, ref, inc);
      ReadsObject(r, a, Zero, inc);
      ObjectAlike(r, a, ref, Zero, m);
    }
    hide Reconcile.Reconcile, ObjectEntries, FieldAlike;
    if ReadsAlike(r, a, inc) {
      forall k | k in m && k in a.fields ensures !a.fields[k].output && ReadsAlike(r, a.fields[k], m[k]) {
        forall ref ensures FieldAlike(r, a, ref, Zero, m, k) {
          assert Reconcile.Reconcile(r, a, ref, inc) == Reconcile.Reconcile(r, a, Zero, inc);
        }
        FieldReadsAlike(r, a, inc, k);
      }
    }
    if Independent(r, a, inc) {
      forall ref, k | k in a.fields && k in m ensures FieldAlike(r, a, ref, Zero, m, k) {
        FieldFollows(r, a, ref, m, k);
      }
    }
  }

  lemma FieldFollows(r: Reconciler, a: Attr, ref: Value, m: map<string, Value>, k: string)
    requires k in a.fields && k in m && !a.fields[k].output && ReadsAlike(r, a.fields[k], m[k])
    ensures FieldAlike(r, a, ref, Zero, m, k)
  {
    hide Reconcile.Reconcile;
  }

  lemma FieldReadsAlike(r: Reconciler, a: Attr, inc: Value, k: string)
    requires inc.Map? && k in a.fields && k in inc.entries
    requires forall ref :: FieldAlike(r, a, ref, Zero, inc.entries, k)
    ensures !a.fields[k].output && ReadsAlike(r, a.fields[k], inc.entries[k])
  {
    hide Reconcile.Reconcile;
    var f, j := a.fields[k], inc.entries[k];
    assert FieldAlike(r, a, Map(map[]), Zero, inc.entries, k);
    forall x ensures Reconcile.Reconcile(r, f, x, j) == Reconcile.Reconcile(r, f, Zero, j) {
      var ref := Map(map[k := x]);
      assert FieldAlike(r, a, ref, Zero, inc.entries, k);
      assert Get(Entries(ref), k) == x && Get(Entries(Zero), k) == Zero;
    }
  }

  // ---- lists -------------------------------------------------------------------

  /** A list that holds x at i and nothing else. */
  function Only(i: nat, x: Value): Value {
    List(seq(i + 1, n requires 0 <= n < i + 1 => if n == i then x else Zero))
  }

  lemma OnlyAt(r: Reconciler, a: Attr, i: nat, x: Value, inc: seq<Value>)
    requires r.unmatched && a.elem.Some? && i < |inc|
    ensures ListItems(r, a, Only(i, x), inc) ==
            ListItems(r, a, Zero, inc)[i := Reconcile.Reconcile(r, a.elem.value, x, inc[i])]
  {
    hide Reconcile.Reconcile;
    assert InElem(r, a) == r;
  }

  lemma ReadsList(r: Reconciler, a: Attr, ref: Value, inc: Value)
    requires inc.List? && !a.freeform && !IsObject(a) && IsList(a)
    ensures var items := ListItems(r, a, ref, inc.items);
            Reconcile.Reconcile(r, a, ref, inc) == List(if a.unordered then Matched(Items(ref), items) else items)
  {
    hide ListItems, Matched;
  }

  lemma ChangedItem(refs: seq<Value>, items: seq<Value>, i: nat, y: Value)
    requires i < |items| && Matched(refs, items[i := y]) == items
    ensures y == items[i]
  {
    MatchedConserves(refs, items[i := y]);
    hide Matched;
    var now := multiset(items[i := y]);
    assert now == multiset(items) - multiset{items[i]} + multiset{y};
    assert now[y] == multiset(items)[y];
  }

  /** A list that reads alike against any reference has items that do. */
  lemma ItemReadsAlike(r: Reconciler, a: Attr, inc: Value, i: nat)
    requires r.unmatched && inc.List? && !a.freeform && !IsObject(a) && IsList(a)
    requires ReadsAlike(r, a, inc) && i < |inc.items|
    ensures ReadsAlike(r, a.elem.value, inc.items[i])
  {
    var items := ListItems(r, a, Zero, inc.items);
    ReadsList(r, a, Zero, inc);
    assert Matched([], items) == items;
    assert InElem(r, a) == r;
    assert items[i] == Reconcile.Reconcile(r, a.elem.value, Zero, inc.items[i]);
    hide Reconcile.Reconcile, ListItems, Matched;
    forall x ensures Reconcile.Reconcile(r, a.elem.value, x, inc.items[i]) == items[i] {
      var y := Reconcile.Reconcile(r, a.elem.value, x, inc.items[i]);
      ReadsList(r, a, Only(i, x), inc);
      OnlyAt(r, a, i, x, inc.items);
      assert Reconcile.Reconcile(r, a, Only(i, x), inc) == Reconcile.Reconcile(r, a, Zero, inc);
      if a.unordered {
        ChangedItem(Items(Only(i, x)), items, i, y);
      } else {
        assert items[i := y][i] == y;
      }
    }
  }

  lemma SameItems(r: Reconciler, a: Attr, ref: Value, inc: seq<Value>)
    requires r.unmatched && a.elem.Some? && forall i | 0 <= i < |inc| :: ReadsAlike(r, a.elem.value, inc[i])
    ensures ListItems(r, a, ref, inc) == ListItems(r, a, Zero, inc)
  {
    hide Reconcile.Reconcile;
    assert InElem(r, a) == r;
    var x, y := ListItems(r, a, ref, inc), ListItems(r, a, Zero, inc);
    forall i | 0 <= i < |inc| ensures x[i] == y[i] {
      assert x[i] == Reconcile.Reconcile(r, a.elem.value, RefItem(ref, i), inc[i]);
      assert y[i] == Reconcile.Reconcile(r, a.elem.value, RefItem(Zero, i), inc[i]);
      assert ReadsAlike(r, a.elem.value, inc[i]) && RefItem(Zero, i) == Zero;
    }
  }

  lemma ListIsIndependent(r: Reconciler, a: Attr, inc: Value)
    requires r.unmatched && inc.List? && !a.freeform && !IsObject(a) && IsList(a)
    requires forall i | 0 <= i < |inc.items| ::
               ReadsAlike(r, a.elem.value, inc.items[i]) <==> Independent(r, a.elem.value, inc.items[i])
    ensures ReadsAlike(r, a, inc) <==> Independent(r, a, inc)
  {
    var items := ListItems(r, a, Zero, inc.items);
    ImmovableIff(items);
    hide Reconcile.Reconcile, ListItems, Descending, Matched, ReadsAlike;
    if ReadsAlike(r, a, inc) || Independent(r, a, inc) {
      forall i | 0 <= i < |inc.items| ensures ReadsAlike(r, a.elem.value, inc.items[i]) {
        if ReadsAlike(r, a, inc) {
          ItemReadsAlike(r, a, inc, i);
        }
      }
      ListReadsAlike(r, a, inc);
    }
  }

  lemma ListReadsAlike(r: Reconciler, a: Attr, inc: Value)
    requires r.unmatched && inc.List? && !a.freeform && !IsObject(a) && IsList(a)
    requires forall i | 0 <= i < |inc.items| :: ReadsAlike(r, a.elem.value, inc.items[i])
    ensures ReadsAlike(r, a, inc) <==> (a.unordered ==> Immovable(ListItems(r, a, Zero, inc.items)))
  {
    var items := ListItems(r, a, Zero, inc.items);
    assert Matched([], items) == items;
    hide Reconcile.Reconcile, ListItems, Matched;
    forall ref
      ensures Reconcile.Reconcile(r, a, ref, inc) == List(if a.unordered then Matched(Items(ref), items) else items)
    {
      ReadsList(r, a, ref, inc);
      SameItems(r, a, ref, inc.items);
    }
    assert Items(Zero) == [];
    if a.unordered && ReadsAlike(r, a, inc) {
      forall refs ensures Matched(refs, items) == items {
        assert Items(List(refs)) == refs;
        assert Reconcile.Reconcile(r, a, List(refs), inc) == Reconcile.Reconcile(r, a, Zero, inc);
      }
    }
  }

  lemma ScalarIsIndependent(r: Reconciler, a: Attr, inc: Value)
    requires !a.freeform && !IsObject(a) && !IsList(a) && inc.Known()
    ensures ReadsAlike(r, a, inc) <==> Independent(r, a, inc)
  {
    LeafIsIndependent(r, a, inc);
    forall ref ensures Reconcile.Reconcile(r, a, ref, inc) == Leaf(r, a, ref, inc) {}
    hide Reconcile.Reconcile, Leaf;
  }

  lemma CopiedIsIndependent(r: Reconciler, a: Attr, inc: Value)
    requires !inc.Known() || a.freeform || (IsObject(a) && !inc.Map?) || (!IsObject(a) && IsList(a) && !inc.List?)
    ensures ReadsAlike(r, a, inc) <==> Independent(r, a, inc)
  {}

  /** WHAT DOES NOT DEPEND ON THE REFERENCE: an element of an unordered list reads the same
      whichever element of the reference it is handed exactly when it holds no computed
      field, no string with a second spelling, and no unordered list some reference would
      put in another order. */
  lemma {:induction false} IndependentIff(r: Reconciler, a: Attr, inc: Value)
    requires r.unmatched
    ensures ReadsAlike(r, a, inc) <==> Independent(r, a, inc)
    decreases a
  {
    if !inc.Known() || a.freeform {
      CopiedIsIndependent(r, a, inc);
    } else if IsObject(a) && inc.Map? {
      forall k | k in inc.entries && k in a.fields
        ensures ReadsAlike(r, a.fields[k], inc.entries[k]) <==> Independent(r, a.fields[k], inc.entries[k])
      {
        IndependentIff(r, a.fields[k], inc.entries[k]);
      }
      ObjectIsIndependent(r, a, inc);
    } else if !IsObject(a) && IsList(a) && inc.List? {
      forall i | 0 <= i < |inc.items|
        ensures ReadsAlike(r, a.elem.value, inc.items[i]) <==> Independent(r, a.elem.value, inc.items[i])
      {
        IndependentIff(r, a.elem.value, inc.items[i]);
      }
      ListIsIndependent(r, a, inc);
    } else if IsObject(a) || IsList(a) {
      CopiedIsIndependent(r, a, inc);
    } else {
      ScalarIsIndependent(r, a, inc);
    }
  }

  // ---- beside siblings ---------------------------------------------------------

  /** What every element of a typed reference looks like: an object where objects are
      declared. */
  predicate IsSibling(a: Attr, ref: Value) {
    IsObject(a) && !a.freeform ==> ref.Map?
  }

  /** The least of them. */
  function Sibling(a: Attr): (v: Value)
    ensures IsSibling(a, v)
  {
    if IsObject(a) && !a.freeform then Map(map[]) else Zero
  }

  /** The same, of an element handed some element of the reference: a computed field at the
      top of the element is then dropped, and does not matter. */
  ghost predicate IndependentItem(r: Reconciler, a: Attr, inc: Value) {
    if inc.Known() && !a.freeform && IsObject(a) then
      inc.Map? ==> forall k | k in inc.entries && k in a.fields ::
        a.fields[k].output || Independent(r, a.fields[k], inc.entries[k])
    else Independent(r, a, inc)
  }

  ghost predicate ReadsAlikeBeside(r: Reconciler, a: Attr, inc: Value) {
    forall ref | IsSibling(a, ref) :: Reconcile.Reconcile(r, a, ref, inc) == Reconcile.Reconcile(r, a, Sibling(a), inc)
  }

  lemma ObjectBeside(r: Reconciler, a: Attr, inc: Value)
    requires r.unmatched && inc.Map? && !a.freeform && IsObject(a)
    ensures ReadsAlikeBeside(r, a, inc) <==> IndependentItem(r, a, inc)
  {
    var m, blank := inc.entries, Map(map[]);
    forall ref: Value | ref.Map?
      ensures Reconcile.Reconcile(r, a, ref, inc) == Reconcile.Reconcile(r, a, blank, inc) <==>
              forall k | k in a.fields && k in m :: FieldAlike(r, a, ref, blank, m, k)
    {
      ReadsObject(r, a, ref, inc);
      ReadsObject(r, a, blank, inc);
      ObjectAlike(r, a, ref, blank, m);
    }
    hide Reconcile.Reconcile, ObjectEntries, FieldAlike;
    forall k | k in m && k in a.fields
      ensures (forall ref: Value | ref.Map? :: FieldAlike(r, a, ref, blank, m, k)) <==>
              (a.fields[k].output || Independent(r, a.fields[k], m[k]))
    {
      FieldBeside(r, a, m, k);
    }
    if ReadsAlikeBeside(r, a, inc) {
      forall k, ref: Value | ref.Map? && k in m && k in a.fields ensures FieldAlike(r, a, ref, blank, m, k) {
        assert IsSibling(a, ref);
      }
    }
  }

  lemma FieldBeside(r: Reconciler, a: Attr, m: map<string, Value>, k: string)
    requires r.unmatched && k in m && k in a.fields
    ensures (forall ref: Value | ref.Map? :: FieldAlike(r, a, ref, Map(map[]), m, k)) <==>
            (a.fields[k].output || Independent(r, a.fields[k], m[k]))
  {
    var f, blank := a.fields[k], Map(map[]);
    IndependentIff(r, f, m[k]);
    hide Reconcile.Reconcile, Independent;
    if !f.output && forall ref: Value | ref.Map? :: FieldAlike(r, a, ref, blank, m, k) {
      forall x ensures Reconcile.Reconcile(r, f, x, m[k]) == Reconcile.Reconcile(r, f, Zero, m[k]) {
        var ref := Map(map[k := x]);
        assert FieldAlike(r, a, ref, blank, m, k);
        assert Get(Entries(ref), k) == x && Get(Entries(blank), k) == Zero;
      }
    }
  }

  /** THE NOTE ON UNMATCHED, EXACTLY: handed any element a typed reference can hold, an
      element reads the same exactly when, computed fields at its top aside, it is
      independent of the reference. */
  lemma BesideIff(r: Reconciler, a: Attr, inc: Value)
    requires r.unmatched
    ensures ReadsAlikeBeside(r, a, inc) <==> IndependentItem(r, a, inc)
  {
    if inc.Known() && !a.freeform && IsObject(a) {
      if inc.Map? {
        ObjectBeside(r, a, inc);
      }
    } else {
      IndependentIff(r, a, inc);
      hide Reconcile.Reconcile, Independent;
      assert IsObject(a) && !a.freeform ==> !inc.Known();
      CopiedBeside(r, a, inc);
    }
  }

  lemma CopiedBeside(r: Reconciler, a: Attr, inc: Value)
    requires !inc.Known() || a.freeform || !IsObject(a)
    ensures ReadsAlikeBeside(r, a, inc) <==> ReadsAlike(r, a, inc)
  {
    assert !inc.Known() ==> forall ref :: Reconcile.Reconcile(r, a, ref, inc) == inc;
    hide Reconcile.Reconcile;
  }
}
