/** The parts of Go's strings and sort packages the provider leans on.

    Strings are sequences of characters here; where a character stands for a byte, the module
    that needs it says so. Searching returns an option where Go returns -1. */
module Text {
  import opened Values

  function Join(parts: seq<string>, sep: char): string {
    if |parts| == 0 then "" else if |parts| == 1 then parts[0]
    else parts[0] + [sep] + Join(parts[1..], sep)
  }

  function Split(s: string, sep: char): (parts: seq<string>)
    ensures |parts| >= 1
  {
    if s == "" then [""]
    else if s[0] == sep then [""] + Split(s[1..], sep)
    else
      var rest := Split(s[1..], sep);
      [[s[0]] + rest[0]] + rest[1..]
  }

  lemma {:induction false} SplitPlain(s: string, sep: char)
    requires sep !in s
    ensures Split(s, sep) == [s]
  {
    if s != "" {
      assert s[0] in s;
      forall c | c in s[1..] ensures c in s {}
      SplitPlain(s[1..], sep);
      assert [s[0]] + s[1..] == s;
    }
  }

  lemma {:induction false} SplitConcat(head: string, sep: char, tail: string)
    requires sep !in head
    ensures Split(head + [sep] + tail, sep) == [head] + Split(tail, sep)
  {
    var s := head + [sep] + tail;
    if head == "" {
      assert s[0] == sep && s[1..] == tail;
    } else {
      assert head[0] in head;
      forall c | c in head[1..] ensures c in head {}
      assert s[0] == head[0] && s[1..] == head[1..] + [sep] + tail;
      SplitConcat(head[1..], sep, tail);
      assert [head[0]] + head[1..] == head;
    }
  }

  /** Splitting undoes joining when no part holds the separator. */
  lemma {:induction false} SplitJoin(parts: seq<string>, sep: char)
    requires parts != []
    requires forall p | p in parts :: sep !in p
    ensures Split(Join(parts, sep), sep) == parts
  {
    assert parts[0] in parts;
    if |parts| == 1 {
      SplitPlain(parts[0], sep);
    } else {
      SplitConcat(parts[0], sep, Join(parts[1..], sep));
      forall p | p in parts[1..] ensures p in parts {}
      SplitJoin(parts[1..], sep);
      assert [parts[0]] + parts[1..] == parts;
    }
  }

  lemma JoinPrefixed(c: char, rest: seq<string>, sep: char)
    requires rest != []
    ensures Join([[c] + rest[0]] + rest[1..], sep) == [c] + Join(rest, sep)
  {
    var parts := [[c] + rest[0]] + rest[1..];
    if |rest| > 1 {
      assert parts[1..] == rest[1..];
      assert [c] + rest[0] + [sep] + Join(rest[1..], sep) == [c] + (rest[0] + [sep] + Join(rest[1..], sep));
    }
  }

  lemma JoinAfterEmpty(rest: seq<string>, sep: char)
    requires rest != []
    ensures Join([""] + rest, sep) == [sep] + Join(rest, sep)
  {
    assert ([""] + rest)[1..] == rest;
    assert "" + [sep] + Join(rest, sep) == [sep] + Join(rest, sep);
  }

  lemma FreeOfSeparator(c: char, rest: seq<string>, sep: char)
    requires rest != [] && c != sep && forall p | p in rest :: sep !in p
    ensures forall p | p in [[c] + rest[0]] + rest[1..] :: sep !in p
  {
    assert rest[0] in rest;
    forall p | p in rest[1..] ensures p in rest {}
  }

  /** Joining undoes splitting, always, and no part of a split holds the separator. */
  lemma {:induction false} JoinSplit(s: string, sep: char)
    ensures Join(Split(s, sep), sep) == s
    ensures forall p | p in Split(s, sep) :: sep !in p
  {
    if s != "" {
      var rest := Split(s[1..], sep);
      JoinSplit(s[1..], sep);
      assert Split(s, sep) == if s[0] == sep then [""] + rest else [[s[0]] + rest[0]] + rest[1..];
      hide Join, Split;
      assert [s[0]] + s[1..] == s;
      if s[0] == sep {
        JoinAfterEmpty(rest, sep);
      } else {
        JoinPrefixed(s[0], rest, sep);
        FreeOfSeparator(s[0], rest, sep);
      }
    }
  }

  /** Go's string order. */
  predicate Le(a: string, b: string) {
    a == "" || (b != "" && (a[0] < b[0] || (a[0] == b[0] && Le(a[1..], b[1..]))))
  }

  lemma {:induction false} LeAntisymmetric(a: string, b: string)
    requires Le(a, b) && Le(b, a)
    ensures a == b
  {
    if a != "" && b != "" {
      LeAntisymmetric(a[1..], b[1..]);
      assert a == [a[0]] + a[1..] && b == [b[0]] + b[1..];
    }
  }

  lemma {:induction false} LeTransitive(a: string, b: string, c: string)
    requires Le(a, b) && Le(b, c)
    ensures Le(a, c)
  {
    if a != "" && a[0] == b[0] && b[0] == c[0] {
      LeTransitive(a[1..], b[1..], c[1..]);
    }
  }

  lemma {:induction false} LeTotal(a: string, b: string)
    ensures Le(a, b) || Le(b, a)
  {
    if a != "" && b != "" && a[0] == b[0] {
      LeTotal(a[1..], b[1..]);
    }
  }

  predicate Least(m: string, s: set<string>) {
    m in s && forall x | x in s :: Le(m, x)
  }

  lemma {:induction false} LeastExists(s: set<string>)
    requires s != {}
    ensures exists m :: Least(m, s)
  {
    var x :| x in s;
    LeTotal(x, x);
    if s == {x} {
      assert Least(x, s);
    } else {
      LeastExists(s - {x});
      var m :| Least(m, s - {x});
      LeTotal(m, x);
      if Le(m, x) {
        assert Least(m, s);
      } else {
        forall y | y in s ensures Le(x, y) {
          if y != x {
            LeTransitive(x, m, y);
          }
        }
        assert Least(x, s);
      }
    }
  }

  function Sorted(s: set<string>): (names: seq<string>)
    ensures forall k :: k in names <==> k in s
    ensures forall i, j | 0 <= i < j < |names| :: names[i] != names[j] && Le(names[i], names[j])
  {
    if s == {} then [] else
      LeastExists(s);
      assert forall m, n | Least(m, s) && Least(n, s) :: m == n by {
        forall m, n | Least(m, s) && Least(n, s) ensures m == n {
          LeAntisymmetric(m, n);
        }
      }
      var m :| Least(m, s);
      [m] + Sorted(s - {m})
  }

  predicate Distinct(names: seq<string>) {
    forall i, j | 0 <= i < j < |names| :: names[i] != names[j]
  }

  /** sortedAttrNames: each name once, in Go's string order (see Sorted). */
  function SortedNames(s: set<string>): (names: seq<string>)
    ensures forall k :: k in names <==> k in s
    ensures Distinct(names)
  {
    Sorted(s)
  }

  /** There is one way to sort: two duplicate-free ordered lists of one set are equal. */
  lemma {:induction false} SortedUnique(a: seq<string>, b: seq<string>)
    requires forall k :: k in a <==> k in b
    requires forall i, j | 0 <= i < j < |a| :: a[i] != a[j] && Le(a[i], a[j])
    requires forall i, j | 0 <= i < j < |b| :: b[i] != b[j] && Le(b[i], b[j])
    ensures a == b
  {
    assert |b| > 0 ==> b[0] in b;
    if a != [] {
      assert a[0] in b;
      assert b[0] in a;
      if a[0] != b[0] {
        LeAntisymmetric(a[0], b[0]);
      }
      forall k ensures k in a[1..] <==> k in b[1..] {
        if k in a[1..] {
          assert k in a;
        }
        if k in b[1..] {
          assert k in b;
        }
      }
      SortedUnique(a[1..], b[1..]);
    }
  }

  predicate HasPrefix(s: string, p: string) {
    |p| <= |s| && s[..|p|] == p
  }

  function TrimPrefix(s: string, p: string): string {
    if HasPrefix(s, p) then s[|p|..] else s
  }

  // ---- decimal numbers ---------------------------------------------------------

  /** strconv.Itoa of a number that is not negative. */
  function Decimal(n: nat): (s: string)
    ensures s != ""
  {
    var digit := '0' + (n % 10) as char;
    if n < 10 then [digit] else Decimal(n / 10) + [digit]
  }

  predicate Digits(s: string) {
    forall i | 0 <= i < |s| :: '0' <= s[i] <= '9'
  }

  predicate IsDecimal(s: string) {
    s != "" && Digits(s)
  }

  function Undecimal(s: string): nat
    requires Digits(s)
  {
    if s == "" then 0
    else 10 * Undecimal(s[..|s| - 1]) + (s[|s| - 1] as int - '0' as int)
  }

  /** A number survives being written down; so two numbers written alike are one. */
  lemma {:induction false} DecimalRoundTrip(n: nat)
    ensures IsDecimal(Decimal(n)) && Undecimal(Decimal(n)) == n
  {
    var digit := '0' + (n % 10) as char;
    if n >= 10 {
      DecimalRoundTrip(n / 10);
      assert (Decimal(n / 10) + [digit])[..|Decimal(n / 10)|] == Decimal(n / 10);
    } else {
      assert Decimal(n) == [digit];
      assert [digit][..0] == "";
      assert digit as int - '0' as int == n;
    }
  }

  // ---- searching ---------------------------------------------------------------

  predicate OccursAt(s: string, sub: string, i: nat) {
    i + |sub| <= |s| && s[i..i + |sub|] == sub
  }

  /** strings.Index: the least place sub occurs. */
  function Index(s: string, sub: string): (r: Option<nat>)
    ensures r.Some? ==> OccursAt(s, sub, r.value) && forall i: nat | i < r.value :: !OccursAt(s, sub, i)
    ensures r.None? ==> forall i: nat :: !OccursAt(s, sub, i)
  {
    if HasPrefix(s, sub) then
      assert s[0..|sub|] == s[..|sub|];
      Some(0)
    else if s == "" then
      assert forall i: nat :: OccursAt(s, sub, i) ==> i == 0;
      None
    else
      var rest := Index(s[1..], sub);
      assert forall i: nat | i > 0 :: OccursAt(s, sub, i) <==> OccursAt(s[1..], sub, i - 1) by {
        forall i: nat | i > 0 ensures OccursAt(s, sub, i) <==> OccursAt(s[1..], sub, i - 1) {
          if i + |sub| <= |s| {
            assert s[1..][i - 1..i - 1 + |sub|] == s[i..i + |sub|];
          }
        }
      }
      assert !OccursAt(s, sub, 0) by {
        assert |sub| <= |s| ==> s[0..|sub|] == s[..|sub|];
      }
      if rest.Some? then Some(rest.value + 1)
      else
        assert forall i: nat :: !OccursAt(s, sub, i) by {
          forall i: nat ensures !OccursAt(s, sub, i) {
            if i > 0 {
              assert !OccursAt(s[1..], sub, i - 1);
            }
          }
        }
        None
  }

  /** Where a mark the head does not begin first occurs in head + mark + tail. */
  lemma IndexAfter(head: string, mark: string, tail: string)
    requires mark != "" && mark[0] !in head
    ensures Index(head + mark + tail, mark) == Some(|head|)
  {
    var s := head + mark + tail;
    assert s[|head|..|head| + |mark|] == mark;
    assert OccursAt(s, mark, |head|);
    forall i: nat | i < |head| ensures !OccursAt(s, mark, i) {
      assert head[i] in head;
      assert i + |mark| <= |s| ==> s[i..i + |mark|][0] == head[i];
    }
  }
}
