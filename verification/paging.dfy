/** Listing a collection page by page: the client's loop (internal/gcprov/discover.go,
    listOneType) and the fake server's pages (internal/gcpfake/server.go, paginate). */
module Paging {
  import opened Values
  import opened Text

  const MAX_INT := 0x7FFF_FFFF_FFFF_FFFF

  datatype Page<T> = Page(items: seq<T>, next: string)

  // ---- the server's pages ------------------------------------------------------

  /** strconv.Atoi; None is an error. */
  function Atoi(s: string): Option<int> {
    var digits := if s != "" && (s[0] == '+' || s[0] == '-') then s[1..] else s;
    if !IsDecimal(digits) then None
    else
      var n: int := (if s[0] == '-' then -1 else 1) * Undecimal(digits);
      if -MAX_INT - 1 <= n <= MAX_INT then Some(n) else None
  }

  /** The offset a page token stands for, kept inside the list. */
  function Offset(token: string, length: nat): (o: nat)
    ensures o <= length
  {
    var n := Atoi(token);
    if n.None? || n.value < 0 then 0 else if n.value > length then length else n.value
  }

  function Paginate<T>(items: seq<T>, token: string, size: nat): Page<T> {
    var offset := Offset(token, |items|);
    var end := if offset + size > |items| then |items| else offset + size;
    Page(items[offset..end], if end < |items| then Decimal(end) else "")
  }

  lemma AtoiOfDecimal(n: nat)
    requires n <= MAX_INT
    ensures Atoi(Decimal(n)) == Some(n) && Decimal(n) != ""
  {
    DecimalRoundTrip(n);
    assert '0' <= Decimal(n)[0] <= '9';
  }

  lemma TokensDiffer(m: nat, n: nat)
    requires m != n
    ensures Decimal(m) != Decimal(n)
  {
    DecimalRoundTrip(m);
    DecimalRoundTrip(n);
  }

  // ---- the client's loop -------------------------------------------------------

  /** A server: what it answers to its n-th request, for a token. */
  type Server<!T> = (nat, string) -> Page<T>

  /** What of each item is listed; None for one that is skipped. */
  type Reader<!T, !R> = T -> Option<R>

  function Kept<T, R>(items: seq<T>, read: Reader<T, R>): seq<R> {
    if items == [] then []
    else
      var one := read(items[0]);
      (if one.Some? then [one.value] else []) + Kept(items[1..], read)
  }

  /** Every answer is the last, or hands out one of these tokens. */
  ghost predicate DrawsFrom<T>(server: Server<T>, tokens: set<string>) {
    forall n: nat, t: string :: server(n, t).next == "" || server(n, t).next in tokens
  }

  datatype Listing<R> = Listed(found: seq<R>, requests: nat) | Repeated(requests: nat)

  /** The list from the n-th request on. */
  ghost function Follow<T, R>(server: Server<T>, read: Reader<T, R>, n: nat, token: string, seen: set<string>,
                              tokens: set<string>, out: seq<R>): Listing<R>
    requires DrawsFrom(server, tokens)
    decreases |tokens - seen|
  {
    var page := server(n, token);
    var more := out + Kept(page.items, read);
    if page.next == "" then Listed(more, n + 1)
    else if page.next in seen then Repeated(n + 1)
    else
      assert tokens - (seen + {page.next}) < tokens - seen by {
        assert page.next in tokens - seen;
      }
      CardinalitySmaller(tokens - (seen + {page.next}), tokens - seen);
      Follow(server, read, n + 1, page.next, seen + {page.next}, tokens, more)
  }

  lemma {:induction false} CardinalitySmaller(a: set<string>, b: set<string>)
    requires a < b
    ensures |a| < |b|
  {
    assert !(b <= a);
    var x :| x in b && x !in a;
    CardinalityAtMost(a, b - {x});
  }

  lemma {:induction false} CardinalityAtMost(a: set<string>, b: set<string>)
    requires a <= b
    ensures |a| <= |b|
  {
    if a != {} {
      var x :| x in a;
      CardinalityAtMost(a - {x}, b - {x});
    }
  }

  /** listOneType's loop. */
  method ListAll<T, R>(server: Server<T>, read: Reader<T, R>, ghost tokens: set<string>) returns (found: Option<seq<R>>, requests: nat)
    requires DrawsFrom(server, tokens)
    ensures match Follow(server, read, 0, "", {}, tokens, [])
            case Listed(all, n) => found == Some(all) && requests == n
            case Repeated(n) => found == None && requests == n
  {
    var out: seq<R>, token, seen: set<string> := [], "", {};
    requests := 0;
    while true
      invariant Follow(server, read, 0, "", {}, tokens, []) == Follow(server, read, requests, token, seen, tokens, out)
      decreases |tokens - seen|
    {
      var page := server(requests, token);
      requests := requests + 1;
      var more := ReadItems(page.items, read);
      out := out + more;
      token := page.next;
      if token == "" {
        return Some(out), requests;
      }
      if token in seen {
        return None, requests;
      }
      assert token in tokens - seen;
      CardinalitySmaller(tokens - (seen + {token}), tokens - seen);
      seen := seen + {token};
    }
  }

  /** The loop over one page's items. */
  method ReadItems<T, R>(items: seq<T>, read: Reader<T, R>) returns (out: seq<R>)
    ensures out == Kept(items, read)
  {
    out := [];
    for i := 0 to |items|
      invariant out + Kept(items[i..], read) == Kept(items, read)
    {
      assert items[i..][0] == items[i] && items[i..][1..] == items[i + 1..];
      var one := read(items[i]);
      if one.Some? {
        out := out + [one.value];
      }
    }
    assert items[|items|..] == [];
  }

  /** THE LOOP ENDS, whatever the server answers: it makes at most one request more than
      there are tokens to hand out. */
  lemma {:induction false} RequestsAreBounded<T, R>(server: Server<T>, read: Reader<T, R>, n: nat, token: string,
                                                    seen: set<string>, tokens: set<string>, out: seq<R>)
    requires DrawsFrom(server, tokens)
    ensures Follow(server, read, n, token, seen, tokens, out).requests <= n + |tokens - seen| + 1
    decreases |tokens - seen|
  {
    var page := server(n, token);
    if page.next != "" && page.next !in seen {
      assert page.next in tokens - seen;
      CardinalitySmaller(tokens - (seen + {page.next}), tokens - seen);
      RequestsAreBounded(server, read, n + 1, page.next, seen + {page.next}, tokens, out + Kept(page.items, read));
    }
  }

  // ---- together ----------------------------------------------------------------

  lemma {:induction false} KeptConcat<T, R>(a: seq<T>, b: seq<T>, read: Reader<T, R>)
    ensures Kept(a + b, read) == Kept(a, read) + Kept(b, read)
  {
    if a == [] {
      assert a + b == b;
    } else {
      var one := if read(a[0]).Some? then [read(a[0]).value] else [];
      assert (a + b)[0] == a[0] && (a + b)[1..] == a[1..] + b;
      assert Kept(a + b, read) == one + Kept(a[1..] + b, read) && Kept(a, read) == one + Kept(a[1..], read);
      KeptConcat(a[1..], b, read);
      hide Kept;
      assert one + (Kept(a[1..], read) + Kept(b, read)) == one + Kept(a[1..], read) + Kept(b, read);
    }
  }

  function OffsetTokens(length: nat): set<string> {
    set i | 0 <= i < length :: Decimal(i)
  }

  function PageServer<T>(items: seq<T>, size: nat): Server<T> {
    (n, token) => Paginate(items, token, size)
  }

  lemma PagesDrawOffsets<T>(items: seq<T>, size: nat)
    ensures DrawsFrom(PageServer(items, size), OffsetTokens(|items|))
  {
    forall n: nat, t: string
      ensures PageServer(items, size)(n, t).next == "" || PageServer(items, size)(n, t).next in OffsetTokens(|items|)
    {
      var offset := Offset(t, |items|);
      var end := if offset + size > |items| then |items| else offset + size;
      assert end < |items| ==> Decimal(end) in OffsetTokens(|items|);
    }
  }

  /** From an offset on, with only earlier offsets' tokens seen, the rest is listed. */
  lemma {:induction false} FollowFrom<T, R>(items: seq<T>, size: nat, read: Reader<T, R>, n: nat, token: string,
                                            seen: set<string>, out: seq<R>)
    requires DrawsFrom(PageServer(items, size), OffsetTokens(|items|))
    requires 0 < size && |items| <= MAX_INT
    requires SeenUpTo(seen, Offset(token, |items|))
    ensures var r := Follow(PageServer(items, size), read, n, token, seen, OffsetTokens(|items|), out);
            r.Listed? && r.found == out + Kept(items[Offset(token, |items|)..], read)
    decreases |items| - Offset(token, |items|)
  {
    hide Kept, Paginate, Offset, Decimal, OffsetTokens, DrawsFrom, SeenUpTo;
    PageIs(items, token, size, read, out);
    assert PageServer(items, size)(n, token) == Paginate(items, token, size);
    var page := Paginate(items, token, size);
    var more := out + Kept(page.items, read);
    if page.next != "" {
      var offset := Offset(token, |items|);
      NextIsNew(seen, offset, offset + size);
      FollowFrom(items, size, read, n + 1, page.next, seen + {page.next}, more);
    }
  }

  lemma KeptNone<T, R>(read: Reader<T, R>)
    ensures Kept([], read) == []
  {}

  /** One page: what it holds is the start of what is left. */
  lemma PageIs<T, R>(items: seq<T>, token: string, size: nat, read: Reader<T, R>, out: seq<R>)
    requires 0 < size && |items| <= MAX_INT
    ensures var offset, page := Offset(token, |items|), Paginate(items, token, size);
            && (page.next != "" ==>
                  offset + size < |items| && page.next == Decimal(offset + size) && Offset(page.next, |items|) == offset + size)
            && out + Kept(items[offset..], read) ==
               out + Kept(page.items, read) + if page.next == "" then [] else Kept(items[offset + size..], read)
  {
    hide Kept;
    var offset, page := Offset(token, |items|), Paginate(items, token, size);
    var rest := items[offset + |page.items|..];
    assert items[offset..] == page.items + rest;
    assert rest == [] ==> Kept(rest, read) == [] by {
      KeptNone(read);
    }
    KeptConcat(page.items, rest, read);
    assert out + (Kept(page.items, read) + Kept(rest, read)) == out + Kept(page.items, read) + Kept(rest, read);
    if offset + size < |items| {
      AtoiOfDecimal(offset + size);
    }
  }

  ghost predicate SeenUpTo(seen: set<string>, offset: nat) {
    forall t | t in seen :: exists i: nat :: i <= offset && t == Decimal(i)
  }

  lemma NextIsNew(seen: set<string>, offset: nat, end: nat)
    requires SeenUpTo(seen, offset) && offset < end
    ensures Decimal(end) !in seen && SeenUpTo(seen + {Decimal(end)}, end)
  {
    forall t | t in seen ensures t != Decimal(end) && exists i: nat :: i <= end && t == Decimal(i) {
      var i: nat :| i <= offset && t == Decimal(i);
      TokensDiffer(i, end);
    }
  }

  /** PAGING VISITS EVERYTHING ONCE: following the tokens from none lists exactly the items,
      in order, and never stops at a repeated token. */
  lemma PagingIsComplete<T, R>(items: seq<T>, size: nat, read: Reader<T, R>)
    requires 0 < size && |items| <= MAX_INT
    ensures DrawsFrom(PageServer(items, size), OffsetTokens(|items|))
    ensures var r := Follow(PageServer(items, size), read, 0, "", {}, OffsetTokens(|items|), []);
            r.Listed? && r.found == Kept(items, read)
  {
    hide Kept, Paginate, Decimal, OffsetTokens, DrawsFrom, Follow;
    assert Offset("", |items|) == 0;
    hide Offset, Atoi;
    PagesDrawOffsets(items, size);
    FollowFrom(items, size, read, 0, "", {}, []);
    assert items[0..] == items;
  }
}
