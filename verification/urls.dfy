/** Percent-encoding of path segments, as Go's url package does it for resource names
    (internal/gcprov/urls.go and ids.go).

    A char stands for one byte of a Go string: escaping works byte by byte, and a character
    outside ASCII is several of them. */
module Urls {
  import opened Values
  import opened Text

  // ---- percent-encoding (section 2.1 of RFC 3986) ------------------------------

  predicate IsBytes(s: string) {
    forall i | 0 <= i < |s| :: s[i] as int < 256
  }

  predicate Alphanumeric(c: char) {
    'a' <= c <= 'z' || 'A' <= c <= 'Z' || '0' <= c <= '9'
  }

  /** What url.PathEscape leaves as it is. */
  predicate Plain(c: char) {
    || Alphanumeric(c) || c == '-' || c == '_' || c == '.' || c == '~'
    || c == '$' || c == '&' || c == '+' || c == '=' || c == ':' || c == '@'
  }

  function HexDigit(n: nat): char
    requires n < 16
  {
    if n < 10 then '0' + n as char else 'A' + (n - 10) as char
  }

  function Unhex(c: char): (n: Option<nat>)
    ensures n.Some? ==> n.value < 16
  {
    if '0' <= c <= '9' then Some(c as nat - '0' as nat)
    else if 'a' <= c <= 'f' then Some(c as nat - 'a' as nat + 10)
    else if 'A' <= c <= 'F' then Some(c as nat - 'A' as nat + 10)
    else None
  }

  function EscapeByte(c: char): string {
    if Plain(c) then [c] else ['%', HexDigit(c as nat / 16 % 16), HexDigit(c as nat % 16)]
  }

  /** url.PathEscape */
  function Escape(s: string): string {
    if s == "" then "" else EscapeByte(s[0]) + Escape(s[1..])
  }

  /** url.PathUnescape; None for a malformed escape. */
  function Unescape(s: string): Option<string> {
    if s == "" then Some("")
    else if s[0] == '%' then
      if |s| < 3 || Unhex(s[1]).None? || Unhex(s[2]).None? then None
      else
        var rest := Unescape(s[3..]);
        if rest.None? then None
        else Some([(16 * Unhex(s[1]).value + Unhex(s[2]).value) as char] + rest.value)
    else
      var rest := Unescape(s[1..]);
      if rest.None? then None else Some([s[0]] + rest.value)
  }

  /** What one segment of an id says: unescaped where it can be. */
  function Decoded(s: string): string {
    var u := Unescape(s);
    if u.Some? then u.value else s
  }

  lemma HexRoundTrip(n: nat)
    requires n < 16
    ensures Unhex(HexDigit(n)) == Some(n)
  {}

  lemma UnescapeHex(h: char, l: char, tail: string)
    requires Unhex(h).Some? && Unhex(l).Some?
    ensures Unescape(['%', h, l] + tail) ==
            if Unescape(tail).Some?
            then Some([(16 * Unhex(h).value + Unhex(l).value) as char] + Unescape(tail).value) else None
  {
    hide Unhex;
    var s := ['%', h, l] + tail;
    assert s[1] == h && s[2] == l && s[3..] == tail;
  }

  /** An escaped byte, then anything. */
  lemma UnescapeByte(c: char, tail: string)
    requires c as int < 256
    ensures Unescape(EscapeByte(c) + tail) ==
            if Unescape(tail).Some? then Some([c] + Unescape(tail).value) else None
  {
    if Plain(c) {
      assert ([c] + tail)[1..] == tail;
    } else {
      assert c as nat / 16 % 16 == c as nat / 16;
      var h, l := HexDigit(c as nat / 16), HexDigit(c as nat % 16);
      HexRoundTrip(c as nat / 16);
      HexRoundTrip(c as nat % 16);
      hide HexDigit, Unhex, Plain, Unescape;
      UnescapeHex(h, l, tail);
    }
  }

  lemma {:induction false} EscapeRoundTrip(s: string)
    requires IsBytes(s)
    ensures Unescape(Escape(s)) == Some(s)
  {
    if s != "" {
      EscapeRoundTrip(s[1..]);
      UnescapeByte(s[0], Escape(s[1..]));
      assert [s[0]] + s[1..] == s;
    }
  }

  lemma EscapedByte(c: char)
    ensures '/' !in EscapeByte(c) && '{' !in EscapeByte(c)
  {
    var e := EscapeByte(c);
    forall i | 0 <= i < |e| ensures e[i] != '/' && e[i] != '{' {}
  }

  /** A byte that separates segments, or opens a placeholder, is never left plain. */
  lemma {:induction false} EscapedIsOneSegment(s: string)
    ensures '/' !in Escape(s) && '{' !in Escape(s)
  {
    if s != "" {
      EscapedIsOneSegment(s[1..]);
      EscapedByte(s[0]);
      hide EscapeByte;
    }
  }

  /** s is spelled as url.PathEscape spells: nothing escaped that need not be, nothing
      plain that need be, and hexadecimal in capitals. */
  predicate Canonical(s: string) {
    s != "" ==>
      if s[0] == '%' then
        && |s| >= 3 && Unhex(s[1]).Some? && Unhex(s[2]).Some?
        && !('a' <= s[1] <= 'f') && !('a' <= s[2] <= 'f')
        && !Plain((16 * Unhex(s[1]).value + Unhex(s[2]).value) as char)
        && Canonical(s[3..])
      else Plain(s[0]) && Canonical(s[1..])
  }

  lemma {:induction false} UnescapeIsBytes(s: string)
    requires IsBytes(s)
    ensures IsBytes(Decoded(s))
  {
    if s != "" {
      if s[0] == '%' {
        if |s| >= 3 {
          UnescapeIsBytes(s[3..]);
        }
      } else {
        UnescapeIsBytes(s[1..]);
      }
    }
  }

  lemma HexSpelling(a: char, b: char)
    requires Unhex(a).Some? && Unhex(b).Some?
    ensures var n := 16 * Unhex(a).value + Unhex(b).value;
            HexDigit(n / 16) == a && HexDigit(n % 16) == b <==> !('a' <= a <= 'f') && !('a' <= b <= 'f')
  {
    var n := 16 * Unhex(a).value + Unhex(b).value;
    assert n / 16 == Unhex(a).value && n % 16 == Unhex(b).value;
    OneHexSpelling(a);
    OneHexSpelling(b);
  }

  lemma OneHexSpelling(a: char)
    requires Unhex(a).Some?
    ensures HexDigit(Unhex(a).value) == a <==> !('a' <= a <= 'f')
  {}

  lemma ByteSpelling(t: string, x: string, y: string)
    requires |t| == 3 && t[0] == '%' && Unhex(t[1]).Some? && Unhex(t[2]).Some?
    ensures var c := (16 * Unhex(t[1]).value + Unhex(t[2]).value) as char;
            EscapeByte(c) + x == t + y <==> !Plain(c) && !('a' <= t[1] <= 'f') && !('a' <= t[2] <= 'f') && x == y
  {
    var c := (16 * Unhex(t[1]).value + Unhex(t[2]).value) as char;
    HexSpelling(t[1], t[2]);
    var e := EscapeByte(c);
    assert (e + x)[0] == e[0] && (t + y)[0] == '%';
    if !Plain(c) {
      assert (e + x)[1] == e[1] && (e + x)[2] == e[2] && (e + x)[3..] == x;
      assert (t + y)[1] == t[1] && (t + y)[2] == t[2] && (t + y)[3..] == y;
      assert e == ['%', HexDigit(c as nat / 16), HexDigit(c as nat % 16)];
      if HexDigit(c as nat / 16) == t[1] && HexDigit(c as nat % 16) == t[2] {
        assert e == t;
      }
    }
  }

  /** Escaping what a segment says gives the segment back exactly when it is canonical. */
  lemma {:induction false} CanonicalIsEscaped(s: string)
    requires IsBytes(s) && IsBytes(Decoded(s))
    ensures Escape(Decoded(s)) == s <==> Canonical(s)
  {
    if Unescape(s).None? {
      if Canonical(s) {
        CanonicalUnescapes(s);
      }
      BadEscapeStays(s);
    } else if s != "" {
      if s[0] == '%' {
        var t, c := s[..3], Decoded(s)[0];
        UnescapeIsBytes(s[3..]);
        CanonicalIsEscaped(s[3..]);
        assert Decoded(s)[1..] == Decoded(s[3..]);
        ByteSpelling(t, Escape(Decoded(s[3..])), s[3..]);
        assert s == t + s[3..];
      } else {
        UnescapeIsBytes(s[1..]);
        CanonicalIsEscaped(s[1..]);
        assert Decoded(s)[1..] == Decoded(s[1..]);
        assert Escape(Decoded(s)) == EscapeByte(s[0]) + Escape(Decoded(s[1..]));
        assert Escape(Decoded(s))[0] == EscapeByte(s[0])[0];
        if Plain(s[0]) {
          assert Escape(Decoded(s))[1..] == Escape(Decoded(s[1..]));
          assert s == [s[0]] + s[1..];
        }
      }
    }
  }

  lemma {:induction false} CanonicalUnescapes(s: string)
    requires Canonical(s)
    ensures Unescape(s).Some?
  {
    if s != "" {
      CanonicalUnescapes(if s[0] == '%' then s[3..] else s[1..]);
    }
  }

  lemma {:induction false} NothingToUnescape(s: string)
    requires '%' !in s
    ensures Unescape(s) == Some(s)
  {
    if s != "" {
      forall c | c in s[1..] ensures c in s {}
      NothingToUnescape(s[1..]);
      assert [s[0]] + s[1..] == s && s[0] in s;
    }
  }

  lemma BadEscapeStays(s: string)
    requires IsBytes(s) && Unescape(s).None?
    ensures Escape(s) != s
  {
    hide Escape, Unescape;
    if '%' !in s {
      NothingToUnescape(s);
    }
    var i :| 0 <= i < |s| && s[i] == '%';
    EscapeLonger(s, i);
  }

  lemma {:induction false} EscapeLonger(s: string, i: nat)
    requires IsBytes(s) && i < |s|
    ensures |Escape(s)| >= |s|
    ensures !Plain(s[i]) ==> |Escape(s)| > |s|
    decreases |s|
  {
    if |s| > 1 {
      EscapeLonger(s[1..], if i > 0 then i - 1 else 0);
    }
  }
}
