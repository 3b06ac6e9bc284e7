/** Url templates as a printer and a parser (internal/gcprov/urls.go, ExpandURL, and ids.go,
    parseAgainstTemplate).

    A placeholder is written {{x}}, {{%x}}, {x} or {+x}; the last, the reserved expansion of
    RFC 6570, stands for the rest of the path and is neither escaped nor split. */
module Templates {
  import opened Values
  import opened Text
  import opened Urls

  datatype UrlError = Unterminated | NotSet(name: string) | NotText(name: string)
  datatype Expansion = Ok(text: string) | Err(error: UrlError)

  /** How strconv writes a float, which no property here depends on. */
  type FloatText = real -> string

  function IntText(i: int): string {
    if i < 0 then "-" + Decimal(-i) else Decimal(i)
  }

  /** rawSegment: the text of a scalar; None for anything else. */
  function RawSegment(v: Value, floats: FloatText): Option<string> {
    match v
    case Str(s) => Some(s)
    case Int(i) => Some(IntText(i))
    case Float(r) => Some(floats(r))
    case Bool(b) => Some(if b then "true" else "false")
    case _ => None
  }

  predicate IsSpace(c: char) {
    c == ' ' || 9 <= c as int <= 13
  }

  function TrimLeft(s: string): string {
    if s != "" && IsSpace(s[0]) then TrimLeft(s[1..]) else s
  }

  function TrimRight(s: string): string {
    if s != "" && IsSpace(s[|s| - 1]) then TrimRight(s[..|s| - 1]) else s
  }

  function TrimSpace(s: string): string {
    TrimRight(TrimLeft(s))
  }

  predicate HasSuffix(s: string, p: string) {
    |p| <= |s| && s[|s| - |p|..] == p
  }

  // ---- printing ----------------------------------------------------------------

  /** A placeholder as the scan finds it, and how much of the template it takes. */
  datatype Found = Found(name: string, reserved: bool, size: nat)

  function FindPlaceholder(t: string): (f: Option<Found>)
    requires HasPrefix(t, "{")
    ensures f.Some? ==> 0 < f.value.size <= |t|
  {
    var close := if HasPrefix(t, "{{") then "}}" else "}";
    var rel := Index(t[|close|..], close);
    if rel.None? then None
    else
      var content := TrimSpace(t[|close|..|close| + rel.value]);
      var name := TrimPrefix(content, "+");
      Some(Found(if HasPrefix(t, "{{") then TrimPrefix(name, "%") else name,
                 !HasPrefix(t, "{{") && HasPrefix(content, "+"),
                 2 * |close| + rel.value))
  }

  function Fill(name: string, reserved: bool, attrs: map<string, Value>, floats: FloatText): Expansion {
    if !Get(attrs, name).Known() then Err(NotSet(name))
    else
      var raw := RawSegment(attrs[name], floats);
      if raw.None? then Err(NotText(name)) else Ok(if reserved then raw.value else Escape(raw.value))
  }

  function Then(x: string, rest: Expansion): Expansion {
    if rest.Ok? then Ok(x + rest.text) else rest
  }

  function Expand(t: string, attrs: map<string, Value>, floats: FloatText): Expansion
    decreases |t|
  {
    if t == "" then Ok("")
    else if t[0] != '{' then Then([t[0]], Expand(t[1..], attrs, floats))
    else
      assert t[..1] == "{";
      var f := FindPlaceholder(t);
      if f.None? then Err(Unterminated)
      else
        var x := Fill(f.value.name, f.value.reserved, attrs, floats);
        if x.Err? then x else Then(x.text, Expand(t[f.value.size..], attrs, floats))
  }

  method ExpandURL(tmpl: string, attrs: map<string, Value>, floats: FloatText) returns (url: Expansion)
    ensures url == Expand(tmpl, attrs, floats)
  {
    hide FindPlaceholder, Fill, Expand;
    var b, i: nat := "", 0;
    ExpandStep(tmpl, 0, attrs, floats);
    while i < |tmpl|
      invariant i <= |tmpl|
      invariant Expand(tmpl, attrs, floats) == Then(b, Expand(tmpl[i..], attrs, floats))
    {
      ExpandStep(tmpl, i, attrs, floats);
      if tmpl[i] != '{' {
        ThenThen(b, [tmpl[i]], Expand(tmpl[i + 1..], attrs, floats));
        b := b + [tmpl[i]];
        i := i + 1;
        continue;
      }
      var f := FindPlaceholder(tmpl[i..]);
      if f.None? {
        return Err(Unterminated);
      }
      var x := Fill(f.value.name, f.value.reserved, attrs, floats);
      if x.Err? {
        return x;
      }
      ThenThen(b, x.text, Expand(tmpl[i + f.value.size..], attrs, floats));
      b := b + x.text;
      i := i + f.value.size;
    }
    ExpandStep(tmpl, i, attrs, floats);
    url := Ok(b);
  }

  /** What the scan does at i. */
  lemma ExpandStep(t: string, i: nat, attrs: map<string, Value>, floats: FloatText)
    requires i <= |t|
    ensures i == 0 ==> t[i..] == t
    ensures i == |t| ==> Expand(t[i..], attrs, floats) == Ok("")
    ensures i < |t| && t[i] != '{' ==> Expand(t[i..], attrs, floats) == Then([t[i]], Expand(t[i + 1..], attrs, floats))
    ensures i < |t| && t[i] == '{' ==>
              && HasPrefix(t[i..], "{")
              && var f := FindPlaceholder(t[i..]);
                 Expand(t[i..], attrs, floats) ==
                 if f.None? then Err(Unterminated)
                 else
                   var x := Fill(f.value.name, f.value.reserved, attrs, floats);
                   if x.Err? then x else Then(x.text, Expand(t[i + f.value.size..], attrs, floats))
  {
    hide FindPlaceholder, Fill;
    var rest := t[i..];
    if i < |t| {
      assert rest[1..] == t[i + 1..] && rest[..1] == [t[i]];
      if t[i] == '{' {
        var f := FindPlaceholder(rest);
        assert f.Some? ==> rest[f.value.size..] == t[i + f.value.size..];
      }
    }
  }

  lemma ThenThen(a: string, b: string, rest: Expansion)
    ensures Then(a, Then(b, rest)) == Then(a + b, rest)
  {
    if rest.Ok? {
      assert a + (b + rest.text) == a + b + rest.text;
    }
  }

  // ---- parsing -----------------------------------------------------------------

  datatype Capture = Capture(name: string, reserved: bool)

  /** parsePlaceholderSegment: a segment that is one placeholder, whole. */
  function PlaceholderSegment(seg: string): Option<Capture> {
    if HasPrefix(seg, "{{") && HasSuffix(seg, "}}") && |seg| > 4 then
      Some(Capture(TrimPrefix(seg[2..|seg| - 2], "%"), false))
    else if HasPrefix(seg, "{") && HasSuffix(seg, "}") && |seg| > 2 then
      var inner := seg[1..|seg| - 1];
      Some(Capture(TrimPrefix(inner, "+"), HasPrefix(inner, "+")))
    else None
  }

  /** The captures of matching segments ids against template segments ts, added to out. */
  function Match(ts: seq<string>, ids: seq<string>, out: map<string, Value>): Option<map<string, Value>>
    decreases |ts|
  {
    if ts == [] then if ids == [] then Some(out) else None
    else
      match PlaceholderSegment(ts[0])
      case None => if ids != [] && ids[0] == ts[0] then Match(ts[1..], ids[1..], out) else None
      case Some(Capture(name, reserved)) =>
        if ids == [] || (reserved && |ts| > 1) then None
        else if reserved then Some(out[name := Str(Join(ids, '/'))])
        else Match(ts[1..], ids[1..], out[name := Str(Decoded(ids[0]))])
  }

  method ParseAgainstTemplate(tmpl: string, id: string) returns (attrs: Option<map<string, Value>>)
    ensures attrs == Match(Split(tmpl, '/'), Split(id, '/'), map[])
  {
    var ts, ids := Split(tmpl, '/'), Split(id, '/');
    var out: map<string, Value> := map[];
    var i: nat, j: nat := 0, 0;
    while i < |ts|
      invariant i <= |ts| && j <= |ids|
      invariant Match(ts, ids, map[]) == Match(ts[i..], ids[j..], out)
    {
      assert ts[i..][0] == ts[i] && ts[i..][1..] == ts[i + 1..];
      assert j < |ids| ==> ids[j..][0] == ids[j] && ids[j..][1..] == ids[j + 1..];
      var p := PlaceholderSegment(ts[i]);
      if p.None? {
        if j >= |ids| || ids[j] != ts[i] {
          return None;
        }
        i, j := i + 1, j + 1;
        continue;
      }
      if p.value.reserved {
        if i != |ts| - 1 || j >= |ids| {
          return None;
        }
        out := out[p.value.name := Str(Join(ids[j..], '/'))];
        i, j := i + 1, |ids|;
        continue;
      }
      if j >= |ids| {
        return None;
      }
      out := out[p.value.name := Str(Decoded(ids[j]))];
      i, j := i + 1, j + 1;
    }
    return if j != |ids| then None else Some(out);
  }

  // ---- templates of whole segments ---------------------------------------------

  datatype Spelling = Double | Percent | Single

  datatype Segment = Literal(text: string) | Hole(name: string, spelling: Spelling) | Rest(name: string)

  predicate NameOk(n: string) {
    n != "" && forall c | c in n :: Alphanumeric(c) || c == '_'
  }

  function Written(seg: Segment): string {
    match seg
    case Literal(text) => text
    case Hole(n, Double) => "{{" + n + "}}"
    case Hole(n, Percent) => "{{%" + n + "}}"
    case Hole(n, Single) => "{" + n + "}"
    case Rest(n) => "{+" + n + "}"
  }

  function AllWritten(segs: seq<Segment>): (ts: seq<string>)
    ensures |ts| == |segs| && forall i | 0 <= i < |segs| :: ts[i] == Written(segs[i])
  {
    seq(|segs|, i requires 0 <= i < |segs| => Written(segs[i]))
  }

  function TemplateText(segs: seq<Segment>): string {
    Join(AllWritten(segs), '/')
  }

  predicate SegmentOk(seg: Segment) {
    match seg
    case Literal(text) => '/' !in text && '{' !in text
    case Hole(n, _) => NameOk(n)
    case Rest(n) => NameOk(n)
  }

  /** Whole-segment literals and distinctly named placeholders, the reserved form only last. */
  predicate TemplateOk(segs: seq<Segment>) {
    && segs != []
    && (forall s | s in segs :: SegmentOk(s))
    && (forall i | 0 <= i < |segs| - 1 :: !segs[i].Rest?)
    && (forall i, j | 0 <= i < j < |segs| && !segs[i].Literal? && !segs[j].Literal? :: segs[i].name != segs[j].name)
  }

  function SegmentText(seg: Segment, attrs: map<string, Value>, floats: FloatText): Expansion {
    if seg.Literal? then Ok(seg.text) else Fill(seg.name, seg.Rest?, attrs, floats)
  }

  // ---- printing segment by segment ---------------------------------------------

  lemma NameIsTrimmed(n: string)
    requires NameOk(n)
    ensures TrimSpace(n) == n && TrimSpace("+" + n) == "+" + n && TrimSpace("%" + n) == "%" + n
    ensures !HasPrefix(n, "+") && !HasPrefix(n, "%") && !HasPrefix(n, "{") && '}' !in n && '/' !in n
  {
    assert n[0] in n && n[|n| - 1] in n;
    assert ("+" + n)[|n|] == n[|n| - 1] && ("%" + n)[|n|] == n[|n| - 1];
    assert n[..1] == [n[0]];
  }

  /** The scan finds a written placeholder, whatever follows it. */
  lemma FindsPlaceholder(seg: Segment, tail: string)
    requires SegmentOk(seg) && !seg.Literal?
    ensures HasPrefix(Written(seg) + tail, "{")
    ensures FindPlaceholder(Written(seg) + tail) == Some(Found(seg.name, seg.Rest?, |Written(seg)|))
  {
    hide FindPlaceholder, TrimPrefix, TrimSpace, HasPrefix, Written, NameOk, Mark;
    WrittenMarked(seg);
    MarkedIsTrimmed(Mark(seg), seg.name);
    Stripped(Mark(seg), seg.name);
    if seg.Hole? && !seg.spelling.Single? {
      FindsDouble(Mark(seg) + seg.name, tail);
    } else {
      FindsSingle(Mark(seg) + seg.name, tail);
    }
  }

  lemma WrittenMarked(seg: Segment)
    requires !seg.Literal?
    ensures var content := Mark(seg) + seg.name;
            && (Mark(seg) == "" || Mark(seg) == "+" || Mark(seg) == "%")
            && (Mark(seg) == "+" <==> seg.Rest?) && (Mark(seg) == "%" <==> seg.Hole? && seg.spelling.Percent?)
            && |Written(seg)| == |content| + (if seg.Hole? && !seg.spelling.Single? then 4 else 2)
            && Written(seg) == if seg.Hole? && !seg.spelling.Single? then "{{" + content + "}}" else "{" + content + "}"
  {}

  function Mark(seg: Segment): string
    requires !seg.Literal?
  {
    if seg.Rest? then "+" else if seg.spelling.Percent? then "%" else ""
  }

  lemma MarkedIsTrimmed(mark: string, n: string)
    requires NameOk(n) && (mark == "" || mark == "+" || mark == "%")
    ensures var content := mark + n;
            '}' !in content && TrimSpace(content) == content && content != "" && content[0] != '{'
  {
    NameIsTrimmed(n);
    assert mark == "" ==> mark + n == n;
    assert n[0] in n;
  }

  lemma Stripped(mark: string, n: string)
    requires NameOk(n) && |mark| <= 1
    ensures var name := TrimPrefix(mark + n, "+");
            && (mark == "" ==> name == n && TrimPrefix(name, "%") == n && !HasPrefix(mark + n, "+"))
            && (mark == "%" ==> TrimPrefix(name, "%") == n && !HasPrefix(mark + n, "+"))
            && (mark == "+" ==> name == n && HasPrefix(mark + n, "+"))
  {
    NameIsTrimmed(n);
    assert mark != "" ==> (mark + n)[..1] == mark && (mark + n)[1..] == n;
    assert mark == "" ==> mark + n == n;
  }

  lemma FindsDouble(content: string, tail: string)
    requires '}' !in content && TrimSpace(content) == content
    ensures var t := "{{" + content + "}}" + tail;
            var name := TrimPrefix(content, "+");
            && HasPrefix(t, "{")
            && FindPlaceholder(t) == Some(Found(TrimPrefix(name, "%"), false, |content| + 4))
  {
    var t := "{{" + content + "}}" + tail;
    assert t[..1] == "{" && t[..2] == "{{" && t[2..] == content + "}}" + tail;
    IndexAfter(content, "}}", tail);
    assert t[2..2 + |content|] == content;
    hide Index, TrimSpace, TrimPrefix;
  }

  lemma FindsSingle(content: string, tail: string)
    requires '}' !in content && TrimSpace(content) == content && content != "" && content[0] != '{'
    ensures var t := "{" + content + "}" + tail;
            && HasPrefix(t, "{")
            && FindPlaceholder(t) == Some(Found(TrimPrefix(content, "+"), HasPrefix(content, "+"), |content| + 2))
  {
    var t := "{" + content + "}" + tail;
    assert t[..1] == "{" && t[1..] == content + "}" + tail && t[1] == content[0];
    assert !HasPrefix(t, "{{") by {
      assert t[..2][1] == content[0];
    }
    IndexAfter(content, "}", tail);
    assert t[1..1 + |content|] == content;
    hide Index, TrimSpace, TrimPrefix;
  }

  lemma ExpandPlaceholder(seg: Segment, tail: string, attrs: map<string, Value>, floats: FloatText)
    requires SegmentOk(seg) && !seg.Literal?
    ensures var x := SegmentText(seg, attrs, floats);
            Expand(Written(seg) + tail, attrs, floats) == if x.Err? then x else Then(x.text, Expand(tail, attrs, floats))
  {
    FindsPlaceholder(seg, tail);
    hide FindPlaceholder;
    assert (Written(seg) + tail)[|Written(seg)|..] == tail;
  }

  lemma {:induction false} ExpandLiteral(text: string, tail: string, attrs: map<string, Value>, floats: FloatText)
    requires '{' !in text
    ensures Expand(text + tail, attrs, floats) == Then(text, Expand(tail, attrs, floats))
  {
    if text == "" {
      assert text + tail == tail;
    } else {
      assert text[0] in text && forall c | c in text[1..] :: c in text;
      assert (text + tail)[1..] == text[1..] + tail;
      ExpandLiteral(text[1..], tail, attrs, floats);
      ThenThen([text[0]], text[1..], Expand(tail, attrs, floats));
      assert [text[0]] + text[1..] == text;
    }
  }

  lemma ExpandSegment(seg: Segment, tail: string, attrs: map<string, Value>, floats: FloatText)
    requires SegmentOk(seg)
    ensures var x := SegmentText(seg, attrs, floats);
            Expand(Written(seg) + tail, attrs, floats) == if x.Err? then x else Then(x.text, Expand(tail, attrs, floats))
  {
    if seg.Literal? {
      ExpandLiteral(seg.text, tail, attrs, floats);
    } else {
      ExpandPlaceholder(seg, tail, attrs, floats);
    }
  }

  /** What each segment expands to, in order; the first failure if there is one. */
  datatype Parts = Parts(texts: seq<string>) | Failed(error: UrlError)

  function Filled(segs: seq<Segment>, attrs: map<string, Value>, floats: FloatText): (p: Parts)
    ensures p.Parts? ==> |p.texts| == |segs| &&
                         forall i | 0 <= i < |segs| :: SegmentText(segs[i], attrs, floats) == Ok(p.texts[i])
  {
    if segs == [] then Parts([])
    else
      var x := SegmentText(segs[0], attrs, floats);
      if x.Err? then Failed(x.error)
      else
        var rest := Filled(segs[1..], attrs, floats);
        if rest.Failed? then rest else Parts([x.text] + rest.texts)
  }

  function Joined(p: Parts): Expansion {
    match p
    case Parts(texts) => Ok(Join(texts, '/'))
    case Failed(e) => Err(e)
  }

  /** EXPANSION IS SEGMENT BY SEGMENT: scanning the text of a template gives its segments'
      texts, joined, or the first failure among them. */
  lemma {:induction false} ExpandTemplate(segs: seq<Segment>, attrs: map<string, Value>, floats: FloatText)
    requires segs != [] && forall s | s in segs :: SegmentOk(s)
    ensures Expand(TemplateText(segs), attrs, floats) == Joined(Filled(segs, attrs, floats))
    decreases |segs|
  {
    hide Expand, SegmentText, Written, TemplateText, SegmentOk, Joined;
    assert segs[0] in segs;
    if |segs| == 1 {
      OneSegment(segs, attrs, floats);
    } else {
      SegmentsCons(segs, attrs, floats);
      ExpandSegment(segs[0], "/" + TemplateText(segs[1..]), attrs, floats);
      ExpandLiteral("/", TemplateText(segs[1..]), attrs, floats);
      ExpandTemplate(segs[1..], attrs, floats);
    }
  }

  lemma OneSegment(segs: seq<Segment>, attrs: map<string, Value>, floats: FloatText)
    requires |segs| == 1 && SegmentOk(segs[0])
    ensures Expand(TemplateText(segs), attrs, floats) == Joined(Filled(segs, attrs, floats))
  {
    var w := Written(segs[0]);
    ExpandSegment(segs[0], "", attrs, floats);
    assert TemplateText(segs) == w && w + "" == w;
    assert Expand("", attrs, floats) == Ok("");
    assert segs[1..] == [];
    hide Expand, SegmentText, Written, TemplateText;
    JoinOne(SegmentText(segs[0], attrs, floats));
  }

  lemma SegmentsCons(segs: seq<Segment>, attrs: map<string, Value>, floats: FloatText)
    requires |segs| > 1
    ensures TemplateText(segs) == Written(segs[0]) + ("/" + TemplateText(segs[1..]))
    ensures Joined(Filled(segs, attrs, floats)) ==
            var x := SegmentText(segs[0], attrs, floats);
            if x.Err? then x else Then(x.text, Then("/", Joined(Filled(segs[1..], attrs, floats))))
  {
    hide SegmentText, Written;
    var ts := AllWritten(segs);
    assert ts[1..] == AllWritten(segs[1..]);
    assert ts[0] + ['/'] + Join(ts[1..], '/') == ts[0] + ("/" + Join(ts[1..], '/'));
    var x, rest := SegmentText(segs[0], attrs, floats), Filled(segs[1..], attrs, floats);
    if x.Ok? && rest.Parts? {
      assert ([x.text] + rest.texts)[1..] == rest.texts;
      assert x.text + ['/'] + Join(rest.texts, '/') == x.text + ("/" + Join(rest.texts, '/'));
    }
  }

  lemma JoinOne(x: Expansion)
    ensures (if x.Err? then x else Then(x.text, Ok(""))) == if x.Err? then x else Ok(Join([x.text], '/'))
  {
    if x.Ok? {
      assert x.text + "" == x.text;
    }
  }

  // ---- parsing segment by segment ----------------------------------------------

  lemma CapturesPlaceholder(seg: Segment)
    requires SegmentOk(seg)
    ensures PlaceholderSegment(Written(seg)) ==
            if seg.Literal? then None else Some(Capture(seg.name, seg.Rest?))
  {
    if seg.Literal? {
      NotOpened(seg.text);
    } else {
      NameIsTrimmed(seg.name);
      WrittenMarked(seg);
      MarkedIsTrimmed(Mark(seg), seg.name);
      Stripped(Mark(seg), seg.name);
      var content := Mark(seg) + seg.name;
      assert seg.Hole? && !seg.spelling.Single? ==> !HasPrefix(content, "+");
      hide NameOk, TrimSpace, Written, Mark;
      if seg.Hole? && !seg.spelling.Single? {
        CapturesDouble(content);
      } else {
        CapturesSingle(content);
      }
    }
  }

  lemma NotOpened(t: string)
    requires '{' !in t
    ensures !HasPrefix(t, "{") && !HasPrefix(t, "{{")
  {
    assert |t| >= 1 ==> t[0] in t && t[..1][0] == t[0];
    assert |t| >= 2 ==> t[..2][0] == t[0];
  }

  lemma CapturesDouble(content: string)
    requires content != ""
    ensures PlaceholderSegment("{{" + content + "}}") == Some(Capture(TrimPrefix(content, "%"), false))
  {
    var t := "{{" + content + "}}";
    assert t[..2] == "{{" && t[|t| - 2..] == "}}" && t[2..|t| - 2] == content;
    hide TrimPrefix;
  }

  lemma CapturesSingle(content: string)
    requires content != "" && content[0] != '{'
    ensures PlaceholderSegment("{" + content + "}") == Some(Capture(TrimPrefix(content, "+"), HasPrefix(content, "+")))
  {
    var t := "{" + content + "}";
    assert t[..1] == "{" && t[|t| - 1..] == "}" && t[1..|t| - 1] == content;
    assert !HasPrefix(t, "{{") by {
      assert t[1] == content[0] && t[..2][1] == t[1];
    }
    hide TrimPrefix;
  }

  /** No segment's text holds a separator, and so a template splits where it was joined. */
  lemma WrittenIsOneSegment(seg: Segment)
    requires SegmentOk(seg)
    ensures '/' !in Written(seg)
  {
    if !seg.Literal? {
      NameIsTrimmed(seg.name);
    }
  }

  lemma TemplateSplits(segs: seq<Segment>)
    requires segs != [] && forall s | s in segs :: SegmentOk(s)
    ensures Split(TemplateText(segs), '/') == AllWritten(segs)
  {
    forall t | t in AllWritten(segs) ensures '/' !in t {
      var i :| 0 <= i < |segs| && AllWritten(segs)[i] == t;
      assert segs[i] in segs;
      WrittenIsOneSegment(segs[i]);
    }
    SplitJoin(AllWritten(segs), '/');
  }
}
