/** Expanding a url template and parsing an id against it undo each other. */
module RoundTrip {
  import opened Values
  import opened Text
  import opened Urls
  import opened Templates

  function Raw(v: Value, floats: FloatText): string {
    var r := RawSegment(v, floats);
    if r.Some? then r.value else ""
  }

  /** Every value the template names is text of bytes. */
  predicate BytesIn(segs: seq<Segment>, attrs: map<string, Value>, floats: FloatText) {
    forall s | s in segs && !s.Literal? :: IsBytes(Raw(Get(attrs, s.name), floats))
  }

  /** The segments of an id whose template expands to texts, the last of which may be
      several. */
  function SegmentsOf(segs: seq<Segment>, texts: seq<string>): seq<string>
    requires |texts| == |segs| > 0
  {
    var n := |segs| - 1;
    texts[..n] + if segs[n].Rest? then Split(texts[n], '/') else [texts[n]]
  }

  lemma {:induction false} SplitLast(texts: seq<string>)
    requires texts != [] && forall t | t in texts[..|texts| - 1] :: '/' !in t
    ensures Split(Join(texts, '/'), '/') == texts[..|texts| - 1] + Split(texts[|texts| - 1], '/')
  {
    if |texts| == 1 {
      assert texts[..0] == [];
    } else {
      var n := |texts| - 1;
      assert texts[0] == texts[..n][0];
      assert texts[1..][..n - 1] == texts[..n][1..];
      SplitConcat(texts[0], '/', Join(texts[1..], '/'));
      SplitLast(texts[1..]);
      assert texts[..n] == [texts[0]] + texts[1..][..n - 1];
    }
  }

  /** What a segment expands to, other than the reserved form, is one segment. */
  lemma FilledIsOneSegment(seg: Segment, attrs: map<string, Value>, floats: FloatText)
    requires SegmentOk(seg) && !seg.Rest? && SegmentText(seg, attrs, floats).Ok?
    ensures '/' !in SegmentText(seg, attrs, floats).text
  {
    if seg.Hole? {
      EscapedIsOneSegment(Raw(attrs[seg.name], floats));
    }
  }

  ghost predicate FilledWith(segs: seq<Segment>, texts: seq<string>, attrs: map<string, Value>, floats: FloatText) {
    |texts| == |segs| && forall i | 0 <= i < |segs| :: SegmentText(segs[i], attrs, floats) == Ok(texts[i])
  }

  lemma IdSplits(segs: seq<Segment>, texts: seq<string>, attrs: map<string, Value>, floats: FloatText)
    requires TemplateOk(segs) && FilledWith(segs, texts, attrs, floats)
    ensures Split(Join(texts, '/'), '/') == SegmentsOf(segs, texts)
  {
    hide SegmentText;
    var n := |segs| - 1;
    forall i | 0 <= i < |segs| && !segs[i].Rest? ensures '/' !in texts[i] {
      assert segs[i] in segs;
      FilledIsOneSegment(segs[i], attrs, floats);
    }
    forall t | t in texts[..n] ensures '/' !in t {
      var i :| 0 <= i < n && texts[i] == t;
    }
    SplitLast(texts);
    if !segs[n].Rest? {
      SplitPlain(texts[n], '/');
    }
  }

  function NamesIn(segs: seq<Segment>): set<string> {
    set s | s in segs && !s.Literal? :: s.name
  }

  /** m is out and, under every name of the template, the text of its value. */
  ghost predicate Captured(m: map<string, Value>, segs: seq<Segment>, attrs: map<string, Value>, floats: FloatText,
                     out: map<string, Value>)
  {
    && (forall k :: k in m <==> k in out || k in NamesIn(segs))
    && (forall s | s in segs && !s.Literal? :: s.name in m && m[s.name] == Str(Raw(Get(attrs, s.name), floats)))
    && (forall k | k in out && k !in NamesIn(segs) :: k in m && m[k] == out[k])
  }

  /** What one segment of a template takes from an id. */
  lemma MatchOne(seg: Segment, ts: seq<string>, ids: seq<string>, out: map<string, Value>)
    requires SegmentOk(seg) && ids != []
    ensures Match([Written(seg)] + ts, ids, out) ==
            match seg
            case Literal(t) => if ids[0] == t then Match(ts, ids[1..], out) else None
            case Hole(n, _) => Match(ts, ids[1..], out[n := Str(Decoded(ids[0]))])
            case Rest(n) => if ts != [] then None else Some(out[n := Str(Join(ids, '/'))])
  {
    CapturesPlaceholder(seg);
    var all := [Written(seg)] + ts;
    assert all[0] == Written(seg) && all[1..] == ts;
    assert seg.Literal? ==> Written(seg) == seg.text;
    hide PlaceholderSegment, Written, Decoded, SegmentOk;
  }

  /** One segment's capture is what its value expanded to. */
  lemma CaptureIsRaw(seg: Segment, text: string, attrs: map<string, Value>, floats: FloatText)
    requires SegmentOk(seg) && SegmentText(seg, attrs, floats) == Ok(text)
    requires !seg.Literal? ==> IsBytes(Raw(Get(attrs, seg.name), floats))
    ensures match seg
            case Literal(t) => text == t
            case Hole(n, _) => Decoded(text) == Raw(Get(attrs, n), floats)
            case Rest(n) => text == Raw(Get(attrs, n), floats)
  {
    if seg.Hole? {
      EscapeRoundTrip(Raw(attrs[seg.name], floats));
    }
  }

  lemma {:induction false} MatchBack(segs: seq<Segment>, texts: seq<string>, attrs: map<string, Value>, floats: FloatText,
                                     out: map<string, Value>)
    requires TemplateOk(segs) && BytesIn(segs, attrs, floats) && FilledWith(segs, texts, attrs, floats)
    ensures var m := Match(AllWritten(segs), SegmentsOf(segs, texts), out);
            m.Some? && Captured(m.value, segs, attrs, floats, out)
    decreases |segs|
  {
    if |segs| == 1 {
      MatchLast(segs[0], texts[0], attrs, floats, out);
      assert segs == [segs[0]] && texts == [texts[0]];
    } else {
      hide Match, SegmentsOf, AllWritten, SegmentText, SegmentOk, Raw, TemplateOk, NamesIn, Captured;
      RestOk(segs);
      MatchFirst(segs, texts, attrs, floats, out);
      var out1 := if segs[0].Literal? then out else out[segs[0].name := Str(Raw(Get(attrs, segs[0].name), floats))];
      MatchBack(segs[1..], texts[1..], attrs, floats, out1);
      var m := Match(AllWritten(segs[1..]), SegmentsOf(segs[1..], texts[1..]), out1);
      CapturedCons(m.value, segs, attrs, floats, out);
    }
  }

  lemma MatchLast(seg: Segment, text: string, attrs: map<string, Value>, floats: FloatText, out: map<string, Value>)
    requires SegmentOk(seg) && SegmentText(seg, attrs, floats) == Ok(text)
    requires !seg.Literal? ==> IsBytes(Raw(Get(attrs, seg.name), floats))
    ensures var m := Match(AllWritten([seg]), SegmentsOf([seg], [text]), out);
            m.Some? && Captured(m.value, [seg], attrs, floats, out)
  {
    CaptureIsRaw(seg, text, attrs, floats);
    hide SegmentText, SegmentOk, Decoded, IsBytes, Raw, Captured;
    assert AllWritten([seg]) == [Written(seg)] + [];
    JoinSplit(text, '/');
    var ids := if seg.Rest? then Split(text, '/') else [text];
    assert SegmentsOf([seg], [text]) == ids;
    hide Written;
    MatchOne(seg, [], ids, out);
    assert [text][1..] == [];
    OnlyCapture(seg, attrs, floats, out);
  }

  lemma RestFilled(segs: seq<Segment>, texts: seq<string>, attrs: map<string, Value>, floats: FloatText)
    requires |segs| > 1 && BytesIn(segs, attrs, floats) && FilledWith(segs, texts, attrs, floats)
    ensures BytesIn(segs[1..], attrs, floats) && FilledWith(segs[1..], texts[1..], attrs, floats)
    ensures SegmentText(segs[0], attrs, floats) == Ok(texts[0])
    ensures !segs[0].Literal? ==> IsBytes(Raw(Get(attrs, segs[0].name), floats))
  {
    hide IsBytes, Raw, SegmentText;
    assert segs[0] in segs && forall s | s in segs[1..] :: s in segs;
  }

  lemma MatchFirst(segs: seq<Segment>, texts: seq<string>, attrs: map<string, Value>, floats: FloatText,
                   out: map<string, Value>)
    requires |segs| > 1 && SegmentOk(segs[0]) && !segs[0].Rest?
    requires BytesIn(segs, attrs, floats) && FilledWith(segs, texts, attrs, floats)
    ensures BytesIn(segs[1..], attrs, floats) && FilledWith(segs[1..], texts[1..], attrs, floats)
    ensures Match(AllWritten(segs), SegmentsOf(segs, texts), out) ==
            Match(AllWritten(segs[1..]), SegmentsOf(segs[1..], texts[1..]),
                  if segs[0].Literal? then out else out[segs[0].name := Str(Raw(Get(attrs, segs[0].name), floats))])
  {
    assert |texts| == |segs|;
    RestFilled(segs, texts, attrs, floats);
    hide Decoded, IsBytes, Raw, Match, Written, SegmentOk, SegmentText, AllWritten, SegmentsOf, BytesIn, FilledWith;
    CaptureIsRaw(segs[0], texts[0], attrs, floats);
    SegmentsOfCons(segs, texts);
    MatchOne(segs[0], AllWritten(segs[1..]), SegmentsOf(segs, texts), out);
  }

  lemma SegmentsOfCons(segs: seq<Segment>, texts: seq<string>)
    requires |texts| == |segs| > 1
    ensures SegmentsOf(segs, texts) == [texts[0]] + SegmentsOf(segs[1..], texts[1..])
    ensures AllWritten(segs) == [Written(segs[0])] + AllWritten(segs[1..])
  {
    hide Written;
    var n := |segs| - 1;
    assert texts[..n] == [texts[0]] + texts[1..][..n - 1];
  }

  lemma RestOk(segs: seq<Segment>)
    requires TemplateOk(segs) && |segs| > 1
    ensures TemplateOk(segs[1..]) && SegmentOk(segs[0]) && !segs[0].Rest?
    ensures !segs[0].Literal? ==> segs[0].name !in NamesIn(segs[1..])
  {
    hide SegmentOk;
    var rest := segs[1..];
    assert forall i | 0 <= i < |rest| :: rest[i] == segs[i + 1];
    forall s | s in rest && !s.Literal? && !segs[0].Literal? ensures s.name != segs[0].name {
      var j :| 0 <= j < |rest| && rest[j] == s;
      assert segs[j + 1] == s;
    }
  }

  lemma OnlyCapture(seg: Segment, attrs: map<string, Value>, floats: FloatText, out: map<string, Value>)
    ensures Captured(if seg.Literal? then out else out[seg.name := Str(Raw(Get(attrs, seg.name), floats))],
                     [seg], attrs, floats, out)
  {
    hide Raw;
    assert seg in [seg];
  }

  lemma CapturedCons(m: map<string, Value>, segs: seq<Segment>, attrs: map<string, Value>, floats: FloatText,
                     out: map<string, Value>)
    requires segs != [] && (!segs[0].Literal? ==> segs[0].name !in NamesIn(segs[1..]))
    requires Captured(m, segs[1..], attrs, floats,
                      if segs[0].Literal? then out else out[segs[0].name := Str(Raw(Get(attrs, segs[0].name), floats))])
    ensures Captured(m, segs, attrs, floats, out)
  {
    hide Raw;
    assert forall s :: s in segs <==> s == segs[0] || s in segs[1..];
  }

  /** PARSING UNDOES EXPANSION: every placeholder gets back the text of its value, whatever
      bytes it is made of, "/" and "%" among them. */
  lemma ParseUndoesExpand(segs: seq<Segment>, attrs: map<string, Value>, floats: FloatText)
    requires TemplateOk(segs) && BytesIn(segs, attrs, floats)
    requires Expand(TemplateText(segs), attrs, floats).Ok?
    ensures var id := Expand(TemplateText(segs), attrs, floats).text;
            var m := Match(Split(TemplateText(segs), '/'), Split(id, '/'), map[]);
            m.Some? && Captured(m.value, segs, attrs, floats, map[])
  {
    ExpandTemplate(segs, attrs, floats);
    var texts := Filled(segs, attrs, floats).texts;
    TemplateSplits(segs);
    IdSplits(segs, texts, attrs, floats);
    MatchBack(segs, texts, attrs, floats, map[]);
  }

  /** So distinct values make distinct ids. */
  lemma IdsAreDistinct(segs: seq<Segment>, attrs: map<string, Value>, others: map<string, Value>, floats: FloatText)
    requires TemplateOk(segs) && BytesIn(segs, attrs, floats) && BytesIn(segs, others, floats)
    requires Expand(TemplateText(segs), attrs, floats).Ok?
    requires Expand(TemplateText(segs), attrs, floats) == Expand(TemplateText(segs), others, floats)
    ensures forall s | s in segs && !s.Literal? ::
              RawSegment(Get(attrs, s.name), floats) == RawSegment(Get(others, s.name), floats)
  {
    ParseUndoesExpand(segs, attrs, floats);
    ParseUndoesExpand(segs, others, floats);
    var id := Expand(TemplateText(segs), attrs, floats).text;
    var m := Match(Split(TemplateText(segs), '/'), Split(id, '/'), map[]).value;
    hide Expand, Match, Joined, SegmentText, BytesIn, TemplateOk;
    forall s | s in segs && !s.Literal?
      ensures RawSegment(Get(attrs, s.name), floats) == RawSegment(Get(others, s.name), floats)
    {
      assert m[s.name] == Str(Raw(Get(attrs, s.name), floats)) && m[s.name] == Str(Raw(Get(others, s.name), floats));
      ExpandedIsText(segs, attrs, floats, s);
      ExpandedIsText(segs, others, floats, s);
    }
  }

  lemma ExpandedIsText(segs: seq<Segment>, attrs: map<string, Value>, floats: FloatText, s: Segment)
    requires TemplateOk(segs) && Expand(TemplateText(segs), attrs, floats).Ok? && s in segs && !s.Literal?
    ensures RawSegment(Get(attrs, s.name), floats).Some?
  {
    ExpandTemplate(segs, attrs, floats);
    var i :| 0 <= i < |segs| && segs[i] == s;
    hide Expand, RawSegment;
    assert SegmentText(segs[i], attrs, floats).Ok?;
  }

  // ---- the other way round -----------------------------------------------------

  /** What a match says of one segment of the id. */
  predicate TellsAt(segs: seq<Segment>, ids: seq<string>, m: map<string, Value>, i: nat)
    requires i < |segs| <= |ids|
  {
    match segs[i]
    case Literal(t) => ids[i] == t
    case Hole(n, _) => n in m && m[n] == Str(Decoded(ids[i]))
    case Rest(n) => n in m && m[n] == Str(Join(ids[i..], '/'))
  }

  predicate Tells(segs: seq<Segment>, ids: seq<string>, m: map<string, Value>) {
    && segs != []
    && (if segs[|segs| - 1].Rest? then |segs| <= |ids| else |segs| == |ids|)
    && forall i | 0 <= i < |segs| :: TellsAt(segs, ids, m, i)
  }

  predicate Keeps(m: map<string, Value>, out: map<string, Value>, segs: seq<Segment>) {
    forall k | k in out && k !in NamesIn(segs) :: k in m && m[k] == out[k]
  }

  lemma {:induction false} MatchTells(segs: seq<Segment>, ids: seq<string>, out: map<string, Value>, m: map<string, Value>)
    requires TemplateOk(segs) && Match(AllWritten(segs), ids, out) == Some(m)
    ensures Tells(segs, ids, m) && Keeps(m, out, segs)
    decreases |segs|
  {
    hide SegmentOk, Written, Decoded;
    assert segs[0] in segs;
    CapturesPlaceholder(segs[0]);
    assert ids != [];
    assert AllWritten(segs) == [Written(segs[0])] + AllWritten(segs[1..]);
    MatchOne(segs[0], AllWritten(segs[1..]), ids, out);
    if |segs| == 1 {
      assert segs == [segs[0]] && segs[1..] == [];
      TellsOne(segs[0], ids, out, m);
    } else {
      RestOk(segs);
      var out1 := if segs[0].Literal? then out else out[segs[0].name := Str(Decoded(ids[0]))];
      hide Match, AllWritten, TemplateOk;
      MatchTells(segs[1..], ids[1..], out1, m);
      hide NamesIn, TellsAt;
      TellsCons(segs, ids, out, m);
    }
  }

  lemma TellsOne(seg: Segment, ids: seq<string>, out: map<string, Value>, m: map<string, Value>)
    requires SegmentOk(seg) && Match([Written(seg)], ids, out) == Some(m)
    ensures Tells([seg], ids, m) && Keeps(m, out, [seg])
  {
    CapturesPlaceholder(seg);
    assert ids != [] && [Written(seg)] == [Written(seg)] + [];
    MatchOne(seg, [], ids, out);
    hide SegmentOk, Written, Decoded;
    assert seg in [seg] && ids[0..] == ids;
  }

  lemma TellsCons(segs: seq<Segment>, ids: seq<string>, out: map<string, Value>, m: map<string, Value>)
    requires |segs| > 1 && ids != [] && !segs[0].Rest?
    requires Tells(segs[1..], ids[1..], m)
    requires segs[0].Literal? ==> ids[0] == segs[0].text
    requires !segs[0].Literal? ==> segs[0].name !in NamesIn(segs[1..])
    requires Keeps(m, if segs[0].Literal? then out else out[segs[0].name := Str(Decoded(ids[0]))], segs[1..])
    ensures Tells(segs, ids, m) && Keeps(m, out, segs)
  {
    hide Decoded;
    forall i | 0 <= i < |segs| ensures TellsAt(segs, ids, m, i) {
      if i > 0 {
        assert TellsAt(segs[1..], ids[1..], m, i - 1);
        assert ids[1..][i - 1..] == ids[i..];
      }
    }
    assert forall s | s in segs[1..] :: s in segs;
    assert segs[0] in segs;
  }

  /** What the captured values expand to, segment by segment. */
  function Respelled(segs: seq<Segment>, ids: seq<string>): (texts: seq<string>)
    requires |segs| <= |ids|
    ensures |texts| == |segs|
  {
    seq(|segs|, i requires 0 <= i < |segs| =>
      match segs[i]
      case Literal(_) => ids[i]
      case Hole(_, _) => Escape(Decoded(ids[i]))
      case Rest(_) => Join(ids[i..], '/'))
  }

  lemma {:induction false} FilledIs(segs: seq<Segment>, texts: seq<string>, attrs: map<string, Value>, floats: FloatText)
    requires FilledWith(segs, texts, attrs, floats)
    ensures Filled(segs, attrs, floats) == Parts(texts)
  {
    hide SegmentText;
    if segs != [] {
      assert forall i | 0 <= i < |segs| - 1 :: segs[1..][i] == segs[i + 1] && texts[1..][i] == texts[i + 1];
      FilledIs(segs[1..], texts[1..], attrs, floats);
      assert [texts[0]] + texts[1..] == texts;
    }
  }

  lemma TellsFills(segs: seq<Segment>, ids: seq<string>, m: map<string, Value>, floats: FloatText)
    requires Tells(segs, ids, m)
    ensures FilledWith(segs, Respelled(segs, ids), m, floats)
  {
    forall i | 0 <= i < |segs| ensures SegmentText(segs[i], m, floats) == Ok(Respelled(segs, ids)[i]) {
      assert TellsAt(segs, ids, m, i);
    }
  }

  lemma {:induction false} JoinNested(a: seq<string>, b: seq<string>)
    requires b != []
    ensures Join(a + [Join(b, '/')], '/') == Join(a + b, '/')
  {
    if a == [] {
      assert a + b == b && a + [Join(b, '/')] == [Join(b, '/')];
    } else {
      JoinNested(a[1..], b);
      assert (a + b)[1..] == a[1..] + b;
      assert (a + [Join(b, '/')])[1..] == a[1..] + [Join(b, '/')];
    }
  }

  lemma RespelledSplits(segs: seq<Segment>, ids: seq<string>)
    requires TemplateOk(segs)
    requires if segs[|segs| - 1].Rest? then |segs| <= |ids| else |segs| == |ids|
    requires forall p | p in ids :: '/' !in p
    ensures var n, texts := |segs| - 1, Respelled(segs, ids);
            Split(Join(texts, '/'), '/') == texts[..n] + if segs[n].Rest? then ids[n..] else [texts[n]]
  {
    hide SegmentOk, Escape, Decoded, Split;
    var n, texts := |segs| - 1, Respelled(segs, ids);
    forall i | 0 <= i < |segs| && !segs[i].Rest? ensures '/' !in texts[i] {
      EscapedIsOneSegment(Decoded(ids[i]));
      assert ids[i] in ids;
    }
    forall t | t in texts[..n] ensures '/' !in t {
      var i :| 0 <= i < n && texts[i] == t;
    }
    SplitLast(texts);
    hide Join;
    if segs[n].Rest? {
      forall p | p in ids[n..] ensures '/' !in p {
        assert p in ids;
      }
      SplitJoin(ids[n..], '/');
    } else {
      SplitPlain(texts[n], '/');
    }
  }

  /** The respelled segments make the id exactly when every captured segment is respelled
      as it was. */
  lemma RespelledIsSame(segs: seq<Segment>, ids: seq<string>)
    requires TemplateOk(segs)
    requires if segs[|segs| - 1].Rest? then |segs| <= |ids| else |segs| == |ids|
    requires forall p | p in ids :: '/' !in p
    ensures Join(Respelled(segs, ids), '/') == Join(ids, '/') <==>
            forall i | 0 <= i < |segs| && segs[i].Hole? :: Escape(Decoded(ids[i])) == ids[i]
  {
    hide SegmentOk, Escape, Decoded, Split, Join, Respelled;
    RespelledSplits(segs, ids);
    SplitJoin(ids, '/');
    RespelledParts(segs, ids);
  }

  lemma RespelledParts(segs: seq<Segment>, ids: seq<string>)
    requires TemplateOk(segs)
    requires if segs[|segs| - 1].Rest? then |segs| <= |ids| else |segs| == |ids|
    ensures var n, texts := |segs| - 1, Respelled(segs, ids);
            var parts := texts[..n] + if segs[n].Rest? then ids[n..] else [texts[n]];
            && Join(parts, '/') == Join(texts, '/')
            && (parts == ids <==> forall i | 0 <= i < |segs| && segs[i].Hole? :: Escape(Decoded(ids[i])) == ids[i])
  {
    hide SegmentOk, Escape, Decoded;
    var n, texts := |segs| - 1, Respelled(segs, ids);
    var parts := texts[..n] + if segs[n].Rest? then ids[n..] else [texts[n]];
    if segs[n].Rest? {
      JoinNested(texts[..n], ids[n..]);
      assert texts == texts[..n] + [Join(ids[n..], '/')];
    } else {
      assert parts == texts;
    }
    assert |parts| == |ids|;
    assert forall i | 0 <= i < |segs| && !segs[i].Rest? :: parts[i] == texts[i];
    assert forall i | n <= i < |ids| && segs[n].Rest? :: parts[i] == ids[i];
  }

  /** EXPANSION UNDOES PARSING exactly where the id is spelled canonically: the captures
      of an id expand to that id if and only if every captured segment is as
      url.PathEscape would write it. */
  lemma ExpandUndoesParse(segs: seq<Segment>, id: string, floats: FloatText)
    requires TemplateOk(segs) && IsBytes(id)
    requires Match(Split(TemplateText(segs), '/'), Split(id, '/'), map[]).Some?
    ensures var ids := Split(id, '/');
            var attrs := Match(Split(TemplateText(segs), '/'), ids, map[]).value;
            && |segs| <= |ids|
            && (Expand(TemplateText(segs), attrs, floats) == Ok(id) <==>
                forall i | 0 <= i < |segs| && segs[i].Hole? :: Canonical(ids[i]))
  {
    var ids := Split(id, '/');
    TemplateSplits(segs);
    var attrs := Match(AllWritten(segs), ids, map[]).value;
    MatchTells(segs, ids, map[], attrs);
    TellsFills(segs, ids, attrs, floats);
    FilledIs(segs, Respelled(segs, ids), attrs, floats);
    ExpandTemplate(segs, attrs, floats);
    JoinSplit(id, '/');
    RespelledIsSame(segs, ids);
    hide Expand, Match, TemplateText, Filled, Respelled, SegmentOk, Escape, Decoded, Canonical, AllWritten;
    forall i | 0 <= i < |ids| ensures Escape(Decoded(ids[i])) == ids[i] <==> Canonical(ids[i]) {
      SplitIsBytes(id, '/', i);
      UnescapeIsBytes(ids[i]);
      CanonicalIsEscaped(ids[i]);
    }
  }

  lemma {:induction false} SplitIsBytes(s: string, sep: char, i: nat)
    requires IsBytes(s) && i < |Split(s, sep)|
    ensures IsBytes(Split(s, sep)[i])
  {
    if s != "" {
      if s[0] == sep {
        if i > 0 {
          SplitIsBytes(s[1..], sep, i - 1);
        }
      } else {
        SplitIsBytes(s[1..], sep, i);
      }
    }
  }
}
