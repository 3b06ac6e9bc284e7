/** Schema names and wire names (internal/gcprov/names.go): configuration and state are keyed
    by the first, request and response bodies by the second, at every declared depth. */
module Names {
  import opened Values
  import opened Catalog

  function ToWire(l: Level, k: string): string {
    if k in l && l[k].canonical != "" then l[k].canonical else k
  }

  /** The attribute of the level with wire name w. Where two share it the source
      leaves the choice to map iteration; NamesOk rules that out. */
  ghost function KeyOf(l: Level, w: string): (r: Option<string>)
    ensures r.Some? ==> r.value in l && l[r.value].canonical == w
    ensures r.None? ==> forall k {:trigger l[k]} | k in l :: l[k].canonical != w
  {
    if k :| k in l && l[k].canonical == w then Some(k) else None
  }

  ghost function ToSchema(l: Level, w: string): string {
    if KeyOf(l, w).Some? then KeyOf(l, w).value else w
  }

  lemma KeyOfWire(l: Level, k: string)
    requires NamesOk(l) && k in l
    ensures KeyOf(l, l[k].canonical) == Some(k)
  {}

  // ---- wireBody and wireValue --------------------------------------------------

  ghost function WireNames(l: Level): set<string> {
    set k | k in l :: l[k].canonical
  }

  /** The entry of vals that a request carries under the wire name w: none when the
      attribute is one GCP computes itself and would refuse. */
  ghost predicate Carries(l: Level, vals: map<string, Value>, w: string) {
    KeyOf(l, w).Some? && KeyOf(l, w).value in vals && !l[KeyOf(l, w).value].output
  }

  ghost function WireBody(l: Level, vals: map<string, Value>): Object
    decreases Map(vals), 0
  {
    (map k | k in vals && k !in l :: ToRaw(vals[k])) +
    (map w | w in WireNames(l) && Carries(l, vals, w) ::
       WireValue(Some(l[KeyOf(l, w).value]), vals[KeyOf(l, w).value]))
  }

  ghost function WireValue(a: Option<Attr>, v: Value): Json
    decreases v, 1
  {
    if a.None? || a.value.freeform then ToRaw(v)
    else if v.Map? && a.value.fields != map[] then
      JObj(WireBody(a.value.fields, v.entries))
    else if v.List? && a.value.elem.Some? then
      JList(seq(|v.items|, i requires 0 <= i < |v.items| => WireValue(a.value.elem, v.items[i])))
    else ToRaw(v)
  }

  // ---- schemaAttrs and schemaValue ---------------------------------------------

  ghost function SchemaAttrs(l: Level, body: Object): map<string, Value>
    decreases JObj(body), 0
  {
    (map w | w in body && KeyOf(l, w).None? :: SchemaValue(AttrAt(l, w), body[w])) +
    (map k | k in l && l[k].canonical in body :: SchemaValue(Some(l[k]), body[l[k].canonical]))
  }

  ghost function SchemaValue(a: Option<Attr>, j: Json): Value
    decreases j, 1
  {
    if a.None? || a.value.freeform then FromRaw(j)
    else
      match j
      case JObj(fields) =>
        if a.value.fields == map[] then FromRaw(j) else Map(SchemaAttrs(a.value.fields, fields))
      case JList(items) =>
        if a.value.elem.None? then FromRaw(j)
        else List(seq(|items|, i requires 0 <= i < |items| => SchemaValue(a.value.elem, items[i])))
      case _ => FromRaw(j)
  }

  /** An answer shadows an attribute when it carries, as a key of its own, the schema
      name of one the generator renamed. The source then leaves which of the two is
      read to map iteration. */
  predicate UnshadowedLevel(l: Level, body: Object) {
    forall w, k {:trigger w in body, l[k]} | w in body && k in l && w == k :: l[k].canonical == w
  }

  ghost predicate Unshadowed(a: Option<Attr>, j: Json)
    decreases j
  {
    a.Some? && !a.value.freeform ==>
      match j
      case JObj(fields) =>
        a.value.fields != map[] ==>
          && UnshadowedLevel(a.value.fields, fields)
          && forall w | w in fields :: Unshadowed(AttrAt(a.value.fields, ToSchema(a.value.fields, w)), fields[w])
      case JList(items) =>
        a.value.elem.Some? ==> forall i | 0 <= i < |items| :: Unshadowed(a.value.elem, items[i])
      case _ => true
  }

  ghost predicate UnshadowedBody(l: Level, body: Object) {
    && UnshadowedLevel(l, body)
    && forall w | w in body :: Unshadowed(AttrAt(l, ToSchema(l, w)), body[w])
  }

  /** Reading a declared attribute is looking its wire name up, and nothing else. */
  lemma ReadDeclared(l: Level, body: Object, k: string)
    requires UnshadowedLevel(l, body) && k in l
    ensures k in SchemaAttrs(l, body) <==> l[k].canonical in body
    ensures l[k].canonical in body ==>
              SchemaAttrs(l, body)[k] == SchemaValue(Some(l[k]), body[l[k].canonical])
  {}

  lemma SameMap<T>(m: map<string, T>, n: map<string, T>)
    requires forall k :: k in m <==> k in n
    requires forall k | k in m :: m[k] == n[k]
    ensures m == n
  {}

  // ---- round trips -------------------------------------------------------------

  /** vals holds no undeclared key spelled like a wire name of the level. */
  predicate Unaliased(l: Level, vals: map<string, Value>) {
    forall k, n {:trigger k in vals, l[n]} | k in vals && k !in l && n in l :: l[n].canonical != k
  }

  /** Each entry is written under its own wire name. */
  lemma WrittenOnce(l: Level, vals: map<string, Value>, k: string)
    requires NamesOk(l) && k in vals
    ensures k in l && !l[k].output ==>
              l[k].canonical in WireBody(l, vals) &&
              WireBody(l, vals)[l[k].canonical] == WireValue(Some(l[k]), vals[k])
    ensures k !in l && Unaliased(l, vals) ==>
              k in WireBody(l, vals) && WireBody(l, vals)[k] == ToRaw(vals[k])
  {
    if k in l {
      KeyOfWire(l, k);
    } else if Unaliased(l, vals) {
      assert k !in WireNames(l);
    }
  }

  /** Nothing is written that no entry asks for. */
  lemma WrittenFrom(l: Level, vals: map<string, Value>, w: string)
    requires w in WireBody(l, vals)
    ensures (w in vals && w !in l) || Carries(l, vals, w)
  {}

  lemma WireBodyIsUnshadowed(l: Level, vals: map<string, Value>)
    requires NamesOk(l)
    ensures UnshadowedLevel(l, WireBody(l, vals))
  {
    forall w, k | w in WireBody(l, vals) && k in l && w == k ensures l[k].canonical == w {
      WrittenFrom(l, vals, w);
    }
  }

  /** Typed, resolved and free of attributes GCP computes. */
  predicate Plain(a: Attr, v: Value) {
    && Resolved(v)
    && (!a.freeform && IsObject(a) ==>
         v.Map? && forall k | k in v.entries ::
           k in a.fields && !a.fields[k].output && Plain(a.fields[k], v.entries[k]))
    && (!a.freeform && !IsObject(a) && IsList(a) ==>
         v.List? && forall i | 0 <= i < |v.items| :: Plain(a.elem.value, v.items[i]))
  }

  lemma {:induction false} SendableIsPlain(a: Attr, v: Value)
    requires Sendable(a, v)
    ensures Plain(a, v)
  {
    if a.freeform {
    } else if IsObject(a) {
      forall k | k in v.entries ensures Plain(a.fields[k], v.entries[k]) && Resolved(v.entries[k]) {
        SendableIsPlain(a.fields[k], v.entries[k]);
      }
    } else if IsList(a) {
      forall i | 0 <= i < |v.items| ensures Plain(a.elem.value, v.items[i]) && Resolved(v.items[i]) {
        SendableIsPlain(a.elem.value, v.items[i]);
      }
    }
  }

  /** Schema to wire to schema: what was configured, except that a whole float comes
      back as an integer. */
  lemma {:induction false} SchemaWireSchema(a: Attr, v: Value)
    requires AttrOk(a) && Plain(a, v)
    ensures SchemaValue(Some(a), WireValue(Some(a), v)) == Retyped(v)
    decreases v, 1
  {
    if !a.freeform && IsObject(a) {
      ObjectSchemaWireSchema(a, v);
    } else if !a.freeform && IsList(a) {
      ListSchemaWireSchema(a, v);
    } else {
      ValueRoundTrip(v);
      assert WireValue(Some(a), v) == ToRaw(v);
      assert SchemaValue(Some(a), ToRaw(v)) == FromRaw(ToRaw(v));
    }
  }

  lemma ObjectRoundTrip(a: Attr, v: Value)
    requires !a.freeform && a.fields != map[] && v.Map?
    ensures SchemaValue(Some(a), WireValue(Some(a), v)) == Map(SchemaAttrs(a.fields, WireBody(a.fields, v.entries)))
  {
    hide WireBody, SchemaAttrs;
    assert WireValue(Some(a), v) == JObj(WireBody(a.fields, v.entries));
  }

  /** Every key read is a declared attribute the body answers, or an undeclared key of it. */
  lemma ReadFrom(l: Level, body: Object, k: string)
    requires k in SchemaAttrs(l, body)
    ensures (k in l && l[k].canonical in body) || (k in body && KeyOf(l, k).None?)
  {}

  lemma KeysComeBack(l: Level, vals: map<string, Value>, k: string)
    requires NamesOk(l) && Unaliased(l, vals) && k in SchemaAttrs(l, WireBody(l, vals))
    ensures k in vals
  {
    var body := WireBody(l, vals);
    ReadFrom(l, body, k);
    if k in l && l[k].canonical in body {
      WrittenFrom(l, vals, l[k].canonical);
      KeyOfWire(l, k);
    } else {
      WrittenFrom(l, vals, k);
    }
  }

  /** One entry of SchemaWireSchema. */
  lemma EntryComesBack(l: Level, vals: map<string, Value>, k: string)
    requires NamesOk(l) && k in vals && k in l && !l[k].output
    ensures k in SchemaAttrs(l, WireBody(l, vals))
    ensures SchemaAttrs(l, WireBody(l, vals))[k] == SchemaValue(Some(l[k]), WireValue(Some(l[k]), vals[k]))
  {
    WireBodyIsUnshadowed(l, vals);
    WrittenOnce(l, vals, k);
    ReadDeclared(l, WireBody(l, vals), k);
  }

  lemma {:induction false} ObjectSchemaWireSchema(a: Attr, v: Value)
    requires AttrOk(a) && Plain(a, v) && !a.freeform && IsObject(a)
    ensures SchemaValue(Some(a), WireValue(Some(a), v)) == Retyped(v)
    decreases v, 0
  {
    var back := SchemaAttrs(a.fields, WireBody(a.fields, v.entries));
    ObjectRoundTrip(a, v);
    forall k | k in v.entries ensures k in back && back[k] == Retyped(v.entries[k]) {
      EntryComesBack(a.fields, v.entries, k);
      SchemaWireSchema(a.fields[k], v.entries[k]);
    }
    forall k | k in back ensures k in v.entries {
      assert Unaliased(a.fields, v.entries);
      KeysComeBack(a.fields, v.entries, k);
    }
    SameMap(back, map k | k in v.entries :: Retyped(v.entries[k]));
  }

  lemma {:induction false} ListSchemaWireSchema(a: Attr, v: Value)
    requires AttrOk(a) && Plain(a, v) && !a.freeform && IsList(a)
    ensures SchemaValue(Some(a), WireValue(Some(a), v)) == Retyped(v)
    decreases v, 0
  {
    var back := SchemaValue(Some(a), WireValue(Some(a), v)).items;
    forall i | 0 <= i < |v.items| ensures back[i] == Retyped(v.items[i]) {
      SchemaWireSchema(a.elem.value, v.items[i]);
    }
    assert back == Retyped(v).items;
  }

  /** w is the wire name of an attribute GCP computes. */
  ghost predicate Computed(l: Level, w: string) {
    KeyOf(l, w).Some? && l[KeyOf(l, w).value].output
  }

  ghost function BodyWithoutOutput(l: Level, body: Object): Object
    decreases JObj(body), 0
  {
    map w | w in body && !Computed(l, w) :: WithoutOutput(AttrAt(l, ToSchema(l, w)), body[w])
  }

  /** A body without the attributes GCP computes. */
  ghost function WithoutOutput(a: Option<Attr>, j: Json): Json
    decreases j, 1
  {
    if a.None? || a.value.freeform then j
    else
      match j
      case JObj(fields) =>
        if a.value.fields == map[] then j else JObj(BodyWithoutOutput(a.value.fields, fields))
      case JList(items) =>
        if a.value.elem.None? then j
        else JList(seq(|items|, i requires 0 <= i < |items| => WithoutOutput(a.value.elem, items[i])))
      case _ => j
  }

  /** One key of WireSchemaWire. */
  lemma KeyWireSchemaWire(l: Level, body: Object, w: string)
    requires NamesOk(l) && UnshadowedLevel(l, body) && w in body
    ensures var s := ToSchema(l, w);
            var out := WireBody(l, SchemaAttrs(l, body));
            if Computed(l, w) then w !in out
            else w in out && out[w] == WireValue(AttrAt(l, s), SchemaValue(AttrAt(l, s), body[w]))
  {
    var vals := SchemaAttrs(l, body);
    var s := ToSchema(l, w);
    if KeyOf(l, w).Some? {
      ReadDeclared(l, body, s);
      WrittenOnce(l, vals, s);
      if l[s].output && w in WireBody(l, vals) {
        WrittenFrom(l, vals, w);
      }
    } else {
      assert w !in l;
      assert Unaliased(l, vals);
      WrittenOnce(l, vals, w);
    }
  }

  lemma WireKeysFromBody(l: Level, body: Object, w: string)
    requires w in WireBody(l, SchemaAttrs(l, body))
    requires UnshadowedLevel(l, body)
    ensures w in body
  {
    WrittenFrom(l, SchemaAttrs(l, body), w);
    if Carries(l, SchemaAttrs(l, body), w) {
      ReadDeclared(l, body, KeyOf(l, w).value);
    }
  }

  lemma KeysWireSchemaWire(l: Level, body: Object, w: string)
    requires NamesOk(l) && UnshadowedLevel(l, body)
    ensures w in WireBody(l, SchemaAttrs(l, body)) <==> w in body && !Computed(l, w)
  {
    if w in WireBody(l, SchemaAttrs(l, body)) {
      WireKeysFromBody(l, body, w);
    }
    if w in body {
      KeyWireSchemaWire(l, body, w);
    }
  }

  /** Wire to schema to wire: the answer without its computed attributes, and nothing
      under an opaque or undeclared key touched. */
  lemma {:induction false} WireSchemaWire(a: Option<Attr>, j: Json)
    requires a.Some? ==> AttrOk(a.value)
    requires Unshadowed(a, j)
    ensures WireValue(a, SchemaValue(a, j)) == WithoutOutput(a, j)
    decreases j, 2
  {
    hide WireBody, SchemaAttrs, BodyWithoutOutput;
    if a.None? || a.value.freeform {
      RawRoundTrip(j);
    } else if j.JObj? && a.value.fields != map[] {
      ObjectWireSchemaWire(a.value, j);
    } else if j.JList? && a.value.elem.Some? {
      ListWireSchemaWire(a.value, j);
    } else {
      RawRoundTrip(j);
      assert SchemaValue(a, j) == FromRaw(j);
      assert WireValue(a, FromRaw(j)) == ToRaw(FromRaw(j));
    }
  }

  lemma ObjectRoundTripBack(a: Attr, j: Json)
    requires !a.freeform && a.fields != map[] && j.JObj?
    ensures WireValue(Some(a), SchemaValue(Some(a), j)) == JObj(WireBody(a.fields, SchemaAttrs(a.fields, j.fields)))
  {
    hide WireBody, SchemaAttrs;
    assert SchemaValue(Some(a), j) == Map(SchemaAttrs(a.fields, j.fields));
  }

  lemma LevelWireSchemaWire(l: Level, body: Object)
    requires NamesOk(l) && UnshadowedLevel(l, body)
    requires forall w | w in body ::
               var b := AttrAt(l, ToSchema(l, w));
               WireValue(b, SchemaValue(b, body[w])) == WithoutOutput(b, body[w])
    ensures WireBody(l, SchemaAttrs(l, body)) == BodyWithoutOutput(l, body)
  {
    var out := WireBody(l, SchemaAttrs(l, body));
    var want := BodyWithoutOutput(l, body);
    forall w ensures w in out <==> w in want {
      KeysWireSchemaWire(l, body, w);
    }
    forall w | w in out ensures out[w] == want[w] {
      KeysWireSchemaWire(l, body, w);
      KeyWireSchemaWire(l, body, w);
    }
    SameMap(out, want);
  }

  lemma {:induction false} ObjectWireSchemaWire(a: Attr, j: Json)
    requires AttrOk(a) && Unshadowed(Some(a), j)
    requires !a.freeform && j.JObj? && a.fields != map[]
    ensures WireValue(Some(a), SchemaValue(Some(a), j)) == WithoutOutput(Some(a), j)
    decreases j, 1
  {
    ObjectRoundTripBack(a, j);
    forall w | w in j.fields
      ensures var b := AttrAt(a.fields, ToSchema(a.fields, w));
              WireValue(b, SchemaValue(b, j.fields[w])) == WithoutOutput(b, j.fields[w])
    {
      EntryWireSchemaWire(a, j, w);
    }
    LevelWireSchemaWire(a.fields, j.fields);
  }

  lemma {:induction false} EntryWireSchemaWire(a: Attr, j: Json, w: string)
    requires AttrOk(a) && Unshadowed(Some(a), j)
    requires !a.freeform && a.fields != map[] && j.JObj? && w in j.fields
    ensures var b := AttrAt(a.fields, ToSchema(a.fields, w));
            WireValue(b, SchemaValue(b, j.fields[w])) == WithoutOutput(b, j.fields[w])
    decreases j, 0
  {
    WireSchemaWire(AttrAt(a.fields, ToSchema(a.fields, w)), j.fields[w]);
  }

  lemma {:induction false} ListWireSchemaWire(a: Attr, j: Json)
    requires AttrOk(a) && Unshadowed(Some(a), j)
    requires !a.freeform && j.JList? && a.elem.Some?
    ensures WireValue(Some(a), SchemaValue(Some(a), j)) == WithoutOutput(Some(a), j)
    decreases j, 0
  {
    var out := WireValue(Some(a), SchemaValue(Some(a), j)).items;
    var want := WithoutOutput(Some(a), j).items;
    forall i | 0 <= i < |j.items| ensures out[i] == want[i] {
      WireSchemaWire(a.elem, j.items[i]);
    }
    assert out == want;
  }

  // ---- the loops ---------------------------------------------------------------

  /** Unaliased at every depth a declared attribute reaches. */
  predicate AliasFree(a: Option<Attr>, v: Value)
    decreases v
  {
    a.Some? && !a.value.freeform ==>
      match v
      case Map(entries) =>
        a.value.fields != map[] ==>
          && Unaliased(a.value.fields, entries)
          && forall k | k in entries :: AliasFree(AttrAt(a.value.fields, k), entries[k])
      case List(items) =>
        a.value.elem.Some? ==> forall i | 0 <= i < |items| :: AliasFree(a.value.elem, items[i])
      case _ => true
  }

  method WriteBody(l: Level, vals: map<string, Value>) returns (out: Object)
    requires LevelOk(l) && Unaliased(l, vals)
    requires forall k | k in vals :: AliasFree(AttrAt(l, k), vals[k])
    ensures out == WireBody(l, vals)
    decreases Map(vals), 0
  {
    out := map[];
    var todo := vals.Keys;
    ghost var spec := WireBody(l, vals);
    hide WireBody;
    while todo != {}
      invariant todo <= vals.Keys
      invariant forall w | w in out :: w in spec && out[w] == spec[w]
      invariant forall k | k in vals && k !in todo && !(k in l && l[k].output) :: ToWire(l, k) in out
    {
      var name :| name in todo;
      todo := todo - {name};
      if name in l && l[name].output {
        continue;
      }
      var v := WriteValue(AttrAt(l, name), vals[name]);
      Written(l, vals, name);
      out := out[ToWire(l, name) := v];
    }
    WroteAll(l, vals, out);
  }

  lemma WroteAll(l: Level, vals: map<string, Value>, out: Object)
    requires NamesOk(l)
    requires forall w | w in out :: w in WireBody(l, vals) && out[w] == WireBody(l, vals)[w]
    requires forall k | k in vals && !(k in l && l[k].output) :: ToWire(l, k) in out
    ensures out == WireBody(l, vals)
  {
    forall w | w in WireBody(l, vals) ensures w in out {
      var k := Writer(l, vals, w);
    }
    SameMap(out, WireBody(l, vals));
  }

  lemma Written(l: Level, vals: map<string, Value>, k: string)
    requires NamesOk(l) && Unaliased(l, vals) && k in vals && !(k in l && l[k].output)
    ensures ToWire(l, k) in WireBody(l, vals)
    ensures WireBody(l, vals)[ToWire(l, k)] == WireValue(AttrAt(l, k), vals[k])
  {
    WrittenOnce(l, vals, k);
  }

  lemma Writer(l: Level, vals: map<string, Value>, w: string) returns (k: string)
    requires NamesOk(l) && w in WireBody(l, vals)
    ensures k in vals && !(k in l && l[k].output) && ToWire(l, k) == w
  {
    WrittenFrom(l, vals, w);
    k := if Carries(l, vals, w) then KeyOf(l, w).value else w;
  }

  method WriteValue(a: Option<Attr>, v: Value) returns (j: Json)
    requires a.Some? ==> AttrOk(a.value)
    requires AliasFree(a, v)
    ensures j == WireValue(a, v)
    decreases v, 1
  {
    if a.None? || a.value.freeform {
      return ToRaw(v);
    }
    if v.Map? && a.value.fields != map[] {
      var body := WriteBody(a.value.fields, v.entries);
      return JObj(body);
    }
    if v.List? && a.value.elem.Some? {
      var out := [];
      ghost var spec := WireValue(a, v).items;
      for i := 0 to |v.items|
        invariant out == spec[..i]
      {
        var item := WriteValue(a.value.elem, v.items[i]);
        out := out + [item];
      }
      return JList(out);
    }
    return ToRaw(v);
  }

  /** toSchema, with its scan of the level in whatever order the map gives. */
  method FindSchemaName(l: Level, name: string) returns (s: string)
    requires NamesOk(l)
    ensures s == ToSchema(l, name)
  {
    if name in l && l[name].canonical == name {
      return name;
    }
    var todo := l.Keys;
    while todo != {}
      invariant todo <= l.Keys
      invariant forall k {:trigger l[k]} | k in l && k !in todo :: l[k].canonical != name
    {
      var k :| k in todo;
      todo := todo - {k};
      if l[k].canonical == name {
        return k;
      }
    }
    return name;
  }

  method ReadBody(l: Level, body: Object) returns (out: map<string, Value>)
    requires LevelOk(l) && UnshadowedBody(l, body)
    ensures out == SchemaAttrs(l, body)
    decreases JObj(body), 0
  {
    out := map[];
    var todo := body.Keys;
    ghost var spec := SchemaAttrs(l, body);
    hide SchemaAttrs;
    while todo != {}
      invariant todo <= body.Keys
      invariant forall s | s in out :: s in spec && out[s] == spec[s]
      invariant forall w | w in body && w !in todo :: ToSchema(l, w) in out
    {
      var name :| name in todo;
      todo := todo - {name};
      var s := FindSchemaName(l, name);
      var v := ReadValue(AttrAt(l, s), body[name]);
      ReadKey(l, body, name);
      out := out[s := v];
    }
    ReadAll(l, body, out);
  }

  lemma ReadAll(l: Level, body: Object, out: map<string, Value>)
    requires NamesOk(l)
    requires forall s | s in out :: s in SchemaAttrs(l, body) && out[s] == SchemaAttrs(l, body)[s]
    requires forall w | w in body :: ToSchema(l, w) in out
    ensures out == SchemaAttrs(l, body)
  {
    forall s | s in SchemaAttrs(l, body) ensures s in out {
      var w := Reader(l, body, s);
    }
    SameMap(out, SchemaAttrs(l, body));
  }

  lemma Reader(l: Level, body: Object, s: string) returns (w: string)
    requires NamesOk(l) && s in SchemaAttrs(l, body)
    ensures w in body && ToSchema(l, w) == s
  {
    ReadFrom(l, body, s);
    if s in l && l[s].canonical in body {
      KeyOfWire(l, s);
      w := l[s].canonical;
    } else {
      w := s;
    }
  }

  lemma ReadKey(l: Level, body: Object, w: string)
    requires NamesOk(l) && UnshadowedLevel(l, body) && w in body
    ensures ToSchema(l, w) in SchemaAttrs(l, body)
    ensures SchemaAttrs(l, body)[ToSchema(l, w)] == SchemaValue(AttrAt(l, ToSchema(l, w)), body[w])
  {
    if KeyOf(l, w).Some? {
      ReadDeclared(l, body, ToSchema(l, w));
    }
  }

  method ReadValue(a: Option<Attr>, j: Json) returns (v: Value)
    requires a.Some? ==> AttrOk(a.value)
    requires Unshadowed(a, j)
    ensures v == SchemaValue(a, j)
    decreases j, 1
  {
    if a.None? || a.value.freeform {
      return FromRaw(j);
    }
    match j
    case JObj(fields) =>
      if a.value.fields == map[] {
        return FromRaw(j);
      }
      var out := ReadBody(a.value.fields, fields);
      return Map(out);
    case JList(elems) =>
      if a.value.elem.None? {
        return FromRaw(j);
      }
      var items := [];
      ghost var spec := SchemaValue(a, j).items;
      for i := 0 to |elems|
        invariant items == spec[..i]
      {
        var item := ReadValue(a.value.elem, elems[i]);
        items := items + [item];
      }
      return List(items);
    case _ =>
      return FromRaw(j);
  }
}
