/** The values of infrena and the JSON data of Google, and how each becomes the other. */
module Values {

  datatype Option<+T> = None | Some(value: T)

  datatype Kind = KindInvalid | KindBool | KindInt | KindFloat | KindString | KindList | KindMap

  /** A value.Value, which here always has the Raw datum its Kind names. Source is left out,
      because value.Equal ignores it: value.Equal is therefore `==`. Unknown(KindInvalid) is
      Go's zero value. */
  datatype Value =
    | Unknown(declared: Kind)
    | Bool(b: bool)
    | Int(i: int)
    | Float(r: real)
    | Str(s: string)
    | List(items: seq<Value>)
    | Map(entries: map<string, Value>)
  {
    predicate Known() {
      !Unknown?
    }

    function Kind(): Kind {
      match this
      case Unknown(k) => k
      case Bool(_) => KindBool
      case Int(_) => KindInt
      case Float(_) => KindFloat
      case Str(_) => KindString
      case List(_) => KindList
      case Map(_) => KindMap
    }
  }

  const Zero := Unknown(KindInvalid)

  /** Indexing a Go map: the zero value for a key it does not hold. */
  function Get(m: map<string, Value>, k: string): Value {
    if k in m then m[k] else Zero
  }

  /** JSON has one number type. */
  datatype Json =
    | JNull
    | JBool(b: bool)
    | JNum(r: real)
    | JStr(s: string)
    | JList(items: seq<Json>)
    | JObj(fields: map<string, Json>)

  type Object = map<string, Json>

  function At(o: Object, k: string): Option<Json> {
    if k in o then Some(o[k]) else None
  }

  predicate Whole(r: real) {
    r.Floor as real == r
  }

  function ToRaw(v: Value): Json {
    match v
    case Unknown(_) => JNull
    case Bool(b) => JBool(b)
    case Int(i) => JNum(i as real)
    case Float(r) => JNum(r)
    case Str(s) => JStr(s)
    case List(items) => JList(seq(|items|, i requires 0 <= i < |items| => ToRaw(items[i])))
    case Map(entries) => JObj(map k | k in entries :: ToRaw(entries[k]))
  }

  function FromRaw(j: Json): Value {
    match j
    case JNull => Zero
    case JBool(b) => Bool(b)
    case JNum(r) => if Whole(r) then Int(r.Floor) else Float(r)
    case JStr(s) => Str(s)
    case JList(items) => List(seq(|items|, i requires 0 <= i < |items| => FromRaw(items[i])))
    case JObj(fields) => Map(map k | k in fields :: FromRaw(fields[k]))
  }

  /** value.Coerce: across a numeric pair only, and only when it is exact. */
  function Coerce(v: Value, k: Kind): Option<Value> {
    match v
    case Int(i) => if k == KindFloat then Some(Float(i as real)) else None
    case Float(r) => if k == KindInt && Whole(r) then Some(Int(r.Floor)) else None
    case _ => None
  }

  predicate IsZero(v: Value) {
    match v
    case Unknown(_) => false
    case Bool(b) => !b
    case Int(i) => i == 0
    case Float(r) => r == 0.0
    case Str(s) => s == ""
    case List(items) => items == []
    case Map(entries) => entries == map[]
  }

  /** No part of v is unresolved. */
  predicate Resolved(v: Value) {
    match v
    case Unknown(_) => false
    case List(items) => forall i | 0 <= i < |items| :: Resolved(items[i])
    case Map(entries) => forall k | k in entries :: Resolved(entries[k])
    case _ => true
  }

  /** v with every whole float retyped as an integer, which is how an answer carrying
      it comes back: JSON cannot tell 1.0 from 1. */
  function Retyped(v: Value): Value {
    match v
    case Float(r) => if Whole(r) then Int(r.Floor) else v
    case List(items) => List(seq(|items|, i requires 0 <= i < |items| => Retyped(items[i])))
    case Map(entries) => Map(map k | k in entries :: Retyped(entries[k]))
    case _ => v
  }

  /** No part of v is a whole float. */
  predicate NoWholeFloat(v: Value) {
    match v
    case Float(r) => !Whole(r)
    case List(items) => forall i | 0 <= i < |items| :: NoWholeFloat(items[i])
    case Map(entries) => forall k | k in entries :: NoWholeFloat(entries[k])
    case _ => true
  }

  /** A response datum survives the trip through a Value unchanged. */
  lemma {:induction false} RawRoundTrip(j: Json)
    ensures ToRaw(FromRaw(j)) == j
  {
    match j
    case JList(items) =>
      forall i | 0 <= i < |items| ensures ToRaw(FromRaw(items[i])) == items[i] {
        RawRoundTrip(items[i]);
      }
      assert ToRaw(FromRaw(j)).items == items;
    case JObj(fields) =>
      forall k | k in fields ensures ToRaw(FromRaw(fields[k])) == fields[k] {
        RawRoundTrip(fields[k]);
      }
      assert ToRaw(FromRaw(j)).fields == fields;
    case _ =>
  }

  /** A resolved value comes back from the wire as itself, whole floats retyped. */
  lemma {:induction false} ValueRoundTrip(v: Value)
    requires Resolved(v)
    ensures FromRaw(ToRaw(v)) == Retyped(v)
  {
    match v
    case List(items) =>
      forall i | 0 <= i < |items| ensures FromRaw(ToRaw(items[i])) == Retyped(items[i]) {
        ValueRoundTrip(items[i]);
      }
      assert FromRaw(ToRaw(v)).items == Retyped(v).items;
    case Map(entries) =>
      forall k | k in entries ensures FromRaw(ToRaw(entries[k])) == Retyped(entries[k]) {
        ValueRoundTrip(entries[k]);
      }
      assert FromRaw(ToRaw(v)).entries == Retyped(v).entries;
    case Int(i) =>
      assert Whole(i as real);
    case _ =>
  }

  /** Retyping changes nothing exactly when there is no whole float to retype. */
  lemma {:induction false} RetypedIsIdentity(v: Value)
    ensures Retyped(v) == v <==> NoWholeFloat(v)
  {
    match v
    case List(items) =>
      var out := Retyped(v).items;
      forall i | 0 <= i < |items| ensures out[i] == items[i] <==> NoWholeFloat(items[i]) {
        RetypedIsIdentity(items[i]);
      }
      assert out == items <==> forall i | 0 <= i < |items| :: out[i] == items[i];
    case Map(entries) =>
      var out := Retyped(v).entries;
      forall k | k in entries ensures out[k] == entries[k] <==> NoWholeFloat(entries[k]) {
        RetypedIsIdentity(entries[k]);
      }
      assert out == entries <==> forall k | k in entries :: out[k] == entries[k];
    case _ =>
  }
}
