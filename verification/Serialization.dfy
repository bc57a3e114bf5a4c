/** What the code emitted by t_cpp_generator.cc does with a struct: write, read, operator==.
    A schema is a value of type Type; the protocol is an abstract token stream. */
module Serialization {
  import opened Wrappers

  datatype Wire =
    | WBool | WByte | WI16 | WI32 | WI64 | WDouble | WString
    | WStruct | WMap | WSet | WList

  datatype Base = Bool | Byte | I16 | I32 | I64 | Double | String | Binary

  datatype Requiredness = Required | Optional | Default

  /** `initial` is the value the default constructor gives the field: the declared constant, or
      the type's own default. */
  datatype Field = Field(id: int, req: Requiredness, ty: Type, initial: Value)

  datatype Type =
    | Prim(base: Base)
    | Enum
    | Struct(fields: seq<Field>)
    | List(elem: Type)
    | Set(elem: Type)
    | Map(key: Type, val: Type)

  datatype Datum = Flag(b: bool) | Number(n: int) | Float(r: real) | Text(s: string)

  /** A set is held in its iteration order, a map as its entries in key order. The isset bit of
      a required field does not exist in the emitted class and is never looked at. */
  datatype Value =
    | Scalar(datum: Datum)
    | Record(slots: seq<Slot>)
    | Elements(elems: seq<Value>)
    | Entries(entries: seq<Entry>)

  datatype Slot = Slot(isset: bool, value: Value)

  datatype Entry = Entry(key: Value, val: Value)

  datatype Token =
    | FieldBegin(wire: Wire, id: int)
    | FieldStop
    | ListBegin(elem: Wire, size: nat)
    | SetBegin(elem: Wire, size: nat)
    | MapBegin(key: Wire, val: Wire, size: nat)
    | Data(wire: Wire, datum: Datum)

  type Tokens = seq<Token>

  /** operator< of the element type, which the emitted code leaves to the user. */
  type Less = (Type, Value, Value) -> bool

  /** type_to_enum */
  function WireOf(ty: Type): Wire {
    match ty
    case Prim(b) => (match b
      case Bool => WBool
      case Byte => WByte
      case I16 => WI16
      case I32 => WI32
      case I64 => WI64
      case Double => WDouble
      case String => WString
      case Binary => WString)
    case Enum => WI32
    case Struct(_) => WStruct
    case List(_) => WList
    case Set(_) => WSet
    case Map(_, _) => WMap
  }

  predicate ScalarType(ty: Type) {
    ty.Prim? || ty.Enum?
  }

  predicate Conforms(ty: Type, v: Value)
    decreases ty, 1
  {
    match ty
    case Struct(fs) => v.Record? && ConformSlots(fs, v.slots)
    case List(e) => v.Elements? && ConformAll(e, v.elems)
    case Set(e) => v.Elements? && ConformAll(e, v.elems)
    case Map(k, w) => v.Entries? && ConformEntries(k, w, v.entries)
    case _ => v.Scalar?
  }

  predicate ConformSlots(fs: seq<Field>, slots: seq<Slot>)
    decreases Struct(fs), 0
  {
    |slots| == |fs| && forall i :: 0 <= i < |fs| ==> Conforms(fs[i].ty, slots[i].value)
  }

  predicate ConformAll(e: Type, elems: seq<Value>)
    decreases e, 2
  {
    forall i :: 0 <= i < |elems| ==> Conforms(e, elems[i])
  }

  predicate ConformEntries(k: Type, w: Type, entries: seq<Entry>)
    decreases Map(k, w), 0
  {
    forall i :: 0 <= i < |entries| ==> Conforms(k, entries[i].key) && Conforms(w, entries[i].val)
  }

  predicate DistinctIds(fs: seq<Field>) {
    forall i, j :: 0 <= i < j < |fs| ==> fs[i].id != fs[j].id
  }

  /** Field ids are distinct in every struct: the emitted switch needs distinct cases. */
  predicate WellFormed(ty: Type)
    decreases ty
  {
    match ty
    case Struct(fs) => DistinctIds(fs) && forall i :: 0 <= i < |fs| ==> WellFormed(fs[i].ty)
    case List(e) => WellFormed(e)
    case Set(e) => WellFormed(e)
    case Map(k, w) => WellFormed(k) && WellFormed(w)
    case _ => true
  }

  // ----- the emitted operator== -----

  predicate Equal(ty: Type, a: Value, b: Value)
    decreases ty, 1
  {
    match ty
    case Struct(fs) => a.Record? && b.Record? && EqualSlots(fs, a.slots, b.slots)
    case List(e) => a.Elements? && b.Elements? && EqualAll(e, a.elems, b.elems)
    case Set(e) => a.Elements? && b.Elements? && EqualAll(e, a.elems, b.elems)
    case Map(k, w) => a.Entries? && b.Entries? && EqualEntries(k, w, a.entries, b.entries)
    case _ => a == b
  }

  predicate EqualSlots(fs: seq<Field>, a: seq<Slot>, b: seq<Slot>)
    decreases Struct(fs), 0
  {
    |a| == |fs| == |b| && forall i :: 0 <= i < |fs| ==>
      if fs[i].req.Optional? then a[i].isset == b[i].isset && (a[i].isset ==> Equal(fs[i].ty, a[i].value, b[i].value))
      else Equal(fs[i].ty, a[i].value, b[i].value)
  }

  predicate EqualAll(e: Type, a: seq<Value>, b: seq<Value>)
    decreases e, 2
  {
    |a| == |b| && forall i :: 0 <= i < |a| ==> Equal(e, a[i], b[i])
  }

  predicate EqualEntries(k: Type, w: Type, a: seq<Entry>, b: seq<Entry>)
    decreases Map(k, w), 0
  {
    |a| == |b| && forall i :: 0 <= i < |a| ==> Equal(k, a[i].key, b[i].key) && Equal(w, a[i].val, b[i].val)
  }

  // ----- the emitted write -----

  /** The writer's field order: positions sorted by field id. */
  function Order(fs: seq<Field>, n: nat): (order: seq<nat>)
    requires n <= |fs|
    ensures forall k :: 0 <= k < |order| ==> order[k] < n
  {
    if n == 0 then [] else InsertById(fs, Order(fs, n - 1), n - 1)
  }

  function InsertById(fs: seq<Field>, order: seq<nat>, i: nat): (r: seq<nat>)
    requires i < |fs| && forall k :: 0 <= k < |order| ==> order[k] < |fs|
    ensures forall k :: 0 <= k < |r| ==> r[k] == i || r[k] in order
  {
    if order == [] then [i]
    else if fs[order[0]].id < fs[i].id then [order[0]] + InsertById(fs, order[1..], i)
    else [i] + order
  }

  predicate Written(f: Field, s: Slot) {
    !f.req.Optional? || s.isset
  }

  /** Total: a value of another type, which C++ rules out, writes nothing. */
  function Write(ty: Type, v: Value): Tokens
    decreases ty, 1, 0
  {
    match (ty, v)
    case (Struct(fs), Record(slots)) =>
      if |slots| == |fs| then WriteFields(fs, slots, Order(fs, |fs|)) + [FieldStop] else []
    case (List(e), Elements(elems)) => [ListBegin(WireOf(e), |elems|)] + WriteAll(e, elems)
    case (Set(e), Elements(elems)) => [SetBegin(WireOf(e), |elems|)] + WriteAll(e, elems)
    case (Map(k, w), Entries(entries)) =>
      [MapBegin(WireOf(k), WireOf(w), |entries|)] + WriteEntries(k, w, entries)
    case (_, Scalar(d)) => [Data(WireOf(ty), d)]
    case _ => []
  }

  function WriteFields(fs: seq<Field>, slots: seq<Slot>, order: seq<nat>): Tokens
    requires |slots| == |fs| && forall k :: 0 <= k < |order| ==> order[k] < |fs|
    decreases Struct(fs), 0, |order|
  {
    if order == [] then []
    else
      var i := order[0];
      var rest := WriteFields(fs, slots, order[1..]);
      if Written(fs[i], slots[i])
      then [FieldBegin(WireOf(fs[i].ty), fs[i].id)] + Write(fs[i].ty, slots[i].value) + rest
      else rest
  }

  function WriteAll(e: Type, elems: seq<Value>): Tokens
    decreases e, 2, |elems|
  {
    if elems == [] then [] else Write(e, elems[0]) + WriteAll(e, elems[1..])
  }

  function WriteEntries(k: Type, w: Type, entries: seq<Entry>): Tokens
    decreases Map(k, w), 0, |entries|
  {
    if entries == [] then []
    else Write(k, entries[0].key) + (Write(w, entries[0].val) + WriteEntries(k, w, entries[1..]))
  }

  // ----- the protocol's skip -----

  function Skip(w: Wire, ts: Tokens): (r: Option<Tokens>)
    ensures r.Some? ==> |r.value| < |ts|
    decreases |ts|, 1
  {
    if ts == [] then None
    else match w
      case WStruct => SkipFields(ts)
      case WList => if ts[0].ListBegin? then SkipMany(ts[0].elem, ts[0].size, ts[1..]) else None
      case WSet => if ts[0].SetBegin? then SkipMany(ts[0].elem, ts[0].size, ts[1..]) else None
      case WMap => if ts[0].MapBegin? then SkipPairs(ts[0].key, ts[0].val, ts[0].size, ts[1..]) else None
      case _ => if ts[0].Data? && ts[0].wire == w then Some(ts[1..]) else None
  }

  function SkipFields(ts: Tokens): (r: Option<Tokens>)
    ensures r.Some? ==> |r.value| < |ts|
    decreases |ts|, 0
  {
    if ts == [] then None
    else match ts[0]
      case FieldStop => Some(ts[1..])
      case FieldBegin(w, _) =>
        (match Skip(w, ts[1..])
         case None => None
         case Some(rest) => SkipFields(rest))
      case _ => None
  }

  function SkipMany(w: Wire, n: nat, ts: Tokens): (r: Option<Tokens>)
    ensures r.Some? ==> |r.value| <= |ts|
    decreases |ts|, 2
  {
    if n == 0 then Some(ts)
    else match Skip(w, ts)
      case None => None
      case Some(rest) => SkipMany(w, n - 1, rest)
  }

  function SkipPairs(k: Wire, w: Wire, n: nat, ts: Tokens): (r: Option<Tokens>)
    ensures r.Some? ==> |r.value| <= |ts|
    decreases |ts|, 2
  {
    if n == 0 then Some(ts)
    else match Skip(k, ts)
      case None => None
      case Some(mid) =>
        (match Skip(w, mid)
         case None => None
         case Some(rest) => SkipPairs(k, w, n - 1, rest))
  }

  // ----- the emitted read -----

  /** Missing is the TProtocolException for an absent required field; Malformed is a stream the
      protocol cannot read at the type asked for. */
  datatype Result = Ok(value: Value, rest: Tokens) | Missing | Malformed

  /** The object the default constructor makes. */
  function Fresh(ty: Type): Value {
    match ty
    case Prim(b) => Scalar(if b.Bool? then Flag(false) else if b.Double? then Float(0.0)
                           else if b.String? || b.Binary? then Text("") else Number(0))
    case Enum => Scalar(Number(0))
    case Struct(fs) => Record(FreshSlots(fs))
    case Map(_, _) => Entries([])
    case _ => Elements([])
  }

  function FreshSlots(fs: seq<Field>): (slots: seq<Slot>)
    ensures |slots| == |fs|
  {
    seq(|fs|, i requires 0 <= i < |fs| => Slot(false, fs[i].initial))
  }

  /** The fields of the object that is read into; read does not reset it. */
  function Current(fs: seq<Field>, cur: Value): (slots: seq<Slot>)
    ensures |slots| == |fs|
  {
    if cur.Record? && |cur.slots| == |fs| then cur.slots else FreshSlots(fs)
  }

  /** The case of the emitted switch that a field id selects. */
  function FieldIndex(fs: seq<Field>, id: int): (r: Option<nat>)
    ensures match r
      case None => forall i :: 0 <= i < |fs| ==> fs[i].id != id
      case Some(i) => i < |fs| && fs[i].id == id
  {
    if fs == [] then None
    else if fs[0].id == id then Some(0)
    else match FieldIndex(fs[1..], id)
      case None => None
      case Some(i) => Some(i + 1)
  }

  predicate Complete(fs: seq<Field>, got: set<nat>) {
    forall i :: 0 <= i < |fs| && fs[i].req.Required? ==> i in got
  }

  function Insert(lt: Less, e: Type, s: seq<Value>, x: Value): seq<Value> {
    if s == [] then [x]
    else if lt(e, s[0], x) then [s[0]] + Insert(lt, e, s[1..], x)
    else if lt(e, x, s[0]) then [x] + s
    else s
  }

  /** The value `map[key]` refers to before it is read into. */
  function Lookup(lt: Less, k: Type, w: Type, m: seq<Entry>, key: Value): Value {
    if m == [] then Fresh(w)
    else if lt(k, m[0].key, key) then Lookup(lt, k, w, m[1..], key)
    else if lt(k, key, m[0].key) then Fresh(w)
    else m[0].val
  }

  function Put(lt: Less, k: Type, m: seq<Entry>, key: Value, val: Value): seq<Entry> {
    if m == [] then [Entry(key, val)]
    else if lt(k, m[0].key, key) then [m[0]] + Put(lt, k, m[1..], key, val)
    else if lt(k, key, m[0].key) then [Entry(key, val)] + m
    else [Entry(m[0].key, val)] + m[1..]
  }

  function Read(lt: Less, ty: Type, cur: Value, ts: Tokens): (r: Result)
    ensures r.Ok? ==> |r.rest| < |ts|
    decreases |ts|, 1
  {
    if ts == [] then Malformed
    else match ty
      case Struct(fs) => ReadFields(lt, fs, Current(fs, cur), {}, ts)
      case List(e) => if ts[0].ListBegin? then ReadList(lt, e, ts[0].size, [], ts[1..]) else Malformed
      case Set(e) => if ts[0].SetBegin? then ReadSet(lt, e, ts[0].size, [], ts[1..]) else Malformed
      case Map(k, w) => if ts[0].MapBegin? then ReadMap(lt, k, w, ts[0].size, [], ts[1..]) else Malformed
      case _ =>
        if ts[0].Data? && ts[0].wire == WireOf(ty) then Ok(Scalar(ts[0].datum), ts[1..]) else Malformed
  }

  function ReadFields(lt: Less, fs: seq<Field>, slots: seq<Slot>, got: set<nat>, ts: Tokens): (r: Result)
    requires |slots| == |fs|
    ensures r.Ok? ==> |r.rest| < |ts|
    decreases |ts|, 0
  {
    if ts == [] then Malformed
    else match ts[0]
      case FieldStop => if Complete(fs, got) then Ok(Record(slots), ts[1..]) else Missing
      case FieldBegin(w, id) =>
        var target := FieldIndex(fs, id);
        if target.Some? && WireOf(fs[target.value].ty) == w then
          var i := target.value;
          match Read(lt, fs[i].ty, slots[i].value, ts[1..])
          case Ok(v, rest) => ReadFields(lt, fs, slots[i := Slot(true, v)], got + {i}, rest)
          case error => error
        else (match Skip(w, ts[1..])
              case None => Malformed
              case Some(rest) => ReadFields(lt, fs, slots, got, rest))
      case _ => Malformed
  }

  function ReadList(lt: Less, e: Type, n: nat, acc: seq<Value>, ts: Tokens): (r: Result)
    ensures r.Ok? ==> |r.rest| <= |ts|
    decreases |ts|, 2
  {
    if n == 0 then Ok(Elements(acc), ts)
    else match Read(lt, e, Fresh(e), ts)
      case Ok(v, rest) => ReadList(lt, e, n - 1, acc + [v], rest)
      case error => error
  }

  function ReadSet(lt: Less, e: Type, n: nat, acc: seq<Value>, ts: Tokens): (r: Result)
    ensures r.Ok? ==> |r.rest| <= |ts|
    decreases |ts|, 2
  {
    if n == 0 then Ok(Elements(acc), ts)
    else match Read(lt, e, Fresh(e), ts)
      case Ok(v, rest) => ReadSet(lt, e, n - 1, Insert(lt, e, acc, v), rest)
      case error => error
  }

  function ReadMap(lt: Less, k: Type, w: Type, n: nat, acc: seq<Entry>, ts: Tokens): (r: Result)
    ensures r.Ok? ==> |r.rest| <= |ts|
    decreases |ts|, 3
  {
    if n == 0 then Ok(Entries(acc), ts)
    else match ReadEntry(lt, k, w, acc, ts)
      case Ok(m, rest) => ReadMap(lt, k, w, n - 1, m.entries, rest)
      case error => error
  }

  /** One round of the map loop: the map with the entry read. */
  function ReadEntry(lt: Less, k: Type, w: Type, acc: seq<Entry>, ts: Tokens): (r: Result)
    ensures r.Ok? ==> |r.rest| < |ts| && r.value.Entries?
    decreases |ts|, 2
  {
    match Read(lt, k, Fresh(k), ts)
    case Ok(key, mid) =>
      (match Read(lt, w, Lookup(lt, k, w, acc, key), mid)
       case Ok(val, rest) => Ok(Entries(Put(lt, k, acc, key, val)), rest)
       case error => error)
    case error => error
  }
}
