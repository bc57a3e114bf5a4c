/** What a reader generated from one schema makes of a stream written with another. */
module Evolution {
  import opened Serialization
  import opened Wrappers

  /** Where two schemas speak about the same field (same id, same wire type) the types agree as
      far as the reader relies on it: it never looks at the element types in a container header. */
  predicate Compatible(a: Type, b: Type)
    decreases a, 1
  {
    match a
    case Struct(fs) => b.Struct? && CompatibleFields(fs, b.fields)
    case List(e) => b.List? && Compatible(e, b.elem)
    case Set(e) => b.Set? && Compatible(e, b.elem)
    case Map(k, w) => b.Map? && Compatible(k, b.key) && Compatible(w, b.val)
    case _ => ScalarType(b) && WireOf(a) == WireOf(b)
  }

  predicate CompatibleFields(fs: seq<Field>, gs: seq<Field>)
    decreases Struct(fs), 0
  {
    forall i, j :: 0 <= i < |fs| && 0 <= j < |gs| && SameField(fs[i], gs[j]) ==>
      Compatible(fs[i].ty, gs[j].ty)
  }

  predicate SameField(f: Field, g: Field) {
    f.id == g.id && WireOf(f.ty) == WireOf(g.ty)
  }

  // ----- shapes of written streams -----

  lemma Assoc(x: Tokens, y: Tokens, z: Tokens)
    ensures (x + y) + z == x + (y + z)
  {
  }

  lemma SplitEntries(k: Type, w: Type, entries: seq<Entry>, tail: Tokens) returns (vals: Tokens, more: Tokens)
    requires ConformEntries(k, w, entries)
    requires entries != []
    ensures WriteEntries(k, w, entries) + tail == Write(k, entries[0].key) + vals
    ensures vals == Write(w, entries[0].val) + more
    ensures more == WriteEntries(k, w, entries[1..]) + tail
  {
    var x, y, z := Write(k, entries[0].key), Write(w, entries[0].val), WriteEntries(k, w, entries[1..]);
    more := z + tail;
    vals := y + more;
    Assoc(x, y + z, tail);
    Assoc(y, z, tail);
  }

  lemma Headed(h: Token, x: Tokens, tail: Tokens)
    ensures var ts := ([h] + x) + tail; ts != [] && ts[0] == h && ts[1..] == x + tail
  {
  }

  lemma HeadedField(h: Token, x: Tokens, y: Tokens, tail: Tokens)
    ensures var ts := ([h] + x + y) + tail; ts != [] && ts[0] == h && ts[1..] == x + (y + tail)
  {
  }

  // ----- skip consumes exactly what write produced -----

  lemma {:induction false} SkipWritten(ty: Type, v: Value, tail: Tokens)
    requires Conforms(ty, v)
    ensures Skip(WireOf(ty), Write(ty, v) + tail) == Some(tail)
    decreases ty, 1, 0
  {
    match ty
    case Struct(fs) =>
      var order := Order(fs, |fs|);
      Assoc(WriteFields(fs, v.slots, order), [FieldStop], tail);
      SkipWrittenFields(fs, v.slots, order, tail);
    case List(e) =>
      Headed(ListBegin(WireOf(e), |v.elems|), WriteAll(e, v.elems), tail);
      SkipWrittenAll(e, v.elems, tail);
    case Set(e) =>
      Headed(SetBegin(WireOf(e), |v.elems|), WriteAll(e, v.elems), tail);
      SkipWrittenAll(e, v.elems, tail);
    case Map(k, w) =>
      Headed(MapBegin(WireOf(k), WireOf(w), |v.entries|), WriteEntries(k, w, v.entries), tail);
      SkipWrittenEntries(k, w, v.entries, tail);
    case _ =>
      assert ([Data(WireOf(ty), v.datum)] + tail)[1..] == tail;
  }

  lemma {:induction false} SkipWrittenFields(fs: seq<Field>, slots: seq<Slot>, order: seq<nat>, tail: Tokens)
    requires ConformSlots(fs, slots)
    requires forall k :: 0 <= k < |order| ==> order[k] < |fs|
    ensures SkipFields(WriteFields(fs, slots, order) + ([FieldStop] + tail)) == Some(tail)
    decreases Struct(fs), 0, |order|
  {
    var end := [FieldStop] + tail;
    if order == [] {
      assert [] + end == end && end[1..] == tail;
    } else {
      var i, rest := order[0], WriteFields(fs, slots, order[1..]);
      SkipWrittenFields(fs, slots, order[1..], tail);
      if Written(fs[i], slots[i]) {
        HeadedField(FieldBegin(WireOf(fs[i].ty), fs[i].id), Write(fs[i].ty, slots[i].value), rest, end);
        SkipWritten(fs[i].ty, slots[i].value, rest + end);
      }
    }
  }

  lemma {:induction false} SkipWrittenAll(e: Type, elems: seq<Value>, tail: Tokens)
    requires ConformAll(e, elems)
    ensures SkipMany(WireOf(e), |elems|, WriteAll(e, elems) + tail) == Some(tail)
    decreases e, 2, |elems|
  {
    if elems == [] {
      assert [] + tail == tail;
    } else {
      var rest := WriteAll(e, elems[1..]);
      Assoc(Write(e, elems[0]), rest, tail);
      SkipWritten(e, elems[0], rest + tail);
      SkipWrittenAll(e, elems[1..], tail);
    }
  }

  lemma {:induction false} SkipWrittenEntries(k: Type, w: Type, entries: seq<Entry>, tail: Tokens)
    requires ConformEntries(k, w, entries)
    ensures SkipPairs(WireOf(k), WireOf(w), |entries|, WriteEntries(k, w, entries) + tail) == Some(tail)
    decreases Map(k, w), 0, |entries|
  {
    if entries == [] {
      assert [] + tail == tail;
    } else {
      var vals, more := SplitEntries(k, w, entries, tail);
      SkipWritten(k, entries[0].key, vals);
      SkipWritten(w, entries[0].val, more);
      SkipWrittenEntries(k, w, entries[1..], tail);
    }
  }

  // ----- the meaning of reading with another schema -----

  datatype Progress = Progress(slots: seq<Slot>, got: set<nat>)

  /** The field of the reading schema that a written field lands in. */
  function Target(f: Field, gs: seq<Field>): (r: Option<nat>)
    ensures r.Some? ==> r.value < |gs| && SameField(f, gs[r.value])
  {
    match FieldIndex(gs, f.id)
    case None => None
    case Some(j) => if SameField(f, gs[j]) then Some(j) else None
  }

  /** The object a value becomes when it is read into `cur`; None is a missing required field.
      Total: schemas that are not compatible make nothing. */
  function Evolve(lt: Less, a: Type, b: Type, v: Value, cur: Value): Option<Value>
    decreases a, 1, 0
  {
    match (a, b, v)
    case (Struct(fs), Struct(gs), Record(slots)) =>
      if |slots| != |fs| then None
      else (match EvolveFields(lt, fs, gs, slots, Order(fs, |fs|), Progress(Current(gs, cur), {}))
            case None => None
            case Some(p) => if Complete(gs, p.got) then Some(Record(p.slots)) else None)
    case (List(e), List(f), Elements(elems)) => EvolveList(lt, e, f, elems, [])
    case (Set(e), Set(f), Elements(elems)) => EvolveSet(lt, e, f, elems, [])
    case (Map(k, w), Map(k', w'), Entries(entries)) => EvolveMap(lt, k, w, k', w', entries, [])
    case (_, _, Scalar(_)) => Some(v)
    case _ => None
  }

  function EvolveFields(lt: Less, fs: seq<Field>, gs: seq<Field>, slots: seq<Slot>,
                        order: seq<nat>, p: Progress): (r: Option<Progress>)
    requires |slots| == |fs| && |p.slots| == |gs| && forall k :: 0 <= k < |order| ==> order[k] < |fs|
    ensures r.Some? ==> |r.value.slots| == |gs|
    decreases Struct(fs), 0, |order|
  {
    if order == [] then Some(p)
    else
      var i := order[0];
      var target := Target(fs[i], gs);
      if Written(fs[i], slots[i]) && target.Some? then
        var j := target.value;
        match Evolve(lt, fs[i].ty, gs[j].ty, slots[i].value, p.slots[j].value)
        case None => None
        case Some(x) =>
          EvolveFields(lt, fs, gs, slots, order[1..], Progress(p.slots[j := Slot(true, x)], p.got + {j}))
      else EvolveFields(lt, fs, gs, slots, order[1..], p)
  }

  function EvolveList(lt: Less, e: Type, f: Type, elems: seq<Value>, acc: seq<Value>): Option<Value>
    decreases e, 2, |elems|
  {
    if elems == [] then Some(Elements(acc))
    else match Evolve(lt, e, f, elems[0], Fresh(f))
      case None => None
      case Some(x) => EvolveList(lt, e, f, elems[1..], acc + [x])
  }

  function EvolveSet(lt: Less, e: Type, f: Type, elems: seq<Value>, acc: seq<Value>): Option<Value>
    decreases e, 2, |elems|
  {
    if elems == [] then Some(Elements(acc))
    else match Evolve(lt, e, f, elems[0], Fresh(f))
      case None => None
      case Some(x) => EvolveSet(lt, e, f, elems[1..], Insert(lt, f, acc, x))
  }

  function EvolveMap(lt: Less, k: Type, w: Type, k': Type, w': Type,
                     entries: seq<Entry>, acc: seq<Entry>): Option<Value>
    decreases Map(k, w), 0, |entries|, 1
  {
    if entries == [] then Some(Entries(acc))
    else match EvolveEntry(lt, k, w, k', w', entries[0], acc)
      case None => None
      case Some(m) => EvolveMap(lt, k, w, k', w', entries[1..], m.entries)
  }

  function EvolveEntry(lt: Less, k: Type, w: Type, k': Type, w': Type, e: Entry, acc: seq<Entry>): (r: Option<Value>)
    ensures r.Some? ==> r.value.Entries?
    decreases Map(k, w), 0, 0, 0
  {
    match Evolve(lt, k, k', e.key, Fresh(k'))
    case None => None
    case Some(key) =>
      (match Evolve(lt, w, w', e.val, Lookup(lt, k', w', acc, key))
       case None => None
       case Some(val) => Some(Entries(Put(lt, k', acc, key, val))))
  }

  function Outcome(v: Option<Value>, rest: Tokens): Result {
    match v
    case None => Missing
    case Some(x) => Ok(x, rest)
  }

  // ----- the emitted reader computes it, and consumes exactly the written stream -----

  lemma {:induction false} ReadWritten(lt: Less, a: Type, b: Type, v: Value, cur: Value, tail: Tokens)
    requires Conforms(a, v) && Compatible(a, b)
    ensures Read(lt, b, cur, Write(a, v) + tail) == Outcome(Evolve(lt, a, b, v, cur), tail)
    decreases a, 1, 0
  {
    match a
    case Struct(fs) => ReadWrittenStruct(lt, fs, b.fields, v, cur, tail);
    case List(e) =>
      Headed(ListBegin(WireOf(e), |v.elems|), WriteAll(e, v.elems), tail);
      ReadWrittenList(lt, e, b.elem, v.elems, [], tail);
    case Set(e) =>
      Headed(SetBegin(WireOf(e), |v.elems|), WriteAll(e, v.elems), tail);
      ReadWrittenSet(lt, e, b.elem, v.elems, [], tail);
    case Map(k, w) =>
      Headed(MapBegin(WireOf(k), WireOf(w), |v.entries|), WriteEntries(k, w, v.entries), tail);
      ReadWrittenMap(lt, k, w, b.key, b.val, v.entries, [], tail);
    case _ =>
      assert ([Data(WireOf(a), v.datum)] + tail)[1..] == tail;
  }

  lemma {:induction false} ReadWrittenStruct(lt: Less, fs: seq<Field>, gs: seq<Field>, v: Value, cur: Value,
                                             tail: Tokens)
    requires Conforms(Struct(fs), v) && CompatibleFields(fs, gs)
    ensures Read(lt, Struct(gs), cur, Write(Struct(fs), v) + tail)
         == Outcome(Evolve(lt, Struct(fs), Struct(gs), v, cur), tail)
    decreases Struct(fs), 0, |Order(fs, |fs|)| + 1
  {
    var order := Order(fs, |fs|);
    Assoc(WriteFields(fs, v.slots, order), [FieldStop], tail);
    ReadWrittenFields(lt, fs, gs, v.slots, order, Progress(Current(gs, cur), {}), tail);
  }

  function FieldsOutcome(gs: seq<Field>, r: Option<Progress>, rest: Tokens): Result {
    match r
    case None => Missing
    case Some(p) => if Complete(gs, p.got) then Ok(Record(p.slots), rest) else Missing
  }

  lemma {:induction false} ReadWrittenFields(lt: Less, fs: seq<Field>, gs: seq<Field>, slots: seq<Slot>,
                                             order: seq<nat>, p: Progress, tail: Tokens)
    requires ConformSlots(fs, slots)
    requires forall k :: 0 <= k < |order| ==> order[k] < |fs|
    requires CompatibleFields(fs, gs) && |p.slots| == |gs|
    ensures ReadFields(lt, gs, p.slots, p.got, WriteFields(fs, slots, order) + ([FieldStop] + tail))
         == FieldsOutcome(gs, EvolveFields(lt, fs, gs, slots, order, p), tail)
    decreases Struct(fs), 0, |order|, 1
  {
    var end := [FieldStop] + tail;
    if order == [] {
      assert [] + end == end && end[1..] == tail;
    } else {
      var i, rest := order[0], WriteFields(fs, slots, order[1..]);
      if Written(fs[i], slots[i]) {
        ReadWrittenField(lt, fs, gs, slots, order, p, tail);
      } else {
        ReadWrittenFields(lt, fs, gs, slots, order[1..], p, tail);
      }
    }
  }

  lemma {:induction false} ReadWrittenField(lt: Less, fs: seq<Field>, gs: seq<Field>, slots: seq<Slot>,
                                            order: seq<nat>, p: Progress, tail: Tokens)
    requires ConformSlots(fs, slots)
    requires (forall k :: 0 <= k < |order| ==> order[k] < |fs|) && order != []
    requires CompatibleFields(fs, gs) && |p.slots| == |gs|
    requires Written(fs[order[0]], slots[order[0]])
    ensures ReadFields(lt, gs, p.slots, p.got, WriteFields(fs, slots, order) + ([FieldStop] + tail))
         == FieldsOutcome(gs, EvolveFields(lt, fs, gs, slots, order, p), tail)
    decreases Struct(fs), 0, |order|, 0
  {
    var end := [FieldStop] + tail;
    var i, rest := order[0], WriteFields(fs, slots, order[1..]);
    var f, v := fs[i], slots[i].value;
    HeadedField(FieldBegin(WireOf(f.ty), f.id), Write(f.ty, v), rest, end);
    match Target(f, gs)
    case Some(j) =>
      ReadWritten(lt, f.ty, gs[j].ty, v, p.slots[j].value, rest + end);
      match Evolve(lt, f.ty, gs[j].ty, v, p.slots[j].value) {
        case None =>
        case Some(x) =>
          ReadWrittenFields(lt, fs, gs, slots, order[1..], Progress(p.slots[j := Slot(true, x)], p.got + {j}), tail);
      }
    case None =>
      SkipWritten(f.ty, v, rest + end);
      ReadWrittenFields(lt, fs, gs, slots, order[1..], p, tail);
  }

  lemma {:induction false} ReadWrittenList(lt: Less, e: Type, f: Type, elems: seq<Value>, acc: seq<Value>, tail: Tokens)
    requires ConformAll(e, elems) && Compatible(e, f)
    ensures ReadList(lt, f, |elems|, acc, WriteAll(e, elems) + tail)
         == Outcome(EvolveList(lt, e, f, elems, acc), tail)
    decreases e, 2, |elems|
  {
    if elems == [] {
      assert [] + tail == tail;
    } else {
      var rest := WriteAll(e, elems[1..]);
      Assoc(Write(e, elems[0]), rest, tail);
      ReadWritten(lt, e, f, elems[0], Fresh(f), rest + tail);
      match Evolve(lt, e, f, elems[0], Fresh(f))
      case None =>
      case Some(x) => ReadWrittenList(lt, e, f, elems[1..], acc + [x], tail);
    }
  }

  lemma {:induction false} ReadWrittenSet(lt: Less, e: Type, f: Type, elems: seq<Value>, acc: seq<Value>, tail: Tokens)
    requires ConformAll(e, elems) && Compatible(e, f)
    ensures ReadSet(lt, f, |elems|, acc, WriteAll(e, elems) + tail)
         == Outcome(EvolveSet(lt, e, f, elems, acc), tail)
    decreases e, 2, |elems|
  {
    if elems == [] {
      assert [] + tail == tail;
    } else {
      var rest := WriteAll(e, elems[1..]);
      Assoc(Write(e, elems[0]), rest, tail);
      ReadWritten(lt, e, f, elems[0], Fresh(f), rest + tail);
      match Evolve(lt, e, f, elems[0], Fresh(f))
      case None =>
      case Some(x) => ReadWrittenSet(lt, e, f, elems[1..], Insert(lt, f, acc, x), tail);
    }
  }

  lemma ReadMapOnce(lt: Less, k: Type, w: Type, n: nat, acc: seq<Entry>, ts: Tokens, m: Option<Value>, rest: Tokens)
    requires n > 0 && ReadEntry(lt, k, w, acc, ts) == Outcome(m, rest) && (m.Some? ==> m.value.Entries?)
    ensures ReadMap(lt, k, w, n, acc, ts) ==
            if m.Some? then ReadMap(lt, k, w, n - 1, m.value.entries, rest) else Missing
  {
  }

  lemma EvolveMapOnce(lt: Less, k: Type, w: Type, k': Type, w': Type, entries: seq<Entry>, acc: seq<Entry>,
                      m: Option<Value>)
    requires entries != [] && m == EvolveEntry(lt, k, w, k', w', entries[0], acc)
    ensures EvolveMap(lt, k, w, k', w', entries, acc) ==
            if m.Some? then EvolveMap(lt, k, w, k', w', entries[1..], m.value.entries) else None
  {
  }

  lemma {:induction false} ReadWrittenMap(lt: Less, k: Type, w: Type, k': Type, w': Type,
                                          entries: seq<Entry>, acc: seq<Entry>, tail: Tokens)
    requires ConformEntries(k, w, entries)
    requires Compatible(k, k') && Compatible(w, w')
    ensures ReadMap(lt, k', w', |entries|, acc, WriteEntries(k, w, entries) + tail)
         == Outcome(EvolveMap(lt, k, w, k', w', entries, acc), tail)
    decreases Map(k, w), 0, |entries|, 1
  {
    if entries == [] {
      assert [] + tail == tail;
    } else {
      var vals, more := SplitEntries(k, w, entries, tail);
      var m := EvolveEntry(lt, k, w, k', w', entries[0], acc);
      ReadWrittenEntry(lt, k, w, k', w', entries[0], acc, more);
      ReadMapOnce(lt, k', w', |entries|, acc, WriteEntries(k, w, entries) + tail, m, more);
      EvolveMapOnce(lt, k, w, k', w', entries, acc, m);
      if m.Some? {
        ReadWrittenMap(lt, k, w, k', w', entries[1..], m.value.entries, tail);
      }
    }
  }

  lemma {:induction false} ReadWrittenEntry(lt: Less, k: Type, w: Type, k': Type, w': Type,
                                            e: Entry, acc: seq<Entry>, tail: Tokens)
    requires Conforms(k, e.key) && Conforms(w, e.val)
    requires Compatible(k, k') && Compatible(w, w')
    ensures ReadEntry(lt, k', w', acc, Write(k, e.key) + (Write(w, e.val) + tail))
         == Outcome(EvolveEntry(lt, k, w, k', w', e, acc), tail)
    decreases Map(k, w), 0, 0, 0
  {
    ReadWritten(lt, k, k', e.key, Fresh(k'), Write(w, e.val) + tail);
    match Evolve(lt, k, k', e.key, Fresh(k'))
    case None =>
    case Some(key) => ReadWritten(lt, w, w', e.val, Lookup(lt, k', w', acc, key), tail);
  }
}
