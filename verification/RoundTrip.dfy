/** Reading what was written gives an equal object, exactly when the fresh object the reader
    starts from has no optional field set inside a struct. */
module RoundTrip {
  import opened Serialization
  import opened Wrappers
  import opened Evolution
  import opened SchemaEvolution

  /** operator< does not tell apart what operator== identifies. */
  ghost predicate Consistent(lt: Less) {
    forall ty, a, b, a', b' :: Equal(ty, a, a') && Equal(ty, b, b') ==> lt(ty, a, b) == lt(ty, a', b')
  }

  /** Sets and maps are in strict iteration order, at every depth. */
  ghost predicate Ordered(lt: Less, ty: Type, v: Value)
    decreases ty, 1
  {
    match ty
    case Struct(fs) => v.Record? && OrderedSlots(lt, fs, v.slots)
    case List(e) => v.Elements? && OrderedAll(lt, e, v.elems)
    case Set(e) => v.Elements? && OrderedAll(lt, e, v.elems) && Increasing(lt, e, v.elems)
    case Map(k, w) => v.Entries? && OrderedEntries(lt, k, w, v.entries) && IncreasingKeys(lt, k, v.entries)
    case _ => true
  }

  ghost predicate OrderedSlots(lt: Less, fs: seq<Field>, slots: seq<Slot>)
    decreases Struct(fs), 0
  {
    |slots| == |fs| && forall i :: 0 <= i < |fs| ==> Ordered(lt, fs[i].ty, slots[i].value)
  }

  ghost predicate OrderedAll(lt: Less, e: Type, elems: seq<Value>)
    decreases e, 2
  {
    forall i :: 0 <= i < |elems| ==> Ordered(lt, e, elems[i])
  }

  ghost predicate Increasing(lt: Less, e: Type, elems: seq<Value>) {
    forall i, j :: 0 <= i < j < |elems| ==> lt(e, elems[i], elems[j])
  }

  ghost predicate OrderedEntries(lt: Less, k: Type, w: Type, m: seq<Entry>)
    decreases Map(k, w), 0
  {
    forall i :: 0 <= i < |m| ==> Ordered(lt, k, m[i].key) && Ordered(lt, w, m[i].val)
  }

  ghost predicate IncreasingKeys(lt: Less, k: Type, m: seq<Entry>) {
    forall i, j :: 0 <= i < j < |m| ==> lt(k, m[i].key, m[j].key)
  }

  /** No optional field is set in the object read into, nor in any struct inside it, nor in a
      freshly constructed container element. A struct-typed field with a constant default
      breaks this: the constructor sets the isset bits of the fields the constant names. */
  predicate Faithful(ty: Type, cur: Value)
    decreases ty, 1
  {
    match ty
    case Struct(fs) => FaithfulSlots(fs, Current(fs, cur))
    case List(e) => Faithful(e, Fresh(e))
    case Set(e) => Faithful(e, Fresh(e))
    case Map(k, w) => Faithful(k, Fresh(k)) && Faithful(w, Fresh(w))
    case _ => true
  }

  predicate FaithfulSlots(fs: seq<Field>, slots: seq<Slot>)
    requires |slots| == |fs|
    decreases Struct(fs), 0
  {
    forall i :: 0 <= i < |fs| ==>
      (fs[i].req.Optional? ==> !slots[i].isset) && Faithful(fs[i].ty, slots[i].value)
  }

  /** Reading v at its own type into cur succeeds with an equal object. */
  ghost predicate Kept(lt: Less, ty: Type, v: Value, cur: Value) {
    var r := Evolve(lt, ty, ty, v, cur);
    r.Some? && Equal(ty, v, r.value)
  }

  lemma {:induction false} SelfCompatible(ty: Type)
    requires WellFormed(ty)
    ensures Compatible(ty, ty)
    decreases ty
  {
    match ty
    case Struct(fs) =>
      forall i, j | 0 <= i < |fs| && 0 <= j < |fs| && SameField(fs[i], fs[j])
        ensures Compatible(fs[i].ty, fs[j].ty)
      {
        SelfCompatible(fs[i].ty);
      }
    case List(e) => SelfCompatible(e);
    case Set(e) => SelfCompatible(e);
    case Map(k, w) => SelfCompatible(k); SelfCompatible(w);
    case _ =>
  }

  // ----- sufficiency -----

  lemma {:induction false} Keeps(lt: Less, ty: Type, v: Value, cur: Value)
    requires WellFormed(ty) && Conforms(ty, v) && Ordered(lt, ty, v) && Consistent(lt)
    requires Faithful(ty, cur)
    ensures Kept(lt, ty, v, cur)
    decreases ty, 1, 0
  {
    match ty
    case Struct(fs) => KeepsStruct(lt, fs, v.slots, cur);
    case List(e) => KeepsList(lt, e, [], v.elems, []); assert [] + v.elems == v.elems;
    case Set(e) => KeepsSet(lt, e, [], v.elems, []); assert [] + v.elems == v.elems;
    case Map(k, w) => KeepsMap(lt, k, w, [], v.entries, []); assert [] + v.entries == v.entries;
    case _ =>
  }

  /** A field that is written is its own source, and one that is not has none. */
  lemma OwnSource(fs: seq<Field>, slots: seq<Slot>, j: nat)
    requires DistinctIds(fs) && |slots| == |fs| && j < |fs|
    ensures Source(fs, slots, fs[j]) == if Written(fs[j], slots[j]) then Some(j) else None
  {
  }

  ghost predicate FieldsKept(lt: Less, fs: seq<Field>, slots: seq<Slot>, cur: seq<Slot>) {
    && |slots| == |fs| == |cur|
    && forall j :: 0 <= j < |fs| ==> Kept(lt, fs[j].ty, slots[j].value, cur[j].value)
  }

  lemma {:induction false} KeepsStruct(lt: Less, fs: seq<Field>, slots: seq<Slot>, cur: Value)
    requires WellFormed(Struct(fs)) && ConformSlots(fs, slots) && OrderedSlots(lt, fs, slots)
    requires Consistent(lt) && FaithfulSlots(fs, Current(fs, cur))
    ensures Kept(lt, Struct(fs), Record(slots), cur)
    decreases Struct(fs), 0, 0
  {
    var now := Current(fs, cur);
    forall j | 0 <= j < |fs| ensures Kept(lt, fs[j].ty, slots[j].value, now[j].value) {
      Keeps(lt, fs[j].ty, slots[j].value, now[j].value);
    }
    OrderCovers(fs, |fs|);
    KeptFields(lt, fs, slots, Order(fs, |fs|), now);
  }

  lemma KeptSome(lt: Less, fs: seq<Field>, slots: seq<Slot>, order: seq<nat>, cur: seq<Slot>)
    requires DistinctIds(fs) && Covers(order, |fs|) && FieldsKept(lt, fs, slots, cur)
    ensures EvolveFields(lt, fs, fs, slots, order, Progress(cur, {})).Some?
  {
    var p := Progress(cur, {});
    if EvolveFields(lt, fs, fs, slots, order, p).None? {
      var j := FieldsBroken(lt, fs, fs, slots, order, p);
      OwnSource(fs, slots, j);
    }
  }

  lemma KeptField(lt: Less, fs: seq<Field>, slots: seq<Slot>, order: seq<nat>, cur: seq<Slot>, j: nat)
    requires DistinctIds(fs) && Covers(order, |fs|) && FieldsKept(lt, fs, slots, cur) && j < |fs|
    requires fs[j].req.Optional? ==> !cur[j].isset
    requires EvolveFields(lt, fs, fs, slots, order, Progress(cur, {})).Some?
    ensures var q := EvolveFields(lt, fs, fs, slots, order, Progress(cur, {})).value;
      if Written(fs[j], slots[j])
      then j in q.got && q.slots[j].isset && Equal(fs[j].ty, slots[j].value, q.slots[j].value)
      else !q.slots[j].isset
  {
    FieldsMoved(lt, fs, fs, slots, order, Progress(cur, {}), j);
    OwnSource(fs, slots, j);
  }

  lemma KeptFields(lt: Less, fs: seq<Field>, slots: seq<Slot>, order: seq<nat>, cur: seq<Slot>)
    requires DistinctIds(fs) && Covers(order, |fs|) && FieldsKept(lt, fs, slots, cur)
    requires forall j :: 0 <= j < |fs| && fs[j].req.Optional? ==> !cur[j].isset
    ensures var r := EvolveFields(lt, fs, fs, slots, order, Progress(cur, {}));
      r.Some? && Complete(fs, r.value.got) && EqualSlots(fs, slots, r.value.slots)
  {
    KeptSome(lt, fs, slots, order, cur);
    forall j | 0 <= j < |fs|
      ensures var q := EvolveFields(lt, fs, fs, slots, order, Progress(cur, {})).value;
        if Written(fs[j], slots[j])
        then j in q.got && q.slots[j].isset && Equal(fs[j].ty, slots[j].value, q.slots[j].value)
        else !q.slots[j].isset
    {
      KeptField(lt, fs, slots, order, cur, j);
    }
  }

  // ----- containers -----

  lemma {:induction false} KeepsList(lt: Less, e: Type, done: seq<Value>, todo: seq<Value>, acc: seq<Value>)
    requires WellFormed(e) && ConformAll(e, todo) && OrderedAll(lt, e, todo) && Consistent(lt)
    requires Faithful(e, Fresh(e)) && EqualAll(e, done, acc)
    ensures var r := EvolveList(lt, e, e, todo, acc);
      r.Some? && r.value.Elements? && EqualAll(e, done + todo, r.value.elems)
    decreases e, 2, |todo|
  {
    if todo == [] {
      assert done + todo == done;
    } else {
      Keeps(lt, e, todo[0], Fresh(e));
      var x := Evolve(lt, e, e, todo[0], Fresh(e)).value;
      assert done + todo == done + [todo[0]] + todo[1..];
      KeepsList(lt, e, done + [todo[0]], todo[1..], acc + [x]);
    }
  }

  lemma {:induction false} InsertLast(lt: Less, e: Type, s: seq<Value>, x: Value)
    requires forall i :: 0 <= i < |s| ==> lt(e, s[i], x)
    ensures Insert(lt, e, s, x) == s + [x]
  {
    if s != [] {
      InsertLast(lt, e, s[1..], x);
      assert [s[0]] + (s[1..] + [x]) == s + [x];
    }
  }

  lemma {:induction false} KeepsSet(lt: Less, e: Type, done: seq<Value>, todo: seq<Value>, acc: seq<Value>)
    requires WellFormed(e) && ConformAll(e, todo) && OrderedAll(lt, e, todo) && Consistent(lt)
    requires Increasing(lt, e, done + todo)
    requires Faithful(e, Fresh(e)) && EqualAll(e, done, acc)
    ensures var r := EvolveSet(lt, e, e, todo, acc);
      r.Some? && r.value.Elements? && EqualAll(e, done + todo, r.value.elems)
    decreases e, 2, |todo|
  {
    if todo == [] {
      assert done + todo == done;
    } else {
      Keeps(lt, e, todo[0], Fresh(e));
      var x := Evolve(lt, e, e, todo[0], Fresh(e)).value;
      assert done + todo == done + [todo[0]] + todo[1..];
      AboveAll(lt, e, done, todo, acc, x);
      InsertLast(lt, e, acc, x);
      KeepsSet(lt, e, done + [todo[0]], todo[1..], acc + [x]);
    }
  }

  /** The next element is above all elements read so far, as it was in the written set. */
  lemma AboveAll(lt: Less, e: Type, done: seq<Value>, todo: seq<Value>, acc: seq<Value>, x: Value)
    requires Increasing(lt, e, done + todo) && Consistent(lt) && EqualAll(e, done, acc)
    requires todo != [] && Equal(e, todo[0], x)
    ensures forall i :: 0 <= i < |acc| ==> lt(e, acc[i], x)
  {
    forall i | 0 <= i < |acc| ensures lt(e, acc[i], x) {
      assert lt(e, (done + todo)[i], (done + todo)[|done|]);
      assert lt(e, done[i], todo[0]) == lt(e, acc[i], x);
    }
  }

  lemma {:induction false} PutLast(lt: Less, k: Type, w: Type, m: seq<Entry>, key: Value, val: Value)
    requires forall i :: 0 <= i < |m| ==> lt(k, m[i].key, key)
    ensures Lookup(lt, k, w, m, key) == Fresh(w)
    ensures Put(lt, k, m, key, val) == m + [Entry(key, val)]
  {
    if m != [] {
      PutLast(lt, k, w, m[1..], key, val);
      assert [m[0]] + (m[1..] + [Entry(key, val)]) == m + [Entry(key, val)];
    }
  }

  lemma AboveAllKeys(lt: Less, k: Type, w: Type, done: seq<Entry>, todo: seq<Entry>, acc: seq<Entry>, x: Value)
    requires IncreasingKeys(lt, k, done + todo) && Consistent(lt) && EqualEntries(k, w, done, acc)
    requires todo != [] && Equal(k, todo[0].key, x)
    ensures forall i :: 0 <= i < |acc| ==> lt(k, acc[i].key, x)
  {
    forall i | 0 <= i < |acc| ensures lt(k, acc[i].key, x) {
      assert lt(k, (done + todo)[i].key, (done + todo)[|done|].key);
      assert lt(k, done[i].key, todo[0].key) == lt(k, acc[i].key, x);
    }
  }

  /** Where the map loop stands: `done` has been read into `acc`, `todo` is to come. */
  ghost predicate MapLoop(lt: Less, k: Type, w: Type, done: seq<Entry>, todo: seq<Entry>, acc: seq<Entry>) {
    && ConformEntries(k, w, todo) && OrderedEntries(lt, k, w, todo)
    && IncreasingKeys(lt, k, done + todo) && EqualEntries(k, w, done, acc)
  }

  lemma EqualEntriesSnoc(k: Type, w: Type, a: seq<Entry>, b: seq<Entry>, x: Entry, y: Entry)
    requires EqualEntries(k, w, a, b) && Equal(k, x.key, y.key) && Equal(w, x.val, y.val)
    ensures EqualEntries(k, w, a + [x], b + [y])
  {
  }

  lemma MapLoopNext(lt: Less, k: Type, w: Type, done: seq<Entry>, todo: seq<Entry>, acc: seq<Entry>, e: Entry)
    requires MapLoop(lt, k, w, done, todo, acc) && todo != []
    requires Equal(k, todo[0].key, e.key) && Equal(w, todo[0].val, e.val)
    ensures MapLoop(lt, k, w, done + [todo[0]], todo[1..], acc + [e])
  {
    assert done + todo == done + [todo[0]] + todo[1..];
    EqualEntriesSnoc(k, w, done, acc, todo[0], e);
  }

  lemma {:induction false} KeepsEntry(lt: Less, k: Type, w: Type, done: seq<Entry>, todo: seq<Entry>, acc: seq<Entry>)
      returns (e: Entry)
    requires WellFormed(k) && WellFormed(w) && Consistent(lt)
    requires Faithful(k, Fresh(k)) && Faithful(w, Fresh(w))
    requires MapLoop(lt, k, w, done, todo, acc) && todo != []
    ensures EvolveEntry(lt, k, w, k, w, todo[0], acc) == Some(Entries(acc + [e]))
    ensures Equal(k, todo[0].key, e.key) && Equal(w, todo[0].val, e.val)
    decreases Map(k, w), 0, |todo|, 0
  {
    var head := todo[0];
    Keeps(lt, k, head.key, Fresh(k));
    Keeps(lt, w, head.val, Fresh(w));
    var key := Evolve(lt, k, k, head.key, Fresh(k)).value;
    var val := Evolve(lt, w, w, head.val, Fresh(w)).value;
    AboveAllKeys(lt, k, w, done, todo, acc, key);
    PutLast(lt, k, w, acc, key, val);
    e := Entry(key, val);
  }

  lemma {:induction false} KeepsMap(lt: Less, k: Type, w: Type, done: seq<Entry>, todo: seq<Entry>, acc: seq<Entry>)
    requires WellFormed(k) && WellFormed(w) && Consistent(lt)
    requires Faithful(k, Fresh(k)) && Faithful(w, Fresh(w))
    requires MapLoop(lt, k, w, done, todo, acc)
    ensures var r := EvolveMap(lt, k, w, k, w, todo, acc);
      r.Some? && r.value.Entries? && EqualEntries(k, w, done + todo, r.value.entries)
    decreases Map(k, w), 0, |todo|, 1
  {
    if todo == [] {
      assert done + todo == done;
    } else {
      var e := KeepsEntry(lt, k, w, done, todo, acc);
      MapLoopNext(lt, k, w, done, todo, acc, e);
      assert done + todo == done + [todo[0]] + todo[1..];
      KeepsMap(lt, k, w, done + [todo[0]], todo[1..], acc + [e]);
    }
  }

  // ----- necessity -----

  /** A value with nothing set and nothing in it. */
  function Minimal(ty: Type): Value
    decreases ty, 1
  {
    match ty
    case Struct(fs) => Record(MinimalSlots(fs))
    case Map(_, _) => Entries([])
    case List(_) => Elements([])
    case Set(_) => Elements([])
    case _ => Fresh(ty)
  }

  function MinimalSlots(fs: seq<Field>): (s: seq<Slot>)
    ensures |s| == |fs|
    decreases Struct(fs), 0
  {
    seq(|fs|, i requires 0 <= i < |fs| => Slot(false, Minimal(fs[i].ty)))
  }

  lemma {:induction false} MinimalConforms(lt: Less, ty: Type)
    ensures Conforms(ty, Minimal(ty)) && Ordered(lt, ty, Minimal(ty))
    decreases ty
  {
    if ty.Struct? {
      forall i | 0 <= i < |ty.fields|
        ensures var t := ty.fields[i].ty; Conforms(t, Minimal(t)) && Ordered(lt, t, Minimal(t))
      {
        MinimalConforms(lt, ty.fields[i].ty);
      }
    }
  }

  lemma MinimalBut(lt: Less, fs: seq<Field>, j: nat, x: Value) returns (slots: seq<Slot>)
    requires j < |fs| && Conforms(fs[j].ty, x) && Ordered(lt, fs[j].ty, x)
    ensures |slots| == |fs| && slots[j] == Slot(true, x)
    ensures Conforms(Struct(fs), Record(slots)) && Ordered(lt, Struct(fs), Record(slots))
  {
    MinimalConforms(lt, Struct(fs));
    slots := MinimalSlots(fs)[j := Slot(true, x)];
  }

  /** A field that is lost makes the struct unequal, or unreadable. */
  lemma FieldLost(lt: Less, fs: seq<Field>, slots: seq<Slot>, cur: Value, j: nat)
    requires DistinctIds(fs) && |slots| == |fs| && j < |fs|
    requires var now := Current(fs, cur)[j];
      if Written(fs[j], slots[j]) then !Kept(lt, fs[j].ty, slots[j].value, now.value) else now.isset
    ensures !Kept(lt, Struct(fs), Record(slots), cur)
  {
    var order, p := Order(fs, |fs|), Progress(Current(fs, cur), {});
    OrderCovers(fs, |fs|);
    OwnSource(fs, slots, j);
    FieldsMoved(lt, fs, fs, slots, order, p, j);
    var e := EvolveFields(lt, fs, fs, slots, order, p);
    var r := Evolve(lt, Struct(fs), Struct(fs), Record(slots), cur);
    assert r.Some? ==> e.Some? && r.value == Record(e.value.slots);
    assert e.Some? ==> !EqualSlots(fs, slots, e.value.slots);
  }

  lemma ElementLost(lt: Less, e: Type, x: Value, cur: Value)
    requires !Kept(lt, e, x, Fresh(e))
    ensures !Kept(lt, List(e), Elements([x]), cur)
    ensures !Kept(lt, Set(e), Elements([x]), cur)
  {
    var asList := Evolve(lt, List(e), List(e), Elements([x]), cur);
    var asSet := Evolve(lt, Set(e), Set(e), Elements([x]), cur);
    assert asList == EvolveList(lt, e, e, [x], []) && asSet == EvolveSet(lt, e, e, [x], []);
    match Evolve(lt, e, e, x, Fresh(e))
    case None => assert asList.None? && asSet.None?;
    case Some(y) =>
      var rest, read := [x][1..], [] + [y];
      assert rest == [] && read == [y];
      assert EvolveList(lt, e, e, rest, read) == Some(Elements(read)) == EvolveSet(lt, e, e, rest, read);
      assert asList == Some(Elements([y])) == asSet;
      var a, b := [x], [y];
      assert !Equal(e, a[0], b[0]);
      assert !EqualAll(e, a, b);
  }

  lemma EntryLost(lt: Less, k: Type, w: Type, e: Entry, cur: Value)
    requires !Kept(lt, k, e.key, Fresh(k)) || !Kept(lt, w, e.val, Fresh(w))
    ensures !Kept(lt, Map(k, w), Entries([e]), cur)
  {
    var r := Evolve(lt, Map(k, w), Map(k, w), Entries([e]), cur);
    assert r == EvolveMap(lt, k, w, k, w, [e], []);
    var rest, m := [e][1..], EvolveEntry(lt, k, w, k, w, e, []);
    assert rest == [];
    if m.Some? {
      assert EvolveMap(lt, k, w, k, w, rest, m.value.entries) == Some(Entries(m.value.entries));
      var x := Evolve(lt, k, k, e.key, Fresh(k)).value;
      var y := Evolve(lt, w, w, e.val, Fresh(w)).value;
      assert m.value == Entries([Entry(x, y)]);
      assert r == m;
      var a, b := [e], [Entry(x, y)];
      assert !(Equal(k, a[0].key, b[0].key) && Equal(w, a[0].val, b[0].val));
      assert !EqualEntries(k, w, a, b);
    } else {
      assert r.None?;
    }
  }

  /** Where the object read into is not faithful, some value is lost. */
  lemma {:induction false} Loses(lt: Less, ty: Type, cur: Value) returns (v: Value)
    requires WellFormed(ty) && !Faithful(ty, cur)
    ensures Conforms(ty, v) && Ordered(lt, ty, v) && !Kept(lt, ty, v, cur)
    decreases ty, 1
  {
    match ty
    case Struct(fs) => v := LosesStruct(lt, fs, cur);
    case List(e) =>
      var x := Loses(lt, e, Fresh(e));
      ElementLost(lt, e, x, cur);
      v := Elements([x]);
    case Set(e) =>
      var x := Loses(lt, e, Fresh(e));
      ElementLost(lt, e, x, cur);
      v := Elements([x]);
    case Map(k, w) => v := LosesMap(lt, k, w, cur);
  }

  lemma {:induction false} LosesMap(lt: Less, k: Type, w: Type, cur: Value) returns (v: Value)
    requires WellFormed(k) && WellFormed(w)
    requires !Faithful(k, Fresh(k)) || !Faithful(w, Fresh(w))
    ensures Conforms(Map(k, w), v) && Ordered(lt, Map(k, w), v) && !Kept(lt, Map(k, w), v, cur)
    decreases Map(k, w), 0
  {
    MinimalConforms(lt, k);
    MinimalConforms(lt, w);
    var key, val := Minimal(k), Minimal(w);
    if !Faithful(k, Fresh(k)) {
      key := Loses(lt, k, Fresh(k));
    } else {
      val := Loses(lt, w, Fresh(w));
    }
    EntryLost(lt, k, w, Entry(key, val), cur);
    v := Entries([Entry(key, val)]);
  }

  lemma {:induction false} LosesStruct(lt: Less, fs: seq<Field>, cur: Value) returns (v: Value)
    requires WellFormed(Struct(fs)) && !FaithfulSlots(fs, Current(fs, cur))
    ensures Conforms(Struct(fs), v) && Ordered(lt, Struct(fs), v) && !Kept(lt, Struct(fs), v, cur)
    decreases Struct(fs), 0
  {
    var now := Current(fs, cur);
    var j :| 0 <= j < |fs| && !((fs[j].req.Optional? ==> !now[j].isset) && Faithful(fs[j].ty, now[j].value));
    var slots := MinimalSlots(fs);
    if Faithful(fs[j].ty, now[j].value) {
      MinimalConforms(lt, Struct(fs));
    } else {
      var x := Loses(lt, fs[j].ty, now[j].value);
      slots := MinimalBut(lt, fs, j, x);
    }
    FieldLost(lt, fs, slots, cur, j);
    v := Record(slots);
  }

  // ----- the law -----

  ghost predicate ReadBack(lt: Less, ty: Type, v: Value) {
    var r := Read(lt, ty, Fresh(ty), Write(ty, v));
    r.Ok? && r.rest == [] && Equal(ty, v, r.value)
  }

  lemma ReadBackIsKept(lt: Less, ty: Type, v: Value)
    requires WellFormed(ty) && Conforms(ty, v)
    ensures ReadBack(lt, ty, v) <==> Kept(lt, ty, v, Fresh(ty))
  {
    SelfCompatible(ty);
    ReadWritten(lt, ty, ty, v, Fresh(ty), []);
    assert Write(ty, v) + [] == Write(ty, v);
  }

  /** The round trip holds for every value of a schema exactly when the schema's fresh object
      is faithful. */
  lemma RoundTripLaw(lt: Less, ty: Type)
    requires WellFormed(ty) && Consistent(lt)
    ensures (forall v :: Conforms(ty, v) && Ordered(lt, ty, v) ==> ReadBack(lt, ty, v))
       <==> Faithful(ty, Fresh(ty))
  {
    if Faithful(ty, Fresh(ty)) {
      forall v | Conforms(ty, v) && Ordered(lt, ty, v) ensures ReadBack(lt, ty, v) {
        Keeps(lt, ty, v, Fresh(ty));
        ReadBackIsKept(lt, ty, v);
      }
    } else {
      var v := Loses(lt, ty, Fresh(ty));
      ReadBackIsKept(lt, ty, v);
    }
  }

  /** The shortest schema that loses a value: a struct-typed field whose constant default names
      an optional field. An object with that inner field unset comes back with it set. */
  lemma ConstantDefaultLoses(lt: Less) returns (ty: Type, v: Value)
    ensures WellFormed(ty) && Conforms(ty, v) && Ordered(lt, ty, v) && !ReadBack(lt, ty, v)
  {
    var inner := [Field(1, Optional, Prim(I32), Scalar(Number(0)))];
    var constant := [Slot(true, Scalar(Number(7)))];
    var outer := [Field(1, Default, Struct(inner), Record(constant))];
    ty := Struct(outer);
    assert inner[0].req.Optional? && constant[0].isset;
    assert Current(inner, Record(constant)) == constant;
    assert !FaithfulSlots(inner, constant);
    assert FreshSlots(outer)[0].value == Record(constant);
    assert !FaithfulSlots(outer, FreshSlots(outer));
    v := Loses(lt, ty, Fresh(ty));
    ReadBackIsKept(lt, ty, v);
  }
}
