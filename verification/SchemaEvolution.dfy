/** The schema-evolution and round-trip theorems about the emitted read, write and operator==. */
module SchemaEvolution {
  import opened Serialization
  import opened Wrappers
  import opened Evolution

  // ----- the writer's order is a permutation -----

  predicate NoDuplicates(order: seq<nat>) {
    forall a, b :: 0 <= a < b < |order| ==> order[a] != order[b]
  }

  /** Every position below n, once. */
  ghost predicate Covers(order: seq<nat>, n: nat) {
    && NoDuplicates(order)
    && (forall k :: 0 <= k < |order| ==> order[k] < n)
    && (forall i :: 0 <= i < n ==> i in order)
  }

  lemma {:induction false} InsertMembers(fs: seq<Field>, order: seq<nat>, i: nat, k: nat)
    requires i < |fs| && (forall k :: 0 <= k < |order| ==> order[k] < |fs|)
    ensures k in InsertById(fs, order, i) <==> k == i || k in order
  {
    if order != [] && fs[order[0]].id < fs[i].id {
      InsertMembers(fs, order[1..], i, k);
      assert order == [order[0]] + order[1..];
    }
  }

  lemma {:induction false} InsertNoDuplicates(fs: seq<Field>, order: seq<nat>, i: nat)
    requires i < |fs| && (forall k :: 0 <= k < |order| ==> order[k] < |fs|)
    requires NoDuplicates(order) && i !in order
    ensures NoDuplicates(InsertById(fs, order, i))
  {
    if order != [] && fs[order[0]].id < fs[i].id {
      InsertNoDuplicates(fs, order[1..], i);
      InsertMembers(fs, order[1..], i, order[0]);
      assert order[0] !in order[1..];
    }
  }

  lemma {:induction false} OrderCovers(fs: seq<Field>, n: nat)
    requires n <= |fs|
    ensures Covers(Order(fs, n), n)
  {
    if n > 0 {
      var order := Order(fs, n - 1);
      OrderCovers(fs, n - 1);
      assert n - 1 !in order;
      InsertNoDuplicates(fs, order, n - 1);
      var inserted := InsertById(fs, order, n - 1);
      forall i: nat | i < n ensures i in inserted {
        InsertMembers(fs, order, n - 1, i);
      }
    }
  }

  predicate SortedById(fs: seq<Field>, order: seq<nat>)
    requires forall k :: 0 <= k < |order| ==> order[k] < |fs|
  {
    forall a, b :: 0 <= a < b < |order| ==> fs[order[a]].id <= fs[order[b]].id
  }

  lemma {:induction false} InsertSorted(fs: seq<Field>, order: seq<nat>, i: nat)
    requires i < |fs| && (forall k :: 0 <= k < |order| ==> order[k] < |fs|)
    requires SortedById(fs, order)
    ensures var r := InsertById(fs, order, i);
      (forall k :: 0 <= k < |r| ==> r[k] < |fs|) && SortedById(fs, r)
  {
    if order != [] && fs[order[0]].id < fs[i].id {
      InsertSorted(fs, order[1..], i);
      var r := InsertById(fs, order[1..], i);
      forall k | 0 <= k < |r|
        ensures fs[order[0]].id <= fs[r[k]].id
      {
        InsertMembers(fs, order[1..], i, r[k]);
      }
    }
  }

  /** The writer goes through the fields by ascending id. */
  lemma {:induction false} OrderSorted(fs: seq<Field>, n: nat)
    requires n <= |fs|
    ensures SortedById(fs, Order(fs, n))
  {
    if n > 0 {
      OrderSorted(fs, n - 1);
      InsertSorted(fs, Order(fs, n - 1), n - 1);
    }
  }

  // ----- which written field a reader's field gets -----

  /** The written field with the reader's id and wire type, if the writer wrote it. */
  function Source(fs: seq<Field>, slots: seq<Slot>, g: Field): (r: Option<nat>)
    requires |slots| == |fs|
    ensures r.Some? ==> r.value < |fs| && SameField(fs[r.value], g) && Written(fs[r.value], slots[r.value])
  {
    match FieldIndex(fs, g.id)
    case None => None
    case Some(i) => if SameField(fs[i], g) && Written(fs[i], slots[i]) then Some(i) else None
  }

  lemma SourceIsTarget(fs: seq<Field>, gs: seq<Field>, slots: seq<Slot>, i: nat, j: nat)
    requires |slots| == |fs| && DistinctIds(fs) && DistinctIds(gs) && i < |fs| && j < |gs|
    ensures Source(fs, slots, gs[j]) == Some(i) <==> Written(fs[i], slots[i]) && Target(fs[i], gs) == Some(j)
  {
  }

  /** The written field order[k] ends in slot j, or slot j is left alone. */
  ghost predicate Moved(lt: Less, fs: seq<Field>, gs: seq<Field>, slots: seq<Slot>, order: seq<nat>,
                        p: Progress, q: Progress, j: nat)
    requires |slots| == |fs| && |p.slots| == |gs| == |q.slots| && j < |gs|
  {
    match Source(fs, slots, gs[j])
    case Some(i) =>
      if i in order
      then j in q.got && q.slots[j].isset
           && Evolve(lt, fs[i].ty, gs[j].ty, slots[i].value, p.slots[j].value) == Some(q.slots[j].value)
      else q.slots[j] == p.slots[j] && (j in q.got <==> j in p.got)
    case None => q.slots[j] == p.slots[j] && (j in q.got <==> j in p.got)
  }

  ghost predicate Broken(lt: Less, fs: seq<Field>, gs: seq<Field>, slots: seq<Slot>, order: seq<nat>,
                         p: Progress, j: nat)
    requires |slots| == |fs| && |p.slots| == |gs| && j < |gs|
  {
    match Source(fs, slots, gs[j])
    case Some(i) => i in order && Evolve(lt, fs[i].ty, gs[j].ty, slots[i].value, p.slots[j].value).None?
    case None => false
  }

  lemma {:induction false} FieldsMoved(lt: Less, fs: seq<Field>, gs: seq<Field>, slots: seq<Slot>,
                                       order: seq<nat>, p: Progress, j: nat)
    requires |slots| == |fs| && |p.slots| == |gs| && forall k :: 0 <= k < |order| ==> order[k] < |fs|
    requires DistinctIds(fs) && DistinctIds(gs) && NoDuplicates(order) && j < |gs|
    ensures var r := EvolveFields(lt, fs, gs, slots, order, p);
      r.Some? ==> Moved(lt, fs, gs, slots, order, p, r.value, j)
    decreases |order|
  {
    if order != [] {
      var i := order[0];
      assert order == [i] + order[1..] && i !in order[1..];
      SourceIsTarget(fs, gs, slots, i, j);
      match Target(fs[i], gs)
      case Some(t) =>
        if Written(fs[i], slots[i]) {
          match Evolve(lt, fs[i].ty, gs[t].ty, slots[i].value, p.slots[t].value)
          case Some(x) =>
            FieldsMoved(lt, fs, gs, slots, order[1..], Progress(p.slots[t := Slot(true, x)], p.got + {t}), j);
          case None =>
        } else {
          FieldsMoved(lt, fs, gs, slots, order[1..], p, j);
        }
      case None =>
        FieldsMoved(lt, fs, gs, slots, order[1..], p, j);
    }
  }

  lemma {:induction false} FieldsBroken(lt: Less, fs: seq<Field>, gs: seq<Field>, slots: seq<Slot>,
                                        order: seq<nat>, p: Progress) returns (j: nat)
    requires |slots| == |fs| && |p.slots| == |gs| && forall k :: 0 <= k < |order| ==> order[k] < |fs|
    requires DistinctIds(fs) && DistinctIds(gs) && NoDuplicates(order)
    requires EvolveFields(lt, fs, gs, slots, order, p).None?
    ensures j < |gs| && Broken(lt, fs, gs, slots, order, p, j)
    decreases |order|
  {
    var i := order[0];
    assert order == [i] + order[1..] && i !in order[1..];
    var target := Target(fs[i], gs);
    if target.Some? && Written(fs[i], slots[i]) {
      var t := target.value;
      SourceIsTarget(fs, gs, slots, i, t);
      match Evolve(lt, fs[i].ty, gs[t].ty, slots[i].value, p.slots[t].value)
      case Some(x) =>
        j := FieldsBroken(lt, fs, gs, slots, order[1..], Progress(p.slots[t := Slot(true, x)], p.got + {t}));
      case None =>
        j := t;
    } else {
      j := FieldsBroken(lt, fs, gs, slots, order[1..], p);
    }
  }

  // ----- schema evolution -----

  /** What the reader's field makes of the written field's own tokens. */
  function Recovered(lt: Less, f: Field, g: Field, v: Value, cur: Value): Result {
    Read(lt, g.ty, cur, Write(f.ty, v))
  }

  /** The exception is due at field j: its own value cannot be recovered, or it is required and
      nothing was written for it. */
  ghost predicate MissingAt(lt: Less, fs: seq<Field>, gs: seq<Field>, slots: seq<Slot>, cur: seq<Slot>, j: nat)
    requires |slots| == |fs| && |cur| == |gs| && j < |gs|
  {
    match Source(fs, slots, gs[j])
    case Some(i) => Recovered(lt, fs[i], gs[j], slots[i].value, cur[j].value) == Missing
    case None => gs[j].req.Required?
  }

  lemma RecoveredIsEvolved(lt: Less, f: Field, g: Field, v: Value, cur: Value)
    requires Conforms(f.ty, v) && Compatible(f.ty, g.ty)
    ensures Recovered(lt, f, g, v, cur) == Outcome(Evolve(lt, f.ty, g.ty, v, cur), [])
  {
    ReadWritten(lt, f.ty, g.ty, v, cur, []);
    assert Write(f.ty, v) + [] == Write(f.ty, v);
  }

  /** Field j of the object after all written fields have been dealt with. */
  ghost predicate Settled(lt: Less, fs: seq<Field>, gs: seq<Field>, slots: seq<Slot>, cur: seq<Slot>,
                          q: Progress, j: nat)
    requires |slots| == |fs| && |cur| == |gs| == |q.slots| && j < |gs|
  {
    match Source(fs, slots, gs[j])
    case Some(i) =>
      && j in q.got && q.slots[j].isset
      && Recovered(lt, fs[i], gs[j], slots[i].value, cur[j].value) == Ok(q.slots[j].value, [])
    case None => j !in q.got && q.slots[j] == cur[j]
  }

  lemma FieldSettled(lt: Less, fs: seq<Field>, gs: seq<Field>, slots: seq<Slot>, order: seq<nat>,
                     cur: seq<Slot>, j: nat)
    requires DistinctIds(fs) && DistinctIds(gs) && CompatibleFields(fs, gs) && ConformSlots(fs, slots)
    requires |cur| == |gs| && Covers(order, |fs|) && j < |gs|
    ensures var e := EvolveFields(lt, fs, gs, slots, order, Progress(cur, {}));
      e.Some? ==>
        && Settled(lt, fs, gs, slots, cur, e.value, j)
        && (MissingAt(lt, fs, gs, slots, cur, j) <==> gs[j].req.Required? && j !in e.value.got)
  {
    FieldsMoved(lt, fs, gs, slots, order, Progress(cur, {}), j);
    match Source(fs, slots, gs[j])
    case Some(i) => RecoveredIsEvolved(lt, fs[i], gs[j], slots[i].value, cur[j].value);
    case None =>
  }

  lemma FieldMissing(lt: Less, fs: seq<Field>, gs: seq<Field>, slots: seq<Slot>, order: seq<nat>,
                     cur: seq<Slot>) returns (j: nat)
    requires DistinctIds(fs) && DistinctIds(gs) && CompatibleFields(fs, gs) && ConformSlots(fs, slots)
    requires |cur| == |gs| && Covers(order, |fs|)
    requires EvolveFields(lt, fs, gs, slots, order, Progress(cur, {})).None?
    ensures j < |gs| && MissingAt(lt, fs, gs, slots, cur, j)
  {
    j := FieldsBroken(lt, fs, gs, slots, order, Progress(cur, {}));
    var i := Source(fs, slots, gs[j]).value;
    RecoveredIsEvolved(lt, fs[i], gs[j], slots[i].value, cur[j].value);
  }

  /** A reader of schema gs on a stream of schema fs, its fields in any order: the stream is
      consumed exactly; every field with the id and wire type of a written field becomes what
      its own reader makes of that field's tokens, every other field keeps the value the object
      had; and the exception is thrown exactly when some field is missing. */
  lemma ReadOtherSchema(lt: Less, fs: seq<Field>, gs: seq<Field>, slots: seq<Slot>, order: seq<nat>,
                        cur: seq<Slot>, tail: Tokens)
    requires DistinctIds(fs) && DistinctIds(gs) && CompatibleFields(fs, gs) && ConformSlots(fs, slots)
    requires |cur| == |gs| && Covers(order, |fs|)
    ensures var r := Read(lt, Struct(gs), Record(cur), WriteFields(fs, slots, order) + ([FieldStop] + tail));
      if exists j :: 0 <= j < |gs| && MissingAt(lt, fs, gs, slots, cur, j) then r == Missing
      else
        && r.Ok? && r.rest == tail && r.value.Record? && |r.value.slots| == |gs|
        && forall j :: 0 <= j < |gs| ==>
             match Source(fs, slots, gs[j])
             case Some(i) =>
               && r.value.slots[j].isset
               && Recovered(lt, fs[i], gs[j], slots[i].value, cur[j].value) == Ok(r.value.slots[j].value, [])
             case None => r.value.slots[j] == cur[j]
  {
    var e := EvolveFields(lt, fs, gs, slots, order, Progress(cur, {}));
    ReadWrittenFields(lt, fs, gs, slots, order, Progress(cur, {}), tail);
    assert Current(gs, Record(cur)) == cur;
    match e
    case None =>
      var j := FieldMissing(lt, fs, gs, slots, order, cur);
    case Some(q) =>
      forall j | 0 <= j < |gs|
        ensures Settled(lt, fs, gs, slots, cur, q, j)
          && (MissingAt(lt, fs, gs, slots, cur, j) <==> gs[j].req.Required? && j !in q.got)
      {
        FieldSettled(lt, fs, gs, slots, order, cur, j);
      }
  }
}
