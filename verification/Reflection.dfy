/** Local reflection (thrift_0.5.0_patch/t_cpp_generator.cc): type specifications are emitted
    depth first, each fingerprint once, so that what a specification points to is there first. */
module Reflection {
  import opened Wrappers

  /** A type as the generator sees it. Base types and containers belong to no program. */
  datatype Ttype =
    | BaseType(fp: string)
    | Enum(fp: string, program: string)
    | ListOf(fp: string, elem: Ttype)
    | SetOf(fp: string, elem: Ttype)
    | MapOf(fp: string, key: Ttype, val: Ttype)
    | Struct(fp: string, program: string, members: seq<Ttype>)
    | Typedef(target: Ttype)

  const VOID := BaseType("void")

  function TrueType(t: Ttype): (r: Ttype)
    ensures !r.Typedef?
  {
    if t.Typedef? then TrueType(t.target) else t
  }

  /** What a specification of t points to; a struct's ends with void, as a stop mark. */
  function Deps(t: Ttype): seq<Ttype> {
    match t
    case ListOf(_, e) => [e]
    case SetOf(_, e) => [e]
    case MapOf(_, k, v) => [k, v]
    case Struct(_, _, ms) => ms + [VOID]
    case Typedef(target) => [target]
    case _ => []
  }

  predicate Foreign(own: string, t: Ttype) {
    (t.Enum? || t.Struct?) && t.program != own
  }

  /** Declarations and definitions are told apart. */
  datatype Key = Key(fp: string, defn: bool)

  function KeyOf(t: Ttype, defn: bool): Key {
    Key(TrueType(t).fp, defn)
  }

  datatype Entry = Entry(ty: Ttype, defn: bool)

  /** reflected_fingerprints_ and what has been written. */
  datatype Output = Output(reflected: set<Key>, emitted: seq<Entry>)

  const NOTHING := Output({}, [])

  function Size(t: Ttype): nat {
    match t
    case ListOf(_, e) => Size(e) + 2
    case SetOf(_, e) => Size(e) + 2
    case MapOf(_, k, v) => Size(k) + Size(v) + 3
    case Struct(_, _, ms) => Sizes(ms) + 3
    case Typedef(target) => Size(target) + 1
    case _ => 1
  }

  function Sizes(ts: seq<Ttype>): nat {
    if ts == [] then 0 else Size(ts[|ts| - 1]) + Sizes(ts[..|ts| - 1]) + 1
  }

  lemma SizesSnoc(ts: seq<Ttype>, t: Ttype)
    ensures Sizes(ts + [t]) == Sizes(ts) + Size(t) + 1
  {
  }

  lemma SizesOne(t: Ttype)
    ensures Sizes([t]) == Size(t) + 1
  {
  }

  lemma SizesTwo(t: Ttype, u: Ttype)
    ensures Sizes([t, u]) == Size(t) + Size(u) + 2
  {
    SizesOne(t);
    SizesSnoc([t], u);
    assert [t, u] == [t] + [u];
  }

  lemma SizesStopped(ts: seq<Ttype>)
    ensures Sizes(ts + [VOID]) == Sizes(ts) + 2
  {
    SizesSnoc(ts, VOID);
  }

  lemma {:induction false} DepsSmaller(t: Ttype)
    requires !t.Typedef?
    ensures Sizes(Deps(t)) < Size(t)
  {
    var n := Sizes(Deps(t));
    if t.Struct? {
      SizesStopped(t.members);
    } else if t.MapOf? {
      SizesTwo(t.key, t.val);
    } else if t.ListOf? || t.SetOf? {
      SizesOne(t.elem);
    }
    assert n < Size(t);
  }

  /** generate_local_reflection of a type, as a function of the output so far. */
  function Reflect(own: string, out: Output, t: Ttype, defn: bool): Output
    decreases Size(t), 0
  {
    if t.Typedef? then
      Reflect(own, out, t.target, defn)
    else if KeyOf(t, defn) in out.reflected then
      out
    else if Foreign(own, t) then
      Seen(out, t, defn)
    else
      DepsSmaller(t);
      Emit(ReflectAll(own, Seen(out, t, defn), Deps(t), defn), t, defn)
  }

  function ReflectAll(own: string, out: Output, ts: seq<Ttype>, defn: bool): Output
    decreases Sizes(ts), 1
  {
    if ts == [] then out else Reflect(own, ReflectAll(own, out, ts[..|ts| - 1], defn), ts[|ts| - 1], defn)
  }

  function Seen(out: Output, t: Ttype, defn: bool): Output {
    out.(reflected := out.reflected + {KeyOf(t, defn)})
  }

  function Emit(out: Output, t: Ttype, defn: bool): Output {
    out.(emitted := out.emitted + [Entry(t, defn)])
  }

  // ----- what holds of the output -----

  ghost predicate HasEntry(es: seq<Entry>, k: Key) {
    exists i :: 0 <= i < |es| && KeyOf(es[i].ty, es[i].defn) == k
  }

  /** Reflected but never written: some type of another program has this fingerprint. */
  ghost predicate Shadowed(out: Output, k: Key) {
    k in out.reflected && !HasEntry(out.emitted, k)
  }

  /** Each fingerprint is written once at most. */
  ghost predicate NoRepeats(es: seq<Entry>) {
    forall i, j :: 0 <= i < j < |es| ==> KeyOf(es[i].ty, es[i].defn) != KeyOf(es[j].ty, es[j].defn)
  }

  /** What the i-th entry points to is written before it, unless shadowed. */
  ghost predicate DepsBefore(own: string, out: Output, busy: set<Key>, i: nat)
    requires i < |out.emitted|
  {
    forall d :: d in Deps(out.emitted[i].ty) && !Foreign(own, TrueType(d)) ==>
      var k := KeyOf(d, out.emitted[i].defn);
      HasEntry(out.emitted[..i], k) || (Shadowed(out, k) && k !in busy)
  }

  /** The invariant of the search, with the types busy on the stack: these are marked but not
      written yet. */
  ghost predicate Inv(own: string, out: Output, busy: set<Key>) {
    && NoRepeats(out.emitted)
    && (forall i :: 0 <= i < |out.emitted| ==> KeyOf(out.emitted[i].ty, out.emitted[i].defn) in out.reflected)
    && (forall k :: k in busy ==> Shadowed(out, k))
    && (forall i :: 0 <= i < |out.emitted| ==> DepsBefore(own, out, busy, i))
  }

  /** Fingerprints of parts rank below that of the whole, so no type contains one with its own
      fingerprint. */
  ghost predicate Graded(rank: string -> nat, t: Ttype)
    decreases Size(t), 0
  {
    if t.Typedef? then
      Graded(rank, t.target)
    else
      DepsSmaller(t);
      GradedAll(rank, Deps(t)) && forall d :: d in Deps(t) ==> rank(TrueType(d).fp) < rank(t.fp)
  }

  ghost predicate GradedAll(rank: string -> nat, ts: seq<Ttype>)
    decreases Sizes(ts), 1
  {
    ts == [] || (GradedAll(rank, ts[..|ts| - 1]) && Graded(rank, ts[|ts| - 1]))
  }

  /** The types on the stack rank above those still to come. */
  ghost predicate Above(rank: string -> nat, busy: set<Key>, ts: seq<Ttype>) {
    forall k, d :: k in busy && d in ts ==> rank(TrueType(d).fp) < rank(k.fp)
  }

  /** What one call does to the output. */
  ghost predicate Extends(out: Output, out': Output) {
    && out.reflected <= out'.reflected
    && out.emitted <= out'.emitted
    && (forall k :: Shadowed(out, k) ==> Shadowed(out', k))
  }

  lemma {:induction false} MarkForeign(own: string, out: Output, t: Ttype, defn: bool, busy: set<Key>)
    requires Inv(own, out, busy) && KeyOf(t, defn) !in out.reflected
    ensures Inv(own, Seen(out, t, defn), busy) && Extends(out, Seen(out, t, defn))
  {
    var out' := Seen(out, t, defn);
    forall i | 0 <= i < |out'.emitted|
      ensures DepsBefore(own, out', busy, i)
    {
      assert DepsBefore(own, out, busy, i);
    }
  }

  lemma {:induction false} MarkOwn(own: string, out: Output, t: Ttype, defn: bool, busy: set<Key>)
    requires Inv(own, out, busy) && KeyOf(t, defn) !in out.reflected
    ensures Inv(own, Seen(out, t, defn), busy + {KeyOf(t, defn)})
  {
    var out', k := Seen(out, t, defn), KeyOf(t, defn);
    assert !HasEntry(out.emitted, k);
    forall i | 0 <= i < |out'.emitted|
      ensures DepsBefore(own, out', busy + {k}, i)
    {
      assert DepsBefore(own, out, busy, i);
    }
  }

  lemma {:induction false} EntryStays(es: seq<Entry>, e: Entry, k: Key)
    ensures HasEntry(es + [e], k) <==> HasEntry(es, k) || KeyOf(e.ty, e.defn) == k
  {
    if HasEntry(es, k) {
      var i :| 0 <= i < |es| && KeyOf(es[i].ty, es[i].defn) == k;
      assert (es + [e])[i] == es[i];
    }
    assert (es + [e])[|es|] == e;
  }

  /** The types a finished type points to are all marked by now. */
  ghost predicate DepsMarked(out: Output, t: Ttype, defn: bool, busy: set<Key>) {
    forall d :: d in Deps(t) ==> KeyOf(d, defn) in out.reflected && KeyOf(d, defn) !in busy
  }

  lemma {:induction false} WriteDeps(own: string, out: Output, t: Ttype, defn: bool, busy: set<Key>, i: nat)
    requires !t.Typedef? && KeyOf(t, defn) !in busy && DepsMarked(out, t, defn, busy + {KeyOf(t, defn)})
    requires i <= |out.emitted| && (i < |out.emitted| ==> DepsBefore(own, out, busy + {KeyOf(t, defn)}, i))
    ensures DepsBefore(own, Emit(out, t, defn), busy, i)
  {
    var out' := Emit(out, t, defn);
    assert out'.emitted[..i] == out.emitted[..i];
    forall d | d in Deps(out'.emitted[i].ty) && !Foreign(own, TrueType(d))
      ensures var k := KeyOf(d, out'.emitted[i].defn);
        HasEntry(out'.emitted[..i], k) || (Shadowed(out', k) && k !in busy)
    {
      EntryStays(out.emitted, Entry(t, defn), KeyOf(d, out'.emitted[i].defn));
    }
  }

  lemma {:induction false} Write(own: string, out: Output, t: Ttype, defn: bool, busy: set<Key>)
    requires !t.Typedef? && KeyOf(t, defn) !in busy && Inv(own, out, busy + {KeyOf(t, defn)})
    requires DepsMarked(out, t, defn, busy + {KeyOf(t, defn)})
    ensures Inv(own, Emit(out, t, defn), busy)
  {
    var out', k := Emit(out, t, defn), KeyOf(t, defn);
    assert Shadowed(out, k);
    forall b | b in busy
      ensures Shadowed(out', b)
    {
      assert b in busy + {k};
      EntryStays(out.emitted, Entry(t, defn), b);
    }
    forall i | 0 <= i < |out'.emitted|
      ensures DepsBefore(own, out', busy, i)
    {
      WriteDeps(own, out, t, defn, busy, i);
    }
  }

  lemma {:induction false} WriteExtends(out: Output, out2: Output, t: Ttype, defn: bool)
    requires KeyOf(t, defn) !in out.reflected && Extends(Seen(out, t, defn), out2)
    ensures Extends(out, Emit(out2, t, defn))
  {
    forall k | Shadowed(out, k)
      ensures Shadowed(Emit(out2, t, defn), k)
    {
      assert Shadowed(Seen(out, t, defn), k);
      EntryStays(out2.emitted, Entry(t, defn), k);
    }
  }

  lemma {:induction false} ReflectKeeps(own: string, out: Output, t: Ttype, defn: bool, busy: set<Key>,
                                        rank: string -> nat)
    requires Inv(own, out, busy) && Graded(rank, t) && Above(rank, busy, [t])
    ensures Inv(own, Reflect(own, out, t, defn), busy) && Extends(out, Reflect(own, out, t, defn))
    ensures KeyOf(t, defn) in Reflect(own, out, t, defn).reflected
    decreases Size(t), 0
  {
    if t.Typedef? {
      assert forall k, d :: k in busy && d in [t.target] ==> TrueType(d) == TrueType(t) && t in [t];
      ReflectKeeps(own, out, t.target, defn, busy, rank);
    } else if KeyOf(t, defn) in out.reflected {
    } else if Foreign(own, t) {
      MarkForeign(own, out, t, defn, busy);
    } else {
      var k := KeyOf(t, defn);
      DepsSmaller(t);
      MarkOwn(own, out, t, defn, busy);
      assert t in [t];
      ReflectAllKeeps(own, Seen(out, t, defn), Deps(t), defn, busy + {k}, rank);
      var out2 := ReflectAll(own, Seen(out, t, defn), Deps(t), defn);
      assert DepsMarked(out2, t, defn, busy + {k});
      Write(own, out2, t, defn, busy);
      WriteExtends(out, out2, t, defn);
    }
  }

  lemma {:induction false} ReflectAllKeeps(own: string, out: Output, ts: seq<Ttype>, defn: bool, busy: set<Key>,
                                          rank: string -> nat)
    requires Inv(own, out, busy) && GradedAll(rank, ts) && Above(rank, busy, ts)
    ensures Inv(own, ReflectAll(own, out, ts, defn), busy) && Extends(out, ReflectAll(own, out, ts, defn))
    ensures forall d :: d in ts ==> KeyOf(d, defn) in ReflectAll(own, out, ts, defn).reflected
    decreases Sizes(ts), 1
  {
    if ts != [] {
      var front, last := ts[..|ts| - 1], ts[|ts| - 1];
      assert ts == front + [last];
      ReflectAllKeeps(own, out, front, defn, busy, rank);
      ReflectKeeps(own, ReflectAll(own, out, front, defn), last, defn, busy, rank);
    }
  }

  // ----- a whole program -----

  /** The generator asks for every enum and struct of its program, first the declaration and
      then the definition. */
  function Program(own: string, ts: seq<Ttype>): Output {
    if ts == [] then
      NOTHING
    else
      var t := ts[|ts| - 1];
      Reflect(own, Reflect(own, Program(own, ts[..|ts| - 1]), t, false), t, true)
  }

  /** The types the search comes across, in order. It looks behind a type only if this is of its
      own program and has a fingerprint not come across before. */
  function Walk(own: string, met: seq<Ttype>, t: Ttype): seq<Ttype>
    decreases Size(t), 0
  {
    if t.Typedef? then
      Walk(own, met, t.target)
    else if First(met, t.fp).Some? || Foreign(own, t) then
      met + [t]
    else
      DepsSmaller(t);
      WalkAll(own, met + [t], Deps(t))
  }

  function WalkAll(own: string, met: seq<Ttype>, ts: seq<Ttype>): seq<Ttype>
    decreases Sizes(ts), 1
  {
    if ts == [] then met else Walk(own, WalkAll(own, met, ts[..|ts| - 1]), ts[|ts| - 1])
  }

  /** The first type with this fingerprint. */
  function First(met: seq<Ttype>, fp: string): (r: Option<Ttype>)
    ensures r.Some? ==> TrueType(r.value).fp == fp
    ensures r.None? ==> forall i :: 0 <= i < |met| ==> TrueType(met[i]).fp != fp
  {
    if met == [] then
      None
    else if First(met[..|met| - 1], fp).Some? then
      First(met[..|met| - 1], fp)
    else if TrueType(met[|met| - 1]).fp == fp then
      Some(met[|met| - 1])
    else
      None
  }

  /** The first one come across is of this program. */
  predicate FirstIsOwn(own: string, met: seq<Ttype>, fp: string) {
    First(met, fp).Some? && !Foreign(own, TrueType(First(met, fp).value))
  }

  lemma {:induction false} FirstSnoc(met: seq<Ttype>, t: Ttype, fp: string)
    ensures First(met + [t], fp) ==
            if First(met, fp).Some? then First(met, fp) else if TrueType(t).fp == fp then Some(t) else None
  {
    assert (met + [t])[..|met|] == met;
  }

  lemma {:induction false} WalkKeepsFirst(own: string, met: seq<Ttype>, t: Ttype, fp: string)
    ensures First(met, fp).Some? ==> First(Walk(own, met, t), fp) == First(met, fp)
    decreases Size(t), 0
  {
    if t.Typedef? {
      WalkKeepsFirst(own, met, t.target, fp);
    } else {
      FirstSnoc(met, t, fp);
      if First(met, t.fp).None? && !Foreign(own, t) {
        DepsSmaller(t);
        WalkAllKeepsFirst(own, met + [t], Deps(t), fp);
      }
    }
  }

  lemma {:induction false} WalkAllKeepsFirst(own: string, met: seq<Ttype>, ts: seq<Ttype>, fp: string)
    ensures First(met, fp).Some? ==> First(WalkAll(own, met, ts), fp) == First(met, fp)
    decreases Sizes(ts), 1
  {
    if ts != [] {
      WalkAllKeepsFirst(own, met, ts[..|ts| - 1], fp);
      WalkKeepsFirst(own, WalkAll(own, met, ts[..|ts| - 1]), ts[|ts| - 1], fp);
    }
  }

  // ----- which types are written -----

  /** The output so far and the types come across agree on a fingerprint: it is marked just if it
      was come across, and written, or on the stack, just if the first of it is of this program. */
  ghost predicate AgreeOn(own: string, out: Output, met: seq<Ttype>, defn: bool, busy: set<string>, fp: string) {
    && (Key(fp, defn) in out.reflected <==> First(met, fp).Some?)
    && (fp in busy ==> FirstIsOwn(own, met, fp))
    && (HasEntry(out.emitted, Key(fp, defn)) <==> FirstIsOwn(own, met, fp) && fp !in busy)
  }

  ghost predicate Agree(own: string, out: Output, met: seq<Ttype>, defn: bool, busy: set<string>) {
    forall fp: string :: AgreeOn(own, out, met, defn, busy, fp)
  }

  /** The stack once a type is marked: a type of another program is not followed. */
  ghost function Stacked(own: string, t: Ttype, busy: set<string>): set<string>
    requires !t.Typedef?
  {
    if Foreign(own, t) then busy else busy + {t.fp}
  }

  lemma {:induction false} AgreeMarkOn(own: string, out: Output, met: seq<Ttype>, t: Ttype, defn: bool,
                                       busy: set<string>, fp: string)
    requires !t.Typedef? && AgreeOn(own, out, met, defn, busy, fp) && First(met, t.fp).None?
    ensures AgreeOn(own, Seen(out, t, defn), met + [t], defn, Stacked(own, t, busy), fp)
  {
    FirstSnoc(met, t, fp);
  }

  lemma {:induction false} AgreeMark(own: string, out: Output, met: seq<Ttype>, t: Ttype, defn: bool,
                                     busy: set<string>)
    requires !t.Typedef? && Agree(own, out, met, defn, busy) && First(met, t.fp).None?
    ensures Agree(own, Seen(out, t, defn), met + [t], defn, Stacked(own, t, busy))
  {
    forall fp: string
      ensures AgreeOn(own, Seen(out, t, defn), met + [t], defn, Stacked(own, t, busy), fp)
    {
      AgreeMarkOn(own, out, met, t, defn, busy, fp);
    }
  }

  lemma {:induction false} AgreeAgain(own: string, out: Output, met: seq<Ttype>, t: Ttype, defn: bool,
                                      busy: set<string>)
    requires !t.Typedef? && Agree(own, out, met, defn, busy) && First(met, t.fp).Some?
    ensures Agree(own, out, met + [t], defn, busy)
  {
    forall fp: string
      ensures AgreeOn(own, out, met + [t], defn, busy, fp)
    {
      assert AgreeOn(own, out, met, defn, busy, fp);
      FirstSnoc(met, t, fp);
    }
  }

  lemma {:induction false} AgreeWrite(own: string, out: Output, met: seq<Ttype>, t: Ttype, defn: bool,
                                      busy: set<string>)
    requires !t.Typedef? && Agree(own, out, met, defn, busy + {t.fp}) && t.fp !in busy
    ensures Agree(own, Emit(out, t, defn), met, defn, busy)
  {
    forall fp: string
      ensures AgreeOn(own, Emit(out, t, defn), met, defn, busy, fp)
    {
      assert AgreeOn(own, out, met, defn, busy + {t.fp}, fp);
      EntryStays(out.emitted, Entry(t, defn), Key(fp, defn));
    }
  }

  lemma {:induction false} ReflectAgrees(own: string, out: Output, met: seq<Ttype>, t: Ttype, defn: bool,
                                         busy: set<string>)
    requires Agree(own, out, met, defn, busy)
    ensures Agree(own, Reflect(own, out, t, defn), Walk(own, met, t), defn, busy)
    decreases Size(t), 0
  {
    if t.Typedef? {
      ReflectAgrees(own, out, met, t.target, defn, busy);
    } else {
      assert AgreeOn(own, out, met, defn, busy, t.fp);
      if First(met, t.fp).Some? {
        AgreeAgain(own, out, met, t, defn, busy);
      } else {
        AgreeMark(own, out, met, t, defn, busy);
        if !Foreign(own, t) {
          DepsSmaller(t);
          var seen, met' := Seen(out, t, defn), met + [t];
          ReflectAllAgrees(own, seen, met', Deps(t), defn, busy + {t.fp});
          AgreeWrite(own, ReflectAll(own, seen, Deps(t), defn), WalkAll(own, met', Deps(t)), t, defn, busy);
        }
      }
    }
  }

  lemma {:induction false} ReflectAllAgrees(own: string, out: Output, met: seq<Ttype>, ts: seq<Ttype>, defn: bool,
                                           busy: set<string>)
    requires Agree(own, out, met, defn, busy)
    ensures Agree(own, ReflectAll(own, out, ts, defn), WalkAll(own, met, ts), defn, busy)
    decreases Sizes(ts), 1
  {
    if ts != [] {
      var front := ts[..|ts| - 1];
      ReflectAllAgrees(own, out, met, front, defn, busy);
      ReflectAgrees(own, ReflectAll(own, out, front, defn), WalkAll(own, met, front), ts[|ts| - 1], defn, busy);
    }
  }

  /** Declarations leave definitions alone, and the other way round. */
  ghost predicate SameFor(out: Output, out': Output, k: Key) {
    (k in out'.reflected <==> k in out.reflected) && (HasEntry(out'.emitted, k) <==> HasEntry(out.emitted, k))
  }

  lemma {:induction false} OthersApart(own: string, out: Output, t: Ttype, defn: bool, k: Key)
    requires k.defn != defn
    ensures SameFor(out, Reflect(own, out, t, defn), k)
    decreases Size(t), 0
  {
    if t.Typedef? {
      OthersApart(own, out, t.target, defn, k);
    } else if KeyOf(t, defn) !in out.reflected && !Foreign(own, t) {
      DepsSmaller(t);
      AllOthersApart(own, Seen(out, t, defn), Deps(t), defn, k);
      EntryStays(ReflectAll(own, Seen(out, t, defn), Deps(t), defn).emitted, Entry(t, defn), k);
    }
  }

  lemma {:induction false} AllOthersApart(own: string, out: Output, ts: seq<Ttype>, defn: bool, k: Key)
    requires k.defn != defn
    ensures SameFor(out, ReflectAll(own, out, ts, defn), k)
    decreases Sizes(ts), 1
  {
    if ts != [] {
      AllOthersApart(own, out, ts[..|ts| - 1], defn, k);
      OthersApart(own, ReflectAll(own, out, ts[..|ts| - 1], defn), ts[|ts| - 1], defn, k);
    }
  }

  lemma {:induction false} OthersAgree(own: string, out: Output, met: seq<Ttype>, t: Ttype, defn: bool)
    requires Agree(own, out, met, !defn, {})
    ensures Agree(own, Reflect(own, out, t, defn), met, !defn, {})
  {
    var other := !defn;
    forall fp: string
      ensures AgreeOn(own, Reflect(own, out, t, defn), met, other, {}, fp)
    {
      assert AgreeOn(own, out, met, other, {}, fp);
      OthersApart(own, out, t, defn, Key(fp, other));
    }
  }

  lemma {:induction false} ProgramAgrees(own: string, ts: seq<Ttype>, defn: bool)
    ensures Agree(own, Program(own, ts), WalkAll(own, [], ts), defn, {})
  {
    if ts != [] {
      var front, t := ts[..|ts| - 1], ts[|ts| - 1];
      var out, met := Program(own, front), WalkAll(own, [], front);
      ProgramAgrees(own, front, defn);
      if defn {
        OthersAgree(own, out, met, t, false);
        ReflectAgrees(own, Reflect(own, out, t, false), met, t, true, {});
      } else {
        ReflectAgrees(own, out, met, t, false, {});
        OthersAgree(own, Reflect(own, out, t, false), Walk(own, met, t), t, true);
      }
    }
  }

  /** A fingerprint is written, once declared and once defined, if and only if the first type of
      this fingerprint that the search comes across is of the program itself. */
  lemma WrittenExactly(own: string, ts: seq<Ttype>, fp: string, defn: bool)
    ensures HasEntry(Program(own, ts).emitted, Key(fp, defn)) <==> FirstIsOwn(own, WalkAll(own, [], ts), fp)
  {
    ProgramAgrees(own, ts, defn);
    assert AgreeOn(own, Program(own, ts), WalkAll(own, [], ts), defn, {}, fp);
  }

  // ----- the order they are written in -----

  lemma {:induction false} ProgramKeeps(own: string, ts: seq<Ttype>, rank: string -> nat)
    requires GradedAll(rank, ts)
    ensures Inv(own, Program(own, ts), {})
  {
    if ts != [] {
      var out, t := Program(own, ts[..|ts| - 1]), ts[|ts| - 1];
      ProgramKeeps(own, ts[..|ts| - 1], rank);
      ReflectKeeps(own, out, t, false, {}, rank);
      ReflectKeeps(own, Reflect(own, out, t, false), t, true, {}, rank);
    }
  }

  lemma PrefixEntry(es: seq<Entry>, i: nat, k: Key)
    requires i <= |es| && HasEntry(es[..i], k)
    ensures HasEntry(es, k)
  {
  }

  /** Each fingerprint is written once at most; and of the types of this program that a written
      type points to, just those are written before it whose fingerprint the search meets first
      in a type of this program. */
  lemma WrittenInOrder(own: string, ts: seq<Ttype>, rank: string -> nat)
    requires GradedAll(rank, ts)
    ensures NoRepeats(Program(own, ts).emitted)
    ensures var es := Program(own, ts).emitted;
      forall i, d :: 0 <= i < |es| && d in Deps(es[i].ty) && !Foreign(own, TrueType(d)) ==>
        (HasEntry(es[..i], KeyOf(d, es[i].defn)) <==> FirstIsOwn(own, WalkAll(own, [], ts), TrueType(d).fp))
  {
    var out := Program(own, ts);
    ProgramKeeps(own, ts, rank);
    forall i, d | 0 <= i < |out.emitted| && d in Deps(out.emitted[i].ty) && !Foreign(own, TrueType(d))
      ensures HasEntry(out.emitted[..i], KeyOf(d, out.emitted[i].defn))
         <==> FirstIsOwn(own, WalkAll(own, [], ts), TrueType(d).fp)
    {
      assert DepsBefore(own, out, {}, i);
      WrittenExactly(own, ts, TrueType(d).fp, out.emitted[i].defn);
      if HasEntry(out.emitted[..i], KeyOf(d, out.emitted[i].defn)) {
        PrefixEntry(out.emitted, i, KeyOf(d, out.emitted[i].defn));
      }
    }
  }

  lemma WalkTwo(own: string, met: seq<Ttype>, t: Ttype, u: Ttype)
    ensures WalkAll(own, met, [t, u]) == Walk(own, Walk(own, met, t), u)
  {
    assert [t, u][..1] == [t] && [t][..0] == [];
    assert WalkAll(own, met, [t]) == Walk(own, met, t);
  }

  /** If a member of another program has the fingerprint, it is the first. */
  lemma MemberFirst(own: string, theirs: Ttype, holder: Ttype)
    requires holder.Struct? && holder.program == own && holder.members == [theirs]
    requires theirs.Struct? && Foreign(own, theirs) && holder.fp != theirs.fp
    ensures First(Walk(own, [], holder), theirs.fp) == Some(theirs)
  {
    assert Deps(holder) == [theirs, VOID];
    assert [] + [holder] == [holder] && [holder][..0] == [];
    WalkTwo(own, [holder], theirs, VOID);
    FirstSnoc([holder], theirs, theirs.fp);
    WalkKeepsFirst(own, Walk(own, [holder], theirs), VOID, theirs.fp);
  }

  lemma AskedFirst(own: string, ours: Ttype)
    requires !ours.Typedef?
    ensures First(Walk(own, [], ours), ours.fp) == Some(ours)
  {
    FirstSnoc([], ours, ours.fp);
    assert [] + [ours] == [ours];
    WalkAllKeepsFirst(own, [ours], Deps(ours), ours.fp);
  }

  /** With a twin it fails. A struct of an included program, met as a member of a struct of this
      one, takes the fingerprint; a struct of this program with the same, if it comes later, is
      then never written. */
  lemma TwinIsLost(theirs: Ttype, ours: Ttype, holder: Ttype)
    requires theirs == Struct("{1:i32;}", "base", [BaseType("i32")])
    requires ours == Struct("{1:i32;}", "mine", [BaseType("i32")])
    requires holder == Struct("{1:{1:i32;};}", "mine", [theirs])
    ensures !HasEntry(Program("mine", [holder, ours]).emitted, KeyOf(ours, true))
    ensures HasEntry(Program("mine", [ours, holder]).emitted, KeyOf(ours, true))
  {
    assert |holder.fp| != |theirs.fp|;
    WrittenExactly("mine", [holder, ours], ours.fp, true);
    WrittenExactly("mine", [ours, holder], ours.fp, true);
    WalkTwo("mine", [], holder, ours);
    WalkTwo("mine", [], ours, holder);
    MemberFirst("mine", theirs, holder);
    AskedFirst("mine", ours);
    WalkKeepsFirst("mine", Walk("mine", [], holder), ours, ours.fp);
    WalkKeepsFirst("mine", Walk("mine", [], ours), holder, ours.fp);
  }

  /** The generator's own form: one set for the whole program and a stream. */
  class Generator {
    const program: string
    var reflected: set<Key>
    var emitted: seq<Entry>

    constructor (program: string)
      ensures this.program == program && Written() == NOTHING
    {
      this.program := program;
      reflected, emitted := {}, [];
    }

    function Written(): Output
      reads this
    {
      Output(reflected, emitted)
    }

    method GenerateProgram(ts: seq<Ttype>)
      requires Written() == NOTHING
      modifies this
      ensures Written() == Program(program, ts)
    {
      var i := 0;
      while i < |ts|
        invariant i <= |ts| && Written() == Program(program, ts[..i])
      {
        assert ts[..i + 1][..i] == ts[..i];
        GenerateLocalReflection(ts[i], false);
        GenerateLocalReflection(ts[i], true);
        i := i + 1;
      }
      assert ts[..i] == ts;
    }

    method GenerateLocalReflection(t: Ttype, defn: bool)
      modifies this
      ensures Written() == Reflect(program, old(Written()), t, defn)
      decreases Size(t), 0
    {
      var ttype := t;
      while ttype.Typedef?
        invariant Size(ttype) <= Size(t)
        invariant Reflect(program, Written(), t, defn) == Reflect(program, Written(), ttype, defn)
        decreases ttype
      {
        ttype := ttype.target;
      }
      var key := KeyOf(ttype, defn);
      if key !in reflected {
        reflected := reflected + {key};
        if !Foreign(program, ttype) {
          DepsSmaller(ttype);
          GenerateDependencies(Deps(ttype), defn);
          emitted := emitted + [Entry(ttype, defn)];
        }
      }
    }

    method GenerateDependencies(ts: seq<Ttype>, defn: bool)
      modifies this
      ensures Written() == ReflectAll(program, old(Written()), ts, defn)
      decreases Sizes(ts), 1
    {
      var i := 0;
      while i < |ts|
        invariant i <= |ts| && Written() == ReflectAll(program, old(Written()), ts[..i], defn)
      {
        SizesPart(ts, i);
        assert ts[..i + 1][..i] == ts[..i];
        GenerateLocalReflection(ts[i], defn);
        i := i + 1;
      }
      assert ts[..i] == ts;
    }
  }

  lemma {:induction false} SizesPart(ts: seq<Ttype>, i: nat)
    requires i < |ts|
    ensures Size(ts[i]) < Sizes(ts)
  {
    if i < |ts| - 1 {
      SizesPart(ts[..|ts| - 1], i);
    }
  }
}
