/** Picking one of n members in turn. */
module RoundRobins {

  /** The member that is k picks further on from index. */
  function Slot(index: nat, k: nat, n: nat): (slot: nat)
    requires n > 0
    ensures slot < n
  {
    (index + k) % n
  }

  lemma Multiples(d: int, n: nat)
    ensures d > 0 ==> d * n >= n
    ensures d < 0 ==> d * n + n <= 0
  {
  }

  lemma {:induction false} Quotient(q: nat, r: nat, n: nat)
    requires r < n
    ensures (q * n + r) % n == r
  {
    var x := q * n + r;
    var d := x / n - q;
    assert d * n == r - x % n;
    Multiples(d, n);
  }

  /** The remainder goes up by k and wraps around once at most. */
  lemma {:induction false} SlotValue(index: nat, k: nat, n: nat)
    requires k <= n && n > 0
    ensures Slot(index, k, n) == index % n + k - if index % n + k < n then 0 else n
  {
    var q, r := index / n, index % n;
    if r + k < n {
      assert index + k == q * n + (r + k);
      Quotient(q, r + k, n);
    } else {
      assert index + k == (q + 1) * n + (r + k - n);
      Quotient(q + 1, r + k - n, n);
    }
  }

  /** Each slot comes up within n picks, */
  lemma {:induction false} SlotComesUp(index: nat, slot: nat, n: nat) returns (k: nat)
    requires slot < n
    ensures k < n && Slot(index, k, n) == slot
  {
    k := slot - index % n + if slot >= index % n then 0 else n;
    SlotValue(index, k, n);
  }

  /** and none twice. */
  lemma {:induction false} SlotsDiffer(index: nat, j: nat, k: nat, n: nat)
    requires j < k < n
    ensures Slot(index, j, n) != Slot(index, k, n)
  {
    SlotValue(index, j, n);
    SlotValue(index, k, n);
  }

  lemma ThisSlot(index: nat, n: nat)
    requires n > 0
    ensures Slot(index, 0, n) == index % n && Slot(index + 1, 0, n) == Slot(index, 1, n)
  {
  }

  lemma {:induction false} NextSlot(index: nat, k: nat, n: nat)
    requires n > 0
    ensures Slot(Slot(index, k, n), 1, n) == Slot(index, k + 1, n)
  {
    SlotValue(index + k, 1, n);
    SlotValue(Slot(index, k, n), 1, n);
    Quotient(0, Slot(index, k, n), n);
  }

  /** The picks so far came in turn from slot 0 on. */
  ghost predicate InTurn(picks: seq<nat>, n: nat)
    requires n > 0
  {
    forall i :: 0 <= i < |picks| ==> picks[i] == Slot(0, i, n)
  }

  /** Any n consecutive picks use each of the n members exactly once. */
  lemma {:induction false} EachOnce(picks: seq<nat>, n: nat, from: nat, member: nat) returns (i: nat)
    requires n > 0 && InTurn(picks, n) && from + n <= |picks| && member < n
    ensures from <= i < from + n && picks[i] == member
    ensures forall j :: from <= j < from + n && j != i ==> picks[j] != member
  {
    var k := SlotComesUp(from, member, n);
    i := from + k;
    forall j | from <= j < from + n && j != i
      ensures picks[j] != member
    {
      if j < i {
        SlotsDiffer(from, j - from, k, n);
      } else {
        SlotsDiffer(from, k, j - from, n);
      }
    }
  }

  lemma {:induction false} NextTurn(turns: nat, n: nat)
    requires n > 0
    ensures Slot(0, turns + 1, n) == if Slot(0, turns, n) + 1 == n then 0 else Slot(0, turns, n) + 1
  {
    SlotValue(turns, 0, n);
    SlotValue(turns, 1, n);
  }

  /** When each index follows the one before, the i-th slot is i further on. */
  lemma {:induction false} TurnsFollow(indices: seq<nat>, n: nat, i: nat)
    requires n > 0 && i < |indices|
    requires forall j :: 0 < j < |indices| ==> indices[j] == Slot(indices[j - 1], 0, n) + 1
    ensures Slot(indices[i], 0, n) == Slot(indices[0], i, n)
  {
    if i > 0 {
      TurnsFollow(indices, n, i - 1);
      NextSlot(indices[0], i - 1, n);
    }
  }

  /** The io services of one server, numbered (async/io_service_pool.cpp). */
  class IoServicePool {
    const size: nat
    var nextIoService: nat
    ghost var picks: seq<nat>

    ghost predicate Valid()
      reads this
    {
      && size > 0
      && nextIoService == Slot(0, |picks|, size)
      && InTurn(picks, size)
    }

    constructor (poolSize: nat)
      ensures Valid() && picks == [] && size == if poolSize == 0 then 1 else poolSize
    {
      size := if poolSize == 0 then 1 else poolSize;
      nextIoService, picks := 0, [];
    }

    /** run and stop both start over. */
    method Restart()
      requires Valid()
      modifies this
      ensures Valid() && picks == []
    {
      nextIoService, picks := 0, [];
    }

    method GetIoService() returns (index: nat)
      requires Valid()
      modifies this
      ensures Valid() && index < size && picks == old(picks) + [index]
    {
      index := nextIoService;
      NextTurn(|picks|, size);
      picks := picks + [index];
      nextIoService := nextIoService + 1;
      if nextIoService == size {
        nextIoService := 0;
      }
    }
  }
}
