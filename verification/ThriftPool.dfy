/** The pools of several servers (sync/thrift_pool.h). */
module ThriftPools {
  import opened ThriftConnections
  import opened ThriftConnectionPools
  import opened RoundRobins

  type Pool = ThriftConnectionPool

  // ----- requests and addresses -----

  /** The addresses of some pools, with multiplicity. */
  ghost function Addresses(pools: seq<Pool>): multiset<Address> {
    if pools == [] then multiset{} else Addresses(pools[..|pools| - 1]) + multiset{pools[|pools| - 1].address}
  }

  /** The requested addresses not yet marked as found. */
  ghost function Wanted(requests: seq<Address>, found: seq<bool>): multiset<Address>
    requires |requests| == |found|
  {
    if requests == [] then
      multiset{}
    else
      var k := |requests| - 1;
      Wanted(requests[..k], found[..k]) + if found[k] then multiset{} else multiset{requests[k]}
  }

  lemma AddressesSnoc(pools: seq<Pool>, p: Pool)
    ensures Addresses(pools + [p]) == Addresses(pools) + multiset{p.address}
  {
  }

  lemma {:induction false} AddressesAppend(a: seq<Pool>, b: seq<Pool>)
    ensures Addresses(a + b) == Addresses(a) + Addresses(b)
  {
    if b == [] {
      assert a + b == a;
    } else {
      var k := |b| - 1;
      assert a + b == a + b[..k] + [b[k]];
      AddressesSnoc(a + b[..k], b[k]);
      AddressesAppend(a, b[..k]);
    }
  }

  lemma {:induction false} WantedNone(requests: seq<Address>, found: seq<bool>)
    requires |requests| == |found| && forall j :: 0 <= j < |found| ==> !found[j]
    ensures Wanted(requests, found) == multiset(requests)
  {
    if requests != [] {
      var k := |requests| - 1;
      WantedNone(requests[..k], found[..k]);
      assert requests == requests[..k] + [requests[k]];
    }
  }

  lemma {:induction false} WantedSnoc(requests: seq<Address>, found: seq<bool>, j: nat)
    requires |requests| == |found| && j < |found|
    ensures Wanted(requests[..j + 1], found[..j + 1]) ==
            Wanted(requests[..j], found[..j]) + if found[j] then multiset{} else multiset{requests[j]}
  {
    assert requests[..j + 1][..j] == requests[..j] && found[..j + 1][..j] == found[..j];
  }

  /** An address is wanted exactly if a request for it is unmarked. */
  lemma {:induction false} WantedIn(requests: seq<Address>, found: seq<bool>, a: Address)
    requires |requests| == |found|
    ensures a in Wanted(requests, found) <==> exists j :: 0 <= j < |requests| && requests[j] == a && !found[j]
  {
    if requests != [] {
      var k := |requests| - 1;
      WantedIn(requests[..k], found[..k], a);
      if j :| 0 <= j < |requests| && requests[j] == a && !found[j] && j < k {
        assert requests[..k][j] == a && !found[..k][j];
      }
    }
  }

  lemma {:induction false} WantedMark(requests: seq<Address>, found: seq<bool>, j: nat)
    requires |requests| == |found| && j < |found| && !found[j]
    ensures Wanted(requests, found) == Wanted(requests, found[j := true]) + multiset{requests[j]}
  {
    var k := |requests| - 1;
    if j == k {
      assert found[j := true][..k] == found[..k];
    } else {
      WantedMark(requests[..k], found[..k], j);
      assert found[j := true][..k] == found[..k][j := true];
    }
  }

  /** The search of both update loops: marks the first unmarked request for this address. */
  method Claim(address: Address, requests: seq<Address>, found: seq<bool>) returns (found': seq<bool>, hit: bool)
    requires |requests| == |found|
    ensures |found'| == |found| && hit == (address in Wanted(requests, found))
    ensures Wanted(requests, found') == Wanted(requests, found) - multiset{address}
  {
    found', hit := found, false;
    var j := 0;
    while j < |requests| && !hit
      invariant 0 <= j <= |requests| && |found'| == |found|
      invariant !hit ==> found' == found && forall i :: 0 <= i < j ==> requests[i] != address || found[i]
      invariant hit ==> address in Wanted(requests, found)
      invariant hit ==> Wanted(requests, found) == Wanted(requests, found') + multiset{address}
      decreases |requests| - j, !hit
    {
      if requests[j] == address && !found[j] {
        WantedIn(requests, found, address);
        WantedMark(requests, found, j);
        found', hit := found[j := true], true;
      }
      j := j + 1;
    }
    WantedIn(requests, found, address);
  }

  lemma {:induction false} AddressIn(pools: seq<Pool>, a: Address)
    ensures a in Addresses(pools) <==> exists p <- pools :: p.address == a
  {
    if pools != [] {
      var k := |pools| - 1;
      AddressIn(pools[..k], a);
      assert pools == pools[..k] + [pools[k]];
    }
  }

  lemma HitCounts<T>(w: multiset<T>, w': multiset<T>, d: multiset<T>, h: multiset<T>, m: multiset<T>, a: T)
    requires w' == w - d && w == h + w' && m !! w' && a in w'
    ensures w' - multiset{a} == w - (d + multiset{a})
    ensures w == h + multiset{a} + (w' - multiset{a})
    ensures m !! (w' - multiset{a})
  {
  }

  lemma MissCounts<T>(w: multiset<T>, w': multiset<T>, d: multiset<T>, m: multiset<T>, a: T)
    requires w' == w - d && m !! w' && a !in w'
    ensures w' - multiset{a} == w' == w - (d + multiset{a})
    ensures (m + multiset{a}) !! w'
  {
  }

  lemma HitParts<T>(d: seq<T>, h: seq<T>, m: seq<T>, p: T)
    requires multiset(d) == multiset(h) + multiset(m)
    ensures multiset(d + [p]) == multiset(h + [p]) + multiset(m)
    ensures multiset(d + [p]) == multiset(h) + multiset(m + [p])
  {
  }

  /** What went through an update loop: hits for the wanted addresses, misses for which no
      request is left. */
  ghost predicate Sifted(done: seq<Pool>, hits: seq<Pool>, misses: seq<Pool>,
                         wanted: multiset<Address>, wanted': multiset<Address>) {
    && multiset(done) == multiset(hits) + multiset(misses)
    && Addresses(done) == Addresses(hits) + Addresses(misses)
    && wanted' == wanted - Addresses(done)
    && wanted == Addresses(hits) + wanted'
    && Addresses(misses) !! wanted'
  }

  lemma SiftFirst(wanted: multiset<Address>)
    ensures Sifted([], [], [], wanted, wanted)
  {
  }

  lemma {:induction false} SiftHit(done: seq<Pool>, hits: seq<Pool>, misses: seq<Pool>,
                                   wanted: multiset<Address>, wanted': multiset<Address>, p: Pool)
    requires Sifted(done, hits, misses, wanted, wanted') && p.address in wanted'
    ensures Sifted(done + [p], hits + [p], misses, wanted, wanted' - multiset{p.address})
  {
    hide Addresses;
    AddressesSnoc(done, p);
    AddressesSnoc(hits, p);
    HitParts(done, hits, misses, p);
    HitCounts(wanted, wanted', Addresses(done), Addresses(hits), Addresses(misses), p.address);
  }

  lemma {:induction false} SiftMiss(done: seq<Pool>, hits: seq<Pool>, misses: seq<Pool>,
                                    wanted: multiset<Address>, wanted': multiset<Address>, p: Pool)
    requires Sifted(done, hits, misses, wanted, wanted') && p.address !in wanted'
    ensures Sifted(done + [p], hits, misses + [p], wanted, wanted' - multiset{p.address})
  {
    hide Addresses;
    AddressesSnoc(done, p);
    AddressesSnoc(misses, p);
    HitParts(done, hits, misses, p);
    MissCounts(wanted, wanted', Addresses(done), Addresses(misses), p.address);
  }

  /** The misses are what was there beyond the wanted addresses. */
  lemma SiftedMisses(done: seq<Pool>, hits: seq<Pool>, misses: seq<Pool>,
                     wanted: multiset<Address>, wanted': multiset<Address>)
    requires Sifted(done, hits, misses, wanted, wanted')
    ensures Addresses(misses) == Addresses(done) - wanted
    ensures forall p <- misses :: p in done
  {
    forall p | p in misses
      ensures p in done
    {
      assert p in multiset(misses) && p in multiset(done);
    }
    Beyond(Addresses(done), Addresses(hits), Addresses(misses), wanted, wanted');
  }

  lemma Beyond<T>(d: multiset<T>, h: multiset<T>, m: multiset<T>, w: multiset<T>, w': multiset<T>)
    requires d == h + m && w' == w - d && w == h + w'
    ensures m == d - w
  {
  }

  /** The i-th is erased. */
  function Without<T>(s: seq<T>, i: nat): (r: seq<T>)
    requires i < |s|
    ensures |r| == |s| - 1 && r[..i] == s[..i] && r[i..] == s[i + 1..]
    ensures forall x :: x in s && x != s[i] ==> x in r
  {
    s[..i] + s[i + 1..]
  }

  lemma Advance<T>(all: seq<T>, done: seq<T>, s: seq<T>, i: nat)
    requires i < |s| && all == done + s[i..]
    ensures all == (done + [s[i]]) + s[i + 1..]
    ensures s[..i] + [s[i]] == s[..i + 1]
  {
    assert s[i..] == [s[i]] + s[i + 1..];
  }

  lemma Regroup<T>(a: seq<T>, b: seq<T>, x: T)
    ensures a + b + [x] == a + (b + [x])
  {
  }

  // ----- what the pools hold together -----

  ghost function Conns(ps: set<Pool>): set<ThriftConnection>
    reads ps
  {
    set p, c | p in ps && c in p.Connections() :: c
  }

  /** Every pool is in order and no connection belongs to two. */
  ghost predicate Sound(ps: set<Pool>)
    reads ps, Conns(ps)
  {
    && (forall p :: p in ps ==> p.Valid())
    && (forall p, q :: p in ps && q in ps && p != q ==> p.Connections() !! q.Connections())
  }

  /** The map knows exactly the allocated connections, each with the pool it came from. */
  ghost predicate Mapped(m: map<ThriftConnection, Pool>, ps: set<Pool>)
    reads ps
  {
    && (forall c :: c in m ==> m[c] in ps && c in m[c].allocatedConns)
    && (forall p, c :: p in ps && c in p.allocatedConns ==> c in m && m[c] == p)
  }

  ghost function AsSet(ps: seq<Pool>): set<Pool> {
    set p | p in ps
  }

  ghost function All(pools: seq<Pool>, removeQueue: seq<Pool>): set<Pool> {
    AsSet(pools) + AsSet(removeQueue)
  }

  /** No pool is listed twice. */
  ghost predicate Distinct(pools: seq<Pool>, removeQueue: seq<Pool>) {
    forall p :: p in All(pools, removeQueue) ==> (multiset(pools) + multiset(removeQueue))[p] == 1
  }

  lemma {:induction false} ConnsOf(ps: set<Pool>, p: Pool)
    requires p in ps
    ensures p.freeConns <= Conns(ps) && p.closedConns <= Conns(ps) && p.allocatedConns <= Conns(ps)
  {
    assert p.Connections() <= Conns(ps);
  }

  lemma {:induction false} SoundUnion(a: set<Pool>, b: set<Pool>)
    requires Sound(a) && Sound(b) && Conns(a) !! Conns(b)
    ensures Sound(a + b)
  {
    forall p, q | p in a + b && q in a + b && p != q
      ensures p.Connections() !! q.Connections()
    {
      assert p in a ==> p.Connections() <= Conns(a);
      assert p in b ==> p.Connections() <= Conns(b);
      assert q in a ==> q.Connections() <= Conns(a);
      assert q in b ==> q.Connections() <= Conns(b);
    }
  }

  lemma OnRecord(m: map<ThriftConnection, Pool>, ps: set<Pool>, c: ThriftConnection)
    requires Mapped(m, ps) && c in m
    ensures m[c] in ps && c in m[c].allocatedConns
  {
  }

  /** The pools with nothing handed out. */
  ghost function Idle(ps: set<Pool>): set<Pool>
    reads ps
  {
    set p | p in ps && p.allocatedConns == {}
  }

  /** The pools outside a set, in order. */
  ghost function Outside(pools: seq<Pool>, idle: set<Pool>): seq<Pool> {
    if pools == [] then
      []
    else
      var k := |pools| - 1;
      Outside(pools[..k], idle) + if pools[k] in idle then [] else [pools[k]]
  }

  lemma {:induction false} OutsideWithin(pools: seq<Pool>, idle: set<Pool>)
    ensures forall p <- Outside(pools, idle) :: p in pools
  {
    if pools != [] {
      var k := |pools| - 1;
      OutsideWithin(pools[..k], idle);
      assert pools == pools[..k] + [pools[k]];
    }
  }

  /** The sweep has looked at part of the queue and is at the i-th pool of what is left. */
  ghost predicate Swept(all: seq<Pool>, done: seq<Pool>, queue: seq<Pool>, i: nat, idle: set<Pool>) {
    i <= |queue| && all == done + queue[i..] && queue[..i] == Outside(done, idle)
  }

  lemma SweptFirst(all: seq<Pool>, idle: set<Pool>)
    ensures Swept(all, [], all, 0, idle)
  {
  }

  lemma SweptLast(all: seq<Pool>, done: seq<Pool>, queue: seq<Pool>, idle: set<Pool>)
    requires Swept(all, done, queue, |queue|, idle)
    ensures queue == Outside(all, idle) && forall p <- queue :: p in all
  {
    assert done == all && queue[..|queue|] == queue;
    OutsideWithin(all, idle);
  }

  lemma SweptNext(all: seq<Pool>, done: seq<Pool>, queue: seq<Pool>, i: nat, idle: set<Pool>)
    requires i < |queue| && Swept(all, done, queue, i, idle)
    ensures queue[i] in all
    ensures if queue[i] in idle then Swept(all, done + [queue[i]], Without(queue, i), i, idle)
            else Swept(all, done + [queue[i]], queue, i + 1, idle)
  {
  }

  lemma {:induction false} WithoutParts(pools: seq<Pool>, queue: seq<Pool>, i: nat)
    requires i < |queue| && Distinct(pools, queue)
    ensures Distinct(pools, Without(queue, i)) && queue[i] !in All(pools, Without(queue, i))
    ensures All(pools, queue) == All(pools, Without(queue, i)) + {queue[i]}
  {
    var rest := Without(queue, i);
    assert queue == queue[..i] + [queue[i]] + queue[i + 1..];
    assert multiset(queue) == multiset(rest) + multiset{queue[i]};
    forall p | p in pools || p in queue || p in rest
      ensures p in multiset(pools) + multiset(queue) <==> p in pools || p in queue
      ensures p in multiset(pools) + multiset(rest) <==> p in pools || p in rest
    {
    }
  }

  /** What still holds together when a pool with nothing handed out is left away. */
  lemma {:induction false} WithoutIdle(m: map<ThriftConnection, Pool>, ps: set<Pool>, p: Pool)
    requires Sound(ps + {p}) && Mapped(m, ps + {p}) && p.allocatedConns == {} && p !in ps
    ensures Sound(ps) && Mapped(m, ps) && p !in m.Values
  {
  }

  /** Pools made beside the pools ps: in order, apart, and with nothing handed out. */
  ghost predicate Newcomers(created: seq<Pool>, ps: set<Pool>)
    reads AsSet(created), Conns(AsSet(created)), ps
  {
    && Sound(AsSet(created))
    && AsSet(created) !! ps && Conns(AsSet(created)) !! Conns(ps)
    && (forall p :: p in AsSet(created) ==> p.allocatedConns == {} && multiset(created)[p] == 1)
  }

  lemma {:induction false} JoinNewcomers(m: map<ThriftConnection, Pool>, ps: set<Pool>, created: seq<Pool>)
    requires Sound(ps) && Mapped(m, ps) && Newcomers(created, ps)
    ensures Sound(ps + AsSet(created)) && Mapped(m, ps + AsSet(created))
  {
    SoundUnion(ps, AsSet(created));
  }

  lemma NoNewcomers(ps: set<Pool>)
    ensures Newcomers([], ps) && Addresses([]) == multiset{} == Wanted([], [])
  {
  }

  lemma NewcomersSnoc(created: seq<Pool>, ps: set<Pool>, p: Pool)
    requires Newcomers(created, ps) && p.Valid() && p.allocatedConns == {}
    requires p !in created && p !in ps && p.Connections() !! Conns(AsSet(created)) + Conns(ps)
    ensures Newcomers(created + [p], ps)
  {
  }

  /** The same pools and the new ones. */
  lemma {:induction false} AllWith(pools0: seq<Pool>, queue0: seq<Pool>, pools: seq<Pool>, queue: seq<Pool>,
                                   created: seq<Pool>)
    requires multiset(pools) + multiset(queue) == multiset(pools0) + multiset(queue0) + multiset(created)
    ensures All(pools, queue) == All(pools0, queue0) + AsSet(created)
  {
    forall p | p in pools || p in queue || p in pools0 || p in queue0 || p in created
      ensures p in multiset(pools) + multiset(queue) <==> p in pools || p in queue
      ensures p in multiset(pools0) + multiset(queue0) + multiset(created)
         <==> p in pools0 || p in queue0 || p in created
    {
    }
  }

  lemma DistinctWith(pools0: seq<Pool>, queue0: seq<Pool>, pools: seq<Pool>, queue: seq<Pool>, created: seq<Pool>)
    requires multiset(pools) + multiset(queue) == multiset(pools0) + multiset(queue0) + multiset(created)
    requires Distinct(pools0, queue0) && Newcomers(created, All(pools0, queue0))
    ensures Distinct(pools, queue)
  {
  }

  /** The three loops together: what was found is what was there of the requests. */
  lemma {:induction false} SiftTwice(requests: multiset<Address>, pools0: seq<Pool>, queue0: seq<Pool>,
                                     pools1: seq<Pool>, moved: seq<Pool>, wanted1: multiset<Address>,
                                     back: seq<Pool>, queue2: seq<Pool>, wanted2: multiset<Address>)
    requires Sifted(pools0, pools1, moved, requests, wanted1)
    requires Sifted(queue0 + moved, back, queue2, wanted1, wanted2)
    ensures wanted2 == requests - Addresses(pools0) - Addresses(queue0)
    ensures Addresses(pools1 + back) + wanted2 == requests
    ensures multiset(pools1 + back) + multiset(queue2) == multiset(pools0) + multiset(queue0)
  {
    AddressesAppend(queue0, moved);
    AddressesAppend(pools1, back);
    GoneAlready(wanted1, Addresses(queue0), Addresses(moved));
    MovedParts(pools0, pools1, moved, queue0, back, queue2);
  }

  lemma MovedParts<T>(pools0: seq<T>, pools1: seq<T>, moved: seq<T>, queue0: seq<T>, back: seq<T>, queue2: seq<T>)
    requires multiset(pools0) == multiset(pools1) + multiset(moved)
    requires multiset(queue0 + moved) == multiset(back) + multiset(queue2)
    ensures multiset(pools1 + back) + multiset(queue2) == multiset(pools0) + multiset(queue0)
  {
    assert multiset(queue0 + moved) == multiset(queue0) + multiset(moved);
    assert multiset(pools1 + back) == multiset(pools1) + multiset(back);
    MovedCounts(multiset(pools1), multiset(moved), multiset(queue0), multiset(back), multiset(queue2));
  }

  lemma MovedCounts<T>(p: multiset<T>, m: multiset<T>, q: multiset<T>, b: multiset<T>, r: multiset<T>)
    requires q + m == b + r
    ensures p + b + r == p + m + q
  {
    assert p + b + r == p + (b + r);
    assert p + m + q == p + (q + m);
  }

  lemma GoneAlready<T>(w: multiset<T>, q: multiset<T>, m: multiset<T>)
    requires m !! w
    ensures w - (q + m) == w - q
  {
  }

  /** hosts and ports go in pairs. */
  function Requests(hosts: seq<string>, ports: seq<int>): seq<Address>
    requires |hosts| == |ports|
  {
    seq(|hosts|, i requires 0 <= i < |hosts| => (hosts[i], ports[i]))
  }

  /** What update_servers is for. */
  ghost predicate Reconciled(requests: seq<Address>, pools0: seq<Pool>, queue0: seq<Pool>,
                             pools: seq<Pool>, queue: seq<Pool>, created: seq<Pool>) {
    && Addresses(pools) == multiset(requests)
    && Addresses(created) == multiset(requests) - Addresses(pools0) - Addresses(queue0)
    && multiset(pools) + multiset(queue) == multiset(pools0) + multiset(queue0) + multiset(created)
  }

  /** One a fewer, if there was one. */
  ghost function Less<T>(m: multiset<T>, a: T): multiset<T> {
    m - multiset{a}
  }

  lemma LessAbsent<T>(m: multiset<T>, a: T)
    ensures a !in m ==> Less(m, a) == m
  {
  }

  /** What the first two loops leave and the third adds. */
  lemma AllMet(requests: seq<Address>, pools0: seq<Pool>, queue0: seq<Pool>, kept: seq<Pool>, back: seq<Pool>,
               created: seq<Pool>, queue: seq<Pool>)
    requires Addresses(created) == multiset(requests) - Addresses(pools0) - Addresses(queue0)
    requires Addresses(kept + back) + Addresses(created) == multiset(requests)
    requires multiset(kept + back) + multiset(queue) == multiset(pools0) + multiset(queue0)
    ensures kept + back + created == kept + (back + created)
    ensures Reconciled(requests, pools0, queue0, kept + back + created, queue, created)
    ensures Addresses(back + created) == Addresses(back) + Addresses(created)
  {
    hide Addresses;
    AddressesAppend(kept + back, created);
    AddressesAppend(back, created);
    assert kept + back + created == kept + (back + created);
    MetParts(multiset(kept + back), multiset(queue), multiset(pools0), multiset(queue0), multiset(created));
    assert multiset(kept + back + created) == multiset(kept + back) + multiset(created);
  }

  lemma MetParts<T>(p: multiset<T>, q: multiset<T>, p0: multiset<T>, q0: multiset<T>, c: multiset<T>)
    requires p + q == p0 + q0
    ensures p + c + q == p0 + q0 + c
  {
  }

  /** Moving a pool to the queue changes nothing for the two lists together. */
  lemma {:induction false} MoveParts(pools: seq<Pool>, queue: seq<Pool>, i: nat)
    requires i < |pools|
    ensures multiset(Without(pools, i)) + multiset(queue + [pools[i]]) == multiset(pools) + multiset(queue)
    ensures Addresses(Without(pools, i)) == Less(Addresses(pools), pools[i].address)
  {
    assert pools == pools[..i] + [pools[i]] + pools[i + 1..];
    AddressesAppend(pools[..i] + [pools[i]], pools[i + 1..]);
    AddressesSnoc(pools[..i], pools[i]);
    AddressesAppend(pools[..i], pools[i + 1..]);
  }

  /** The old pools and the newcomers hold together, however they are listed now. */
  lemma {:induction false} JoinAll(m: map<ThriftConnection, Pool>, pools0: seq<Pool>, queue0: seq<Pool>,
                                   pools: seq<Pool>, queue: seq<Pool>, created: seq<Pool>)
    requires multiset(pools) + multiset(queue) == multiset(pools0) + multiset(queue0) + multiset(created)
    requires Newcomers(created, All(pools0, queue0)) && Distinct(pools0, queue0)
    requires Sound(All(pools0, queue0)) && Mapped(m, All(pools0, queue0))
    ensures Distinct(pools, queue) && Sound(All(pools, queue)) && Mapped(m, All(pools, queue))
    ensures All(pools, queue) == All(pools0, queue0) + AsSet(created)
  {
    AllWith(pools0, queue0, pools, queue, created);
    DistinctWith(pools0, queue0, pools, queue, created);
    JoinNewcomers(m, All(pools0, queue0), created);
  }

  ghost predicate Added(wanted: bool, address: Address, pools0: seq<Pool>, pools: seq<Pool>) {
    if wanted then
      pools0 < pools && Addresses(pools) == Addresses(pools0) + multiset{address}
    else
      pools == pools0
  }

  /** The i-th pool went to the end of the queue, if there is an i-th. */
  ghost predicate Removed(i: nat, pools0: seq<Pool>, queue0: seq<Pool>, pools: seq<Pool>, queue: seq<Pool>) {
    if i < |pools0| then
      pools == Without(pools0, i) && queue == queue0 + [pools0[i]]
    else
      pools == pools0 && queue == queue0
  }

  // ----- the pool on this host -----

  ghost predicate HasLocal(name: string, served: multiset<Address>) {
    exists a :: a in served && a.0 == name
  }

  /** The shortcut is set if a pool in use is on this host. */
  ghost predicate Prefers(name: string, shortcut: ThriftConnectionPool?, served: multiset<Address>) {
    shortcut == null ==> !HasLocal(name, served)
  }

  ghost function LastLocal(name: string, pools: seq<Pool>): ThriftConnectionPool? {
    if pools == [] then null
    else if pools[|pools| - 1].address.0 == name then pools[|pools| - 1]
    else LastLocal(name, pools[..|pools| - 1])
  }

  /** The shortcut after pools were added: the last of them on this host. */
  ghost function Overlaid(name: string, before: ThriftConnectionPool?, added: seq<Pool>): ThriftConnectionPool? {
    if LastLocal(name, added) != null then LastLocal(name, added) else before
  }

  /** The shortcut after some pools moved out and then others were added. */
  ghost function Redirected(name: string, before: ThriftConnectionPool?, moved: seq<Pool>, added: seq<Pool>)
    : ThriftConnectionPool?
  {
    Overlaid(name, if LastLocal(name, moved) != null then null else before, added)
  }

  lemma NoneLocal(name: string, before: ThriftConnectionPool?)
    ensures LastLocal(name, []) == null && Overlaid(name, before, []) == before
  {
  }

  lemma OverlaidSnoc(name: string, before: ThriftConnectionPool?, pools: seq<Pool>, p: Pool)
    ensures Overlaid(name, before, pools + [p]) == if p.address.0 == name then p else Overlaid(name, before, pools)
  {
    LastLocalSnoc(name, pools, p);
  }

  lemma RedirectedAppend(name: string, before: ThriftConnectionPool?, moved: seq<Pool>, a: seq<Pool>, b: seq<Pool>)
    ensures Overlaid(name, Redirected(name, before, moved, a), b) == Redirected(name, before, moved, a + b)
  {
    LastLocalAppend(name, a, b);
  }

  lemma LastLocalSnoc(name: string, pools: seq<Pool>, p: Pool)
    ensures LastLocal(name, pools + [p]) == if p.address.0 == name then p else LastLocal(name, pools)
  {
    assert (pools + [p])[..|pools|] == pools;
  }

  lemma {:induction false} LastLocalAppend(name: string, a: seq<Pool>, b: seq<Pool>)
    ensures LastLocal(name, a + b) == Overlaid(name, LastLocal(name, a), b)
  {
    if b == [] {
      assert a + b == a;
    } else {
      var k := |b| - 1;
      assert a + b == a + b[..k] + [b[k]];
      LastLocalSnoc(name, a + b[..k], b[k]);
      LastLocalAppend(name, a, b[..k]);
    }
  }

  lemma {:induction false} LastLocalIs(name: string, pools: seq<Pool>)
    ensures LastLocal(name, pools) != null <==> HasLocal(name, Addresses(pools))
  {
    if pools != [] {
      var k := |pools| - 1;
      LastLocalIs(name, pools[..k]);
      assert pools[k].address in Addresses(pools);
      assert forall a: Address :: a in Addresses(pools) <==> a in Addresses(pools[..k]) || a == pools[k].address;
    }
  }

  /** What update_servers makes of the shortcut: the pools no longer requested moved out, those
      that were missing were added, and of the latter the last on this host has it. */
  ghost predicate Rewired(name: string, requests: multiset<Address>, pools0: seq<Pool>, pools: seq<Pool>,
                          before: ThriftConnectionPool?, after: ThriftConnectionPool?,
                          moved: seq<Pool>, added: seq<Pool>) {
    && Addresses(moved) == Addresses(pools0) - requests && (forall p <- moved :: p in pools0)
    && Addresses(added) == requests - Addresses(pools0)
    && |added| <= |pools| && pools[|pools| - |added|..] == added
    && after == Redirected(name, before, moved, added)
  }

  /** Whether update_servers leaves the shortcut set if a pool is on this host. */
  ghost predicate PrefersUpdated(name: string, preferred: bool, served: multiset<Address>,
                                 requests: multiset<Address>) {
    || HasLocal(name, requests - served)
    || !HasLocal(name, requests * served)
    || (preferred && !HasLocal(name, served - requests))
  }

  /** and whether remove_server does. */
  ghost predicate PrefersRemoved(name: string, preferred: bool, served: multiset<Address>, a: Address) {
    if a.0 == name && a in served then !HasLocal(name, Less(served, a)) else preferred
  }

  lemma {:induction false} UpdatePrefers(name: string, requests: multiset<Address>, pools0: seq<Pool>, pools: seq<Pool>,
                                         before: ThriftConnectionPool?, after: ThriftConnectionPool?,
                                         moved: seq<Pool>, added: seq<Pool>)
    requires Rewired(name, requests, pools0, pools, before, after, moved, added)
    requires before != null ==> before in pools0 && before.address.0 == name
    ensures Prefers(name, after, requests) <==>
            PrefersUpdated(name, Prefers(name, before, Addresses(pools0)), Addresses(pools0), requests)
  {
    var served := Addresses(pools0);
    LastLocalIs(name, moved);
    LastLocalIs(name, added);
    if before != null {
      AddressIn(pools0, before.address);
      assert HasLocal(name, served);
    }
    LocalParts(name, served, requests);
  }

  lemma LocalParts(name: string, p: multiset<Address>, r: multiset<Address>)
    ensures HasLocal(name, r) <==> HasLocal(name, r * p) || HasLocal(name, r - p)
    ensures HasLocal(name, p) <==> HasLocal(name, r * p) || HasLocal(name, p - r)
  {
    assert forall a: Address :: a in r <==> a in r * p || a in r - p;
    assert forall a: Address :: a in p <==> a in r * p || a in p - r;
  }

  /** A pool that goes is on this host: the shortcut is cleared, wherever it led. */
  lemma {:induction false} RemovePrefers(name: string, pools0: seq<Pool>, pools: seq<Pool>, a: Address,
                                         before: ThriftConnectionPool?, after: ThriftConnectionPool?)
    requires Addresses(pools) == Less(Addresses(pools0), a)
    requires after == if a.0 == name && a in Addresses(pools0) then null else before
    ensures Prefers(name, after, Addresses(pools)) <==>
            PrefersRemoved(name, Prefers(name, before, Addresses(pools0)), Addresses(pools0), a)
  {
    var served := Addresses(pools0);
    if a !in served {
      LessAbsent(served, a);
    } else if a.0 != name {
      assert forall b: Address :: b.0 == name ==> (b in Less(served, a) <==> b in served);
    }
  }

  /** At most one pool in use is on this host. */
  ghost predicate OneLocal(name: string, served: multiset<Address>) {
    forall a, b :: a in served && b in served && a.0 == b.0 == name ==> a == b && served[a] == 1
  }

  lemma {:induction false} TwoIn(pools: seq<Pool>, p: Pool, q: Pool)
    requires p in pools && q in pools && p != q
    ensures p.address in Addresses(pools) && q.address in Addresses(pools)
    ensures p.address == q.address ==> Addresses(pools)[p.address] > 1
  {
    var k := |pools| - 1;
    assert pools == pools[..k] + [pools[k]];
    AddressIn(pools, p.address);
    AddressIn(pools, q.address);
    if pools[k] == p {
      AddressIn(pools[..k], q.address);
    } else if pools[k] == q {
      AddressIn(pools[..k], p.address);
    } else {
      TwoIn(pools[..k], p, q);
    }
  }

  // ----- what happens to the pools -----

  /** A call, a job of one of the pools, a sweep of the queue, or what becomes of a connection in
      its caller's hands. A connection is named by the get that handed it out, a pool by its place
      in the two lists. */
  datatype Event =
    | UpdateServers(hosts: seq<string>, ports: seq<int>, networks: nat -> Network)
    | AddServer(host: string, port: int, network: Network)
    | RemoveServer(host: string, port: int)
    | Get(answers: bool)
    | Put(get: nat)
    | Close(get: nat)
    | Change(get: nat, change: Change)
    | RunJob(place: nat, job: Job)
    | Sweep

  /** The transport of a connection fails, or client() reconnects it. */
  datatype Change = Breaks | Reconnects(answers: bool)

  /** What add_server asserts. */
  predicate Legal(e: Event) {
    e.AddServer? ==> e.host != "" && e.port != 0
  }

  /** The addresses served, by the calls that say so. */
  ghost function Serving(served: multiset<Address>, e: Event): multiset<Address> {
    match e
    case UpdateServers(hosts, ports, _) => if |hosts| == |ports| then multiset(Requests(hosts, ports)) else served
    case AddServer(host, port, _) => if (host, port) in served then served else served + multiset{(host, port)}
    case RemoveServer(host, port) => Less(served, (host, port))
    case _ => served
  }

  ghost function Served(events: seq<Event>): multiset<Address> {
    if events == [] then multiset{} else Serving(Served(events[..|events| - 1]), events[|events| - 1])
  }

  /** Whether the shortcut is set if a pool in use is on this host, by the calls. A pool of this
      host that is added gets it, one that goes clears it even if another stays. */
  ghost predicate Preferring(name: string, preferred: bool, served: multiset<Address>, e: Event) {
    match e
    case UpdateServers(hosts, ports, _) =>
      if |hosts| != |ports| then preferred
      else PrefersUpdated(name, preferred, served, multiset(Requests(hosts, ports)))
    case AddServer(host, port, _) => preferred || (host == name && (host, port) !in served)
    case RemoveServer(host, port) => PrefersRemoved(name, preferred, served, (host, port))
    case _ => preferred
  }

  /** Other events leave the pools in use alone. */
  lemma Otherwise(name: string, preferred: bool, served: multiset<Address>, e: Event)
    requires !e.UpdateServers? && !e.AddServer? && !e.RemoveServer?
    ensures Serving(served, e) == served && (Preferring(name, preferred, served, e) <==> preferred)
  {
  }

  ghost predicate Preferred(name: string, events: seq<Event>) {
    events == [] ||
    var past := events[..|events| - 1];
    Preferring(name, Preferred(name, past), Served(past), events[|events| - 1])
  }

  /** While no two pools in use are on this host it always is. */
  lemma {:induction false} OneLocalPreferred(name: string, events: seq<Event>)
    requires forall k :: 0 <= k < |events| ==> OneLocal(name, Served(events[..k]))
    ensures Preferred(name, events)
  {
    if events != [] {
      var past, e := events[..|events| - 1], events[|events| - 1];
      forall k | 0 <= k < |past|
        ensures OneLocal(name, Served(past[..k]))
      {
        assert past[..k] == events[..k];
      }
      OneLocalPreferred(name, past);
      assert OneLocal(name, Served(past));
      OneLocalStays(name, Served(past), e);
    }
  }

  lemma OneLocalUpdated(name: string, served: multiset<Address>, requests: multiset<Address>)
    requires OneLocal(name, served)
    ensures PrefersUpdated(name, true, served, requests)
  {
    if a :| a in requests * served && a.0 == name {
      assert forall b: Address :: b in served - requests && b.0 == name ==> b in served && b == a && served[b] == 1;
    }
  }

  lemma OneLocalRemoved(name: string, served: multiset<Address>, a: Address)
    requires OneLocal(name, served)
    ensures PrefersRemoved(name, true, served, a)
  {
    if a.0 == name && a in served {
      assert forall b: Address :: b in Less(served, a) && b.0 == name ==> b in served && b == a;
    }
  }

  lemma {:induction false} OneLocalStays(name: string, served: multiset<Address>, e: Event)
    requires OneLocal(name, served)
    ensures Preferring(name, true, served, e)
  {
    match e
    case UpdateServers(hosts, ports, _) =>
      if |hosts| == |ports| {
        OneLocalUpdated(name, served, multiset(Requests(hosts, ports)));
      }
    case RemoveServer(host, port) => OneLocalRemoved(name, served, (host, port));
    case _ =>
  }

  /** If it is set and no two pools in use are on this host, a get turns to the one there is
      whenever that is connected. */
  lemma LocalIsChosen(name: string, pools: seq<Pool>, shortcut: ThriftConnectionPool?, index: nat, pool: Pool,
                      index': nat, local: Pool)
    requires Prefers(name, shortcut, Addresses(pools)) && OneLocal(name, Addresses(pools))
    requires shortcut != null ==> shortcut in pools && shortcut.address.0 == name
    requires Chosen(pools, shortcut, index, pool, index')
    requires local in pools && local.address.0 == name && local.status == Connected
    ensures pool == local && index' == index
  {
    AddressIn(pools, local.address);
    if shortcut != null && shortcut != local {
      TwoIn(pools, shortcut, local);
    }
  }

  lemma ServedFour(e1: Event, e2: Event, e3: Event, e4: Event)
    ensures Served([e1, e2, e3]) == Serving(Serving(Serving(multiset{}, e1), e2), e3)
    ensures Served([e1, e2, e3, e4]) == Serving(Served([e1, e2, e3]), e4)
    ensures [e1, e2, e3, e4][..3] == [e1, e2, e3]
  {
    hide Serving;
    assert [e1, e2, e3, e4][..3] == [e1, e2, e3] && [e1, e2, e3][..2] == [e1, e2];
    assert [e1, e2][..1] == [e1] && [e1][..0] == [];
    assert Served([e1]) == Serving(Served([]), e1);
    assert Served([e1, e2]) == Serving(Served([e1]), e2);
  }

  lemma ServedHere(network: Network)
    ensures Served(TwoHere(network)[..3]) == multiset{("here", 1), ("here", 2), ("there", 3)}
    ensures Served(TwoHere(network)) == multiset{("here", 2), ("there", 3)}
  {
    var es := TwoHere(network);
    ServedFour(es[0], es[1], es[2], es[3]);
    assert Serving(multiset{}, es[0]) == multiset{("here", 1)};
    assert Serving(multiset{("here", 1)}, es[1]) == multiset{("here", 1), ("here", 2)};
  }

  function TwoHere(network: Network): seq<Event> {
    [AddServer("here", 1, network), AddServer("here", 2, network), AddServer("there", 3, network),
     RemoveServer("here", 1)]
  }

  lemma HereIsLost(network: Network)
    ensures !Preferred("here", TwoHere(network))
  {
    ServedHere(network);
    var es, served := TwoHere(network), Served(TwoHere(network)[..3]);
    hide Served, Preferred;
    assert ("here", 2) in Less(served, ("here", 1));
    assert !PrefersRemoved("here", Preferred("here", es[..3]), served, ("here", 1));
    assert es[..3] + [es[3]] == es;
    PreferredNext("here", es[..3], es[3]);
  }

  lemma AddressesTwo(near: Pool, far: Pool)
    ensures Addresses([near, far]) == multiset{near.address, far.address}
  {
    AddressesSnoc([], near);
    AddressesSnoc([near], far);
    assert [near] + [far] == [near, far] && [] + [near] == [near];
  }

  /** With two pools on this host it can be lost: the first is removed, and the shortcut, which
      led to the second, is cleared. That stays in use, and a get may pass it over. */
  lemma LocalPassedOver(near: Pool, far: Pool, network: Network)
    requires near.address == ("here", 2) && far.address == ("there", 3)
    requires near.status == far.status == Connected
    ensures Served(TwoHere(network)) == Addresses([near, far]) && !Preferred("here", TwoHere(network))
    ensures Chosen([near, far], null, 1, far, 2)
  {
    hide Served, Preferred, Addresses, TwoHere;
    ServedHere(network);
    HereIsLost(network);
    AddressesTwo(near, far);
    assert FirstConnected([near, far], 1, 0, far, 2);
  }

  /** The connections lent, by the gets and puts and what they were about. */
  ghost function Lending(lent: set<ThriftConnection>, e: Event, c: ThriftConnection?): set<ThriftConnection> {
    if c == null then lent
    else if e.Get? then lent + {c}
    else if e.Put? then lent - {c}
    else lent
  }

  /** The connection a caller means: what the get of this number gave. */
  function Named(e: Event, about: seq<ThriftConnection?>): ThriftConnection? {
    if (e.Put? || e.Close? || e.Change?) && e.get < |about| then about[e.get] else null
  }

  ghost function Lent(events: seq<Event>, about: seq<ThriftConnection?>): set<ThriftConnection>
    requires |events| == |about|
  {
    if events == [] then
      {}
    else
      var k := |events| - 1;
      Lending(Lent(events[..k], about[..k]), events[k], about[k])
  }

  /** The connection an event was about: a get gave out none that was lent, everything else was
      about the one the caller meant. */
  ghost predicate Fits(events: seq<Event>, about: seq<ThriftConnection?>, e: Event, c: ThriftConnection?)
    requires |events| == |about|
  {
    if e.Get? then c == null || c !in Lent(events, about) else c == Named(e, about)
  }

  ghost predicate AllFit(events: seq<Event>, about: seq<ThriftConnection?>)
    requires |events| == |about|
  {
    forall i :: 0 <= i < |events| ==> Fits(events[..i], about[..i], events[i], about[i])
  }

  class ThriftPool {
    const localhostName: string
    const minFree: nat
    const maxConn: nat
    var pools: seq<Pool>
    var removeQueue: seq<Pool>
    var localhostPool: ThriftConnectionPool?
    var index: nat
    var connPoolMap: map<ThriftConnection, Pool>

    /** The shortcut is one of the pools, on this host. */
    ghost predicate LocalhostFits()
      reads this
    {
      localhostPool != null ==> localhostPool in pools && localhostPool.address.0 == localhostName
    }

    /** The shortcut is set if a pool in use is on this host. */
    ghost predicate PrefersLocal()
      reads this`pools, this`localhostPool
    {
      Prefers(localhostName, localhostPool, Addresses(pools))
    }

    ghost predicate Valid()
      reads this, All(pools, removeQueue), Conns(All(pools, removeQueue))
    {
      && LocalhostFits()
      && Distinct(pools, removeQueue)
      && Sound(All(pools, removeQueue))
      && Mapped(connPoolMap, All(pools, removeQueue))
    }

    constructor (localhostName: string, minFree: nat, maxConn: nat)
      ensures Valid() && pools == [] && removeQueue == [] && connPoolMap == map[]
      ensures this.localhostName == localhostName && PrefersLocal()
    {
      this.localhostName, this.minFree, this.maxConn := localhostName, minFree, maxConn;
      pools, removeQueue, localhostPool, index, connPoolMap := [], [], null, 0, map[];
    }

    // ----- update_servers -----

    /** The queue is all that changes. */
    method SetQueue(queue: seq<Pool>)
      requires LocalhostFits() && Distinct(pools, queue)
      requires Sound(All(pools, queue)) && Mapped(connPoolMap, All(pools, queue))
      modifies this`removeQueue
      ensures Valid() && removeQueue == queue
    {
      removeQueue := queue;
    }

    /** Deletes the i-th queued pool; nothing refers to it any more. */
    method DeleteIdle(i: nat)
      requires Valid() && i < |removeQueue| && removeQueue[i].allocatedConns == {}
      modifies this`removeQueue
      ensures Valid() && removeQueue == Without(old(removeQueue), i)
      ensures old(removeQueue[i]) !in All(pools, removeQueue) && old(removeQueue[i]) != localhostPool
      ensures old(removeQueue[i]) !in connPoolMap.Values
    {
      WithoutParts(pools, removeQueue, i);
      WithoutIdle(connPoolMap, All(pools, Without(removeQueue, i)), removeQueue[i]);
      SetQueue(Without(removeQueue, i));
    }

    /** Looks at the i-th queued pool, and moves on to the next. */
    method SweepOne(i: nat, ghost all: seq<Pool>, ghost done: seq<Pool>) returns (next: nat, ghost done': seq<Pool>)
      requires Valid() && i < |removeQueue| && Swept(all, done, removeQueue, i, Idle(AsSet(all)))
      modifies this`removeQueue
      ensures Valid() && next <= |removeQueue| && |removeQueue| - next < old(|removeQueue|) - i
      ensures Swept(all, done', removeQueue, next, Idle(AsSet(all)))
    {
      hide Distinct, Sound, Mapped, Swept;
      SweptNext(all, done, removeQueue, i, Idle(AsSet(all)));
      done' := done + [removeQueue[i]];
      if removeQueue[i].allocatedConns == {} {
        DeleteIdle(i);
        next := i;
      } else {
        next := i + 1;
      }
    }

    /** remove_thread's sweep: just the pools with connections out stay queued, in order. */
    method Sweep()
      requires Valid()
      modifies this`removeQueue
      ensures Valid() && removeQueue == old(Outside(removeQueue, Idle(AsSet(removeQueue))))
      ensures All(pools, removeQueue) <= old(All(pools, removeQueue))
    {
      hide Distinct, Sound, Mapped, Swept, Outside, Idle;
      ghost var all, done := removeQueue, [];
      var i := 0;
      SweptFirst(all, Idle(AsSet(all)));
      while i < |removeQueue|
        invariant 0 <= i <= |removeQueue| && Valid() && Swept(all, done, removeQueue, i, Idle(AsSet(all)))
        decreases |removeQueue| - i
      {
        i, done := SweepOne(i, all, done);
      }
      SweptLast(all, done, removeQueue, Idle(AsSet(all)));
    }

    /** Moves the i-th pool to the removal queue. */
    method MoveOut(i: nat)
      requires i < |pools| && LocalhostFits()
      modifies this`pools, this`removeQueue, this`localhostPool
      ensures LocalhostFits() && removeQueue == old(removeQueue) + [old(pools)[i]]
      ensures pools == Without(old(pools), i)
      ensures localhostPool == if old(pools)[i].address.0 == localhostName then null else old(localhostPool)
    {
      var pool := pools[i];
      if localhostName == pool.address.0 {
        localhostPool := null;
      }
      pools := Without(pools, i);
      removeQueue := removeQueue + [pool];
    }

    /** First loop: a pool for which no request is left goes to the removal queue. */
    method KeepWanted(requests: seq<Address>, found: seq<bool>) returns (found': seq<bool>, ghost moved: seq<Pool>)
      requires |requests| == |found| && LocalhostFits()
      modifies this`pools, this`removeQueue, this`localhostPool
      ensures |found'| == |found| && LocalhostFits() && removeQueue == old(removeQueue) + moved
      ensures localhostPool == if LastLocal(localhostName, moved) != null then null else old(localhostPool)
      ensures Sifted(old(pools), pools, moved, Wanted(requests, found), Wanted(requests, found'))
    {
      hide Wanted, Sifted, Addresses, LastLocal;
      SiftFirst(Wanted(requests, found));
      NoneLocal(localhostName, localhostPool);
      found', moved := found, [];
      var i, hit := 0, false;
      ghost var done: seq<Pool> := [];
      while i < |pools|
        invariant 0 <= i <= |pools| && |found'| == |found| && LocalhostFits()
        invariant removeQueue == old(removeQueue) + moved && old(pools) == done + pools[i..]
        invariant localhostPool == if LastLocal(localhostName, moved) != null then null else old(localhostPool)
        invariant Sifted(done, pools[..i], moved, Wanted(requests, found), Wanted(requests, found'))
        decreases |pools| - i
      {
        ghost var p, wanted := pools[i], Wanted(requests, found');
        found', hit := Claim(pools[i].address, requests, found');
        Advance(old(pools), done, pools, i);
        if hit {
          SiftHit(done, pools[..i], moved, Wanted(requests, found), wanted, p);
          i := i + 1;
        } else {
          SiftMiss(done, pools[..i], moved, Wanted(requests, found), wanted, p);
          MoveOut(i);
          Regroup(old(removeQueue), moved, p);
          LastLocalSnoc(localhostName, moved, p);
          moved := moved + [p];
        }
        done := done + [p];
      }
      assert done == old(pools) && pools[..i] == pools;
    }

    /** Brings the i-th pool of the removal queue back. */
    method MoveBack(i: nat)
      requires i < |removeQueue| && LocalhostFits()
      modifies this`pools, this`removeQueue, this`localhostPool
      ensures LocalhostFits() && pools == old(pools) + [old(removeQueue)[i]]
      ensures removeQueue == Without(old(removeQueue), i)
      ensures localhostPool ==
        if old(removeQueue)[i].address.0 == localhostName then old(removeQueue)[i] else old(localhostPool)
    {
      var pool := removeQueue[i];
      removeQueue := Without(removeQueue, i);
      pools := pools + [pool];
      if localhostName == pool.address.0 {
        localhostPool := pool;
      }
    }

    /** Second loop: a queued pool whose address is still wanted comes back. */
    method BringBack(requests: seq<Address>, found: seq<bool>) returns (found': seq<bool>, ghost back: seq<Pool>)
      requires |requests| == |found| && LocalhostFits()
      modifies this`pools, this`removeQueue, this`localhostPool
      ensures |found'| == |found| && LocalhostFits() && pools == old(pools) + back
      ensures localhostPool == Overlaid(localhostName, old(localhostPool), back)
      ensures Sifted(old(removeQueue), back, removeQueue, Wanted(requests, found), Wanted(requests, found'))
    {
      hide Wanted, Sifted, Addresses, Overlaid;
      SiftFirst(Wanted(requests, found));
      NoneLocal(localhostName, localhostPool);
      found', back := found, [];
      var i, hit := 0, false;
      ghost var done: seq<Pool> := [];
      while i < |removeQueue|
        invariant 0 <= i <= |removeQueue| && |found'| == |found| && LocalhostFits()
        invariant pools == old(pools) + back && old(removeQueue) == done + removeQueue[i..]
        invariant localhostPool == Overlaid(localhostName, old(localhostPool), back)
        invariant Sifted(done, back, removeQueue[..i], Wanted(requests, found), Wanted(requests, found'))
        decreases |removeQueue| - i
      {
        ghost var p, wanted := removeQueue[i], Wanted(requests, found');
        found', hit := Claim(removeQueue[i].address, requests, found');
        Advance(old(removeQueue), done, removeQueue, i);
        if hit {
          SiftHit(done, back, removeQueue[..i], Wanted(requests, found), wanted, p);
          MoveBack(i);
          Regroup(old(pools), back, p);
          OverlaidSnoc(localhostName, old(localhostPool), back, p);
          back := back + [p];
        } else {
          SiftMiss(done, back, removeQueue[..i], Wanted(requests, found), wanted, p);
          i := i + 1;
        }
        done := done + [p];
      }
      assert done == old(removeQueue) && removeQueue[..i] == removeQueue;
    }

    /** A new pool at the end of pools_. */
    method AddPool(address: Address, network: Network)
      requires LocalhostFits()
      modifies this`pools, this`localhostPool
      ensures LocalhostFits() && |pools| == |old(pools)| + 1 && old(pools) <= pools
      ensures pools == old(pools) + [pools[|old(pools)|]]
      ensures Newborn(pools[|old(pools)|]) && pools[|old(pools)|].address == address
      ensures fresh(pools[|old(pools)|]) && fresh(pools[|old(pools)|].Connections())
      ensures localhostPool == if address.0 == localhostName then pools[|old(pools)|] else old(localhostPool)
    {
      var pool := new ThriftConnectionPool(address, minFree, maxConn, network);
      pools := pools + [pool];
      if localhostName == address.0 {
        localhostPool := pool;
      }
    }

    /** One pool more, after those already created, unless its request was found. */
    method AddUnlessFound(ghost ps: set<Pool>, ghost before: seq<Pool>, ghost shortcut: ThriftConnectionPool?,
                          ghost created: seq<Pool>, found: bool, address: Address, network: Network)
      returns (ghost created': seq<Pool>)
      requires LocalhostFits() && Newcomers(created, ps) && pools == before + created
      requires localhostPool == Overlaid(localhostName, shortcut, created)
      modifies this`pools, this`localhostPool
      ensures localhostPool == Overlaid(localhostName, shortcut, created')
      ensures LocalhostFits() && Newcomers(created', ps) && pools == before + created'
      ensures Addresses(created') == Addresses(created) + if found then multiset{} else multiset{address}
      ensures forall p <- created' :: p in created || (fresh(p) && fresh(p.Connections()))
    {
      created' := created;
      if !found {
        AddPool(address, network);
        ghost var p := pools[|pools| - 1];
        NewcomersSnoc(created, ps, p);
        Regroup(before, created, p);
        AddressesSnoc(created, p);
        OverlaidSnoc(localhostName, shortcut, created, p);
        created' := created + [p];
      }
    }

    /** Third loop: a new pool for each request still unmarked. */
    method AddMissing(ghost ps: set<Pool>, requests: seq<Address>, found: seq<bool>, networks: nat -> Network)
      returns (ghost created: seq<Pool>)
      requires |requests| == |found| && LocalhostFits()
      modifies this`pools, this`localhostPool
      ensures LocalhostFits() && pools == old(pools) + created && Newcomers(created, ps)
      ensures localhostPool == Overlaid(localhostName, old(localhostPool), created)
      ensures Addresses(created) == Wanted(requests, found)
      ensures forall p <- created :: fresh(p) && fresh(p.Connections())
    {
      NoNewcomers(ps);
      NoneLocal(localhostName, localhostPool);
      hide Newcomers, Addresses, Wanted, Overlaid;
      created := [];
      ghost var before, shortcut := pools, localhostPool;
      var j := 0;
      while j < |requests|
        invariant 0 <= j <= |requests| && LocalhostFits() && pools == before + created && Newcomers(created, ps)
        invariant Addresses(created) == Wanted(requests[..j], found[..j])
        invariant localhostPool == Overlaid(localhostName, shortcut, created)
        invariant forall p <- created :: fresh(p) && fresh(p.Connections())
      {
        WantedSnoc(requests, found, j);
        var network := networks(j);
        created := AddUnlessFound(ps, before, shortcut, created, found[j], requests[j], network);
        j := j + 1;
      }
      assert requests[..j] == requests && found[..j] == found;
    }

    /** The first two loops. */
    method Reuse(requests: seq<Address>)
      returns (found: seq<bool>, ghost kept: seq<Pool>, ghost moved: seq<Pool>, ghost back: seq<Pool>)
      requires LocalhostFits()
      modifies this`pools, this`removeQueue, this`localhostPool
      ensures |found| == |requests| && LocalhostFits() && pools == kept + back
      ensures Wanted(requests, found) == multiset(requests) - Addresses(old(pools)) - Addresses(old(removeQueue))
      ensures Addresses(kept + back) + Wanted(requests, found) == multiset(requests)
      ensures multiset(kept + back) + multiset(removeQueue) == multiset(old(pools)) + multiset(old(removeQueue))
      ensures Addresses(back) + Wanted(requests, found) == multiset(requests) - Addresses(old(pools))
      ensures Addresses(moved) == Addresses(old(pools)) - multiset(requests) && forall p <- moved :: p in old(pools)
      ensures localhostPool == Redirected(localhostName, old(localhostPool), moved, back)
    {
      hide Wanted, Addresses, LastLocal;
      var found' := seq(|requests|, _ => false);
      WantedNone(requests, found');
      found', moved := KeepWanted(requests, found');
      kept := pools;
      SiftedMisses(old(pools), kept, moved, multiset(requests), Wanted(requests, found'));
      found, back := BringBack(requests, found');
      SiftTwice(multiset(requests), old(pools), old(removeQueue), kept, moved, Wanted(requests, found'),
                back, removeQueue, Wanted(requests, found));
    }

    /** The three loops: the pools end up with exactly the requested addresses, no pool is lost,
        and as many are made per address as neither list had. */
    method Reconcile(requests: seq<Address>, networks: nat -> Network)
      returns (ghost created: seq<Pool>, ghost moved: seq<Pool>, ghost added: seq<Pool>)
      requires LocalhostFits()
      modifies this`pools, this`removeQueue, this`localhostPool
      ensures LocalhostFits() && Newcomers(created, old(All(pools, removeQueue)))
      ensures forall p <- created :: fresh(p) && fresh(p.Connections())
      ensures Reconciled(requests, old(pools), old(removeQueue), pools, removeQueue, created)
      ensures Rewired(localhostName, multiset(requests), old(pools), pools, old(localhostPool), localhostPool,
                      moved, added)
    {
      hide Newcomers, Wanted, Addresses, Overlaid, Redirected, Reconciled;
      var found;
      ghost var kept, back;
      found, kept, moved, back := Reuse(requests);
      ghost var shortcut := localhostPool;
      created := AddMissing(old(All(pools, removeQueue)), requests, found, networks);
      added := back + created;
      AllMet(requests, old(pools), old(removeQueue), kept, back, created, removeQueue);
      RedirectedAppend(localhostName, old(localhostPool), moved, back, created);
    }

    /** and what the pools hold together is untouched. */
    method ReconcileSoundly(ghost ps: set<Pool>, requests: seq<Address>, networks: nat -> Network)
      returns (ghost created: seq<Pool>, ghost moved: seq<Pool>, ghost added: seq<Pool>)
      requires LocalhostFits() && ps == All(pools, removeQueue)
      modifies this`pools, this`removeQueue, this`localhostPool
      ensures LocalhostFits() && Newcomers(created, ps)
      ensures forall p <- created :: fresh(p) && fresh(p.Connections())
      ensures Reconciled(requests, old(pools), old(removeQueue), pools, removeQueue, created)
      ensures Rewired(localhostName, multiset(requests), old(pools), pools, old(localhostPool), localhostPool,
                      moved, added)
      ensures Sound(ps) == old(Sound(ps)) && Mapped(connPoolMap, ps) == old(Mapped(connPoolMap, ps))
    {
      hide Reconciled, Rewired;
      created, moved, added := Reconcile(requests, networks);
    }

    /** The pools in use are those requested. The shortcut leads to the last pool of this host that
        was brought back or made; else it is cleared if one moved out, even if another is kept, and
        stays as it was if none did. */
    method UpdateServers(hosts: seq<string>, ports: seq<int>, networks: nat -> Network)
      returns (ok: bool, ghost created: seq<Pool>, ghost moved: seq<Pool>, ghost added: seq<Pool>)
      requires Valid()
      modifies this`pools, this`removeQueue, this`localhostPool
      ensures Valid() && ok == (|hosts| == |ports|)
      ensures !ok ==> pools == old(pools) && removeQueue == old(removeQueue) && localhostPool == old(localhostPool)
      ensures ok ==> Reconciled(Requests(hosts, ports), old(pools), old(removeQueue), pools, removeQueue, created)
      ensures ok ==> Rewired(localhostName, multiset(Requests(hosts, ports)), old(pools), pools,
                             old(localhostPool), localhostPool, moved, added)
      ensures PrefersLocal() <==> if !ok then old(PrefersLocal()) else
        PrefersUpdated(localhostName, old(PrefersLocal()), old(Addresses(pools)), multiset(Requests(hosts, ports)))
      ensures All(pools, removeQueue) == old(All(pools, removeQueue)) + AsSet(created)
      ensures forall p <- created :: fresh(p) && fresh(p.Connections())
    {
      hide Rewired, PrefersUpdated, Addresses, Requests, Prefers;
      ok, created, moved, added := |hosts| == |ports|, [], [], [];
      if ok {
        var requests := Requests(hosts, ports);
        created, moved, added := ReconcileSoundly(All(pools, removeQueue), requests, networks);
        JoinAll(connPoolMap, old(pools), old(removeQueue), pools, removeQueue, created);
        UpdatePrefers(localhostName, multiset(requests), old(pools), pools, old(localhostPool), localhostPool,
                      moved, added);
      }
    }

    // ----- add_server, remove_server -----

    /** The first pool of this address; |pools| if there is none. */
    method Find(address: Address) returns (i: nat)
      ensures i <= |pools| && (i < |pools| ==> pools[i].address == address)
      ensures forall j :: 0 <= j < i ==> pools[j].address != address
      ensures i < |pools| <==> address in Addresses(pools)
    {
      i := 0;
      while i < |pools| && pools[i].address != address
        invariant i <= |pools|
        invariant forall j :: 0 <= j < i ==> pools[j].address != address
      {
        i := i + 1;
      }
      AddressIn(pools, address);
    }

    method AddBeside(ghost ps: set<Pool>, address: Address, network: Network) returns (ghost p: Pool)
      requires LocalhostFits()
      modifies this`pools, this`localhostPool
      ensures LocalhostFits() && pools == old(pools) + [p] && p.address == address
      ensures fresh(p) && fresh(p.Connections())
      ensures localhostPool == if address.0 == localhostName then p else old(localhostPool)
      ensures Newcomers([p], ps)
    {
      assert AsSet([]) == {};
      AddPool(address, network);
      p := pools[|pools| - 1];
      NewcomersSnoc([], ps, p);
      assert [] + [p] == [p];
    }

    method AddSoundly(address: Address, network: Network) returns (ghost p: Pool)
      requires Valid()
      modifies this`pools, this`localhostPool
      ensures LocalhostFits() && pools == old(pools) + [p] && p.address == address
      ensures fresh(p) && fresh(p.Connections())
      ensures localhostPool == if address.0 == localhostName then p else old(localhostPool)
      ensures Newcomers([p], old(All(pools, removeQueue)))
      ensures Sound(old(All(pools, removeQueue))) && Mapped(connPoolMap, old(All(pools, removeQueue)))
    {
      ghost var ps := All(pools, removeQueue);
      p := AddBeside(ps, address, network);
      forall q | q in ps
        ensures q.Valid()
      {
        assert old(q.Valid());
      }
      forall q, r | q in ps && r in ps && q != r
        ensures q.Connections() !! r.Connections()
      {
        assert old(q.Connections() !! r.Connections());
      }
    }

    method AddIf(wanted: bool, address: Address, network: Network)
      requires Valid()
      modifies this`pools, this`localhostPool
      ensures Valid() && Added(wanted, address, old(pools), pools)
      ensures forall p <- All(pools, removeQueue) ::
        p in old(All(pools, removeQueue)) || (fresh(p) && fresh(p.Connections()))
      ensures localhostPool == if wanted && address.0 == localhostName then pools[|pools| - 1] else old(localhostPool)
    {
      if wanted {
        ghost var p := AddSoundly(address, network);
        AddressesSnoc(old(pools), p);
        JoinAll(connPoolMap, old(pools), removeQueue, pools, removeQueue, [p]);
      }
    }

    /** A new pool, unless one of the pools in use has this address. */
    method AddServer(host: string, port: int, network: Network) returns (ok: bool)
      requires Valid() && host != "" && port != 0
      modifies this`pools, this`localhostPool
      ensures Valid() && ok == ((host, port) !in Addresses(old(pools)))
      ensures forall p <- All(pools, removeQueue) ::
        p in old(All(pools, removeQueue)) || (fresh(p) && fresh(p.Connections()))
      ensures Added(ok, (host, port), old(pools), pools)
      ensures PrefersLocal() <==> old(PrefersLocal()) || (ok && host == localhostName)
      ensures localhostPool == if ok && host == localhostName then pools[|pools| - 1] else old(localhostPool)
    {
      var i := Find((host, port));
      ok := i == |pools|;
      AddIf(ok, (host, port), network);
    }

    method MoveSoundly(i: nat)
      requires Valid() && i < |pools|
      modifies this`pools, this`removeQueue, this`localhostPool
      ensures LocalhostFits() && removeQueue == old(removeQueue) + [old(pools)[i]]
      ensures pools == Without(old(pools), i)
      ensures localhostPool == if old(pools)[i].address.0 == localhostName then null else old(localhostPool)
      ensures Sound(old(All(pools, removeQueue))) && Mapped(connPoolMap, old(All(pools, removeQueue)))
    {
      hide Distinct, Without;
      MoveOut(i);
    }

    method MoveFound(i: nat)
      requires Valid() && i <= |pools|
      modifies this`pools, this`removeQueue, this`localhostPool
      ensures Valid() && Removed(i, old(pools), old(removeQueue), pools, removeQueue)
      ensures All(pools, removeQueue) == old(All(pools, removeQueue))
      ensures i == |old(pools)| ==> pools == old(pools)
      ensures i < |old(pools)| ==> Addresses(pools) == Less(old(Addresses(pools)), old(pools)[i].address)
      ensures localhostPool ==
        if i < |old(pools)| && old(pools)[i].address.0 == localhostName then null else old(localhostPool)
    {
      hide Distinct, Sound, Mapped, Newcomers, Without, Addresses;
      if i < |pools| {
        MoveParts(pools, removeQueue, i);
        MoveSoundly(i);
        NoNewcomers(old(All(pools, removeQueue)));
        JoinAll(connPoolMap, old(pools), old(removeQueue), pools, removeQueue, []);
      }
    }

    /** The first pool of this address stops being used; its connections may still come back. */
    method RemoveServer(host: string, port: int) returns (ghost i: nat)
      requires Valid()
      modifies this`pools, this`removeQueue, this`localhostPool
      ensures Valid() && i <= |old(pools)| && (i < |old(pools)| <==> (host, port) in Addresses(old(pools)))
      ensures i < |old(pools)| ==> old(pools)[i].address == (host, port)
      ensures forall j :: 0 <= j < i ==> old(pools)[j].address != (host, port)
      ensures Addresses(pools) == Less(old(Addresses(pools)), (host, port))
      ensures All(pools, removeQueue) == old(All(pools, removeQueue))
      ensures Removed(i, old(pools), old(removeQueue), pools, removeQueue)
      ensures localhostPool == if i < |old(pools)| && host == localhostName then null else old(localhostPool)
      ensures PrefersLocal() <==>
        PrefersRemoved(localhostName, old(PrefersLocal()), old(Addresses(pools)), (host, port))
    {
      hide Removed, Addresses, Less, PrefersRemoved, Prefers;
      var first := Find((host, port));
      LessAbsent(Addresses(pools), (host, port));
      i := first;
      MoveFound(first);
      RemovePrefers(localhostName, old(pools), pools, (host, port), old(localhostPool), localhostPool);
    }

    // ----- get, put, close -----

    /** Looks at the pools cyclically from index_ until the k-th is connected. */
    method Search() returns (pool: ThriftConnectionPool?, next: nat, ghost k: nat)
      ensures pool != null ==> pool in pools && old(FirstConnected(pools, index, k, pool, next))
      ensures pool == null <==> old(forall p <- pools :: p.status != Connected)
      ensures pool == null ==> next == AfterLooks(index, |pools|)
    {
      hide Slot;
      pool, next, k := null, index, 0;
      var i := 0;
      while i < |pools| && pool == null
        invariant 0 <= i <= |pools|
        invariant pool == null && pools != [] ==> Slot(next, 0, |pools|) == Slot(index, i, |pools|)
        invariant pool == null ==> next == if i == 0 then index else Slot(index, i - 1, |pools|) + 1
        invariant pool == null ==> old(NotConnectedBefore(pools, index, i))
        invariant pool != null ==> pool in pools && old(FirstConnected(pools, index, k, pool, next))
        decreases |pools| - i, pool == null
      {
        ThisSlot(next, |pools|);
        next := next % |pools|;
        ThisSlot(next, |pools|);
        NextSlot(index, i, |pools|);
        var candidate := pools[next];
        next := next + 1;
        if candidate.status == Connected {
          pool, k := candidate, i;
        }
        i := i + 1;
      }
      if pool == null {
        NoneConnected(pools, index);
      }
    }

    method SetIndex(next: nat)
      requires Valid()
      modifies this`index
      ensures Valid() && index == next
    {
      index := next;
    }

    /** The pool a get turns to: the one the shortcut leads to if that is connected, else the
        first connected one cyclically from index_; none exactly if none is connected. When the
        shortcut leads to a pool of this host is for PrefersLocal to say. */
    method Choose() returns (pool: ThriftConnectionPool?)
      requires Valid()
      modifies this`index
      ensures Valid() && (pool != null ==> pool in pools)
      ensures pool == null <==> old(forall p <- pools :: p.status != Connected)
      ensures pool != null ==> var next := index;
        old(pool.status == Connected && Chosen(pools, localhostPool, index, pool, next))
      ensures pool == null ==> index == AfterLooks(old(index), |pools|)
    {
      var next := index;
      if localhostPool != null && localhostPool.status == Connected {
        pool := localhostPool;
      } else {
        ghost var k;
        pool, next, k := Search();
      }
      SetIndex(next);
    }

    /** The map is all that changes. */
    method SetMap(m: map<ThriftConnection, Pool>)
      requires LocalhostFits() && Distinct(pools, removeQueue)
      requires Sound(All(pools, removeQueue)) && Mapped(m, All(pools, removeQueue))
      modifies this`connPoolMap
      ensures Valid() && connPoolMap == m
    {
      connPoolMap := m;
    }

    /** Get from the chosen pool, and the record of it. */
    method Lend(pool: ThriftConnectionPool?, answers: bool) returns (c: ThriftConnection?)
      requires Valid() && (pool != null ==> pool in pools)
      modifies this`connPoolMap, All(pools, removeQueue)`freeConns, All(pools, removeQueue)`allocatedConns
      modifies All(pools, removeQueue)`closedConns, Conns(All(pools, removeQueue))
      ensures Valid()
      ensures c == null ==> connPoolMap == old(connPoolMap)
      ensures c == null <==> pool == null || (old(pool.freeConns) == {} && !answers)
      ensures c != null ==> c !in old(connPoolMap) && connPoolMap == old(connPoolMap)[c := pool]
      ensures c != null ==> c.IsOpen() && c.inUse
      ensures fresh(Conns(All(pools, removeQueue)) - old(Conns(All(pools, removeQueue))))
    {
      hide Distinct, Sound, Mapped;
      c := null;
      if pool != null {
        ConnsOf(All(pools, removeQueue), pool);
        c := GetFrom(All(pools, removeQueue), connPoolMap, pool, answers);
        if c != null {
          SetMap(connPoolMap[c := pool]);
        }
      }
    }

    /** An open connection that was not on record and now is, with the pool Choose picks: the
        connected one of the shortcut, else the first connected one from index_. None exactly if no
        pool is connected, or just the chosen one has no free connection and cannot make one. */
    method Get(answers: bool) returns (c: ThriftConnection?, ghost pool: ThriftConnectionPool?)
      requires Valid()
      modifies this`index, this`connPoolMap, All(pools, removeQueue)`freeConns, All(pools, removeQueue)`allocatedConns
      modifies All(pools, removeQueue)`closedConns, Conns(All(pools, removeQueue))
      ensures Valid()
      ensures pool == null <==> old(forall p <- pools :: p.status != Connected)
      ensures pool != null ==> pool in pools && var next := index; old(Chosen(pools, localhostPool, index, pool, next))
      ensures pool == null ==> index == AfterLooks(old(index), |pools|)
      ensures c == null <==> pool == null || (old(pool.freeConns) == {} && !answers)
      ensures c == null ==> connPoolMap == old(connPoolMap)
      ensures c != null ==> c.IsOpen() && c.inUse && c !in old(connPoolMap)
      ensures c != null ==> connPoolMap == old(connPoolMap)[c := pool]
      ensures fresh(Conns(All(pools, removeQueue)) - old(Conns(All(pools, removeQueue))))
    {
      hide Chosen, Distinct, Sound, Mapped;
      var chosen := Choose();
      pool := chosen;
      c := Lend(chosen, answers);
    }

    /** The connection goes back to the pool it came from, which is still there. */
    method Put(c: ThriftConnection?) returns (known: bool)
      requires Valid()
      modifies this`connPoolMap, All(pools, removeQueue), Conns(All(pools, removeQueue))
      ensures Valid() && known == (c != null && c in old(connPoolMap))
      ensures connPoolMap == if known then old(connPoolMap) - {c} else old(connPoolMap)
      ensures known ==> !c.inUse && c !in old(connPoolMap)[c].allocatedConns
      ensures known ==> old(connPoolMap)[c] in All(pools, removeQueue)
      ensures known ==> c in if c.IsOpen() then old(connPoolMap)[c].freeConns else old(connPoolMap)[c].closedConns
      ensures Conns(All(pools, removeQueue)) == old(Conns(All(pools, removeQueue)))
    {
      known := c != null && c in connPoolMap;
      hide Distinct, Sound, Mapped;
      if known {
        OnRecord(connPoolMap, All(pools, removeQueue), c);
        ConnsOf(All(pools, removeQueue), connPoolMap[c]);
        PutBack(All(pools, removeQueue), connPoolMap, connPoolMap[c], c);
        SetMap(connPoolMap - {c});
      }
    }

    /** The connection is closed where it is and stays handed out; its server is asked at once
        whether it is alive. */
    method Close(c: ThriftConnection?) returns (known: bool)
      requires Valid()
      modifies Conns(All(pools, removeQueue)), All(pools, removeQueue)`quickUpdates
      ensures Valid() && known == (c != null && c in connPoolMap)
      ensures known ==> !c.IsOpen() && connPoolMap[c].quickUpdates == old(connPoolMap[c].quickUpdates) + 1
      ensures Conns(All(pools, removeQueue)) == old(Conns(All(pools, removeQueue)))
    {
      known := c != null && c in connPoolMap;
      hide Distinct, Sound, Mapped;
      if known {
        OnRecord(connPoolMap, All(pools, removeQueue), c);
        ConnsOf(All(pools, removeQueue), connPoolMap[c]);
        CloseKept(All(pools, removeQueue), connPoolMap, connPoolMap[c], c);
      }
    }

    /** A probe or reclaim run of one pool, in use or queued: everything still holds together,
        the record and what is handed out stay as they were, and the status is what the probe found. */
    method RunJob(pool: Pool, job: Job)
      requires Valid() && pool in All(pools, removeQueue) && pool.Due(job)
      modifies pool`freeConns, pool`closedConns, pool`status, pool`quickUpdates, pool.freeConns, pool.closedConns
      ensures Valid() && pool.status == StatusAfter(job, old(pool.freeConns) != {}, old(pool.status))
      ensures fresh(Conns(All(pools, removeQueue)) - old(Conns(All(pools, removeQueue))))
    {
      JobKept(All(pools, removeQueue), connPoolMap, pool, job);
    }

    /** What becomes of a connection that is on record. */
    method ChangeConnection(c: ThriftConnection?, change: Change)
      requires Valid()
      modifies Conns(All(pools, removeQueue))
      ensures Valid()
      ensures c != null && c in connPoolMap ==>
        c.IsOpen() == (change.Reconnects? && (old(c.IsOpen()) || change.answers))
    {
      hide Distinct, Sound, Mapped;
      if c != null && c in connPoolMap {
        OnRecord(connPoolMap, All(pools, removeQueue), c);
        ConnsOf(All(pools, removeQueue), connPoolMap[c]);
        ChangeKept(All(pools, removeQueue), connPoolMap, connPoolMap[c], c, change);
      }
    }

    // ----- whole runs -----

    /** A call or a sweep that changes the lists of pools. */
    method Rearrange(e: Event)
      requires Valid() && Legal(e)
      modifies this`pools, this`removeQueue, this`localhostPool
      ensures Valid() && Addresses(pools) == Serving(old(Addresses(pools)), e)
      ensures PrefersLocal() <==> Preferring(localhostName, old(PrefersLocal()), old(Addresses(pools)), e)
      ensures forall p <- All(pools, removeQueue) ::
        p in old(All(pools, removeQueue)) || (fresh(p) && fresh(p.Connections()))
    {
      hide Distinct, Sound, Mapped, LocalhostFits, Removed, Outside, Addresses, Rewired, PrefersUpdated, PrefersRemoved;
      match e
      case UpdateServers(hosts, ports, networks) =>
        var ok;
        ghost var created, moved, added;
        ok, created, moved, added := UpdateServers(hosts, ports, networks);
      case AddServer(host, port, network) => var ok := AddServer(host, port, network);
      case RemoveServer(host, port) => ghost var i := RemoveServer(host, port);
      case Sweep => Sweep();
      case _ =>
    }

    /** and brings in only new connections. */
    method HandleServers(e: Event)
      requires Valid() && Legal(e)
      modifies this`pools, this`removeQueue, this`localhostPool
      ensures Valid() && Addresses(pools) == Serving(old(Addresses(pools)), e)
      ensures PrefersLocal() <==> Preferring(localhostName, old(PrefersLocal()), old(Addresses(pools)), e)
      ensures fresh(All(pools, removeQueue) - old(All(pools, removeQueue)))
      ensures fresh(Conns(All(pools, removeQueue)) - old(Conns(All(pools, removeQueue))))
    {
      hide Distinct, Sound, Mapped, LocalhostFits, Addresses, Serving, Preferring, Prefers;
      Rearrange(e);
    }

    /** A get, or what is done with the connection c. */
    method HandleConnection(e: Event, about: ThriftConnection?) returns (c: ThriftConnection?)
      requires Valid()
      modifies this`index, this`connPoolMap, All(pools, removeQueue), Conns(All(pools, removeQueue))
      ensures Valid() && connPoolMap.Keys == Lending(old(connPoolMap.Keys), e, c)
      ensures if e.Get? then c == null || c !in old(connPoolMap) else c == about
      ensures fresh(Conns(All(pools, removeQueue)) - old(Conns(All(pools, removeQueue))))
    {
      hide Distinct, Sound, Mapped, LocalhostFits, Chosen;
      c := about;
      match e
      case Get(answers) =>
        ghost var pool;
        c, pool := Get(answers);
      case Put(_) => var known := Put(about);
      case Close(_) => var known := Close(about);
      case Change(_, change) => ChangeConnection(about, change);
      case _ =>
    }

    /** A job of a pool in use or queued. */
    method HandleJob(place: nat, job: Job)
      requires Valid()
      modifies All(pools, removeQueue), Conns(All(pools, removeQueue))
      ensures Valid() && fresh(Conns(All(pools, removeQueue)) - old(Conns(All(pools, removeQueue))))
    {
      hide Distinct, Sound, Mapped, LocalhostFits, StatusAfter;
      if place < |pools + removeQueue| {
        var pool := (pools + removeQueue)[place];
        if pool.Due(job) {
          ConnsOf(All(pools, removeQueue), pool);
          RunJob(pool, job);
        }
      }
    }

    /** One thing happens; c is the connection got, or the one it is about. */
    method Handle(e: Event, about: ThriftConnection?) returns (c: ThriftConnection?)
      requires Valid() && Legal(e)
      modifies this, All(pools, removeQueue), Conns(All(pools, removeQueue))
      ensures Valid() && Addresses(pools) == Serving(old(Addresses(pools)), e)
      ensures PrefersLocal() <==> Preferring(localhostName, old(PrefersLocal()), old(Addresses(pools)), e)
      ensures connPoolMap.Keys == Lending(old(connPoolMap.Keys), e, c)
      ensures if e.Get? then c == null || c !in old(connPoolMap) else c == about
      ensures forall p <- All(pools, removeQueue) :: p in old(All(pools, removeQueue)) || fresh(p)
      ensures forall d <- Conns(All(pools, removeQueue)) :: d in old(Conns(All(pools, removeQueue))) || fresh(d)
    {
      hide Distinct, Sound, Mapped, LocalhostFits, Addresses, Requests, Serving, Preferring, Prefers;
      c := about;
      if e.UpdateServers? || e.AddServer? || e.RemoveServer? || e.Sweep? {
        HandleServers(e);
      } else if e.RunJob? {
        Otherwise(localhostName, PrefersLocal(), Addresses(pools), e);
        HandleJob(e.place, e.job);
      } else {
        Otherwise(localhostName, PrefersLocal(), Addresses(pools), e);
        c := HandleConnection(e, about);
      }
    }
  }

  lemma NoPools()
    ensures All([], []) == {} && Conns({}) == {} && Addresses([]) == multiset{}
    ensures Served([]) == multiset{} && Lent([], []) == {} && AllFit([], []) && forall name :: Preferred(name, [])
  {
  }

  lemma ServedNext(events: seq<Event>, e: Event)
    ensures Served(events + [e]) == Serving(Served(events), e)
  {
    assert (events + [e])[..|events|] == events;
  }

  lemma LentNext(events: seq<Event>, about: seq<ThriftConnection?>, e: Event, c: ThriftConnection?)
    requires |events| == |about|
    ensures Lent(events + [e], about + [c]) == Lending(Lent(events, about), e, c)
  {
    assert (events + [e])[..|events|] == events && (about + [c])[..|about|] == about;
  }

  lemma FitsNext(events: seq<Event>, about: seq<ThriftConnection?>, e: Event, c: ThriftConnection?)
    requires |events| == |about| && AllFit(events, about) && Fits(events, about, e, c)
    ensures AllFit(events + [e], about + [c])
  {
    hide Fits;
    var events', about' := events + [e], about + [c];
    forall i | 0 <= i < |events'|
      ensures Fits(events'[..i], about'[..i], events'[i], about'[i])
    {
      assert events'[..i] == events[..i] && about'[..i] == about[..i];
      assert i < |events| ==> Fits(events[..i], about[..i], events[i], about[i]);
    }
  }

  lemma PreferredNext(name: string, events: seq<Event>, e: Event)
    ensures Preferred(name, events + [e]) <==> Preferring(name, Preferred(name, events), Served(events), e)
  {
    hide Preferring;
    assert (events + [e])[..|events|] == events;
  }

  lemma EventNext(name: string, events: seq<Event>, about: seq<ThriftConnection?>, c: ThriftConnection?)
    requires |about| < |events| && AllFit(events[..|about|], about)
    requires if events[|about|].Get? then c == null || c !in Lent(events[..|about|], about)
             else c == Named(events[|about|], about)
    ensures Served(events[..|about| + 1]) == Serving(Served(events[..|about|]), events[|about|])
    ensures Lent(events[..|about| + 1], about + [c]) ==
            Lending(Lent(events[..|about|], about), events[|about|], c)
    ensures AllFit(events[..|about| + 1], about + [c])
    ensures Preferred(name, events[..|about| + 1]) <==>
            Preferring(name, Preferred(name, events[..|about|]), Served(events[..|about|]), events[|about|])
  {
    hide Served, Lent, Serving, Lending, AllFit, Named, Preferred, Preferring;
    var past, e := events[..|about|], events[|about|];
    assert events[..|about| + 1] == past + [e];
    ServedNext(past, e);
    LentNext(past, about, e, c);
    FitsNext(past, about, e, c);
    PreferredNext(name, past, e);
  }

  /** From no pools at all, whatever is called, swept, probed and reclaimed, in any order: the
      addresses in use are those the calls ask for, the connections on record those got and not
      put back, each allocated in the one pool it came from, no get gives out a connection that
      is lent, and the shortcut is set for this host exactly if the calls so far leave it, so
      always if no two pools in use were on this host at a time. */
  method Run(localhostName: string, minFree: nat, maxConn: nat, events: seq<Event>)
    returns (tp: ThriftPool, about: seq<ThriftConnection?>)
    requires forall e <- events :: Legal(e)
    ensures tp.Valid() && Addresses(tp.pools) == Served(events)
    ensures |about| == |events| && tp.connPoolMap.Keys == Lent(events, about)
    ensures AllFit(events, about)
    ensures tp.localhostName == localhostName && (tp.PrefersLocal() <==> Preferred(localhostName, events))
    ensures (forall k :: 0 <= k < |events| ==> OneLocal(localhostName, Served(events[..k]))) ==> tp.PrefersLocal()
  {
    tp := new ThriftPool(localhostName, minFree, maxConn);
    about := [];
    NoPools();
    hide Distinct, Sound, Mapped, All, Conns, Addresses, Served, Lent, Lending, Serving, Fits, AllFit, Legal, Named;
    hide Prefers, Preferred, Preferring, OneLocal;
    while |about| < |events|
      invariant |about| <= |events| && fresh(tp) && tp.Valid()
      invariant fresh(All(tp.pools, tp.removeQueue)) && fresh(Conns(All(tp.pools, tp.removeQueue)))
      invariant Addresses(tp.pools) == Served(events[..|about|])
      invariant tp.connPoolMap.Keys == Lent(events[..|about|], about)
      invariant AllFit(events[..|about|], about)
      invariant tp.localhostName == localhostName
      invariant tp.PrefersLocal() <==> Preferred(localhostName, events[..|about|])
    {
      var e := events[|about|];
      var c := tp.Handle(e, Named(e, about));
      EventNext(localhostName, events, about, c);
      about := about + [c];
    }
    assert events[..|about|] == events;
    if forall k :: 0 <= k < |events| ==> OneLocal(localhostName, Served(events[..k])) {
      OneLocalPreferred(localhostName, events);
    }
  }

  /** A probe or reclaim run of one of several pools. */
  method JobSoundly(ghost ps: set<Pool>, pool: Pool, job: Job)
    requires pool in ps && Sound(ps) && pool.Due(job)
    modifies pool`freeConns, pool`closedConns, pool`status, pool`quickUpdates, pool.freeConns, pool.closedConns
    ensures Sound(ps) && pool.status == StatusAfter(job, old(pool.freeConns) != {}, old(pool.status))
    ensures fresh(pool.Connections() - old(pool.Connections()))
  {
    hide StatusAfter;
    pool.RunJob(job);
  }

  /** It leaves the rest and the record alone. */
  method JobKept(ghost ps: set<Pool>, ghost m: map<ThriftConnection, Pool>, pool: Pool, job: Job)
    requires pool in ps && Sound(ps) && Mapped(m, ps) && pool.Due(job)
    modifies pool`freeConns, pool`closedConns, pool`status, pool`quickUpdates, pool.freeConns, pool.closedConns
    ensures Sound(ps) && Mapped(m, ps) && pool.status == StatusAfter(job, old(pool.freeConns) != {}, old(pool.status))
    ensures fresh(pool.Connections() - old(pool.Connections()))
  {
    JobSoundly(ps, pool, job);
  }

  /** Put to one of several pools. */
  method PutSoundly(ghost ps: set<Pool>, pool: Pool, c: ThriftConnection)
    requires pool in ps && Sound(ps) && c in pool.allocatedConns
    modifies pool`freeConns, pool`allocatedConns, pool`closedConns, c`inUse
    ensures Sound(ps) && !c.inUse && pool.allocatedConns == old(pool.allocatedConns) - {c}
    ensures c in if c.IsOpen() then pool.freeConns else pool.closedConns
    ensures pool.Connections() == old(pool.Connections())
  {
    pool.Put(c);
  }

  /** Put to the pool on record. */
  method PutBack(ghost ps: set<Pool>, ghost m: map<ThriftConnection, Pool>, pool: Pool, c: ThriftConnection)
    requires Sound(ps) && Mapped(m, ps) && c in m && m[c] == pool
    modifies pool`freeConns, pool`allocatedConns, pool`closedConns, c`inUse
    ensures Sound(ps) && Mapped(m - {c}, ps) && !c.inUse && c !in pool.allocatedConns
    ensures c in if c.IsOpen() then pool.freeConns else pool.closedConns
    ensures pool.Connections() == old(pool.Connections())
  {
    PutSoundly(ps, pool, c);
  }

  method CloseKept(ghost ps: set<Pool>, ghost m: map<ThriftConnection, Pool>, pool: Pool, c: ThriftConnection)
    requires Sound(ps) && Mapped(m, ps) && c in m && m[c] == pool
    modifies c`status, c`transportOpen, pool`quickUpdates
    ensures Sound(ps) && Mapped(m, ps) && !c.IsOpen() && pool.quickUpdates == old(pool.quickUpdates) + 1
    ensures pool.Connections() == old(pool.Connections())
  {
    pool.Close(c);
  }

  method ChangeKept(ghost ps: set<Pool>, ghost m: map<ThriftConnection, Pool>, pool: Pool, c: ThriftConnection,
                    change: Change)
    requires Sound(ps) && Mapped(m, ps) && c in m && m[c] == pool
    modifies c`status, c`transportOpen
    ensures Sound(ps) && Mapped(m, ps)
    ensures c.IsOpen() == (change.Reconnects? && (old(c.IsOpen()) || change.answers))
  {
    match change
    case Breaks => c.transportOpen := false;
    case Reconnects(answers) => c.Reconnect(answers);
  }

  /** Get from one of several pools. */
  method GetSoundly(ghost ps: set<Pool>, pool: Pool, answers: bool) returns (c: ThriftConnection?)
    requires pool in ps && Sound(ps)
    modifies pool`freeConns, pool`allocatedConns, pool`closedConns, pool.freeConns, pool.closedConns
    ensures Sound(ps) && (c != null ==> c.IsOpen() && c.inUse && c !in old(pool.allocatedConns))
    ensures c == null <==> old(pool.freeConns) == {} && !answers
    ensures pool.allocatedConns == if c == null then old(pool.allocatedConns) else old(pool.allocatedConns) + {c}
    ensures fresh(pool.Connections() - old(pool.Connections()))
  {
    c := pool.Get(answers);
  }

  method GetFrom(ghost ps: set<Pool>, ghost m: map<ThriftConnection, Pool>, pool: Pool, answers: bool)
    returns (c: ThriftConnection?)
    requires pool in ps && Sound(ps) && Mapped(m, ps)
    modifies pool`freeConns, pool`allocatedConns, pool`closedConns, pool.freeConns, pool.closedConns
    ensures Sound(ps) && (c == null <==> old(pool.freeConns) == {} && !answers)
    ensures c == null ==> Mapped(m, ps)
    ensures c != null ==> c.IsOpen() && c.inUse && c !in m && Mapped(m[c := pool], ps)
    ensures fresh(pool.Connections() - old(pool.Connections()))
  {
    c := GetSoundly(ps, pool, answers);
    if c != null {
      assert c in pool.Connections();
    }
  }

  ghost predicate NotConnectedBefore(pools: seq<Pool>, index: nat, k: nat)
    reads AsSet(pools)
  {
    pools != [] ==> forall j: nat :: j < k ==> pools[Slot(index, j, |pools|)].status != Connected
  }

  /** The k-th pool cyclically from index is the first connected one, and index' is next. */
  ghost predicate FirstConnected(pools: seq<Pool>, index: nat, k: nat, pool: Pool, index': nat)
    reads AsSet(pools)
  {
    && k < |pools|
    && pool == pools[Slot(index, k, |pools|)]
    && pool.status == Connected
    && index' == Slot(index, k, |pools|) + 1
    && NotConnectedBefore(pools, index, k)
  }

  /** Where index_ is left by one look at each pool. */
  function AfterLooks(index: nat, n: nat): nat {
    if n == 0 then index else Slot(index, n - 1, n) + 1
  }

  /** The pool a get turns to, and where it leaves index_. */
  ghost predicate Chosen(pools: seq<Pool>, localhost: ThriftConnectionPool?, index: nat, pool: Pool, index': nat)
    reads AsSet(pools), localhost
  {
    if localhost != null && localhost.status == Connected then
      pool == localhost && index' == index
    else
      exists k :: FirstConnected(pools, index, k, pool, index')
  }

  lemma {:induction false} NoneConnected(pools: seq<Pool>, index: nat)
    requires NotConnectedBefore(pools, index, |pools|)
    ensures forall p <- pools :: p.status != Connected
  {
    forall p | p in pools
      ensures p.status != Connected
    {
      var slot :| 0 <= slot < |pools| && pools[slot] == p;
      var k := SlotComesUp(index, slot, |pools|);
    }
  }

  lemma NextIsTaken(pools: seq<Pool>, index: nat, k: nat, pool: Pool, index': nat)
    requires FirstConnected(pools, index, k, pool, index') && forall p <- pools :: p.status == Connected
    ensures pool == pools[Slot(index, 0, |pools|)] && index' == Slot(index, 0, |pools|) + 1
  {
  }

  /** The gets that leave index_ at indices[1], indices[2], ... took these pools. */
  ghost predicate Gets(pools: seq<Pool>, indices: seq<nat>, ks: seq<nat>, picks: seq<Pool>)
    reads AsSet(pools)
  {
    && |indices| == |picks| + 1 && |ks| == |picks|
    && forall j :: 0 <= j < |picks| ==> FirstConnected(pools, indices[j], ks[j], picks[j], indices[j + 1])
  }

  lemma {:induction false} GetTakesSlot(pools: seq<Pool>, indices: seq<nat>, ks: seq<nat>, picks: seq<Pool>, i: nat)
    requires Gets(pools, indices, ks, picks) && i < |picks| && forall p <- pools :: p.status == Connected
    ensures pools != [] && picks[i] == pools[Slot(indices[0], i, |pools|)]
  {
    NextIsTaken(pools, indices[i], ks[i], picks[i], indices[i + 1]);
    forall j | 0 < j < |indices|
      ensures indices[j] == Slot(indices[j - 1], 0, |pools|) + 1
    {
      assert FirstConnected(pools, indices[j - 1], ks[j - 1], picks[j - 1], indices[j - 1 + 1]);
      NextIsTaken(pools, indices[j - 1], ks[j - 1], picks[j - 1], indices[j]);
    }
    TurnsFollow(indices, |pools|, i);
  }

  /** While all pools are connected, as many gets without the shortcut as there are pools take
      each pool exactly once, wherever index_ stands. */
  lemma {:induction false} GetsTakeTurns(pools: seq<Pool>, indices: seq<nat>, ks: seq<nat>, picks: seq<Pool>, slot: nat)
    returns (i: nat)
    requires Gets(pools, indices, ks, picks) && |picks| == |pools| && forall p <- pools :: p.status == Connected
    requires slot < |pools| && forall other :: 0 <= other < |pools| && other != slot ==> pools[other] != pools[slot]
    ensures i < |picks| && picks[i] == pools[slot]
    ensures forall j :: 0 <= j < |picks| && j != i ==> picks[j] != pools[slot]
  {
    i := SlotComesUp(indices[0], slot, |pools|);
    GetTakesSlot(pools, indices, ks, picks, i);
    forall j | 0 <= j < |picks| && j != i
      ensures picks[j] != pools[slot]
    {
      GetTakesSlot(pools, indices, ks, picks, j);
      if j < i {
        SlotsDiffer(indices[0], j, i, |pools|);
      } else {
        SlotsDiffer(indices[0], i, j, |pools|);
      }
    }
  }

  /** A pool as its constructor leaves it. */
  ghost predicate Newborn(p: Pool)
    reads p, p.Connections()
  {
    p.Valid() && p.allocatedConns == {} && p.status == Closed
  }
}
