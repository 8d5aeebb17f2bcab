/** Memory pools of the operating system library, as the pool tests pin
    them down: a pool holds a set of free objects of one size; allocation
    takes one, freeing gives one back. When the pool is empty an
    allocation asks the pool's provider, if it has one, and yields NULL
    when there is none or the provider has nothing either.

    A guarded pool adds a counting semaphore equal to the number of free
    objects; its allocation waits on the semaphore with a timeout. */
module Pools {
  import opened Common

  /** An object is identified by its address. */
  type Object = nat

  /** A pool: its free objects and whether it has a provider. */
  datatype Pool = Pool(free: seq<Object>, hasProvider: bool)

  /** A pool as object initialisation leaves it: empty. */
  function Init(hasProvider: bool): (p: Pool)
    ensures |p.free| == 0 && p.hasProvider == hasProvider
  {
    Pool([], hasProvider)
  }

  /** Giving an object to the pool. */
  function Free(p: Pool, obj: Object): (q: Pool)
    ensures multiset(q.free) == multiset(p.free) + multiset{obj}
    ensures q.hasProvider == p.hasProvider
  {
    p.(free := [obj] + p.free)
  }

  /** Giving an array of objects to the pool, one after the other. */
  function LoadArray(p: Pool, objs: seq<Object>): (q: Pool)
    ensures multiset(q.free) == multiset(p.free) + multiset(objs)
    ensures |q.free| == |p.free| + |objs|
    ensures q.hasProvider == p.hasProvider
    decreases |objs|
  {
    if |objs| == 0 then p
    else
      assert objs == [objs[0]] + objs[1..];
      LoadArray(Free(p, objs[0]), objs[1..])
  }

  /** Taking an object. A non-empty pool hands out one of its free
      objects. An empty pool without a provider yields `None`; with one,
      it yields what the provider returns, `provided`. */
  function Alloc(p: Pool, provided: Option<Object>): (r: (Pool, Option<Object>))
    ensures |p.free| > 0 ==> r.1.Some? && |r.0.free| == |p.free| - 1
                             && multiset(p.free) == multiset(r.0.free) + multiset{r.1.value}
    ensures |p.free| == 0 ==> r.0 == p && r.1 == (if p.hasProvider then provided else None)
    ensures r.0.hasProvider == p.hasProvider
  {
    if |p.free| > 0 then
      assert p.free == [p.free[0]] + p.free[1..];
      (p.(free := p.free[1..]), Some(p.free[0]))
    else if p.hasProvider then (p, provided)
    else (p, None)
  }

  /** `n` allocations in a row from a pool with no provider. */
  function AllocMany(p: Pool, n: nat): (r: (Pool, seq<Option<Object>>))
    requires !p.hasProvider
    ensures |r.1| == n && !r.0.hasProvider
    decreases n
  {
    if n == 0 then (p, [])
    else
      var a := Alloc(p, None);
      var rest := AllocMany(a.0, n - 1);
      (rest.0, [a.1] + rest.1)
  }

  /** The objects of a sequence of allocation results that succeeded. */
  function Obtained(os: seq<Option<Object>>): multiset<Object>
    decreases |os|
  {
    if |os| == 0 then multiset{}
    else (if os[0].Some? then multiset{os[0].value} else multiset{}) + Obtained(os[1..])
  }

  /** Allocating no more than the pool holds: every allocation succeeds,
      and the objects handed out together with those left are exactly the
      pool's objects. */
  lemma {:induction false} AllocManySucceeds(p: Pool, n: nat)
    requires !p.hasProvider && n <= |p.free|
    ensures None !in AllocMany(p, n).1
    ensures |AllocMany(p, n).0.free| == |p.free| - n
    ensures Obtained(AllocMany(p, n).1) + multiset(AllocMany(p, n).0.free) == multiset(p.free)
    decreases n
  {
    if n > 0 {
      var r := Alloc(p, None);
      var q, o := r.0, r.1;
      AllocManySucceeds(q, n - 1);
      var rest := AllocMany(q, n - 1);
      var os := [o] + rest.1;
      assert AllocMany(p, n) == (rest.0, os);
      assert os[1..] == rest.1;
      assert Obtained(os) == multiset{o.value} + Obtained(rest.1);
    }
  }

  /** An empty pool without a provider yields `None` and stays empty. */
  lemma EmptyPoolYieldsNull(p: Pool, provided: Option<Object>)
    requires |p.free| == 0 && !p.hasProvider
    ensures Alloc(p, provided) == (p, None)
  {
  }

  /** A provider that has no memory makes an empty pool yield `None`. */
  lemma NullProviderYieldsNull(p: Pool)
    requires |p.free| == 0 && p.hasProvider
    ensures Alloc(p, None) == (p, None)
  {
  }

  /** Loading N objects into an empty pool without a provider: N
      allocations succeed and hand out exactly those objects, after which
      the pool is empty and the next allocation yields `None`. */
  lemma LoadThenDrain(p: Pool, objs: seq<Object>)
    requires !p.hasProvider && |p.free| == 0
    ensures var r := AllocMany(LoadArray(p, objs), |objs|);
            None !in r.1
            && Obtained(r.1) == multiset(objs)
            && |r.0.free| == 0 && !r.0.hasProvider
            && Alloc(r.0, None).1.None?
  {
    var q := LoadArray(p, objs);
    AllocManySucceeds(q, |objs|);
    var r := AllocMany(q, |objs|);
    assert r.0.free == [];
    assert multiset(p.free) == multiset{};
    assert multiset(q.free) == multiset(objs);
    assert Obtained(r.1) + multiset(r.0.free) == multiset(q.free);
  }

  /** The pool test: load N objects, N allocations succeed, the next yields
      NULL; free the N objects, and the same again; a pool whose provider
      has nothing yields NULL. */
  lemma PoolTest(objs: seq<Object>)
    ensures var p1 := AllocMany(LoadArray(Init(false), objs), |objs|);
            None !in p1.1
            && Alloc(p1.0, None).1.None?
            && var p2 := AllocMany(LoadArray(p1.0, objs), |objs|);
            None !in p2.1
            && Alloc(p2.0, None).1.None?
    ensures Alloc(Init(true), None).1.None?
  {
    LoadThenDrain(Init(false), objs);
    var p1 := AllocMany(LoadArray(Init(false), objs), |objs|);
    LoadThenDrain(p1.0, objs);
  }

  // ---------------------------------------------------------------------
  // Guarded pools.

  /** A guarded pool: a pool without a provider and a semaphore counting
      its free objects. */
  datatype GuardedPool = GuardedPool(pool: Pool, count: nat)

  predicate GuardedValid(g: GuardedPool) {
    !g.pool.hasProvider && g.count == |g.pool.free|
  }

  function GuardedInit(): (g: GuardedPool)
    ensures GuardedValid(g) && g.count == 0
  {
    GuardedPool(Init(false), 0)
  }

  /** Freeing signals the semaphore. */
  function GuardedFree(g: GuardedPool, obj: Object): (h: GuardedPool)
    requires GuardedValid(g)
    ensures GuardedValid(h) && h.count == g.count + 1
    ensures multiset(h.pool.free) == multiset(g.pool.free) + multiset{obj}
  {
    GuardedPool(Free(g.pool, obj), g.count + 1)
  }

  function GuardedLoadArray(g: GuardedPool, objs: seq<Object>): (h: GuardedPool)
    requires GuardedValid(g)
    ensures GuardedValid(h) && h.count == g.count + |objs|
    ensures multiset(h.pool.free) == multiset(g.pool.free) + multiset(objs)
    decreases |objs|
  {
    if |objs| == 0 then g
    else
      assert objs == [objs[0]] + objs[1..];
      GuardedLoadArray(GuardedFree(g, objs[0]), objs[1..])
  }

  /** Allocation with a timeout, in system ticks (0 is an immediate
      attempt). The model has a single thread, so nobody frees an object
      while the caller waits: on an empty pool the wait runs out, whatever
      the timeout, and the result is `None`. */
  function GuardedAlloc(g: GuardedPool, timeout: nat): (r: (GuardedPool, Option<Object>))
    requires GuardedValid(g)
    ensures GuardedValid(r.0)
    ensures g.count > 0 <==> r.1.Some?
    ensures r.1.Some? ==> r.0.count == g.count - 1
                          && multiset(g.pool.free) == multiset(r.0.pool.free) + multiset{r.1.value}
    ensures r.1.None? ==> r.0 == g
  {
    if g.count > 0 then
      var a := Alloc(g.pool, None);
      (GuardedPool(a.0, g.count - 1), a.1)
    else (g, None)
  }

  function GuardedAllocMany(g: GuardedPool, n: nat, timeout: nat): (r: (GuardedPool, seq<Option<Object>>))
    requires GuardedValid(g)
    ensures GuardedValid(r.0) && |r.1| == n
    decreases n
  {
    if n == 0 then (g, [])
    else
      var a := GuardedAlloc(g, timeout);
      var rest := GuardedAllocMany(a.0, n - 1, timeout);
      (rest.0, [a.1] + rest.1)
  }

  /** A guarded pool holding at least `n` objects grants `n` allocations
      and counts them down. */
  lemma {:induction false} GuardedAllocManySucceeds(g: GuardedPool, n: nat, timeout: nat)
    requires GuardedValid(g) && n <= g.count
    ensures None !in GuardedAllocMany(g, n, timeout).1
    ensures GuardedAllocMany(g, n, timeout).0.count == g.count - n
    decreases n
  {
    if n > 0 {
      var a := GuardedAlloc(g, timeout);
      GuardedAllocManySucceeds(a.0, n - 1, timeout);
    }
  }

  /** Loading N objects into an empty guarded pool: N immediate
      allocations succeed and the next one yields `None`. */
  lemma GuardedLoadThenDrain(g: GuardedPool, objs: seq<Object>)
    requires GuardedValid(g) && g.count == 0
    ensures var r := GuardedAllocMany(GuardedLoadArray(g, objs), |objs|, 0);
            None !in r.1
            && r.0.count == 0 && GuardedAlloc(r.0, 0).1.None?
  {
    GuardedAllocManySucceeds(GuardedLoadArray(g, objs), |objs|, 0);
  }

  /** The guarded pool test with immediate timeouts: load N, N successes,
      then NULL; free N, N successes, then NULL. */
  lemma GuardedPoolTest(objs: seq<Object>)
    ensures var g1 := GuardedAllocMany(GuardedLoadArray(GuardedInit(), objs), |objs|, 0);
            None !in g1.1
            && GuardedAlloc(g1.0, 0).1.None?
            && var g2 := GuardedAllocMany(GuardedLoadArray(g1.0, objs), |objs|, 0);
            None !in g2.1
            && GuardedAlloc(g2.0, 0).1.None?
  {
    GuardedLoadThenDrain(GuardedInit(), objs);
    var g1 := GuardedAllocMany(GuardedLoadArray(GuardedInit(), objs), |objs|, 0);
    GuardedLoadThenDrain(g1.0, objs);
  }

  /** The timeout test: an empty guarded pool yields NULL even when the
      caller is willing to wait (100 ms at any tick rate). */
  lemma GuardedTimeoutTest(timeout: nat)
    ensures GuardedAlloc(GuardedInit(), timeout).1.None?
  {
  }
}
