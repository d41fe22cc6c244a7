/** The event queue seen from outside: a bounded FIFO whose capacity grows one pool at a time.
    Module LogQueue implements it with linked lists; module Daemon runs it between two threads. */
module QueueSpec {
  import opened LogRecords
  import opened Bounds

  const UINT32_MAX := 0xFFFF_FFFF

  /** log_queue_params_t.  The three record counts are uint32_t, the waits are int. */
  datatype Params = Params(min: nat, max: nat, delta: nat,
                           waitMin: int32, waitMax: int32, waitDelta: int32, growThreshold: int32)

  /** What the configuration file can say and config_validate lets through. */
  predicate ConfigAccepts(p: Params) {
    p.min <= UINT32_MAX && p.max <= UINT32_MAX && p.delta <= UINT32_MAX &&
    (p.max != 0 ==> p.min <= p.max) &&
    (p.waitMax != 0 ==> p.waitMin <= p.waitMax)
  }

  /** The most records that may ever be allocated. */
  function Limit(p: Params): nat {
    if p.max != 0 then p.max else UINT32_MAX
  }

  /** The size of the next pool as computed when no record is free, after `k` pools holding `total` records. */
  function NextPool(p: Params, k: nat, total: nat): int {
    if k == 0 then p.min else Min(p.delta, Limit(p) - total)
  }

  /** The number of records after `k` pools, as the code adds them up. */
  function GrowthTotal(p: Params, k: nat): (total: nat)
    requires ConfigAccepts(p)
    ensures total <= Limit(p)
  {
    if k == 0 then 0 else GrowthTotal(p, k - 1) + NextPool(p, k - 1, GrowthTotal(p, k - 1))
  }

  /** The growth law: after k >= 1 pools the total is min(limit, min + (k-1) * delta). */
  lemma {:induction false} GrowthLaw(p: Params, k: nat)
    requires ConfigAccepts(p) && 1 <= k
    ensures GrowthTotal(p, k) == Min(Limit(p), p.min + (k - 1) * p.delta)
  {
    if k == 1 {
      assert GrowthTotal(p, 0) == 0;
    } else {
      GrowthLaw(p, k - 1);
      assert (k - 1) * p.delta == (k - 2) * p.delta + p.delta;
    }
  }

  lemma GrowthStep(p: Params, k: nat)
    requires ConfigAccepts(p)
    ensures GrowthTotal(p, k + 1) == GrowthTotal(p, k) + NextPool(p, k, GrowthTotal(p, k))
    ensures GrowthTotal(p, k) <= GrowthTotal(p, k + 1) <= Limit(p)
    ensures k == 0 ==> GrowthTotal(p, k) == 0
    ensures k == 0 || GrowthTotal(p, k) < Limit(p) ==>
      (NextPool(p, k, GrowthTotal(p, k)) == 0 <==> if k == 0 then p.min == 0 else p.delta == 0)
  {
  }

  lemma {:induction false} GrowthMonotone(p: Params, j: nat, k: nat)
    requires ConfigAccepts(p) && j <= k
    ensures GrowthTotal(p, j) <= GrowthTotal(p, k)
    decreases k
  {
    if j < k {
      GrowthMonotone(p, j, k - 1);
      GrowthStep(p, k - 1);
    }
  }

  /** A pool is added only when every record is in use and one more is needed, so the pool count is
      the least one whose capacity holds the peak load. */
  predicate LeastPools(p: Params, k: nat, peak: nat)
    requires ConfigAccepts(p)
  {
    peak <= GrowthTotal(p, k) && (k > 0 ==> GrowthTotal(p, k - 1) < peak)
  }

  lemma LeastPoolsIsLeast(p: Params, k: nat, peak: nat)
    requires ConfigAccepts(p) && LeastPools(p, k, peak)
    ensures peak <= GrowthTotal(p, k)
    ensures forall j: nat :: peak <= GrowthTotal(p, j) ==> k <= j
  {
    hide GrowthTotal;
    forall j: nat | peak <= GrowthTotal(p, j)
      ensures k <= j
    {
      if j < k {
        GrowthMonotone(p, j, k - 1);
      }
    }
  }

  /** The queue's state: the events in order, the number of pools, and the highest load so far. */
  datatype Queue = Queue(contents: seq<LogData>, pools: nat, peak: nat)

  ghost predicate Fits(p: Params, q: Queue)
    requires ConfigAccepts(p)
  {
    |q.contents| <= q.peak <= GrowthTotal(p, q.pools)
  }

  ghost predicate ValidQueue(p: Params, q: Queue)
    requires ConfigAccepts(p)
  {
    |q.contents| <= q.peak && LeastPools(p, q.pools, q.peak) && (p.min == 0 ==> q.pools == 0)
  }

  /** The two allocations of __log_queue_add_pool. */
  datatype Memory = Memory(callocOk: bool, reallocOk: bool)

  /** `NullRead`: a pool of no record was added, and the code reads through the NULL free list. */
  datatype TryResult = Stored | AtLimit | NoMemory | NullRead

  /** One lock-held attempt to store an event. */
  function TryPush(p: Params, q: Queue, d: LogData, m: Memory): (Queue, TryResult)
    requires ConfigAccepts(p)
  {
    var n := |q.contents|;
    if n < GrowthTotal(p, q.pools) then
      (Queue(q.contents + [d], q.pools, Max(q.peak, n + 1)), Stored)
    else if n == Limit(p) && q.pools != 0 then (q, AtLimit)
    else if !(m.callocOk && m.reallocOk) then (q, NoMemory)
    else if NextPool(p, q.pools, n) == 0 then (q.(pools := q.pools + 1), NullRead)
    else (Queue(q.contents + [d], q.pools + 1, Max(q.peak, n + 1)), Stored)
  }

  /** One lock-held removal. */
  function PopOne(q: Queue): Queue {
    if q.contents == [] then q else q.(contents := q.contents[1..])
  }

  /** `at_limit` is reported exactly when all records the limit allows are in use; then nothing
      changes.  Otherwise the event joins the end of the queue, or memory ran out, or a parameter the
      configuration check lets through is zero and the code reads through NULL. */
  lemma TryPushMeaning(p: Params, q: Queue, d: LogData, m: Memory)
    requires ConfigAccepts(p) && ValidQueue(p, q)
    ensures var (q', r) := TryPush(p, q, d, m);
      && (r != NullRead ==> ValidQueue(p, q'))
      && Fits(p, q')
      && (r == AtLimit <==> |q.contents| == Limit(p))
      && (r == AtLimit ==> GrowthTotal(p, q.pools) == Limit(p))
      && (|q.contents| < GrowthTotal(p, q.pools) ==> r == Stored && q'.pools == q.pools)
      && (r == Stored ==> q'.contents == q.contents + [d] && |q.contents| < Limit(p))
      && (r == Stored ==> q'.peak == Max(q.peak, |q.contents| + 1))
      && (r == AtLimit || r == NoMemory ==> q' == q)
      && (r == NoMemory <==> !(m.callocOk && m.reallocOk) && |q.contents| == GrowthTotal(p, q.pools) < Limit(p))
      && (r == NullRead <==> m.callocOk && m.reallocOk && Starved(p, q))
      && (r == NullRead ==> q'.contents == q.contents && q'.peak == q.peak)
      && q.pools <= q'.pools <= q.pools + 1
      && (q'.pools == q.pools + 1 ==> |q.contents| == GrowthTotal(p, q.pools))
  {
    GrowthStep(p, q.pools);
  }

  /** The attempt by cases, as the code meets them. */
  lemma TryPushCases(p: Params, q: Queue, d: LogData, m: Memory)
    requires ConfigAccepts(p) && ValidQueue(p, q)
    ensures var (q', r), n := TryPush(p, q, d, m), |q.contents|;
      if n < GrowthTotal(p, q.pools) then
        r == Stored && q' == Queue(q.contents + [d], q.pools, Max(q.peak, n + 1))
      else
        && (r == AtLimit <==> q.pools != 0 && n == Limit(p))
        && (r == NoMemory <==> r != AtLimit && !(m.callocOk && m.reallocOk))
        && (r == NullRead ==> NextPool(p, q.pools, n) == 0 && q' == q.(pools := q.pools + 1))
        && (r == Stored ==> NextPool(p, q.pools, n) != 0)
        && (r == Stored ==> q' == Queue(q.contents + [d], q.pools + 1, Max(q.peak, n + 1)))
        && (r == AtLimit || r == NoMemory ==> q' == q)
  {
  }

  /** Every record is in use below the limit, and the parameter that sizes the next pool is zero. */
  predicate Starved(p: Params, q: Queue)
    requires ConfigAccepts(p)
  {
    && |q.contents| == GrowthTotal(p, q.pools) < Limit(p)
    && if q.pools == 0 then p.min == 0 else p.delta == 0
  }

  /** The accepted configurations under which the queue can starve. */
  predicate CanStarve(p: Params) {
    p.min == 0 || (p.delta == 0 && p.min < Limit(p))
  }

  /** How full the queue can get. */
  function Capacity(p: Params): nat {
    if p.delta == 0 then p.min else if p.min == 0 then 0 else Limit(p)
  }

  /** A valid queue starves only at the capacity of a configuration that can starve. */
  lemma StarvedOnlyAtCapacity(p: Params, q: Queue)
    requires ConfigAccepts(p) && ValidQueue(p, q)
    ensures Starved(p, q) ==> CanStarve(p) && |q.contents| == Capacity(p)
    ensures CanStarve(p) && |q.contents| == Capacity(p) ==> Starved(p, q)
    ensures |q.contents| <= Capacity(p)
  {
    if q.pools >= 1 {
      GrowthLaw(p, q.pools);
      if q.pools >= 2 {
        GrowthLaw(p, q.pools - 1);
      }
    }
  }
}
