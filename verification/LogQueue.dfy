/** The event queue as the PAM daemon stores it (pam-daemon/log_queue.c): records live in pools and
    are threaded through one `link` field into a free chain and a used chain.  Every method here is
    one lock-held critical section; the address of the queue structure itself is not modelled. */
module LogQueue {
  import opened LogRecords
  import opened Options
  import opened Bounds
  import opened QueueSpec
  import opened Backoff

  newtype uint32 = x: int | 0 <= x <= 0xFFFF_FFFF

  /** One slot.  A zeroed allocation has a NULL link and zero bytes. */
  class Slot {
    var link: Slot?
    var data: LogData

    constructor ()
      ensures link == null
    {
      link := null;
      data := LogData(Zeros(IPADDR_SIZE), Zeros(IPADDR_SIZE), 0, 0, 0, Zeros(UID_SIZE), Zeros(DATE_SIZE));
    }
  }

  /** Following `link` from `head` visits exactly `slots`, in order, and then meets NULL. */
  ghost predicate Chain(head: Slot?, slots: seq<Slot>)
    reads slots
  {
    head == (if slots == [] then null else slots[0]) &&
    forall i {:trigger slots[i].link} :: 0 <= i < |slots| ==>
      slots[i].link == (if i + 1 < |slots| then slots[i + 1] else null)
  }

  ghost predicate Distinct(slots: seq<Slot>) {
    forall i, j :: 0 <= i < j < |slots| ==> slots[i] != slots[j]
  }

  ghost predicate Apart(a: seq<Slot>, b: seq<Slot>) {
    forall i, j :: 0 <= i < |a| && 0 <= j < |b| ==> a[i] != b[j]
  }

  ghost function Flatten(pools: seq<seq<Slot>>): seq<Slot> {
    if pools == [] then [] else Flatten(pools[..|pools| - 1]) + pools[|pools| - 1]
  }

  /** The two chains together hold every slot of every pool exactly once (they repeat none). */
  ghost predicate Accounted(free: seq<Slot>, used: seq<Slot>, pools: seq<seq<Slot>>) {
    multiset(free) + multiset(used) == multiset(Flatten(pools))
  }

  /** A sequence without its element at `i`. */
  ghost function Without<T>(s: seq<T>, i: nat): (r: seq<T>)
    requires i < |s|
    ensures |r| == |s| - 1
  {
    s[..i] + s[i + 1..]
  }

  ghost predicate Owned(slots: set<Slot>, free: seq<Slot>, used: seq<Slot>) {
    (forall s :: s in free ==> s in slots) && (forall s :: s in used ==> s in slots)
  }

  ghost function TailOf(slots: seq<Slot>): Slot? {
    if slots == [] then null else slots[|slots| - 1]
  }

  class Queue {
    const params: Params
    var nRecFree: uint32
    var nRecUsed: uint32
    var freeHead: Slot?
    var usedHead: Slot?
    var usedTail: Slot?
    var recPools: seq<seq<Slot>>

    ghost var free: seq<Slot>
    ghost var used: seq<Slot>
    ghost var contents: seq<LogData>
    ghost var peak: nat
    ghost var slots: set<Slot>

    /** The chains are acyclic and disjoint and the used chain ends at its tail. */
    ghost predicate Linked()
      reads this, free, used
    {
      && Chain(freeHead, free)
      && Chain(usedHead, used)
      && usedTail == TailOf(used)
      && Distinct(free) && Distinct(used) && Apart(free, used)
    }

    /** Together the chains hold every slot of every pool exactly once, the counters are their
        lengths, and the allocated total follows the growth law. */
    ghost predicate Counted()
      reads this
    {
      && ConfigAccepts(params)
      && Accounted(free, used, recPools)
      && nRecFree as int == |free|
      && nRecUsed as int == |used|
      && |free| + |used| == GrowthTotal(params, |recPools|)
    }

    ghost predicate Holds()
      reads this, used
    {
      && |contents| == |used|
      && forall i :: 0 <= i < |used| ==> used[i].data == contents[i]
    }

    ghost predicate Valid()
      reads this, slots, free, used
    {
      && ConfigAccepts(params) && Owned(slots, free, used)
      && Linked() && Counted() && Holds() && ValidQueue(params, Abstract())
    }

    ghost function Abstract(): QueueSpec.Queue
      reads this
    {
      QueueSpec.Queue(contents, |recPools|, peak)
    }

    constructor (params: Params)
      requires ConfigAccepts(params)
      ensures Valid() && this.params == params
      ensures Abstract() == QueueSpec.Queue([], 0, 0)
      ensures free == [] && used == []
    {
      this.params := params;
      nRecFree, nRecUsed := 0, 0;
      freeHead, usedHead, usedTail := null, null, null;
      recPools := [];
      free, used, contents, peak, slots := [], [], [], 0, {};
    }

    /** __log_queue_add_pool: zeroed slots are pushed one by one onto the free chain; when either
        allocation fails nothing changes. */
    method AddPool(n: uint32, memory: Memory) returns (ok: bool)
      requires Linked()
      requires Accounted(free, used, recPools)
      requires nRecFree as int == |free| && |free| + n as int <= UINT32_MAX
      modifies this`nRecFree, this`freeHead, this`recPools, this`free
      ensures ok <==> memory.callocOk && memory.reallocOk
      ensures !ok ==> unchanged(this)
      ensures ok ==> |recPools| == |old(recPools)| + 1 && recPools[..|old(recPools)|] == old(recPools)
      ensures ok ==> |recPools[|old(recPools)|]| == n as int && fresh(recPools[|old(recPools)|])
      ensures ok ==> |free| == |old(free)| + n as int && free[n as int..] == old(free)
      ensures ok ==> fresh(free[..n as int])
      ensures nRecFree as int == |free|
      ensures Linked()
      ensures Accounted(free, used, recPools)
    {
      if !memory.callocOk {
        return false;
      }
      var nextPool := NewPool(n);
      if !memory.reallocOk {
        return false;
      }
      ok := true;
      recPools := recPools + [nextPool];
      nRecFree := nRecFree + n;
      assert Apart(nextPool, free) && Apart(nextPool, used);
      hide Accounted, Distinct, Apart;
      LinkPool(nextPool);
      PoolJoins(free, old(free), used, nextPool, recPools, old(recPools));
    }

    /** Push the slots of a new pool onto the free chain, first slot first. */
    method LinkPool(pool: seq<Slot>)
      requires Chain(freeHead, free) && Apart(pool, free) && Distinct(pool)
      modifies this`freeHead, this`free, pool
      ensures Chain(freeHead, free)
      ensures |free| == |old(free)| + |pool| && free[|pool|..] == old(free)
      ensures forall k :: 0 <= k < |pool| ==> free[k] == pool[|pool| - 1 - k]
    {
      var i := 0;
      while i < |pool|
        invariant 0 <= i <= |pool|
        invariant |free| == |old(free)| + i && free[i..] == old(free)
        invariant forall k :: 0 <= k < i ==> free[k] == pool[i - 1 - k]
        invariant Chain(freeHead, free)
      {
        var r := pool[i];
        forall k | 0 <= k < |free|
          ensures free[k] != r
        {
          if k >= i { assert free[k] == free[i..][k - i]; }
        }
        r.link := freeHead;
        freeHead := r;
        free := [r] + free;
        i := i + 1;
      }
    }

    /** calloc: `n` new slots. */
    method NewPool(n: uint32) returns (pool: seq<Slot>)
      ensures |pool| == n as int && fresh(pool) && Distinct(pool)
    {
      pool := [];
      while |pool| < n as int
        invariant |pool| <= n as int && fresh(pool) && Distinct(pool)
      {
        var r := new Slot();
        pool := pool + [r];
      }
    }

    /** Unlink the head of the free chain. */
    method TakeFree() returns (r: Slot)
      requires Linked() && free != [] && nRecFree as int == |free|
      modifies this`freeHead, this`nRecFree, this`free
      ensures r == old(free)[0] && free == old(free)[1..] && nRecFree == old(nRecFree) - 1
      ensures Linked() && Apart([r], free) && Apart([r], used)
    {
      assert free[0] == freeHead && [freeHead][0] == freeHead;
      r := freeHead;
      freeHead := r.link;
      nRecFree := nRecFree - 1;
      free := free[1..];
    }

    /** Append a slot to the used chain. */
    method AppendUsed(r: Slot)
      requires Linked() && |used| < UINT32_MAX && nRecUsed as int == |used|
      requires Apart([r], free) && Apart([r], used)
      modifies this`usedHead, this`usedTail, this`nRecUsed, this`used
      modifies r`link, (if usedTail != null then {usedTail} else {})`link
      ensures used == old(used) + [r]
      ensures nRecUsed == old(nRecUsed) + 1
      ensures Linked()
    {
      assert [r][0] == r;
      r.link := null;
      if usedTail != null {
        usedTail.link := r;
        usedTail := r;
      } else {
        usedHead, usedTail := r, r;
      }
      nRecUsed := nRecUsed + 1;
      used := used + [r];
    }

    /** The caller's copy of the event into the slot at the end of the used chain. */
    method CopyEvent(r: Slot, data: LogData)
      requires Linked() && used != [] && r == TailOf(used)
      requires |contents| == |used| - 1 && forall i :: 0 <= i < |contents| ==> used[i].data == contents[i]
      modifies r`data, this`contents, this`peak
      ensures contents == old(contents) + [data]
      ensures peak == Max(old(peak), |contents|)
      ensures Linked() && Holds()
    {
      r.data := data;
      contents := contents + [data];
      peak := Max(peak, |contents|);
    }

    /** The size of the pool to add when no slot is free; `atLimit` when none may be added. */
    method NextPoolSize() returns (n: uint32, atLimit: bool)
      requires Counted() && free == []
      ensures atLimit <==> |recPools| != 0 && |used| == Limit(params)
      ensures n as int == NextPool(params, |recPools|, |used|)
    {
      atLimit := false;
      if |recPools| == 0 {
        n := params.min as uint32;
      } else {
        n := nRecFree + nRecUsed;
        n := if params.max != 0 then params.max as uint32 - n else 0xFFFF_FFFF - n;
        if n == 0 {
          atLimit := true;
          return;
        }
        if n as int > params.delta {
          n := params.delta as uint32;
        }
      }
    }

    /** __log_queue_alloc_record, with the copy that its caller makes under the same lock: move a free
        slot to the end of the used chain, growing when no slot is free and the limit allows.  `nullRead`
        when the pool that was added is empty and the code reads through the NULL free list. */
    method AllocRecord(data: LogData, memory: Memory) returns (r: Slot?, atLimit: bool, nullRead: bool)
      requires Valid()
      modifies this, slots
      ensures !nullRead ==> Valid()
      ensures nullRead ==> Linked() && Counted() && Holds() && freeHead == null
      ensures nullRead ==> used == old(used) && contents == old(contents) && unchanged(old(slots))
      ensures fresh(slots - old(slots))
      ensures Abstract() == TryPush(params, old(Abstract()), data, memory).0
      ensures r != null <==> TryPush(params, old(Abstract()), data, memory).1 == Stored
      ensures atLimit <==> TryPush(params, old(Abstract()), data, memory).1 == AtLimit
      ensures nullRead <==> TryPush(params, old(Abstract()), data, memory).1 == NullRead
      ensures r != null ==> used == old(used) + [r]
      ensures r == null && !nullRead ==> unchanged(this) && unchanged(old(slots))
    {
      hide TryPush, ValidQueue, Starved, Fits, Accounted, Chain, Distinct, Apart, GrowthTotal, NextPool, Owned;
      TryPushMeaning(params, Abstract(), data, memory);
      TryPushCases(params, Abstract(), data, memory);
      atLimit, nullRead := false, false;
      r := null;
      if nRecFree == 0 {
        var ok;
        ok, atLimit := Grow(memory);
        if !ok {
          return;
        }
        if freeHead == null {
          nullRead := true;
          return;
        }
      }
      r := StoreFree(data);
    }

    /** No slot is free: add a pool unless the limit is reached. */
    method Grow(memory: Memory) returns (ok: bool, atLimit: bool)
      requires Linked() && Counted() && Holds() && Owned(slots, free, used) && free == []
      modifies this`nRecFree, this`freeHead, this`recPools, this`free, this`slots
      ensures Linked() && Counted() && Holds() && Owned(slots, free, used)
      ensures atLimit <==> |old(recPools)| != 0 && |used| == Limit(params)
      ensures ok <==> !atLimit && memory.callocOk && memory.reallocOk
      ensures !ok ==> unchanged(this)
      ensures ok ==> |recPools| == |old(recPools)| + 1 && |free| == NextPool(params, |old(recPools)|, |used|)
      ensures ok ==> (freeHead == null <==> free == [])
      ensures fresh(slots - old(slots))
    {
      hide Accounted, Chain, Distinct, Apart, GrowthTotal, NextPool;
      GrowthStep(params, |recPools|);
      ok := false;
      var n;
      n, atLimit := NextPoolSize();
      if atLimit {
        return;
      }
      ok := AddPool(n, memory);
      if ok {
        assert free == free[..n as int];
        HeadIsNull(freeHead, free);
        slots := slots + set s | s in free;
      }
    }

    /** The common tail of the allocation: the head of the free chain becomes the end of the used chain. */
    method StoreFree(data: LogData) returns (r: Slot)
      requires Linked() && Counted() && Holds() && free != []
      requires Owned(slots, free, used)
      modifies this`freeHead, this`usedHead, this`usedTail, this`nRecFree, this`nRecUsed,
               this`free, this`used, this`contents, this`peak, slots
      ensures Linked() && Counted() && Holds()
      ensures Owned(slots, free, used)
      ensures used == old(used) + [r] && contents == old(contents) + [data]
      ensures peak == Max(old(peak), |contents|)
    {
      hide Accounted, GrowthTotal, Chain, Distinct, Apart, Owned;
      OwnedHead(slots, free, used);
      r := TakeFree();
      AccountMoved(old(free), free, used, used + [r], recPools, slots);
      AppendUsed(r);
      assert used[..|used| - 1] == old(used);
      CopyEvent(r, data);
    }

    /** __log_queue_dealloc_record: find the slot in the used chain, unlink it wherever it is, and push
        it onto the free chain; a slot that is not in the used chain changes nothing. */
    method DeallocRecord(oldRec: Slot) returns (ghost at: int)
      requires Valid()
      modifies this, slots
      ensures Valid() && slots == old(slots) && recPools == old(recPools) && peak == old(peak)
      ensures at == -1 ==> oldRec !in old(used) && unchanged(this) && unchanged(old(slots))
      ensures at != -1 ==> 0 <= at < |old(used)| && old(used)[at] == oldRec
      ensures at != -1 ==> used == Without(old(used), at) && free == [oldRec] + old(free)
      ensures at != -1 ==> contents == Without(old(contents), at)
    {
      hide Accounted, Owned, Chain, Distinct, Apart, GrowthTotal, LeastPools, TailOf;
      var lastRec, curRec;
      at, lastRec, curRec := FindUsed(oldRec);
      if curRec != null {
        Release(lastRec, curRec, at);
      }
    }

    /** What follows a successful search: take the slot at position `at` out of the used chain and give it
        back to the free chain. */
    method Release(lastRec: Slot?, curRec: Slot, ghost at: nat)
      requires Valid()
      requires at < |used| && curRec == used[at] && lastRec == (if at > 0 then used[at - 1] else null)
      modifies this`usedHead, this`usedTail, this`freeHead, this`nRecFree, this`nRecUsed,
               this`used, this`free, this`contents, slots
      ensures Linked() && Counted() && Holds() && Owned(slots, free, used)
      ensures free == [curRec] + old(free)
      ensures used == Without(old(used), at)
      ensures contents == Without(old(contents), at)
    {
      hide Accounted, Owned, Chain, Distinct, Apart, GrowthTotal, ValidQueue, TailOf, Without;
      OwnedAt(slots, free, used, at);
      Unlink(lastRec, curRec, at);
      Forget(old(used), at);
      GiveBack(curRec);
      AccountRemoved(old(free), free, old(used), used, at, recPools, slots);
    }

    /** Walk the used chain to a slot, remembering the slot before it. */
    method FindUsed(oldRec: Slot) returns (ghost at: int, lastRec: Slot?, curRec: Slot?)
      requires Linked()
      ensures curRec == null <==> at == -1
      ensures curRec == null ==> oldRec !in used
      ensures curRec != null ==> 0 <= at < |used| && curRec == oldRec == used[at]
      ensures curRec != null ==> lastRec == (if at > 0 then used[at - 1] else null)
    {
      lastRec, curRec := null, usedHead;
      at := 0;
      while curRec != null && curRec != oldRec
        invariant 0 <= at <= |used|
        invariant curRec == if at < |used| then used[at] else null
        invariant lastRec == if at > 0 then used[at - 1] else null
        invariant forall k :: 0 <= k < at ==> used[k] != oldRec
        decreases |used| - at
      {
        lastRec, curRec := curRec, curRec.link;
        at := at + 1;
      }
      if curRec == null {
        at := -1;
      }
    }

    /** Drop the event of a slot that has left the used chain. */
    ghost method Forget(used0: seq<Slot>, at: nat)
      requires at < |used0| && used == Without(used0, at) && |contents| == |used0|
      requires forall i :: 0 <= i < |used0| ==> used0[i].data == contents[i]
      modifies this`contents
      ensures Holds() && contents == Without(old(contents), at)
    {
      contents := Without(contents, at);
    }

    /** The pointer surgery of a removal at position `i` of the used chain. */
    method Unlink(lastRec: Slot?, curRec: Slot, ghost i: nat)
      requires Linked()
      requires i < |used| && curRec == used[i] && lastRec == (if i > 0 then used[i - 1] else null)
      modifies this`usedHead, this`usedTail, this`used
      modifies (if lastRec != null then {lastRec} else {})`link
      ensures Linked()
      ensures Apart([curRec], used) && Apart([curRec], free)
      ensures used == Without(old(used), i)
    {
      RemovedApart(used, free, i);
      hide Distinct, Apart;
      ghost var rest := Without(used, i);
      if lastRec != null {
        lastRec.link := curRec.link;
      }
      if curRec == usedTail {
        usedTail := lastRec;
      }
      if curRec == usedHead {
        usedHead := curRec.link;
      }
      assert forall k :: 0 <= k < |rest| ==> rest[k] == used[if k < i then k else k + 1];
      used := rest;
    }

    /** Prepend a slot that is in neither chain to the free chain. */
    method GiveBack(curRec: Slot)
      requires Linked() && Apart([curRec], used) && Apart([curRec], free)
      requires nRecUsed > 0 && nRecFree < 0xFFFF_FFFF
      modifies this`freeHead, this`nRecFree, this`nRecUsed, this`free, curRec`link
      ensures Linked()
      ensures free == [curRec] + old(free)
      ensures nRecFree == old(nRecFree) + 1 && nRecUsed == old(nRecUsed) - 1
    {
      assert [curRec][0] == curRec;
      curRec.link := freeHead;
      freeHead := curRec;
      nRecFree, nRecUsed := nRecFree + 1, nRecUsed - 1;
      free := [curRec] + free;
    }

    /** log_queue_pop after any waiting: copy out the oldest event and free its slot. */
    method Pop(buffer: LogData) returns (rc: bool, data: LogData)
      requires Valid()
      modifies this, slots
      ensures Valid() && slots == old(slots) && recPools == old(recPools)
      ensures Abstract() == PopOne(old(Abstract()))
      ensures rc <==> old(contents) != []
      ensures data == if rc then old(contents)[0] else buffer
    {
      rc, data := false, buffer;
      if usedHead != null {
        data := usedHead.data;
        rc := true;
        var _ := DeallocRecord(usedHead);
      }
    }

    /** log_queue_push: try, and while every record is in use sleep with a stepped backoff.  Round `k`
        says how the k-th attempt's allocations go and how many removals the consumer makes while the
        sleep after it lasts; a push that outlives the rounds is still blocked.  `waits` are the arguments
        of sleep(), and `popped` is what the consumer removed. */
    method Push(data: LogData, rounds: seq<Round>)
        returns (outcome: PushOutcome, waits: seq<nat>, popped: seq<LogData>)
      requires Valid()
      modifies this, slots
      ensures outcome != ReadNull ==> Valid()
      ensures fresh(slots - old(slots))
      ensures Pushed(PushStart(params, old(contents), old(nRecFree) as int, Starved(params, old(Abstract())), data, rounds),
                     outcome, waits, popped, contents)
    {
      hide Valid, GrowthTotal, Starved, SleepAt, WaitAt, SleepsOf, NoPops, Pushing;
      NothingFree();
      ghost var start := PushStart(params, contents, nRecFree as int, Starved(params, Abstract()), data, rounds);
      waits, popped := [], [];
      var wait := FirstWait(params);
      PushStarts(start);
      while |waits| < |rounds|
        invariant |waits| <= |rounds| && Valid()
        invariant Pushing(start, waits, popped, contents, nRecFree as int, wait)
        invariant waits == [] ==> Abstract() == old(Abstract())
        invariant fresh(slots - old(slots))
        decreases |rounds| - |waits|
      {
        ghost var c, free := contents, nRecFree as int;
        NothingFree();
        ghost var starved := Starved(params, Abstract());
        var result := TryStore(data, rounds[|waits|].memory);
        PushTries(start, waits, popped, c, free, wait, starved, result);
        if result != AtLimit {
          outcome := OutcomeOf(result);
          return;
        }
        var slept := Slept(wait.seconds);
        var drained := Drain(data, rounds[|waits|].pops);
        var next := StepWait(wait);
        PushSleeps(start, waits, popped, c, free, wait, starved, drained, contents, nRecFree as int, next);
        waits, popped := waits + [slept], popped + drained;
        if next.None? {
          outcome := Overflowed;
          return;
        }
        wait := next.value;
      }
      PushBlocked(start, waits, popped, contents, nRecFree as int, wait);
      outcome := StillBlocked;
    }

    /** One lock-held attempt of a push, as seen from outside. */
    method TryStore(data: LogData, memory: Memory) returns (result: TryResult)
      requires Valid()
      modifies this, slots
      ensures result != NullRead ==> Valid()
      ensures fresh(slots - old(slots))
      ensures contents == if result == Stored then old(contents) + [data] else old(contents)
      ensures old(nRecFree) > 0 ==> result == Stored
      ensures result == AtLimit <==> |old(contents)| == Limit(params)
      ensures result == AtLimit ==> unchanged(this) && unchanged(old(slots)) && nRecFree == 0
      ensures result == NoMemory <==>
        old(nRecFree) == 0 && |old(contents)| < Limit(params) && !(memory.callocOk && memory.reallocOk)
      ensures result == NullRead <==> memory.callocOk && memory.reallocOk && Starved(params, old(Abstract()))
      ensures Starved(params, old(Abstract())) ==> old(nRecFree) == 0 && |old(contents)| < Limit(params)
    {
      hide Linked, Owned, GrowthTotal, TryPush, Fits, ValidQueue;
      NothingFree();
      TryPushMeaning(params, Abstract(), data, memory);
      var r, atLimit, nullRead := AllocRecord(data, memory);
      result := if r != null then Stored else if atLimit then AtLimit else if nullRead then NullRead else NoMemory;
    }

    /** A free slot is a record allocated and not in use. */
    lemma NothingFree()
      requires Valid()
      ensures ConfigAccepts(params) && ValidQueue(params, Abstract())
      ensures nRecFree as int == GrowthTotal(params, |recPools|) - |contents|
      ensures Limit(params) > 0 && |contents| <= Limit(params)
      ensures Starved(params, Abstract()) ==> |contents| < Limit(params) && nRecFree == 0
    {
    }

    /** The locals `wait_sec` and `n_waits` after one more sleep; none when the sum leaves int. */
    method StepWait(wait: Wait) returns (next: Option<Wait>)
      ensures next == NextWait(params, wait)
    {
      var waitSec, nWaits := wait.seconds, wait.tries;
      if nWaits >= params.growThreshold {
        if !InInt(waitSec + params.waitDelta) {
          return None;
        }
        waitSec := waitSec + params.waitDelta;
        if waitSec > params.waitMax {
          waitSec := params.waitMax;
        }
        nWaits := 0;
      } else {
        nWaits := nWaits + 1;
      }
      next := Some(Wait(waitSec, nWaits));
    }

    /** The consumer's removals during one sleep. */
    method Drain(buffer: LogData, pops: nat) returns (popped: seq<LogData>)
      requires Valid()
      modifies this, slots
      ensures Valid() && slots == old(slots) && recPools == old(recPools)
      ensures popped + contents == old(contents)
      ensures |popped| == Min(pops, |old(contents)|)
      ensures nRecFree as int == old(nRecFree) as int + |popped|
      ensures peak == old(peak)
    {
      hide Valid, GrowthTotal, ConfigAccepts, ValidQueue, Starved;
      NothingFree();
      popped := [];
      var n := 0;
      while n < pops
        invariant 0 <= n <= pops && Valid()
        invariant popped + contents == old(contents)
        invariant |popped| == Min(n, |old(contents)|)
        invariant slots == old(slots) && recPools == old(recPools) && peak == old(peak)
      {
        var rc, data := Pop(buffer);
        if rc {
          popped := popped + [data];
        }
        n := n + 1;
      }
      NothingFree();
    }
  }

  /** What one try of a push meets: the outcome of the allocations it may make, and the removals
      that other threads make during the sleep that follows it. */
  datatype Round = Round(memory: Memory, pops: nat)

  datatype PushOutcome = Accepted | OutOfMemory | ReadNull | Overflowed | StillBlocked

  function OutcomeOf(result: TryResult): PushOutcome
    requires result != AtLimit
  {
    if result == Stored then Accepted else if result == NoMemory then OutOfMemory else ReadNull
  }

  /** What a push starts from: the parameters, the events and the number of free slots, whether the queue is
      starved, the new event, and the rounds to come. */
  datatype PushStart = PushStart(params: Params, contents: seq<LogData>, free: int, starved: bool,
                                       data: LogData, rounds: seq<Round>)

  /** How a push ends. */
  ghost predicate Pushed(s: PushStart, outcome: PushOutcome, waits: seq<nat>, popped: seq<LogData>, contents: seq<LogData>) {
    var full, memory := |s.contents| == Limit(s.params), if s.rounds == [] then Memory(true, true) else s.rounds[0].memory;
    // nothing is lost: the event goes to the end, and only the consumer removes, from the front
    && popped + contents == (if outcome == Accepted then s.contents + [s.data] else s.contents)
    && |waits| <= |s.rounds| && NoPops(s.rounds, |waits| - 1)
    && |popped| == (if waits == [] then 0 else Min(s.rounds[|waits| - 1].pops, |s.contents|))
    // the first attempt decides unless every record the limit allows is in use
    && (s.rounds != [] && s.free > 0 ==> outcome == Accepted && waits == [])
    && (s.rounds != [] ==>
          (outcome == OutOfMemory <==> s.free == 0 && !full && !(memory.callocOk && memory.reallocOk)))
    && (s.rounds != [] ==> (outcome == ReadNull <==> memory.callocOk && memory.reallocOk && s.starved))
    && (s.rounds != [] ==> (waits != [] <==> full))
    // then each sleep has its length, and the first removal ends the wait
    && SleepsOf(s.params, waits)
    && (outcome == Accepted ==> |waits| < |s.rounds|)
    && (outcome == Accepted && waits != [] ==> s.rounds[|waits| - 1].pops > 0)
    && (outcome == StillBlocked ==> |waits| == |s.rounds| && WaitAt(s.params, |waits| + 1).Some?)
    && (outcome == Overflowed ==> waits != [] && WaitAt(s.params, |waits| + 1).None?)
  }

  /** What every round of a push keeps. */
  ghost predicate Pushing(s: PushStart, waits: seq<nat>, popped: seq<LogData>, contents: seq<LogData>, free: int, wait: Wait) {
    && popped + contents == s.contents
    && |waits| <= |s.rounds| && NoPops(s.rounds, |waits| - 1)
    && |popped| == (if waits == [] then 0 else Min(s.rounds[|waits| - 1].pops, |s.contents|))
    && SleepsOf(s.params, waits) && WaitAt(s.params, |waits| + 1) == Some(wait)
    && (waits == [] ==> contents == s.contents && free == s.free)
    && (waits != [] ==> |s.contents| == Limit(s.params) > 0 && free == Limit(s.params) - |contents| && s.free == 0 && !s.starved)
  }

  /** What is known of an attempt made with these events, free slots and memory. */
  ghost predicate Tried(s: PushStart, contents: seq<LogData>, free: int, starved: bool, memory: Memory, result: TryResult) {
    && (free > 0 ==> result == Stored)
    && (result == AtLimit <==> |contents| == Limit(s.params))
    && (result == NoMemory <==> free == 0 && |contents| < Limit(s.params) && !(memory.callocOk && memory.reallocOk))
    && (result == NullRead <==> memory.callocOk && memory.reallocOk && starved)
    && (starved ==> free == 0 && |contents| < Limit(s.params))
    && (result == AtLimit ==> free == 0)
    && |contents| <= Limit(s.params)
  }

  lemma PushStarts(s: PushStart)
    ensures Pushing(s, [], [], s.contents, s.free, FirstWait(s.params))
  {
  }

  lemma PushTries(s: PushStart, waits: seq<nat>, popped: seq<LogData>, contents: seq<LogData>, free: int, wait: Wait,
                  starved: bool, result: TryResult)
    requires Pushing(s, waits, popped, contents, free, wait) && |waits| < |s.rounds|
    requires Tried(s, contents, free, starved, s.rounds[|waits|].memory, result)
    requires waits == [] ==> starved == s.starved
    ensures result != AtLimit ==>
      Pushed(s, OutcomeOf(result), waits, popped, if result == Stored then contents + [s.data] else contents)
  {
    hide SleepsOf, WaitAt, NoPops;
    assert popped + (contents + [s.data]) == popped + contents + [s.data];
    assert |popped| + |contents| == |s.contents|;
    if waits != [] {
      assert result == AtLimit || result == Stored;
    }
  }

  lemma PushSleeps(s: PushStart, waits: seq<nat>, popped: seq<LogData>, contents: seq<LogData>, free: int, wait: Wait,
                   starved: bool, drained: seq<LogData>, contents': seq<LogData>, free': int, next: Option<Wait>)
    requires Pushing(s, waits, popped, contents, free, wait) && |waits| < |s.rounds| && Limit(s.params) > 0
    requires Tried(s, contents, free, starved, s.rounds[|waits|].memory, AtLimit)
    requires waits == [] ==> starved == s.starved
    requires drained + contents' == contents && |drained| == Min(s.rounds[|waits|].pops, |contents|)
    requires free' == free + |drained| && next == NextWait(s.params, wait)
    ensures next.Some? ==> Pushing(s, waits + [Slept(wait.seconds)], popped + drained, contents', free', next.value)
    ensures next.None? ==> Pushed(s, Overflowed, waits + [Slept(wait.seconds)], popped + drained, contents')
  {
    hide SleepsOf, WaitAt, NoPops;
    OneMoreSleep(s.params, waits, wait);
    OneMoreQuiet(s.rounds, |waits| - 1);
    assert popped == [];
  }

  lemma PushBlocked(s: PushStart, waits: seq<nat>, popped: seq<LogData>, contents: seq<LogData>, free: int, wait: Wait)
    requires Pushing(s, waits, popped, contents, free, wait) && |waits| == |s.rounds|
    ensures Pushed(s, StillBlocked, waits, popped, contents)
  {
    hide SleepsOf, WaitAt, NoPops;
  }

  /** Nobody pops in the first `n` rounds. */
  ghost predicate NoPops(rounds: seq<Round>, n: int) {
    n <= |rounds| && forall k :: 0 <= k < n ==> rounds[k].pops == 0
  }

  /** These are the sleeps of a push, in order. */
  ghost predicate SleepsOf(p: Params, waits: seq<nat>) {
    forall k :: 0 <= k < |waits| ==> SleepAt(p, k + 1) == Some(waits[k])
  }

  lemma OneMoreQuiet(rounds: seq<Round>, n: int)
    requires NoPops(rounds, n) && n < |rounds| && (0 <= n ==> rounds[n].pops == 0)
    ensures NoPops(rounds, n + 1)
  {
  }

  lemma OneMoreSleep(p: Params, waits: seq<nat>, wait: Wait)
    requires SleepsOf(p, waits) && WaitAt(p, |waits| + 1) == Some(wait)
    ensures SleepsOf(p, waits + [Slept(wait.seconds)])
    ensures WaitAt(p, |waits| + 2) == NextWait(p, wait)
  {
  }

  lemma HeadIsNull(head: Slot?, slots: seq<Slot>)
    requires Chain(head, slots)
    ensures head == null <==> slots == []
  {
  }

  lemma OwnedHead(slots: set<Slot>, free: seq<Slot>, used: seq<Slot>)
    requires Owned(slots, free, used)
    ensures free != [] ==> free[0] in slots
    ensures used != [] ==> TailOf(used) in slots
  {
  }

  lemma OwnedAt(slots: set<Slot>, free: seq<Slot>, used: seq<Slot>, i: nat)
    requires Owned(slots, free, used) && i < |used|
    ensures used[i] in slots
    ensures i > 0 ==> used[i - 1] in slots
  {
  }

  lemma RemovedApart(used: seq<Slot>, free: seq<Slot>, i: nat)
    requires i < |used| && Distinct(used) && Apart(free, used)
    ensures var rest := Without(used, i);
      Distinct(rest) && Apart(free, rest) && Apart([used[i]], rest) && Apart([used[i]], free)
    ensures i > 0 ==> forall k :: 0 <= k < |used| && k != i - 1 ==> used[k] != used[i - 1]
    ensures i > 0 ==> forall k :: 0 <= k < |free| ==> free[k] != used[i - 1]
  {
  }

  lemma AccountMoved(free0: seq<Slot>, free: seq<Slot>, used0: seq<Slot>, used: seq<Slot>, pools: seq<seq<Slot>>,
                     slots: set<Slot>)
    requires free0 != [] && free == free0[1..] && used == used0 + [free0[0]]
    requires Accounted(free0, used0, pools) && Owned(slots, free0, used0)
    ensures Accounted(free, used, pools) && Owned(slots, free, used)
  {
    assert free0 == [free0[0]] + free;
  }

  lemma AccountRemoved(free0: seq<Slot>, free: seq<Slot>, used0: seq<Slot>, used: seq<Slot>, i: nat,
                       pools: seq<seq<Slot>>, slots: set<Slot>)
    requires i < |used0| && used == Without(used0, i) && free == [used0[i]] + free0
    requires Accounted(free0, used0, pools) && Owned(slots, free0, used0)
    ensures Accounted(free, used, pools) && Owned(slots, free, used)
  {
    assert used0 == used0[..i] + [used0[i]] + used0[i + 1..];
  }

  lemma PoolJoins(free: seq<Slot>, free0: seq<Slot>, used: seq<Slot>, pool: seq<Slot>,
                  pools: seq<seq<Slot>>, pools0: seq<seq<Slot>>)
    requires |free| == |free0| + |pool| && free[|pool|..] == free0
    requires forall k :: 0 <= k < |pool| ==> free[k] == pool[|pool| - 1 - k]
    requires pools == pools0 + [pool]
    requires Accounted(free0, used, pools0)
    requires Distinct(pool) && Distinct(free0) && Apart(pool, free0) && Apart(pool, used) && Apart(free0, used)
    ensures Accounted(free, used, pools) && Distinct(free) && Apart(free, used)
    ensures forall k :: 0 <= k < |pool| ==> free[k] in pool
  {
    assert forall k :: |pool| <= k < |free| ==> free[k] == free0[k - |pool|];
    assert pools[..|pools| - 1] == pools0;
    assert free == free[..|pool|] + free0;
    ReversedMultiset(free[..|pool|], pool);
  }

  lemma {:induction false} ReversedMultiset(a: seq<Slot>, b: seq<Slot>)
    requires |a| == |b| && forall k :: 0 <= k < |a| ==> a[k] == b[|b| - 1 - k]
    ensures multiset(a) == multiset(b)
  {
    if a == [] {
    } else {
      var n := |a| - 1;
      ReversedMultiset(a[1..], b[..n]);
      assert a == [a[0]] + a[1..] && b == b[..n] + [b[n]];
    }
  }

  lemma {:induction false} DistinctCount(slots: seq<Slot>, s: Slot)
    requires Distinct(slots)
    ensures multiset(slots)[s] == if s in slots then 1 else 0
  {
    if slots != [] {
      var rest := slots[1..];
      assert slots == [slots[0]] + rest;
      DistinctCount(rest, s);
      assert forall i :: 0 <= i < |rest| ==> rest[i] == slots[i + 1];
    }
  }

  /** The invariant's meaning for one slot: a slot of some pool is on exactly one chain, once, and no other
      slot is on either. */
  lemma EachSlotOnce(free: seq<Slot>, used: seq<Slot>, pools: seq<seq<Slot>>, s: Slot)
    requires Distinct(free) && Distinct(used) && Apart(free, used) && Accounted(free, used, pools)
    ensures multiset(free)[s] + multiset(used)[s] == if s in Flatten(pools) then 1 else 0
    ensures !(s in free && s in used)
  {
    DistinctCount(free, s);
    DistinctCount(used, s);
    assert s in Flatten(pools) <==> (multiset(free) + multiset(used))[s] > 0;
    assert forall i, j :: 0 <= i < |free| && 0 <= j < |used| ==> free[i] != used[j];
  }
}
