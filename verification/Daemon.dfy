/** The PAM daemon as two threads around the event queue: the event thread receives records and pushes
    them, the database thread pops and logs them (pam-daemon/iptracking-pamd.c, log_queue.c).  Every
    lock-held section is one step; a run is any sequence of steps, so it is any interleaving. */
module Daemon {
  import opened Options
  import opened LogRecords
  import opened QueueSpec
  import opened Backoff

  datatype Producer =
    | Idle
    | Trying(data: LogData, wait: Wait, sleeps: nat)
    | Asleep(data: LogData, wait: Wait, sleeps: nat)
    | Faulted(data: LogData, fault: Fault)

  /** Where C no longer says what happens: a read through the NULL free list, a wait that left int. */
  datatype Fault = NullFreeList | WaitOverflow

  datatype Consumer = Ready | Waiting | Logging(event: LogData)

  /** The threads and the queue, with the history of the events received, accepted into the queue,
      popped from it and logged, and the numbers refused for lack of memory and not logged. */
  datatype State = State(
    queue: Queue,
    producer: Producer,
    consumer: Consumer,
    received: seq<LogData>,
    accepted: seq<LogData>,
    popped: seq<LogData>,
    logged: seq<LogData>,
    refused: nat,
    failed: nat)

  datatype Step =
    | Receive(data: LogData, nbytes: int)   // the event thread reads a record from a client
    | Attempt(memory: Memory)               // it tries to store the record
    | WakeUp                                // its sleep ends
    | Take                                  // the database thread calls pop, or its wait ends
    | LogResult(ok: bool)                   // the database accepts or refuses the event

  /** sizeof(log_data_t): the four text fields, two uint16_t and one int32_t. */
  const RECORD_BYTES := 2 * IPADDR_SIZE + 2 + 2 + 4 + UID_SIZE + DATE_SIZE

  const INIT_STATE := State(Queue([], 0, 0), Idle, Ready, [], [], [], [], 0, 0)

  /** One step; a step that its thread cannot take now changes nothing, and after a fault there is none. */
  function Do(p: Params, s: State, step: Step): State
    requires ConfigAccepts(p)
  {
    if s.producer.Faulted? then s else
    match step
    case Receive(data, nbytes) =>
      if s.producer.Idle? && nbytes == RECORD_BYTES && WellSized(data) && IsValid(data) then
        s.(producer := Trying(data, FirstWait(p), 0), received := s.received + [data])
      else s
    case Attempt(memory) =>
      if !s.producer.Trying? then s else
      var Trying(data, wait, sleeps) := s.producer;
      var (q, result) := TryPush(p, s.queue, data, memory);
      (match result
       case Stored => s.(queue := q, producer := Idle, accepted := s.accepted + [data])
       case AtLimit => s.(producer := Asleep(data, wait, sleeps))
       case NoMemory => s.(producer := Idle, refused := s.refused + 1)
       case NullRead => s.(queue := q, producer := Faulted(data, NullFreeList)))
    case WakeUp =>
      if !s.producer.Asleep? then s else
      var Asleep(data, wait, sleeps) := s.producer;
      (match NextWait(p, wait)
       case None => s.(producer := Faulted(data, WaitOverflow))
       case Some(next) => s.(producer := Trying(data, next, sleeps + 1)))
    case Take =>
      if s.consumer.Logging? then s
      else if s.queue.contents == [] then
        s.(consumer := if s.consumer.Ready? then Waiting else Ready)
      else
        var d := s.queue.contents[0];
        s.(queue := PopOne(s.queue), consumer := Logging(d), popped := s.popped + [d])
    case LogResult(ok) =>
      if !s.consumer.Logging? then s
      else if ok then s.(consumer := Ready, logged := s.logged + [s.consumer.event])
      else s.(consumer := Ready, failed := s.failed + 1)
  }

  function Run(p: Params, steps: seq<Step>): State
    requires ConfigAccepts(p)
  {
    if steps == [] then INIT_STATE
    else Do(p, Run(p, steps[..|steps| - 1]), steps[|steps| - 1])
  }

  // ---------------------------------------------------------------- order

  function Front<T>(s: seq<T>): seq<T>
    requires s != []
  {
    s[..|s| - 1]
  }

  function Last<T>(s: seq<T>): T
    requires s != []
  {
    s[|s| - 1]
  }

  /** `a` is `b` with some occurrences left out: same order, none twice. */
  ghost predicate InOrder<T>(a: seq<T>, b: seq<T>) {
    a == [] || (b != [] && ((Last(a) == Last(b) && InOrder(Front(a), Front(b))) || InOrder(a, Front(b))))
  }

  /** The elements of an in-order selection sit at strictly increasing positions. */
  lemma {:induction false} InOrderPositions<T>(a: seq<T>, b: seq<T>) returns (at: seq<nat>)
    requires InOrder(a, b)
    ensures |at| == |a|
    ensures forall i :: 0 <= i < |at| ==> at[i] < |b| && a[i] == b[at[i]]
    ensures forall i, j :: 0 <= i < j < |at| ==> at[i] < at[j]
  {
    if a == [] {
      at := [];
    } else if Last(a) == Last(b) && InOrder(Front(a), Front(b)) {
      at := InOrderPositions(Front(a), Front(b));
      at := at + [|b| - 1];
    } else {
      at := InOrderPositions(a, Front(b));
    }
  }

  lemma InOrderExtend<T>(a: seq<T>, b: seq<T>, x: T)
    requires InOrder(a, b)
    ensures InOrder(a, b + [x]) && InOrder(a + [x], b + [x])
  {
    assert Front(b + [x]) == b && Front(a + [x]) == a;
  }

  lemma {:induction false} InOrderTransitive<T>(a: seq<T>, b: seq<T>, c: seq<T>)
    requires InOrder(a, b) && InOrder(b, c)
    ensures InOrder(a, c)
    decreases |b| + |c|
  {
    if a != [] {
      if Last(b) == Last(c) && InOrder(Front(b), Front(c)) {
        if Last(a) == Last(b) && InOrder(Front(a), Front(b)) {
          InOrderTransitive(Front(a), Front(b), Front(c));
        } else {
          InOrderTransitive(a, Front(b), Front(c));
        }
      } else {
        InOrderTransitive(a, b, Front(c));
      }
    }
  }

  lemma {:induction false} InOrderPrefix<T>(a: seq<T>, b: seq<T>)
    ensures InOrder(a, a + b)
    decreases |a| + |b|
  {
    if b != [] {
      InOrderPrefix(a, Front(b));
      assert Front(a + b) == a + Front(b);
    } else if a != [] {
      InOrderPrefix(Front(a), []);
      assert a + b == a && Front(a) + [] == Front(a);
    }
  }

  lemma {:induction false} InOrderShorter<T>(a: seq<T>, b: seq<T>)
    requires InOrder(a, b)
    ensures |a| <= |b|
  {
    if a != [] {
      if Last(a) == Last(b) && InOrder(Front(a), Front(b)) {
        InOrderShorter(Front(a), Front(b));
      } else {
        InOrderShorter(a, Front(b));
      }
    }
  }

  /** Nothing left out means equal. */
  lemma {:induction false} InOrderFull<T>(a: seq<T>, b: seq<T>)
    requires InOrder(a, b) && |a| == |b|
    ensures a == b
  {
    if a != [] {
      if InOrder(a, Front(b)) {
        InOrderShorter(a, Front(b));
      }
      InOrderFull(Front(a), Front(b));
      assert a == Front(a) + [Last(a)] && b == Front(b) + [Last(b)];
    }
  }

  // ---------------------------------------------------------------- safety

  function InFlight(producer: Producer): seq<LogData> {
    if producer.Idle? then [] else [producer.data]
  }

  function BeingLogged(consumer: Consumer): seq<LogData> {
    if consumer.Logging? then [consumer.event] else []
  }

  /** All but the last of a history whose last element is still being worked on. */
  function Over(history: seq<LogData>, current: seq<LogData>): seq<LogData> {
    if |current| <= |history| then history[..|history| - |current|] else history
  }

  ghost predicate ProducerInv(p: Params, producer: Producer, received: seq<LogData>, accepted: seq<LogData>, refused: nat) {
    && received == Over(received, InFlight(producer)) + InFlight(producer)
    && InOrder(accepted, Over(received, InFlight(producer)))
    && |received| == |accepted| + refused + |InFlight(producer)|
    && AllValid(received)
    && WaitInv(p, producer)
  }

  /** The wait of a blocked push, and what its being blocked says of the configuration. */
  ghost predicate WaitInv(p: Params, producer: Producer) {
    match producer
    case Idle => true
    case Trying(_, wait, sleeps) => WaitAt(p, sleeps + 1) == Some(wait) && (sleeps > 0 ==> !CanStarve(p))
    case Asleep(_, wait, sleeps) => WaitAt(p, sleeps + 1) == Some(wait) && !CanStarve(p)
    case Faulted(_, fault) => if fault.NullFreeList? then CanStarve(p) else !CanStarve(p) && !AlwaysDefined(p)
  }

  ghost predicate QueueInv(p: Params, q: Queue, producer: Producer)
    requires ConfigAccepts(p)
  {
    Fits(p, q) && (!producer.Faulted? ==> ValidQueue(p, q))
  }

  ghost predicate AllValid(received: seq<LogData>) {
    forall i :: 0 <= i < |received| ==> WellSized(received[i]) && IsValid(received[i])
  }

  ghost predicate ConsumerInv(consumer: Consumer, popped: seq<LogData>, logged: seq<LogData>, failed: nat) {
    && popped == Over(popped, BeingLogged(consumer)) + BeingLogged(consumer)
    && InOrder(logged, Over(popped, BeingLogged(consumer)))
    && |popped| == |logged| + failed + |BeingLogged(consumer)|
  }

  ghost predicate Inv(p: Params, s: State)
    requires ConfigAccepts(p)
  {
    && QueueInv(p, s.queue, s.producer)
    && s.accepted == s.popped + s.queue.contents
    && ProducerInv(p, s.producer, s.received, s.accepted, s.refused)
    && ConsumerInv(s.consumer, s.popped, s.logged, s.failed)
  }

  lemma ReceiveKeeps(p: Params, producer: Producer, received: seq<LogData>, accepted: seq<LogData>, refused: nat, d: LogData)
    requires ProducerInv(p, producer, received, accepted, refused) && producer.Idle? && WellSized(d) && IsValid(d)
    ensures ProducerInv(p, Trying(d, FirstWait(p), 0), received + [d], accepted, refused)
  {
    hide InOrder, IsValid, WellSized;
    assert Over(received + [d], [d]) == received == Over(received, []);
  }

  lemma PushOverKeeps(p: Params, producer: Producer, received: seq<LogData>, accepted: seq<LogData>, refused: nat)
    requires ProducerInv(p, producer, received, accepted, refused) && producer.Trying?
    ensures ProducerInv(p, Idle, received, accepted + [producer.data], refused)
    ensures ProducerInv(p, Idle, received, accepted, refused + 1)
  {
    InOrderExtend(accepted, Over(received, InFlight(producer)), producer.data);
    hide InOrder, AllValid;
    assert Over(received, []) == received;
  }

  /** A push goes on with the same event. */
  lemma PushOnKeeps(p: Params, producer: Producer, next: Producer, received: seq<LogData>, accepted: seq<LogData>, refused: nat)
    requires ProducerInv(p, producer, received, accepted, refused)
    requires !producer.Idle? && !next.Idle? && producer.data == next.data && WaitInv(p, next)
    ensures ProducerInv(p, next, received, accepted, refused)
  {
    hide InOrder, AllValid, WaitInv, Over;
  }

  lemma TakeKeeps(consumer: Consumer, popped: seq<LogData>, logged: seq<LogData>, failed: nat, d: LogData)
    requires ConsumerInv(consumer, popped, logged, failed) && !consumer.Logging?
    ensures ConsumerInv(Logging(d), popped + [d], logged, failed)
  {
    hide InOrder;
    assert Over(popped + [d], [d]) == popped == Over(popped, []);
  }

  lemma LoggingOverKeeps(consumer: Consumer, popped: seq<LogData>, logged: seq<LogData>, failed: nat)
    requires ConsumerInv(consumer, popped, logged, failed) && consumer.Logging?
    ensures ConsumerInv(Ready, popped, logged + [consumer.event], failed)
    ensures ConsumerInv(Ready, popped, logged, failed + 1)
  {
    InOrderExtend(logged, Over(popped, BeingLogged(consumer)), consumer.event);
    hide InOrder;
    assert Over(popped, []) == popped;
  }

  lemma PopKeepsValid(p: Params, q: Queue, producer: Producer)
    requires ConfigAccepts(p) && QueueInv(p, q, producer)
    ensures QueueInv(p, PopOne(q), producer)
    ensures q.contents != [] ==> q.contents == [q.contents[0]] + PopOne(q).contents
  {
  }

  lemma AttemptKeepsInv(p: Params, s: State, memory: Memory)
    requires ConfigAccepts(p) && Inv(p, s)
    ensures Inv(p, Do(p, s, Attempt(memory)))
  {
    hide ConsumerInv, IsValid, WellSized, Over, InOrder, AllValid, LeastPools, ValidQueue, TryPush, Fits, Starved, WaitAt, CanStarve;
    if s.producer.Trying? {
      PushOverKeeps(p, s.producer, s.received, s.accepted, s.refused);
      TryPushMeaning(p, s.queue, s.producer.data, memory);
      StarvedOnlyAtCapacity(p, s.queue);
      BlockedOnlyAtLimit(p, s.queue);
      var s' := Do(p, s, Attempt(memory));
      if s'.producer.Asleep? || s'.producer.Faulted? {
        PushOnKeeps(p, s.producer, s'.producer, s.received, s.accepted, s.refused);
      }
      hide ProducerInv;
    }
  }

  /** A queue filled to the limit cannot starve. */
  lemma BlockedOnlyAtLimit(p: Params, q: Queue)
    requires ConfigAccepts(p) && ValidQueue(p, q)
    ensures |q.contents| == Limit(p) ==> !CanStarve(p)
  {
    StarvedOnlyAtCapacity(p, q);
  }

  lemma WakeUpKeepsInv(p: Params, s: State)
    requires ConfigAccepts(p) && Inv(p, s)
    ensures Inv(p, Do(p, s, WakeUp))
  {
    hide ConsumerInv, ValidQueue, Over, InOrder, AllValid, NextWait, Fits;
    if s.producer.Asleep? {
      var k := s.producer.sleeps + 2;
      assert WaitAt(p, k) == NextWait(p, s.producer.wait);
      PushOnKeeps(p, s.producer, Do(p, s, WakeUp).producer, s.received, s.accepted, s.refused);
      hide ProducerInv;
    }
  }

  lemma TakeKeepsInv(p: Params, s: State)
    requires ConfigAccepts(p) && Inv(p, s)
    ensures Inv(p, Do(p, s, Take))
  {
    hide ProducerInv, ValidQueue, Fits, Over, InOrder;
    if !s.consumer.Logging? && s.queue.contents != [] {
      TakeKeeps(s.consumer, s.popped, s.logged, s.failed, s.queue.contents[0]);
      PopKeepsValid(p, s.queue, s.producer);
      hide ConsumerInv, QueueInv;
    }
  }

  lemma DoKeepsInv(p: Params, s: State, step: Step)
    requires ConfigAccepts(p) && Inv(p, s)
    ensures Inv(p, Do(p, s, step))
  {
    var s' := Do(p, s, step);
    hide Over, InFlight, BeingLogged, InOrder, AllValid, LeastPools, WaitAt, NextWait;
    match step {
      case Receive(data, nbytes) =>
        if s' != s {
          ReceiveKeeps(p, s.producer, s.received, s.accepted, s.refused, data);
        }
      case Attempt(memory) =>
        AttemptKeepsInv(p, s, memory);
      case WakeUp =>
        WakeUpKeepsInv(p, s);
      case Take =>
        TakeKeepsInv(p, s);
      case LogResult(ok) =>
        hide ProducerInv, QueueInv;
        if s.consumer.Logging? {
          LoggingOverKeeps(s.consumer, s.popped, s.logged, s.failed);
        }
    }
  }

  lemma {:induction false} InvHolds(p: Params, steps: seq<Step>)
    requires ConfigAccepts(p)
    ensures Inv(p, Run(p, steps))
  {
    if steps == [] {
    } else {
      InvHolds(p, steps[..|steps| - 1]);
      DoKeepsInv(p, Run(p, steps[..|steps| - 1]), steps[|steps| - 1]);
    }
  }

  lemma InvGivesOrder(p: Params, s: State)
    requires ConfigAccepts(p) && Inv(p, s)
    ensures InOrder(s.logged, s.accepted) && InOrder(s.accepted, s.received)
  {
    var over, now := Over(s.received, InFlight(s.producer)), InFlight(s.producer);
    var overOut, nowOut := Over(s.popped, BeingLogged(s.consumer)), BeingLogged(s.consumer);
    assert s.accepted == overOut + (nowOut + s.queue.contents);
    hide InOrder, AllValid, Over, InFlight, BeingLogged;
    InOrderPrefix(over, now);
    InOrderTransitive(s.accepted, over, s.received);
    InOrderPrefix(overOut, nowOut + s.queue.contents);
    InOrderTransitive(s.logged, overOut, s.accepted);
  }

  /** In every interleaving the accepted events are the popped ones followed by the queue, the logged
      events are an in-order, at-most-once selection of the accepted ones, those in turn of the valid
      records received, every record is accounted for, and the queue stays within its limit. */
  lemma EveryRun(p: Params, steps: seq<Step>)
    requires ConfigAccepts(p)
    ensures var s := Run(p, steps);
      && s.accepted == s.popped + s.queue.contents
      && InOrder(s.logged, s.accepted) && InOrder(s.accepted, s.received)
      && |s.received| == |s.accepted| + s.refused + |InFlight(s.producer)|
      && |s.popped| == |s.logged| + s.failed + |BeingLogged(s.consumer)|
      && |s.queue.contents| <= Limit(p)
      && AllValid(s.received)
  {
    InvHolds(p, steps);
    InvGivesOrder(p, Run(p, steps));
    hide Run, InOrder, AllValid;
  }

  /** When nothing was refused and no call failed, nothing is lost or reordered: the records received are
      the logged ones, the one being logged, the queue, and the one being pushed. */
  lemma NothingRefusedNoLoss(p: Params, steps: seq<Step>)
    requires ConfigAccepts(p)
    requires Run(p, steps).refused == 0 && Run(p, steps).failed == 0
    ensures var s := Run(p, steps);
      s.received == s.logged + BeingLogged(s.consumer) + s.queue.contents + InFlight(s.producer)
  {
    InvHolds(p, steps);
    var s := Run(p, steps);
    hide Run;
    InOrderFull(s.accepted, Over(s.received, InFlight(s.producer)));
    InOrderFull(s.logged, Over(s.popped, BeingLogged(s.consumer)));
  }

  /** Every allocation is granted and the database takes every event. */
  predicate AllGoesWell(steps: seq<Step>) {
    forall i :: 0 <= i < |steps| ==> GoesWell(steps[i])
  }

  predicate GoesWell(step: Step) {
    match step
    case Attempt(memory) => memory.callocOk && memory.reallocOk
    case LogResult(ok) => ok
    case _ => true
  }

  lemma {:induction false} NothingFails(p: Params, steps: seq<Step>)
    requires ConfigAccepts(p) && AllGoesWell(steps)
    ensures Run(p, steps).refused == 0 && Run(p, steps).failed == 0
  {
    if steps != [] {
      var front, step := steps[..|steps| - 1], steps[|steps| - 1];
      NothingFails(p, front);
      GoodStepFailsNothing(p, Run(p, front), step);
    }
  }

  lemma GoodStepFailsNothing(p: Params, s: State, step: Step)
    requires ConfigAccepts(p) && GoesWell(step)
    ensures Do(p, s, step).refused == s.refused && Do(p, s, step).failed == s.failed
  {
  }

  /** In every interleaving in which all allocations are granted and the database takes every event, nothing
      is lost or reordered. */
  lemma NoFailureNoLoss(p: Params, steps: seq<Step>)
    requires ConfigAccepts(p) && AllGoesWell(steps)
    ensures var s := Run(p, steps);
      s.received == s.logged + BeingLogged(s.consumer) + s.queue.contents + InFlight(s.producer)
  {
    NothingFails(p, steps);
    NothingRefusedNoLoss(p, steps);
  }

  // ---------------------------------------------------------------- what each step is for

  /** The places of a run at which the database answers so for an event. */
  ghost function Answers(p: Params, steps: seq<Step>, ok: bool): set<int>
    requires ConfigAccepts(p)
  {
    set i | 0 <= i < |steps| && steps[i] == LogResult(ok) && Run(p, steps[..i]).consumer.Logging?
              && !Run(p, steps[..i]).producer.Faulted?
  }

  /** The events logged are as many as the database took, and those that failed as many as it refused. */
  lemma {:induction false} AnswersCount(p: Params, steps: seq<Step>)
    requires ConfigAccepts(p)
    ensures |Run(p, steps).logged| == |Answers(p, steps, true)|
    ensures Run(p, steps).failed == |Answers(p, steps, false)|
  {
    hide Run, Answers;
    if steps != [] {
      var front, step := steps[..|steps| - 1], steps[|steps| - 1];
      assert front + [step] == steps;
      AnswersCount(p, front);
      AnswersMore(p, front, step, true);
      AnswersMore(p, front, step, false);
      RunOneMore(p, front, step);
      AnswerLogs(p, Run(p, front), step);
    } else {
      NoAnswers(p);
    }
  }

  lemma NoAnswers(p: Params)
    requires ConfigAccepts(p)
    ensures Run(p, []) == INIT_STATE && Answers(p, [], true) == {} == Answers(p, [], false)
  {
  }

  /** Only the database's answer to an event being logged logs or fails one. */
  lemma AnswerLogs(p: Params, s: State, step: Step)
    requires ConfigAccepts(p)
    ensures var s', answered := Do(p, s, step), s.consumer.Logging? && !s.producer.Faulted?;
      && s'.logged == s.logged + (if step == LogResult(true) && answered then [s.consumer.event] else [])
      && s'.failed == s.failed + (if step == LogResult(false) && answered then 1 else 0)
  {
    hide TryPush, NextWait, IsValid, WellSized;
  }

  lemma AnswersMore(p: Params, front: seq<Step>, step: Step, ok: bool)
    requires ConfigAccepts(p)
    ensures var s := Run(p, front);
      |Answers(p, front + [step], ok)| == |Answers(p, front, ok)| +
        (if step == LogResult(ok) && s.consumer.Logging? && !s.producer.Faulted? then 1 else 0)
  {
    hide Run;
    var all := front + [step];
    assert forall i :: 0 <= i <= |front| ==> all[..i] == front[..i];
    assert front[..|front|] == front;
    var s := Run(p, front);
    if step == LogResult(ok) && s.consumer.Logging? && !s.producer.Faulted? {
      assert Answers(p, all, ok) == Answers(p, front, ok) + {|front|};
    } else {
      assert Answers(p, all, ok) == Answers(p, front, ok);
    }
  }

  /** That many rounds of the database thread. */
  function Rounds(n: nat): seq<Step> {
    if n == 0 then [] else Rounds(n - 1) + [Take, LogResult(true)]
  }

  /** From any point where the database thread is not in the middle of an event, n rounds of it log the first n
      events of the queue, and leave the rest there. */
  lemma {:induction false} RoundsLog(p: Params, steps: seq<Step>, n: nat)
    requires ConfigAccepts(p) && !Run(p, steps).producer.Faulted? && !Run(p, steps).consumer.Logging?
    requires n <= |Run(p, steps).queue.contents|
    ensures var s, s' := Run(p, steps), Run(p, steps + Rounds(n));
      && s'.logged == s.logged + s.queue.contents[..n] && s'.queue.contents == s.queue.contents[n..]
      && s'.producer == s.producer && !s'.consumer.Logging? && s'.failed == s.failed
  {
    hide Run;
    if n == 0 {
      assert steps + Rounds(0) == steps;
    } else {
      RoundsLog(p, steps, n - 1);
      var before := steps + Rounds(n - 1);
      RunOneMore(p, before, Take);
      RunOneMore(p, before + [Take], LogResult(true));
      assert before + [Take] + [LogResult(true)] == steps + Rounds(n);
    }
  }

  /** The event thread takes a record off a connection exactly when it is idle, the record is 128 bytes, its
      event is known and its texts are nonempty C strings that end inside their fields. */
  lemma ReceivedIff(p: Params, steps: seq<Step>, d: LogData, nbytes: int)
    requires ConfigAccepts(p) && WellSized(d)
    ensures var s, s' := Run(p, steps), Run(p, steps + [Receive(d, nbytes)]);
      s'.received == s.received + [d] <==>
        && s.producer.Idle? && nbytes == 128 && d.event <= 3
        && 0 < |CStr(d.dstIpaddr)| < 16 && 0 < |CStr(d.srcIpaddr)| < 16
        && 0 < |CStr(d.uid)| < 60 && 0 < |CStr(d.logDate)| < 28
  {
    hide Run, IsValid, CStr;
    RunOneMore(p, steps, Receive(d, nbytes));
    ValidIffStrings(d);
    assert |Run(p, steps).received + [d]| != |Run(p, steps).received|;
  }

  /** A record taken when the queue is below its capacity and memory is granted joins the end of the queue. */
  lemma ReceivedIsStored(p: Params, steps: seq<Step>, d: LogData)
    requires ConfigAccepts(p) && WellSized(d) && IsValid(d) && Run(p, steps).producer.Idle?
    requires |Run(p, steps).queue.contents| < Capacity(p)
    ensures var s, s' := Run(p, steps), Run(p, steps + [Receive(d, RECORD_BYTES)] + [Attempt(GRANTED)]);
      && s'.producer.Idle? && s'.accepted == s.accepted + [d] && s'.queue.contents == s.queue.contents + [d]
      && s'.received == s.received + [d] && s'.refused == s.refused
  {
    hide Run, IsValid, WellSized, TryPush, ValidQueue, Starved, Fits, ProducerInv, ConsumerInv;
    InvHolds(p, steps);
    RunOneMore(p, steps, Receive(d, RECORD_BYTES));
    RunOneMore(p, steps + [Receive(d, RECORD_BYTES)], Attempt(GRANTED));
    TryPushMeaning(p, Run(p, steps).queue, d, GRANTED);
    StarvedOnlyAtCapacity(p, Run(p, steps).queue);
  }

  /** A record for which no slot is free and memory is not granted is dropped, and the thread is ready for the
      next; nothing else changes. */
  lemma RefusedIsDropped(p: Params, steps: seq<Step>, memory: Memory)
    requires ConfigAccepts(p) && Run(p, steps).producer.Trying? && !(memory.callocOk && memory.reallocOk)
    requires |Run(p, steps).queue.contents| == GrowthTotal(p, Run(p, steps).queue.pools) < Limit(p)
    ensures var s := Run(p, steps);
      Run(p, steps + [Attempt(memory)]) == s.(producer := Idle, refused := s.refused + 1)
  {
    hide Run, TryPush, ValidQueue, Starved, Fits, ProducerInv, ConsumerInv, GrowthTotal;
    InvHolds(p, steps);
    RunOneMore(p, steps, Attempt(memory));
    TryPushMeaning(p, Run(p, steps).queue, Run(p, steps).producer.data, memory);
  }

  /** With an empty queue the database thread waits; when its wait ends with the queue still empty it calls pop
      again, and once an event is there it takes it. */
  lemma EmptyQueueWaits(p: Params, steps: seq<Step>)
    requires ConfigAccepts(p) && Run(p, steps).queue.contents == [] && Run(p, steps).consumer.Ready?
    requires !Run(p, steps).producer.Faulted?
    ensures var s := Run(p, steps);
      && Run(p, steps + [Take]) == s.(consumer := Waiting)
      && Run(p, steps + [Take] + [Take]) == s
  {
    hide Run;
    RunOneMore(p, steps, Take);
    RunOneMore(p, steps + [Take], Take);
  }

  /** A blocked push goes through after one removal, whatever memory does: its event joins the end. */
  lemma BlockedPushResumes(p: Params, steps: seq<Step>, memory: Memory)
    requires ConfigAccepts(p) && Run(p, steps).producer.Asleep? && !Run(p, steps).consumer.Logging?
    requires NextWait(p, Run(p, steps).producer.wait).Some? && |Run(p, steps).queue.contents| == Limit(p)
    ensures var s, s' := Run(p, steps), Run(p, steps + [Take] + [WakeUp] + [Attempt(memory)]);
      && s'.producer.Idle? && s'.accepted == s.accepted + [s.producer.data]
      && s'.queue.contents == s.queue.contents[1..] + [s.producer.data]
      && s'.consumer == Logging(s.queue.contents[0])
  {
    hide Run, TryPush, ValidQueue, Starved, Fits, ProducerInv, ConsumerInv, NextWait, GrowthTotal;
    InvHolds(p, steps);
    InvHolds(p, steps + [Take] + [WakeUp]);
    RunOneMore(p, steps, Take);
    RunOneMore(p, steps + [Take], WakeUp);
    RunOneMore(p, steps + [Take] + [WakeUp], Attempt(memory));
    var q, q' := Run(p, steps).queue, Run(p, steps + [Take] + [WakeUp]).queue;
    PopLeavesRoom(p, q);
    TryPushMeaning(p, q', Run(p, steps).producer.data, memory);
  }

  lemma PopLeavesRoom(p: Params, q: Queue)
    requires ConfigAccepts(p) && ValidQueue(p, q) && |q.contents| == Limit(p)
    ensures |PopOne(q).contents| < GrowthTotal(p, PopOne(q).pools)
    ensures PopOne(q).contents == q.contents[1..] && q.contents != []
  {
  }

  /** While a push sleeps, in any interleaving, its wait has the closed form of its sleep count. */
  lemma SleepLengths(p: Params, steps: seq<Step>)
    requires ConfigAccepts(p)
    ensures var producer := Run(p, steps).producer;
      producer.Asleep? ==> producer.wait.seconds == Closed(p, Steps(p, producer.sleeps + 1))
  {
    hide Run, Closed, Steps, QueueInv, ConsumerInv, InOrder, AllValid, CanStarve;
    InvHolds(p, steps);
    var producer := Run(p, steps).producer;
    if producer.Asleep? {
      BackoffClosedForm(p, producer.sleeps + 1);
    }
  }

  // ---------------------------------------------------------------- faults

  ghost predicate Faults(p: Params, steps: seq<Step>, fault: Fault)
    requires ConfigAccepts(p)
  {
    Run(p, steps).producer.Faulted? && Run(p, steps).producer.fault == fault
  }

  const GRANTED := Memory(true, true)

  const EVENT := LogData(Pad("h", IPADDR_SIZE), Pad("c", IPADDR_SIZE), 22, 1, 1, Pad("u", UID_SIZE), Pad("d", DATE_SIZE))

  lemma EventIsValid()
    ensures WellSized(EVENT) && IsValid(EVENT)
  {
    assert EVENT.dstIpaddr[15] == NUL && EVENT.srcIpaddr[15] == NUL && EVENT.uid[59] == NUL && EVENT.logDate[27] == NUL;
  }

  lemma RunOneMore(p: Params, steps: seq<Step>, step: Step)
    requires ConfigAccepts(p)
    ensures Run(p, steps + [step]) == Do(p, Run(p, steps), step)
  {
    assert (steps + [step])[..|steps|] == steps;
  }

  /** Receive an event and try to store it. */
  function Offer(): seq<Step> {
    [Receive(EVENT, RECORD_BYTES), Attempt(GRANTED)]
  }

  /** That many events, one after the other. */
  function Fill(n: nat): seq<Step> {
    if n == 0 then [] else Fill(n - 1) + Offer()
  }

  lemma OfferRuns(p: Params, steps: seq<Step>)
    requires ConfigAccepts(p) && Run(p, steps).producer.Idle?
    ensures var s := Run(p, steps);
      Run(p, steps + Offer()) ==
        Do(p, s.(producer := Trying(EVENT, FirstWait(p), 0), received := s.received + [EVENT]), Attempt(GRANTED))
  {
    EventIsValid();
    hide IsValid, WellSized, Run;
    RunOneMore(p, steps, Receive(EVENT, RECORD_BYTES));
    RunOneMore(p, steps + [Receive(EVENT, RECORD_BYTES)], Attempt(GRANTED));
    assert steps + [Receive(EVENT, RECORD_BYTES)] + [Attempt(GRANTED)] == steps + Offer();
  }

  /** Below the capacity the event offered is stored. */
  lemma OfferStored(p: Params, steps: seq<Step>)
    requires ConfigAccepts(p) && Run(p, steps).producer.Idle? && ValidQueue(p, Run(p, steps).queue)
    requires |Run(p, steps).queue.contents| < Capacity(p)
    ensures var s := Run(p, steps + Offer());
      s.producer.Idle? && |s.queue.contents| == |Run(p, steps).queue.contents| + 1 && ValidQueue(p, s.queue)
  {
    hide Run, ValidQueue, TryPush, Starved, Fits;
    OfferRuns(p, steps);
    var q := Run(p, steps).queue;
    TryPushMeaning(p, q, EVENT, GRANTED);
    StarvedOnlyAtCapacity(p, q);
  }

  /** With memory granted every event is stored until the queue is full. */
  lemma {:induction false} Filled(p: Params, n: nat)
    requires ConfigAccepts(p) && n <= Capacity(p)
    ensures Run(p, Fill(n)).producer.Idle? && |Run(p, Fill(n)).queue.contents| == n
    ensures ValidQueue(p, Run(p, Fill(n)).queue)
  {
    if n > 0 {
      hide Run, ValidQueue;
      Filled(p, n - 1);
      OfferStored(p, Fill(n - 1));
    }
  }

  lemma FaultsMean(p: Params, steps: seq<Step>)
    requires ConfigAccepts(p)
    ensures Faults(p, steps, NullFreeList) ==> CanStarve(p)
    ensures Faults(p, steps, WaitOverflow) ==> !CanStarve(p) && !AlwaysDefined(p)
  {
    hide Run, CanStarve, AlwaysDefined, QueueInv, ConsumerInv;
    InvHolds(p, steps);
  }

  /** Some run reads through the NULL free list exactly when the configuration, which was accepted, has no
      first pool, or no increment and a first pool below the limit. */
  lemma NullReadIff(p: Params)
    requires ConfigAccepts(p)
    ensures (exists steps :: Faults(p, steps, NullFreeList)) <==>
      p.min == 0 || (p.delta == 0 && p.min < Limit(p))
  {
    hide Run, ValidQueue, TryPush;
    forall steps | Faults(p, steps, NullFreeList)
      ensures CanStarve(p)
    {
      FaultsMean(p, steps);
    }
    if CanStarve(p) {
      var n := Capacity(p);
      Filled(p, n);
      OfferRuns(p, Fill(n));
      var q := Run(p, Fill(n)).queue;
      TryPushMeaning(p, q, EVENT, GRANTED);
      StarvedOnlyAtCapacity(p, q);
      assert Faults(p, Fill(n) + Offer(), NullFreeList);
    }
  }

  /** A push that finds the queue full wakes up that many times. */
  function Blocked(p: Params, sleeps: nat): seq<Step> {
    if sleeps == 0 then Fill(Limit(p)) + Offer()
    else Blocked(p, sleeps - 1) + [WakeUp] + [Attempt(GRANTED)]
  }

  lemma {:induction false} BlockedSleeps(p: Params, sleeps: nat)
    requires ConfigAccepts(p) && !CanStarve(p) && WaitAt(p, sleeps + 1).Some?
    ensures Run(p, Blocked(p, sleeps)).producer == Asleep(EVENT, WaitAt(p, sleeps + 1).value, sleeps)
    ensures |Run(p, Blocked(p, sleeps)).queue.contents| == Limit(p) && ValidQueue(p, Run(p, Blocked(p, sleeps)).queue)
  {
    hide Run, ValidQueue, TryPush, Starved, Fits;
    if sleeps == 0 {
      Filled(p, Limit(p));
      OfferRuns(p, Fill(Limit(p)));
      var q := Run(p, Fill(Limit(p))).queue;
      TryPushMeaning(p, q, EVENT, GRANTED);
    } else {
      BlockedSleeps(p, sleeps - 1);
      var before := Blocked(p, sleeps - 1);
      var q := Run(p, before).queue;
      RunOneMore(p, before, WakeUp);
      RunOneMore(p, before + [WakeUp], Attempt(GRANTED));
      TryPushMeaning(p, q, EVENT, GRANTED);
    }
  }

  /** The last sleep before the sum leaves int. */
  lemma {:induction false} LastDefined(p: Params, k: nat) returns (j: nat)
    requires 1 <= k && WaitAt(p, k).None?
    ensures 1 <= j && WaitAt(p, j).Some? && WaitAt(p, j + 1).None?
  {
    if WaitAt(p, k - 1).Some? {
      j := k - 1;
    } else {
      j := LastDefined(p, k - 1);
    }
  }

  /** Some run adds a wait out of int exactly when the queue can get full and the waits do not fit. */
  lemma WaitOverflowIff(p: Params)
    requires ConfigAccepts(p)
    ensures (exists steps :: Faults(p, steps, WaitOverflow)) <==>
      !(p.min == 0 || (p.delta == 0 && p.min < Limit(p))) && !SumsFit(p)
  {
    hide Run, SumsFit, ValidQueue;
    BackoffDefinedIff(p);
    forall steps | Faults(p, steps, WaitOverflow)
      ensures !CanStarve(p) && !SumsFit(p)
    {
      FaultsMean(p, steps);
    }
    if !CanStarve(p) && !SumsFit(p) {
      var k: nat :| 1 <= k && WaitAt(p, k).None?;
      var j := LastDefined(p, k);
      BlockedSleeps(p, j - 1);
      RunOneMore(p, Blocked(p, j - 1), WakeUp);
      assert WaitAt(p, j + 1) == NextWait(p, WaitAt(p, j).value);
      assert Faults(p, Blocked(p, j - 1) + [WakeUp], WaitOverflow);
    }
  }

  /** Accepted: 32 records in the first pool, 64 at most, no increment; and no first pool at all. */
  lemma AcceptedAndFaulting() returns (steps: seq<Step>, steps': seq<Step>)
    ensures var p := Params(32, 64, 0, 5, 600, 5, 4);
      ConfigAccepts(p) && Faults(p, steps, NullFreeList)
    ensures var p := Params(0, 0, 32, 5, 600, 5, 4);
      ConfigAccepts(p) && Faults(p, steps', NullFreeList)
  {
    NullReadIff(Params(32, 64, 0, 5, 600, 5, 4));
    NullReadIff(Params(0, 0, 32, 5, 600, 5, 4));
    steps :| Faults(Params(32, 64, 0, 5, 600, 5, 4), steps, NullFreeList);
    steps' :| Faults(Params(0, 0, 32, 5, 600, 5, 4), steps', NullFreeList);
  }
}
