/** How long a push sleeps while every record is in use (pam-daemon/log_queue.c:266-285), with the C int it
    adds up in and the unsigned int that sleep() takes. */
module Backoff {
  import opened Options
  import opened Bounds
  import opened LogRecords
  import opened QueueSpec

  predicate InInt(x: int) {
    -0x8000_0000 <= x < 0x8000_0000
  }

  /** The two locals of a blocked push. */
  datatype Wait = Wait(seconds: int32, tries: int)

  function FirstWait(p: Params): Wait {
    Wait(p.waitMin, 1)
  }

  /** One round of the sleep loop: after `growThreshold` tries at one length the wait is stepped up and
      clamped.  None when the sum leaves int, which C does not define. */
  function NextWait(p: Params, w: Wait): Option<Wait> {
    if w.tries >= p.growThreshold then
      var s := w.seconds + p.waitDelta;
      if InInt(s) then Some(Wait(Min(s, p.waitMax), 0)) else None
    else
      Some(Wait(w.seconds, w.tries + 1))
  }

  /** The state of the loop at its k-th sleep, counting from one; None once a sum has left int. */
  function WaitAt(p: Params, k: nat): Option<Wait>
    requires 1 <= k
  {
    if k == 1 then Some(FirstWait(p))
    else if WaitAt(p, k - 1).None? then None
    else NextWait(p, WaitAt(p, k - 1).value)
  }

  /** What sleep() makes of an int: its argument is an unsigned int. */
  function Slept(seconds: int32): nat {
    if seconds < 0 then 0x1_0000_0000 + seconds else seconds
  }

  function SleepAt(p: Params, k: nat): Option<nat>
    requires 1 <= k
  {
    if WaitAt(p, k).None? then None else Some(Slept(WaitAt(p, k).value.seconds))
  }

  /** How often the wait was stepped up before the k-th sleep. */
  function Steps(p: Params, k: nat): nat
    requires 1 <= k
  {
    if p.growThreshold >= 1 then k / (p.growThreshold + 1) else k - 1
  }

  /** The closed form, for any number of steps and any parameters: a first step down from above the
      maximum lands on it, and a negative increment goes on down from there. */
  function Closed(p: Params, steps: nat): int {
    if steps == 0 then p.waitMin
    else Min(p.waitMax + (if p.waitDelta < 0 then (steps - 1) * p.waitDelta else 0), p.waitMin + steps * p.waitDelta)
  }

  /** The sums of the first `steps` steps stay inside int. */
  ghost predicate Sound(p: Params, steps: nat) {
    forall j: nat :: j < steps ==> InInt(Closed(p, j) + p.waitDelta)
  }

  lemma ClosedStep(p: Params, j: nat)
    ensures Closed(p, j + 1) == Min(p.waitMax, Closed(p, j) + p.waitDelta)
  {
    assert (j + 1) * p.waitDelta == j * p.waitDelta + p.waitDelta;
    if p.waitDelta < 0 && j > 0 {
      assert j * p.waitDelta == (j - 1) * p.waitDelta + p.waitDelta;
    }
    if p.waitDelta < 0 && j == 0 {
      assert 0 * p.waitDelta == 0;
    }
  }

  lemma ClosedStart(p: Params)
    ensures Closed(p, 0) == p.waitMin
  {
  }

  lemma DivStep(k: nat, m: nat)
    requires m >= 2 && k >= 1
    ensures (k + 1) % m == 0 ==> (k + 1) / m == k / m + 1 && k % m == m - 1
    ensures (k + 1) % m != 0 ==> (k + 1) / m == k / m && (k + 1) % m == k % m + 1
  {
    var q, r := k / m, k % m;
    assert k == m * q + r && 0 <= r < m;
    if r == m - 1 {
      assert k + 1 == m * (q + 1);
      Unique(k + 1, m, q + 1, 0);
    } else {
      Unique(k + 1, m, q, r + 1);
    }
  }

  lemma ScaledGap(m: nat, g: int)
    requires m > 0
    ensures g >= 1 ==> m * g >= m
    ensures g <= -1 ==> m * g + m <= 0
  {
  }

  lemma Unique(x: nat, m: nat, q: nat, r: nat)
    requires m > 0 && x == m * q + r && r < m
    ensures x / m == q && x % m == r
  {
    var q', r' := x / m, x % m;
    assert x == m * q' + r';
    assert m * (q - q') == r' - r;
    ScaledGap(m, q - q');
  }

  /** The loop at its k-th sleep: it gets there exactly when no sum left int before, and then the wait is
      the closed form and the tries count up from the last step. */
  lemma {:induction false} BackoffState(p: Params, k: nat)
    requires 1 <= k
    ensures WaitAt(p, k).Some? <==> Sound(p, Steps(p, k))
    ensures WaitAt(p, k).Some? ==>
      && WaitAt(p, k).value.seconds == Closed(p, Steps(p, k))
      && 0 <= WaitAt(p, k).value.tries
      && (p.growThreshold >= 1 ==> WaitAt(p, k).value.tries == k % (p.growThreshold + 1))
  {
    hide Closed;
    var m := p.growThreshold + 1;
    if k == 1 {
      ClosedStart(p);
      if m >= 2 { Unique(1, m, 0, 1); }
    } else {
      BackoffState(p, k - 1);
      ClosedStep(p, Steps(p, k - 1));
      if m >= 2 {
        DivStep(k - 1, m);
      }
      assert Sound(p, Steps(p, k)) ==> Sound(p, Steps(p, k - 1));
    }
  }

  /** The k-th sleep happens exactly when no sum has left int, and then it lasts the closed form. */
  lemma BackoffClosedForm(p: Params, k: nat)
    requires 1 <= k
    ensures WaitAt(p, k).Some? <==> Sound(p, Steps(p, k))
    ensures WaitAt(p, k).Some? ==> WaitAt(p, k).value.seconds == Closed(p, Steps(p, k))
  {
    BackoffState(p, k);
  }

  /** The usual formula, for every increment and every threshold, is right exactly when the minimum does
      not exceed the maximum. */
  ghost predicate UsualFormula(p: Params) {
    forall k: nat :: 1 <= k && WaitAt(p, k).Some? ==>
      WaitAt(p, k).value.seconds == Min(p.waitMax, p.waitMin + Steps(p, k) * p.waitDelta)
  }

  lemma UsualIsClosed(p: Params, j: nat)
    requires p.waitMin <= p.waitMax
    ensures Closed(p, j) == Min(p.waitMax, p.waitMin + j * p.waitDelta)
  {
    if j == 0 {
      assert 0 * p.waitDelta == 0;
    } else if p.waitDelta < 0 {
      assert j * p.waitDelta == (j - 1) * p.waitDelta + p.waitDelta;
      Falling(p.waitDelta, j);
    }
  }

  lemma Falling(d: int, j: nat)
    ensures d < 0 ==> d * j + j <= 0
    ensures d > 0 ==> d * j >= j
    ensures d == 0 ==> d * j == 0
  {
  }

  lemma BackoffFormula(p: Params)
    ensures UsualFormula(p) <==> p.waitMin <= p.waitMax
  {
    if p.waitMin <= p.waitMax {
      forall k: nat | 1 <= k && WaitAt(p, k).Some?
        ensures WaitAt(p, k).value.seconds == Min(p.waitMax, p.waitMin + Steps(p, k) * p.waitDelta)
      {
        BackoffClosedForm(p, k);
        UsualIsClosed(p, Steps(p, k));
      }
    } else {
      assert WaitAt(p, 1) == Some(FirstWait(p));
    }
  }

  // ---------------------------------------------------------------- the promise

  /** However long the push is blocked, no sum leaves int. */
  ghost predicate AlwaysDefined(p: Params) {
    forall k: nat :: 1 <= k ==> WaitAt(p, k).Some?
  }

  ghost predicate NeverExceedsMaximum(p: Params) {
    forall k: nat :: 1 <= k && SleepAt(p, k).Some? ==> SleepAt(p, k).value <= p.waitMax
  }

  ghost predicate NeverShrinks(p: Params) {
    forall k: nat :: 1 <= k && SleepAt(p, k + 1).Some? ==>
      SleepAt(p, k).Some? && SleepAt(p, k).value <= SleepAt(p, k + 1).value
  }

  /** Every number of steps is reached by some sleep. */
  lemma StepsReached(p: Params, n: nat) returns (k: nat)
    ensures 1 <= k && Steps(p, k) == n
  {
    if p.growThreshold >= 1 {
      var m := p.growThreshold + 1;
      if n == 0 {
        k := 1;
        Unique(1, m, 0, 1);
      } else {
        k := m * n;
        ScaledGap(m, n);
        Unique(k, m, n, 0);
      }
    } else {
      k := n + 1;
    }
  }

  predicate SumsFit(p: Params) {
    p.waitDelta == 0 || (p.waitDelta > 0 && InInt(Max(p.waitMin, p.waitMax) + p.waitDelta))
  }

  lemma ClosedRange(p: Params, j: nat)
    ensures j > 0 ==> Closed(p, j) <= p.waitMax
    ensures p.waitDelta >= 0 ==> Min(p.waitMin, p.waitMax) <= Closed(p, j)
  {
    Falling(p.waitDelta, j);
    if j > 0 { Falling(p.waitDelta, j - 1); }
  }

  /** A push can be blocked for any time without undefined arithmetic exactly when the increment is zero,
      or positive and the larger bound can be incremented once more inside int. */
  lemma BackoffDefinedIff(p: Params)
    ensures AlwaysDefined(p) <==> SumsFit(p)
  {
    if SumsFit(p) {
      forall k: nat | 1 <= k
        ensures WaitAt(p, k).Some?
      {
        forall j: nat | j < Steps(p, k)
          ensures InInt(Closed(p, j) + p.waitDelta)
        {
          ClosedRange(p, j);
        }
        BackoffClosedForm(p, k);
      }
    } else {
      var j := FirstMisfit(p);
      var k := StepsReached(p, j + 1);
      BackoffClosedForm(p, k);
    }
  }

  /** Otherwise some step is too far: a negative increment in the end, a positive one at the larger bound. */
  lemma FirstMisfit(p: Params) returns (j: nat)
    requires !SumsFit(p)
    ensures !InInt(Closed(p, j) + p.waitDelta)
  {
    if p.waitDelta < 0 {
      j := 0x1_0000_0000;
    } else if p.waitMin >= p.waitMax {
      j := 0;
    } else {
      j := p.waitMax - p.waitMin;
    }
    Falling(p.waitDelta, j);
  }

  /** From a wait that is not negative, a negative increment leads to a negative one before it leaves int. */
  lemma {:induction false} TurnsNegative(p: Params, n: nat) returns (j: nat)
    requires p.waitDelta < 0 <= p.waitMin <= p.waitMax
    requires Closed(p, n) < 0
    ensures Closed(p, j) < 0 && Sound(p, j)
  {
    if i: nat :| i < n && Closed(p, i) < 0 {
      j := TurnsNegative(p, i);
    } else {
      j := n;
      forall i: nat | i < n
        ensures InInt(Closed(p, i) + p.waitDelta)
      {
        UsualIsClosed(p, i);
      }
    }
  }

  /** The sleeps that are made never exceed the maximum exactly when the bounds are ordered, the minimum is
      not negative (it would be taken as unsigned) and the increment is not negative. */
  lemma BackoffMaximumIff(p: Params)
    ensures NeverExceedsMaximum(p) <==> 0 <= p.waitMin <= p.waitMax && 0 <= p.waitDelta
  {
    assert SleepAt(p, 1) == Some(Slept(p.waitMin));
    if 0 <= p.waitMin <= p.waitMax {
      if 0 <= p.waitDelta {
        forall k: nat | 1 <= k && SleepAt(p, k).Some?
          ensures SleepAt(p, k).value <= p.waitMax
        {
          BackoffClosedForm(p, k);
          ClosedRange(p, Steps(p, k));
        }
      } else {
        Falling(p.waitDelta, 0x8000_0000);
        var j := TurnsNegative(p, 0x8000_0000);
        var k := StepsReached(p, j);
        BackoffClosedForm(p, k);
        assert SleepAt(p, k).value > p.waitMax;
      }
    }
  }

  /** What the configuration's documentation promises of a blocked push: its waits start at the minimum,
      never shrink, never exceed the maximum, and go on for as long as it takes. */
  ghost predicate Promised(p: Params) {
    && SleepAt(p, 1) == Some(p.waitMin)
    && AlwaysDefined(p) && NeverExceedsMaximum(p) && NeverShrinks(p)
  }

  /** The promise holds exactly when the bounds are ordered and not negative and the increment is zero, or
      positive with room for one more above the maximum.  The threshold does not matter. */
  lemma BackoffPromiseIff(p: Params)
    ensures Promised(p) <==>
      0 <= p.waitMin <= p.waitMax && 0 <= p.waitDelta && (p.waitDelta == 0 || p.waitMax + p.waitDelta < 0x8000_0000)
  {
    BackoffMaximumIff(p);
    BackoffDefinedIff(p);
    if 0 <= p.waitMin <= p.waitMax && 0 <= p.waitDelta {
      forall k: nat | 1 <= k && SleepAt(p, k + 1).Some?
        ensures SleepAt(p, k).Some? && SleepAt(p, k).value <= SleepAt(p, k + 1).value
      {
        assert WaitAt(p, k).Some?;
        BackoffClosedForm(p, k);
        ClosedRange(p, Steps(p, k));
        assert WaitAt(p, k + 1) == NextWait(p, WaitAt(p, k).value);
      }
    }
  }

  /** The wait as the documentation has it: threshold tries at each length (at least one), then a step. */
  function DocumentedWait(p: Params, k: nat): int
    requires 1 <= k
  {
    Min(p.waitMax, p.waitMin + ((k - 1) / (if p.growThreshold >= 1 then p.growThreshold else 1)) * p.waitDelta)
  }

  ghost predicate StepsAfterThreshold(p: Params) {
    forall k: nat :: 1 <= k && SleepAt(p, k).Some? ==> SleepAt(p, k).value == DocumentedWait(p, k)
  }

  /** With a positive threshold the code makes one try more at every length but the first.  Under settings that
      keep the promise this shows unless the first step already reaches the maximum or there is nothing to step. */
  lemma ThresholdDocumentedIff(p: Params)
    requires Promised(p)
    ensures StepsAfterThreshold(p) <==>
      p.growThreshold <= 0 || p.waitDelta == 0 || p.waitMin + p.waitDelta >= p.waitMax
  {
    hide NeverExceedsMaximum, NeverShrinks, AlwaysDefined, SleepAt, DocumentedWait;
    BackoffPromiseIff(p);
    if p.growThreshold <= 0 || p.waitDelta == 0 || p.waitMin + p.waitDelta >= p.waitMax {
      forall k: nat | 1 <= k && SleepAt(p, k).Some?
        ensures SleepAt(p, k).value == DocumentedWait(p, k)
      {
        if p.growThreshold <= 0 {
          StepEachTime(p, k);
        } else {
          ClampedSleep(p, k);
          ClampedDocumented(p, k);
        }
      }
    } else {
      TooFewSteps(p);
    }
  }

  /** Without a positive threshold every sleep is followed by a step. */
  lemma StepEachTime(p: Params, k: nat)
    requires p.waitMin <= p.waitMax && 0 <= p.waitMin && 0 <= p.waitDelta && p.growThreshold <= 0
    requires 1 <= k && SleepAt(p, k).Some?
    ensures SleepAt(p, k).value == DocumentedWait(p, k)
  {
    hide Closed;
    BackoffClosedForm(p, k);
    UsualIsClosed(p, k - 1);
    Falling(p.waitDelta, k - 1);
    assert Steps(p, k) == k - 1 == (k - 1) / 1;
  }

  /** When one step reaches the maximum every later sleep is the maximum. */
  lemma ClampedSleep(p: Params, k: nat)
    requires 0 <= p.waitMin <= p.waitMax && 0 <= p.waitDelta && 1 <= p.growThreshold
    requires p.waitDelta == 0 || p.waitMin + p.waitDelta >= p.waitMax
    requires 1 <= k && SleepAt(p, k).Some?
    ensures SleepAt(p, k).value == if k <= p.growThreshold || p.waitDelta == 0 then p.waitMin else p.waitMax
  {
    hide Closed;
    BackoffClosedForm(p, k);
    UsualIsClosed(p, Steps(p, k));
    SameFirstLength(k, p.growThreshold);
    AtMaximum(p, Steps(p, k));
  }

  lemma ClampedDocumented(p: Params, k: nat)
    requires 0 <= p.waitMin <= p.waitMax && 0 <= p.waitDelta && 1 <= p.growThreshold
    requires p.waitDelta == 0 || p.waitMin + p.waitDelta >= p.waitMax
    requires 1 <= k
    ensures DocumentedWait(p, k) == if k <= p.growThreshold || p.waitDelta == 0 then p.waitMin else p.waitMax
  {
    SameFirstLength(k, p.growThreshold);
    AtMaximum(p, (k - 1) / p.growThreshold);
  }

  /** After twice the threshold the documented wait has been stepped up twice, the code's once. */
  lemma TooFewSteps(p: Params)
    requires 0 <= p.waitMin <= p.waitMax && 0 <= p.waitDelta && 1 <= p.growThreshold
    requires AlwaysDefined(p) && 0 < p.waitDelta && p.waitMin + p.waitDelta < p.waitMax
    ensures SleepAt(p, 2 * p.growThreshold + 1).Some?
    ensures SleepAt(p, 2 * p.growThreshold + 1).value < DocumentedWait(p, 2 * p.growThreshold + 1)
  {
    hide Closed, WaitAt;
    var g: int := p.growThreshold;
    var k := 2 * g + 1;
    Unique(k, g + 1, 1, g);
    BackoffClosedForm(p, k);
    UsualIsClosed(p, 1);
    assert Steps(p, k) == 1;
    Unique(2 * g, g, 2, 0);
    assert DocumentedWait(p, k) == Min(p.waitMax, p.waitMin + 2 * p.waitDelta);
  }

  lemma SameFirstLength(k: nat, g: nat)
    requires 1 <= k && 1 <= g
    ensures k / (g + 1) == 0 <==> k <= g
    ensures (k - 1) / g == 0 <==> k <= g
  {
    if k <= g {
      Unique(k, g + 1, 0, k);
      Unique(k - 1, g, 0, k - 1);
    } else {
      ScaledGap(g + 1, k / (g + 1));
      ScaledGap(g, (k - 1) / g);
    }
  }

  lemma AtMaximum(p: Params, steps: nat)
    requires p.waitMin <= p.waitMax && 0 <= p.waitDelta
    requires p.waitDelta == 0 || p.waitMin + p.waitDelta >= p.waitMax
    ensures Min(p.waitMax, p.waitMin + steps * p.waitDelta) == if steps == 0 || p.waitDelta == 0 then p.waitMin else p.waitMax
  {
    if steps > 0 && p.waitDelta > 0 {
      ScaledGap(p.waitDelta, steps);
    }
  }

  /** Zero maximum, minimum five: accepted, and the second wait is zero. */
  lemma ZeroMaximumBreaksBackoff()
    ensures var p := Params(32, 0, 32, 5, 0, 5, 1);
      ConfigAccepts(p) && SleepAt(p, 1) == Some(5) && SleepAt(p, 2) == Some(0) && !Promised(p)
  {
    BackoffPromiseIff(Params(32, 0, 32, 5, 0, 5, 1));
  }

  /** Negative increment: accepted, and the waits are five seconds, none, and then 136 years. */
  lemma NegativeIncrementBreaksBackoff()
    ensures var p := Params(32, 0, 32, 5, 600, -5, 1);
      ConfigAccepts(p) && SleepAt(p, 1) == Some(5) && SleepAt(p, 2) == Some(0) && SleepAt(p, 4) == Some(4294967291)
      && !Promised(p)
  {
    var p := Params(32, 0, 32, 5, 600, -5, 1);
    BackoffPromiseIff(p);
    assert WaitAt(p, 3) == Some(Wait(0, 1));
  }

  /** Large increment: accepted, and the second step leaves int. */
  lemma LargeIncrementBreaksBackoff()
    ensures var p := Params(32, 0, 32, 1, 2147483647, 2000000000, 1);
      ConfigAccepts(p) && SleepAt(p, 3) == Some(2000000001) && SleepAt(p, 4) == None && !Promised(p)
  {
    var p := Params(32, 0, 32, 1, 2147483647, 2000000000, 1);
    BackoffPromiseIff(p);
    assert WaitAt(p, 2) == Some(Wait(2000000001, 0));
  }

  /** Negative minimum: accepted, and the first wait is 136 years. */
  lemma NegativeMinimumBreaksBackoff()
    ensures var p := Params(32, 0, 32, -5, 600, 5, 4);
      ConfigAccepts(p) && SleepAt(p, 1) == Some(4294967291) && !Promised(p)
  {
    BackoffPromiseIff(Params(32, 0, 32, -5, 600, 5, 4));
  }
}
