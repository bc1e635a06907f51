// Workers that take indices from one shared counter. A step is what one worker does between two
// awaits, so that any interleaving of the workers is a sequence of steps.
module WorkerCrew {
  datatype Worker = Idle | Visiting(index: nat) | Ended | Failed(index: nat)

  // `claims` lists the indices taken, in order; `done` those whose visit has returned.
  datatype Crew = Crew(workers: seq<Worker>, next: nat, claims: seq<nat>, done: set<nat>)

  datatype Step = Claim(worker: nat) | Finish(worker: nat) | Fail(worker: nat)

  // As many workers as wanted, but no more than there is work, and none for a negative count.
  function CrewSize(concurrency: int, n: nat): nat {
    if concurrency < 0 then 0 else if concurrency < n then concurrency else n
  }

  function Assembled(size: nat): Crew {
    Crew(seq(size, _ => Idle), 0, [], {})
  }

  ghost predicate Enabled(n: nat, c: Crew, step: Step) {
    && step.worker < |c.workers|
    && match step
      case Claim(w) => c.workers[w].Idle?
      case Finish(w) => c.workers[w].Visiting?
      case Fail(w) => c.workers[w].Visiting?
  }

  function Next(n: nat, c: Crew, step: Step): Crew
    requires Enabled(n, c, step)
  {
    match step
    case Claim(w) =>
      if c.next < n then
        c.(workers := c.workers[w := Visiting(c.next)], next := c.next + 1, claims := c.claims + [c.next])
      else
        c.(workers := c.workers[w := Ended])
    case Finish(w) =>
      c.(workers := c.workers[w := Idle], done := c.done + {c.workers[w].index})
    case Fail(w) =>
      c.(workers := c.workers[w := Failed(c.workers[w].index)])
  }

  predicate Busy(w: Worker, i: nat) {
    (w.Visiting? || w.Failed?) && w.index == i
  }

  ghost predicate Held(c: Crew, i: nat) {
    exists w :: 0 <= w < |c.workers| && Busy(c.workers[w], i)
  }

  // The counter has handed out each index below it exactly once, in order; each is either done or
  // held by one worker; a worker ends only when all are handed out.
  ghost predicate Inv(n: nat, size: nat, c: Crew) {
    && |c.workers| == size && c.next <= n
    && |c.claims| == c.next && (forall i :: 0 <= i < c.next ==> c.claims[i] == i)
    && (forall i :: i in c.done ==> i < c.next && !Held(c, i))
    && (forall i :: 0 <= i < c.next ==> i in c.done || Held(c, i))
    && (forall v, w, i: nat :: 0 <= v < size && 0 <= w < size && Busy(c.workers[v], i) && Busy(c.workers[w], i) ==> v == w)
    && (forall w, i: nat :: 0 <= w < size && Busy(c.workers[w], i) ==> i < c.next)
    && (forall w :: 0 <= w < size && c.workers[w].Ended? ==> c.next == n)
    && (size == 0 ==> c.next == 0)
  }

  // Who holds what after a step.
  lemma HeldAfter(n: nat, size: nat, c: Crew, step: Step, i: nat)
    requires Inv(n, size, c) && Enabled(n, c, step)
    ensures Held(Next(n, c, step), i) <==>
      match step
      case Claim(w) => Held(c, i) || (i == c.next && c.next < n)
      case Finish(w) => Held(c, i) && i != c.workers[w].index
      case Fail(w) => Held(c, i)
  {
    var after := Next(n, c, step);
    if Held(c, i) {
      var v :| 0 <= v < |c.workers| && Busy(c.workers[v], i);
      if v != step.worker {
        assert Busy(after.workers[v], i);
      } else if step.Fail? {
        assert Busy(after.workers[v], i);
      }
    }
    if step.Claim? && c.next < n {
      assert Busy(after.workers[step.worker], c.next);
    }
    if Held(after, i) {
      var v :| 0 <= v < |after.workers| && Busy(after.workers[v], i);
      if v != step.worker || step.Fail? {
        assert Busy(c.workers[v], i);
      }
    }
  }

  lemma NextKeepsInv(n: nat, size: nat, c: Crew, step: Step)
    requires Inv(n, size, c) && Enabled(n, c, step)
    ensures Inv(n, size, Next(n, c, step))
  {
    var after := Next(n, c, step);
    forall i: nat
      ensures Held(after, i) <==>
        match step
        case Claim(w) => Held(c, i) || (i == c.next && c.next < n)
        case Finish(w) => Held(c, i) && i != c.workers[w].index
        case Fail(w) => Held(c, i)
    {
      HeldAfter(n, size, c, step, i);
    }
    if !step.Claim? {
      assert Busy(c.workers[step.worker], c.workers[step.worker].index);
    }
  }

  // What is left to do: it falls with every step, so every schedule ends.
  function WorkOf(w: Worker): nat {
    match w
    case Idle => 1
    case Visiting(_) => 2
    case Ended => 0
    case Failed(_) => 0
  }

  function Work(workers: seq<Worker>): nat {
    if workers == [] then 0 else WorkOf(workers[0]) + Work(workers[1..])
  }

  function Remaining(n: nat, c: Crew): int {
    2 * (n - c.next) + Work(c.workers)
  }

  lemma {:induction false} WorkUpdate(workers: seq<Worker>, w: nat, v: Worker)
    requires w < |workers|
    ensures Work(workers[w := v]) == Work(workers) - WorkOf(workers[w]) + WorkOf(v)
  {
    if w == 0 {
      assert workers[0 := v][1..] == workers[1..];
    } else {
      assert workers[w := v][1..] == workers[1..][w - 1 := v];
      WorkUpdate(workers[1..], w - 1, v);
    }
  }

  lemma StepsUseWork(n: nat, size: nat, c: Crew, step: Step)
    requires Inv(n, size, c) && Enabled(n, c, step)
    ensures Remaining(n, c) > Remaining(n, Next(n, c, step)) >= 0
  {
    var after := Next(n, c, step);
    WorkUpdate(c.workers, step.worker, after.workers[step.worker]);
    NextKeepsInv(n, size, c, step);
    assert after.workers == c.workers[step.worker := after.workers[step.worker]];
  }

  ghost predicate IsRun(n: nat, c: Crew, steps: seq<Step>)
    decreases |steps|
  {
    steps == [] || (Enabled(n, c, steps[0]) && IsRun(n, Next(n, c, steps[0]), steps[1..]))
  }

  ghost function After(n: nat, c: Crew, steps: seq<Step>): Crew
    requires IsRun(n, c, steps)
    decreases |steps|
  {
    if steps == [] then c else After(n, Next(n, c, steps[0]), steps[1..])
  }

  lemma {:induction false} RunKeepsInv(n: nat, size: nat, c: Crew, steps: seq<Step>)
    requires Inv(n, size, c) && IsRun(n, c, steps)
    ensures Inv(n, size, After(n, c, steps))
    ensures |steps| + Remaining(n, After(n, c, steps)) <= Remaining(n, c) && Remaining(n, After(n, c, steps)) >= 0
    decreases |steps|
  {
    hide Inv, Enabled, Next, Remaining;
    if steps == [] {
      RemainingIsNat(n, size, c);
    } else {
      NextKeepsInv(n, size, c, steps[0]);
      StepsUseWork(n, size, c, steps[0]);
      RunKeepsInv(n, size, Next(n, c, steps[0]), steps[1..]);
    }
  }

  lemma RemainingIsNat(n: nat, size: nat, c: Crew)
    requires Inv(n, size, c)
    ensures Remaining(n, c) >= 0
  {
  }

  lemma {:induction false} IdleWork(size: nat)
    ensures Work(seq(size, _ => Idle)) == size
  {
    if size > 0 {
      IdleWork(size - 1);
      assert seq(size, _ => Idle)[1..] == seq(size - 1, _ => Idle);
    }
  }

  ghost predicate Settled(c: Crew) {
    forall w :: 0 <= w < |c.workers| ==> c.workers[w].Ended? || c.workers[w].Failed?
  }

  ghost predicate Flawless(c: Crew) {
    forall w :: 0 <= w < |c.workers| ==> c.workers[w].Ended?
  }

  // While a worker is not settled, it has a step to take: an idle one claims, and a visit returns or
  // fails.
  lemma UnsettledCanStep(n: nat, c: Crew)
    requires !Settled(c)
    ensures exists step :: Enabled(n, c, step)
    ensures forall w: nat :: w < |c.workers| && c.workers[w].Idle? ==> Enabled(n, c, Claim(w))
    ensures forall w: nat :: w < |c.workers| && c.workers[w].Visiting? ==> Enabled(n, c, Finish(w)) && Enabled(n, c, Fail(w))
  {
    var w :| 0 <= w < |c.workers| && !c.workers[w].Ended? && !c.workers[w].Failed?;
    var step := if c.workers[w].Idle? then Claim(w) else Finish(w);
    assert Enabled(n, c, step);
  }

  ghost predicate Visits(c: Crew, w: nat, i: nat) {
    w < |c.workers| && c.workers[w] == Visiting(i)
  }

  function Below(n: nat): (s: set<nat>)
    ensures |s| == n && forall w: nat :: w in s <==> w < n
  {
    if n == 0 then {} else Below(n - 1) + {n - 1}
  }

  function InFlight(c: Crew): set<nat> {
    set w | w in Below(|c.workers|) && c.workers[w].Visiting?
  }

  // Every schedule: it takes at most two steps for an index and one for a worker; each index is
  // claimed exactly once and in order; no more visits are in flight than there may be; no two are
  // of the same index; and when all workers end, every index is done, provided there is a worker.
  lemma {:induction false} EverySchedule(n: nat, concurrency: int, steps: seq<Step>)
    requires IsRun(n, Assembled(CrewSize(concurrency, n)), steps)
    ensures |steps| <= 2 * n + CrewSize(concurrency, n)
    ensures var c := After(n, Assembled(CrewSize(concurrency, n)), steps);
      && c.claims == seq(c.next, i => i) && c.next <= n
      && FewInFlight(n, concurrency, c)
      && (forall v: nat, w: nat, i: nat :: Visits(c, v, i) && Visits(c, w, i) ==> v == w)
      && (Flawless(c) ==> ((forall i: nat :: i < n ==> i in c.done) <==> concurrency >= 1 || n == 0))
  {
    var size := CrewSize(concurrency, n);
    RunKeepsInv(n, size, Assembled(size), steps);
    IdleWork(size);
    var c := After(n, Assembled(size), steps);
    hide Inv, IsRun, After, FewInFlight, Visits, Flawless;
    VisitsApart(n, size, c);
    FlightWithin(n, concurrency, c);
    if Flawless(c) {
      AllDone(n, size, c);
      if size == 0 && n > 0 {
        assert 0 !in c.done;
      }
    }
  }

  // No more visits than values, nor than wanted.
  ghost predicate FewInFlight(n: nat, concurrency: int, c: Crew) {
    |InFlight(c)| <= n && (|InFlight(c)| == 0 || |InFlight(c)| <= concurrency)
  }

  lemma FlightWithin(n: nat, concurrency: int, c: Crew)
    requires |c.workers| == CrewSize(concurrency, n)
    ensures FewInFlight(n, concurrency, c)
  {
    InFlightBound(c);
  }

  lemma InFlightBound(c: Crew)
    ensures |InFlight(c)| <= |c.workers|
  {
    var all := Below(|c.workers|);
    assert all == InFlight(c) + (all - InFlight(c));
  }

  lemma VisitsApart(n: nat, size: nat, c: Crew)
    requires Inv(n, size, c)
    ensures forall v: nat, w: nat, i: nat :: Visits(c, v, i) && Visits(c, w, i) ==> v == w
    ensures c.claims == seq(c.next, i => i) && c.next <= n && |c.workers| == size
  {
    forall v: nat, w: nat, i: nat | Visits(c, v, i) && Visits(c, w, i)
      ensures v == w
    {
      assert Busy(c.workers[v], i) && Busy(c.workers[w], i);
    }
  }

  lemma AllDone(n: nat, size: nat, c: Crew)
    requires Inv(n, size, c) && Flawless(c)
    ensures size > 0 ==> forall i: nat :: i < n ==> i in c.done
    ensures size == 0 && n > 0 ==> 0 !in c.done
  {
    if size > 0 {
      assert c.workers[0].Ended?;
      assert c.next == n;
      forall i: nat | i < n
        ensures i in c.done
      {
        assert !Held(c, i);
      }
    }
  }

  // The crew when its first `k` workers have each claimed an index.
  ghost function Launched(size: nat, k: nat): Crew {
    Crew(seq(size, w requires 0 <= w => if w < k then Visiting(w) else Idle), k, seq(k, i => i), {})
  }

  ghost function Claims(size: nat, k: nat): seq<Step>
    requires k <= size
    decreases size - k
  {
    if k == size then [] else [Claim(k)] + Claims(size, k + 1)
  }

  lemma LaunchNext(n: nat, size: nat, k: nat)
    requires k < size <= n
    ensures Enabled(n, Launched(size, k), Claim(k)) && Next(n, Launched(size, k), Claim(k)) == Launched(size, k + 1)
  {
    assert seq(k, i => i) + [k] == seq(k + 1, i => i);
    assert Launched(size, k).workers[k := Visiting(k)] == Launched(size, k + 1).workers;
  }

  lemma {:induction false} LaunchRuns(n: nat, size: nat, k: nat)
    requires k <= size <= n
    ensures IsRun(n, Launched(size, k), Claims(size, k))
    ensures After(n, Launched(size, k), Claims(size, k)) == Launched(size, size)
    decreases size - k
  {
    hide Launched, Enabled, Next;
    if k < size {
      LaunchNext(n, size, k);
      LaunchRuns(n, size, k + 1);
      assert Claims(size, k)[1..] == Claims(size, k + 1);
    }
  }

  // As many visits as allowed are in flight in some schedule: the count wanted, or all there are.
  lemma FullFlight(n: nat, concurrency: nat) returns (steps: seq<Step>)
    ensures IsRun(n, Assembled(CrewSize(concurrency, n)), steps)
    ensures |InFlight(After(n, Assembled(CrewSize(concurrency, n)), steps))| == if concurrency < n then concurrency else n
  {
    var size := CrewSize(concurrency, n);
    steps := Claims(size, 0);
    assert Assembled(size) == Launched(size, 0) by {
      assert seq(0, i => i) == [];
    }
    LaunchRuns(n, size, 0);
    var c := Launched(size, size);
    assert InFlight(c) == Below(size);
  }
}
