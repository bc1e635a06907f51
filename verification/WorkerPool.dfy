// `mapWithConcurrency` of scripts/build-data/build-stablecoin-detail-snapshots.ts: a crew whose
// workers write each answer into the slot of its index.
module WorkerPool {
  import opened Options
  import opened WorkerCrew

  datatype Pool<R> = Pool(crew: Crew, results: seq<Option<R>>)

  function Opened<R>(concurrency: int, n: nat): Pool<R> {
    Pool(Assembled(CrewSize(concurrency, n)), seq(n, _ => None))
  }

  ghost predicate Fits<R>(n: nat, p: Pool<R>) {
    && |p.results| == n
    && forall w :: 0 <= w < |p.crew.workers| && p.crew.workers[w].Visiting? ==> p.crew.workers[w].index < n
  }

  // `answer(i)` is what the visit of value `i` returns, if it returns.
  function PoolNext<R>(n: nat, answer: nat -> R, p: Pool<R>, step: Step): Pool<R>
    requires Enabled(n, p.crew, step) && Fits(n, p)
  {
    var crew := Next(n, p.crew, step);
    match step
    case Finish(w) =>
      var i := p.crew.workers[w].index;
      Pool(crew, p.results[i := Some(answer(i))])
    case _ => Pool(crew, p.results)
  }

  // Exactly the indices done have their answer, each in its own slot.
  ghost predicate PoolInv<R(!new)>(n: nat, size: nat, answer: nat -> R, p: Pool<R>) {
    && Inv(n, size, p.crew)
    && |p.results| == n
    && forall i :: 0 <= i < n ==> p.results[i] == if i in p.crew.done then Some(answer(i)) else None
  }

  lemma InvFits<R(!new)>(n: nat, size: nat, answer: nat -> R, p: Pool<R>)
    requires PoolInv(n, size, answer, p)
    ensures Fits(n, p)
  {
    forall w | 0 <= w < |p.crew.workers| && p.crew.workers[w].Visiting?
      ensures p.crew.workers[w].index < n
    {
      assert Busy(p.crew.workers[w], p.crew.workers[w].index);
    }
  }

  lemma PoolNextKeepsInv<R(!new)>(n: nat, size: nat, answer: nat -> R, p: Pool<R>, step: Step)
    requires PoolInv(n, size, answer, p) && Enabled(n, p.crew, step) && Fits(n, p)
    ensures PoolInv(n, size, answer, PoolNext(n, answer, p, step))
  {
    NextKeepsInv(n, size, p.crew, step);
    hide Inv;
  }

  ghost predicate IsPoolRun<R(!new)>(n: nat, answer: nat -> R, p: Pool<R>, steps: seq<Step>)
    decreases |steps|
  {
    steps == [] ||
    (Enabled(n, p.crew, steps[0]) && Fits(n, p) && IsPoolRun(n, answer, PoolNext(n, answer, p, steps[0]), steps[1..]))
  }

  ghost function PoolAfter<R(!new)>(n: nat, answer: nat -> R, p: Pool<R>, steps: seq<Step>): Pool<R>
    requires IsPoolRun(n, answer, p, steps)
    decreases |steps|
  {
    if steps == [] then p else PoolAfter(n, answer, PoolNext(n, answer, p, steps[0]), steps[1..])
  }

  // The crew of a pool runs as a crew; nothing but its own steps stops a pool.
  lemma {:induction false} PoolRunsCrew<R(!new)>(n: nat, size: nat, answer: nat -> R, p: Pool<R>, steps: seq<Step>)
    requires PoolInv(n, size, answer, p)
    ensures IsPoolRun(n, answer, p, steps) <==> IsRun(n, p.crew, steps)
    ensures IsRun(n, p.crew, steps) ==>
      && PoolAfter(n, answer, p, steps).crew == After(n, p.crew, steps)
      && PoolInv(n, size, answer, PoolAfter(n, answer, p, steps))
    decreases |steps|
  {
    hide PoolInv, Enabled, Fits;
    if steps != [] && Enabled(n, p.crew, steps[0]) {
      InvFits(n, size, answer, p);
      PoolNextKeepsInv(n, size, answer, p, steps[0]);
      PoolRunsCrew(n, size, answer, PoolNext(n, answer, p, steps[0]), steps[1..]);
    }
  }

  // Every schedule that comes to its end without a failed visit returns all answers in the order of
  // the values, provided there is a worker at all; with none it returns empty slots.
  lemma {:induction false} EveryPool<R(!new)>(n: nat, concurrency: int, answer: nat -> R, steps: seq<Step>)
    requires IsRun(n, Assembled(CrewSize(concurrency, n)), steps)
    ensures IsPoolRun(n, answer, Opened(concurrency, n), steps)
    ensures var p := PoolAfter(n, answer, Opened(concurrency, n), steps);
      && (forall i: nat :: i < n ==> |p.results| == n && (p.results[i].Some? ==> p.results[i] == Some(answer(i))))
      && (Flawless(p.crew) ==>
           (p.results == seq(n, i requires 0 <= i => Some(answer(i))) <==> concurrency >= 1 || n == 0))
  {
    var size := CrewSize(concurrency, n);
    PoolRunsCrew(n, size, answer, Opened(concurrency, n), steps);
    EverySchedule(n, concurrency, steps);
    hide Inv, IsRun, IsPoolRun, After, PoolAfter, Flawless, Assembled;
    var p := PoolAfter(n, answer, Opened(concurrency, n), steps);
    if Flawless(p.crew) {
      if concurrency >= 1 || n == 0 {
        assert forall i: nat :: i < n ==> i in p.crew.done;
      } else {
        var i: nat :| i < n && i !in p.crew.done;
        assert p.results[i] == None;
      }
    }
  }
}
