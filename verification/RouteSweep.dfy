// `collectRouteSweepProbes` of scripts/ci/run-post-deploy-acceptance.ts: a crew that probes paths
// until a deadline, and asks once more where the first answer was a server error.
module RouteSweep {
  import opened Options
  import opened WorkerCrew

  const CONCURRENCY := 4

  datatype Reply = Answered(status: int) | Thrown

  // A probe that never ran, or the last reply with whether it was a second try.
  datatype Probe = NotRun | Ran(reply: Reply, retried: bool)

  datatype Sweeper = Resting | First(index: nat) | Again(index: nat) | Over

  datatype Request = Request(index: nat, at: int)

  datatype Sweep = Sweep(sweepers: seq<Sweeper>, next: nat, slots: seq<Option<Probe>>, requests: seq<Request>)

  // Both read the clock and act on it within one step.
  datatype Turn = Take(worker: nat, now: int) | Receive(worker: nat, reply: Reply, now: int)

  function Begun(n: nat): Sweep {
    Sweep(seq(CrewSize(CONCURRENCY, n), _ => Resting), 0, seq(n, _ => None), [])
  }

  ghost predicate CanTurn(s: Sweep, t: Turn) {
    && t.worker < |s.sweepers|
    && match t
      case Take(w, _) => s.sweepers[w].Resting?
      case Receive(w, _, _) =>
        && (s.sweepers[w].First? || s.sweepers[w].Again?)
        && s.sweepers[w].index < |s.slots|
  }

  predicate ServerError(reply: Reply) {
    reply.Answered? && 500 <= reply.status <= 599
  }

  function Asking(s: Sweep, w: nat, sweeper: Sweeper, i: nat, now: int): Sweep
    requires w < |s.sweepers|
  {
    s.(sweepers := s.sweepers[w := sweeper], requests := s.requests + [Request(i, now)])
  }

  function Filled(s: Sweep, w: nat, i: nat, probe: Probe): Sweep
    requires w < |s.sweepers| && i < |s.slots|
  {
    s.(sweepers := s.sweepers[w := Resting], slots := s.slots[i := Some(probe)])
  }

  // The counter moves on even past the last path, where the worker returns.
  function Turned(deadline: int, s: Sweep, t: Turn): Sweep
    requires CanTurn(s, t)
  {
    match t
    case Take(w, now) =>
      var i := s.next;
      var taken := s.(next := i + 1);
      if i >= |s.slots| then taken.(sweepers := s.sweepers[w := Over])
      else if now >= deadline then Filled(taken, w, i, NotRun)
      else Asking(taken, w, First(i), i, now)
    case Receive(w, reply, now) =>
      var i := s.sweepers[w].index;
      if s.sweepers[w].First? && ServerError(reply) && now < deadline then Asking(s, w, Again(i), i, now)
      else Filled(s, w, i, Ran(reply, s.sweepers[w].Again?))
  }

  // The crew behind a sweep.
  function WorkerOf(s: Sweeper): Worker {
    match s
    case Resting => Idle
    case First(i) => Visiting(i)
    case Again(i) => Visiting(i)
    case Over => Ended
  }

  function WorkersOf(sweepers: seq<Sweeper>): seq<Worker> {
    seq(|sweepers|, w requires 0 <= w < |sweepers| => WorkerOf(sweepers[w]))
  }

  function DoneOf(slots: seq<Option<Probe>>): set<nat> {
    set i | i in Below(|slots|) && slots[i].Some?
  }

  function CrewOf(s: Sweep): Crew {
    var next := if s.next < |s.slots| then s.next else |s.slots|;
    Crew(WorkersOf(s.sweepers), next, seq(next, i => i), DoneOf(s.slots))
  }

  // What the crew does in one turn: nothing when a path is asked again.
  function Shadow(deadline: int, s: Sweep, t: Turn): seq<Step>
    requires CanTurn(s, t)
  {
    match t
    case Take(w, now) =>
      if s.next < |s.slots| && now >= deadline then [Claim(w), Finish(w)] else [Claim(w)]
    case Receive(w, reply, now) =>
      if s.sweepers[w].First? && ServerError(reply) && now < deadline then [] else [Finish(w)]
  }

  lemma DoneUpdate(slots: seq<Option<Probe>>, i: nat, probe: Probe)
    requires i < |slots|
    ensures DoneOf(slots[i := Some(probe)]) == DoneOf(slots) + {i}
  {
  }

  lemma {:induction false} OneStep(n: nat, c: Crew, step: Step)
    requires Enabled(n, c, step)
    ensures IsRun(n, c, [step]) && After(n, c, [step]) == Next(n, c, step)
  {
    assert [step][1..] == [];
  }

  lemma {:induction false} TwoSteps(n: nat, c: Crew, a: Step, b: Step)
    requires Enabled(n, c, a) && Enabled(n, Next(n, c, a), b)
    ensures IsRun(n, c, [a, b]) && After(n, c, [a, b]) == Next(n, Next(n, c, a), b)
  {
    OneStep(n, Next(n, c, a), b);
    assert [a, b][1..] == [b];
  }

  // Each turn of the sweep is what its crew could do.
  lemma SweepRefinesCrew(deadline: int, s: Sweep, t: Turn)
    requires CanTurn(s, t)
    ensures IsRun(|s.slots|, CrewOf(s), Shadow(deadline, s, t))
    ensures After(|s.slots|, CrewOf(s), Shadow(deadline, s, t)) == CrewOf(Turned(deadline, s, t))
  {
    hide IsRun, After, DoneOf;
    var n, w := |s.slots|, t.worker;
    var crew, after := CrewOf(s), Turned(deadline, s, t);
    if t.Take? {
      if s.next < n && t.now >= deadline {
        DoneUpdate(s.slots, s.next, NotRun);
        TwoSteps(n, crew, Claim(w), Finish(w));
        assert crew.workers[w := Visiting(s.next)][w := Idle] == crew.workers[w := Idle];
      } else {
        OneStep(n, crew, Claim(w));
      }
    } else if after.sweepers[w].Resting? {
      DoneUpdate(s.slots, s.sweepers[w].index, after.slots[s.sweepers[w].index].value);
      OneStep(n, crew, Finish(w));
    } else {
      AskingAgain(deadline, s, t);
    }
  }

  lemma AskingAgain(deadline: int, s: Sweep, t: Turn)
    requires CanTurn(s, t) && t.Receive? && Turned(deadline, s, t).sweepers[t.worker].Again?
    ensures CrewOf(Turned(deadline, s, t)) == CrewOf(s)
    ensures Shadow(deadline, s, t) == [] && IsRun(|s.slots|, CrewOf(s), []) && After(|s.slots|, CrewOf(s), []) == CrewOf(s)
  {
    assert WorkersOf(s.sweepers)[t.worker := Visiting(s.sweepers[t.worker].index)] == WorkersOf(s.sweepers);
  }

  // How many requests went out for a path, and how many its report accounts for.
  function Asked(requests: seq<Request>, i: nat): nat {
    if requests == [] then 0
    else
      Asked(requests[..|requests| - 1], i) + if requests[|requests| - 1].index == i then 1 else 0
  }

  function Cost(probe: Probe): nat {
    if probe.NotRun? then 0 else if probe.retried then 2 else 1
  }

  lemma {:induction false} AskedOnce(requests: seq<Request>, r: Request, i: nat)
    ensures Asked(requests + [r], i) == Asked(requests, i) + if r.index == i then 1 else 0
  {
    assert (requests + [r])[..|requests|] == requests;
  }

  predicate Accounted(sweeper: Sweeper, requests: seq<Request>) {
    match sweeper
    case First(i) => Asked(requests, i) == 1
    case Again(i) => Asked(requests, i) == 2
    case _ => true
  }

  ghost predicate SweepInv(deadline: int, size: nat, s: Sweep) {
    && Inv(|s.slots|, size, CrewOf(s))
    && (forall r :: r in s.requests ==> r.at < deadline)
    && (forall i :: 0 <= i < |s.slots| && s.slots[i].Some? ==> Asked(s.requests, i) == Cost(s.slots[i].value))
    && (forall w :: 0 <= w < |s.sweepers| ==> Accounted(s.sweepers[w], s.requests))
    && (forall i: nat :: i >= CrewOf(s).next ==> Asked(s.requests, i) == 0)
  }

  // What the crew's invariant says of the sweep: an index in hand is taken, not filled, and in no
  // other hand.
  lemma InHand(size: nat, s: Sweep, w: nat)
    requires Inv(|s.slots|, size, CrewOf(s)) && w < |s.sweepers| && (s.sweepers[w].First? || s.sweepers[w].Again?)
    ensures var i := s.sweepers[w].index;
      && i < CrewOf(s).next && i < |s.slots| && s.slots[i].None?
      && forall v :: 0 <= v < |s.sweepers| && v != w && (s.sweepers[v].First? || s.sweepers[v].Again?) ==>
        s.sweepers[v].index != i
  {
    var c, i := CrewOf(s), s.sweepers[w].index;
    assert Busy(c.workers[w], i);
    assert i in c.done ==> !Held(c, i);
    assert Held(c, i);
    forall v | 0 <= v < |s.sweepers| && v != w && (s.sweepers[v].First? || s.sweepers[v].Again?)
      ensures s.sweepers[v].index != i
    {
      assert Busy(c.workers[v], s.sweepers[v].index);
    }
  }

  lemma TurnKeepsCrew(deadline: int, size: nat, s: Sweep, t: Turn)
    requires Inv(|s.slots|, size, CrewOf(s)) && CanTurn(s, t)
    ensures Inv(|s.slots|, size, CrewOf(Turned(deadline, s, t)))
  {
    hide Inv, Turned, CrewOf, Shadow, IsRun, After;
    SweepRefinesCrew(deadline, s, t);
    RunKeepsInv(|s.slots|, size, CrewOf(s), Shadow(deadline, s, t));
  }

  lemma {:induction false} AskKeepsInv(deadline: int, size: nat, s: Sweep, after: Sweep, w: nat, i: nat, now: int)
    requires SweepInv(deadline, size, s) && w < |s.sweepers| && now < deadline
    requires after.slots == s.slots && after.requests == s.requests + [Request(i, now)]
    requires
      || (after.sweepers == s.sweepers[w := First(i)] && Asked(s.requests, i) == 0)
      || (after.sweepers == s.sweepers[w := Again(i)] && Asked(s.requests, i) == 1)
    requires i < |s.slots| && s.slots[i].None? && i < CrewOf(after).next && CrewOf(s).next <= CrewOf(after).next
    requires forall v :: 0 <= v < |s.sweepers| && v != w && (s.sweepers[v].First? || s.sweepers[v].Again?) ==>
      s.sweepers[v].index != i
    requires Inv(|s.slots|, size, CrewOf(after))
    ensures SweepInv(deadline, size, after)
  {
    hide Inv, CrewOf, Asked;
    forall j: nat
      ensures Asked(after.requests, j) == Asked(s.requests, j) + if j == i then 1 else 0
    {
      AskedOnce(s.requests, Request(i, now), j);
    }
    forall v | 0 <= v < |after.sweepers|
      ensures Accounted(after.sweepers[v], after.requests)
    {
      if v != w {
        assert Accounted(s.sweepers[v], s.requests);
      }
    }
  }

  lemma {:induction false} FillKeepsInv(deadline: int, size: nat, s: Sweep, after: Sweep, w: nat, i: nat, probe: Probe)
    requires SweepInv(deadline, size, s) && w < |s.sweepers| && i < |s.slots|
    requires after.slots == s.slots[i := Some(probe)] && after.requests == s.requests
    requires after.sweepers == s.sweepers[w := Resting] && Asked(s.requests, i) == Cost(probe)
    requires CrewOf(s).next <= CrewOf(after).next && Inv(|s.slots|, size, CrewOf(after))
    ensures SweepInv(deadline, size, after)
  {
    hide Inv, CrewOf, Asked;
  }

  lemma TurnKeepsInv(deadline: int, size: nat, s: Sweep, t: Turn)
    requires SweepInv(deadline, size, s) && CanTurn(s, t)
    ensures SweepInv(deadline, size, Turned(deadline, s, t))
  {
    var after := Turned(deadline, s, t);
    TurnKeepsCrew(deadline, size, s, t);
    hide Inv, CrewOf, Asked;
    if t.Take? {
      var i := s.next;
      if i >= |s.slots| {
      } else if t.now >= deadline {
        FillKeepsInv(deadline, size, s, after, t.worker, i, NotRun);
      } else {
        Untaken(size, s, i);
        AskKeepsInv(deadline, size, s, after, t.worker, i, t.now);
      }
    } else {
      var i := s.sweepers[t.worker].index;
      InHand(size, s, t.worker);
      assert Accounted(s.sweepers[t.worker], s.requests);
      if after.sweepers[t.worker].Again? {
        AskKeepsInv(deadline, size, s, after, t.worker, i, t.now);
      } else {
        FillKeepsInv(deadline, size, s, after, t.worker, i, Ran(t.reply, s.sweepers[t.worker].Again?));
      }
    }
  }

  // No one has the next index yet.
  lemma Untaken(size: nat, s: Sweep, i: nat)
    requires Inv(|s.slots|, size, CrewOf(s)) && i == CrewOf(s).next < |s.slots|
    ensures s.slots[i].None?
    ensures forall v :: 0 <= v < |s.sweepers| && (s.sweepers[v].First? || s.sweepers[v].Again?) ==>
      s.sweepers[v].index != i
  {
    forall v | 0 <= v < |s.sweepers| && (s.sweepers[v].First? || s.sweepers[v].Again?)
      ensures s.sweepers[v].index != i
    {
      assert Busy(CrewOf(s).workers[v], s.sweepers[v].index);
    }
    assert i !in CrewOf(s).done;
  }

  ghost predicate IsSweep(deadline: int, s: Sweep, turns: seq<Turn>)
    decreases |turns|
  {
    turns == [] || (CanTurn(s, turns[0]) && IsSweep(deadline, Turned(deadline, s, turns[0]), turns[1..]))
  }

  ghost function Swept(deadline: int, s: Sweep, turns: seq<Turn>): Sweep
    requires IsSweep(deadline, s, turns)
    decreases |turns|
  {
    if turns == [] then s else Swept(deadline, Turned(deadline, s, turns[0]), turns[1..])
  }

  lemma TurnKeepsSlots(deadline: int, s: Sweep, t: Turn)
    requires CanTurn(s, t)
    ensures |Turned(deadline, s, t).slots| == |s.slots|
  {
  }

  lemma {:induction false} SweepKeepsInv(deadline: int, size: nat, s: Sweep, turns: seq<Turn>)
    requires SweepInv(deadline, size, s) && IsSweep(deadline, s, turns)
    ensures SweepInv(deadline, size, Swept(deadline, s, turns))
    ensures |Swept(deadline, s, turns).slots| == |s.slots|
    decreases |turns|
  {
    hide SweepInv, CanTurn, Inv, CrewOf;
    if turns != [] {
      TurnKeepsInv(deadline, size, s, turns[0]);
      TurnKeepsSlots(deadline, s, turns[0]);
      SweepKeepsInv(deadline, size, Turned(deadline, s, turns[0]), turns[1..]);
    }
  }

  // What is left to do: it falls with every turn.
  function EffortOf(s: Sweeper): nat {
    match s
    case Resting => 1
    case First(_) => 3
    case Again(_) => 2
    case Over => 0
  }

  function Effort(sweepers: seq<Sweeper>): nat {
    if sweepers == [] then 0 else EffortOf(sweepers[0]) + Effort(sweepers[1..])
  }

  function Left(s: Sweep): nat {
    Effort(s.sweepers) + if s.next < |s.slots| then 3 * (|s.slots| - s.next) else 0
  }

  lemma {:induction false} EffortUpdate(sweepers: seq<Sweeper>, w: nat, s: Sweeper)
    requires w < |sweepers|
    ensures Effort(sweepers[w := s]) == Effort(sweepers) - EffortOf(sweepers[w]) + EffortOf(s)
  {
    if w == 0 {
      assert sweepers[0 := s][1..] == sweepers[1..];
    } else {
      assert sweepers[w := s][1..] == sweepers[1..][w - 1 := s];
      EffortUpdate(sweepers[1..], w - 1, s);
    }
  }

  lemma TurnUsesEffort(deadline: int, s: Sweep, t: Turn)
    requires CanTurn(s, t)
    ensures Left(Turned(deadline, s, t)) < Left(s)
  {
    hide Effort;
    EffortUpdate(s.sweepers, t.worker, Turned(deadline, s, t).sweepers[t.worker]);
  }

  lemma {:induction false} SweepEnds(deadline: int, s: Sweep, turns: seq<Turn>)
    requires IsSweep(deadline, s, turns)
    ensures |turns| + Left(Swept(deadline, s, turns)) <= Left(s)
    decreases |turns|
  {
    hide CanTurn, Left;
    if turns != [] {
      TurnUsesEffort(deadline, s, turns[0]);
      SweepEnds(deadline, Turned(deadline, s, turns[0]), turns[1..]);
    }
  }

  lemma {:induction false} RestingEffort(size: nat)
    ensures Effort(seq(size, _ => Resting)) == size
  {
    if size > 0 {
      RestingEffort(size - 1);
      assert seq(size, _ => Resting)[1..] == seq(size - 1, _ => Resting);
    }
  }

  // Every sweep of `n` paths, in every interleaving and with any clock: it ends; no more requests are
  // in flight than workers; none starts at or after the deadline, no path gets more than two, and the
  // report of a path accounts for exactly the requests it got, none where it says that it never ran;
  // once all workers are over, every path has its report.
  lemma {:induction false} EverySweep(deadline: int, n: nat, turns: seq<Turn>)
    requires IsSweep(deadline, Begun(n), turns)
    ensures |turns| <= 3 * n + CrewSize(CONCURRENCY, n)
    ensures var s := Swept(deadline, Begun(n), turns);
      && |s.slots| == n
      && (forall r :: r in s.requests ==> r.at < deadline)
      && (forall i: nat :: i < n ==> Asked(s.requests, i) <= 2)
      && (forall i: nat :: i < n && s.slots[i].Some? ==> Asked(s.requests, i) == Cost(s.slots[i].value))
      && ((forall w :: 0 <= w < |s.sweepers| ==> s.sweepers[w].Over?) ==> forall i: nat :: i < n ==> s.slots[i].Some?)
      && |InFlight(CrewOf(s))| <= 4 && |InFlight(CrewOf(s))| <= n
  {
    hide *;
    var size := CrewSize(CONCURRENCY, n);
    BegunInv(deadline, n);
    SweepKeepsInv(deadline, size, Begun(n), turns);
    SweepEnds(deadline, Begun(n), turns);
    SweepMeans(deadline, size, Swept(deadline, Begun(n), turns));
    FourAtMost(n);
  }

  lemma BegunInv(deadline: int, n: nat)
    ensures SweepInv(deadline, CrewSize(CONCURRENCY, n), Begun(n)) && |Begun(n).slots| == n
    ensures Left(Begun(n)) == 3 * n + CrewSize(CONCURRENCY, n)
  {
    RestingEffort(CrewSize(CONCURRENCY, n));
  }

  lemma FourAtMost(n: nat)
    ensures CrewSize(CONCURRENCY, n) <= 4 && CrewSize(CONCURRENCY, n) <= n
  {
  }

  lemma SweepMeans(deadline: int, size: nat, s: Sweep)
    requires SweepInv(deadline, size, s) && size == CrewSize(CONCURRENCY, |s.slots|)
    ensures
      && (forall r :: r in s.requests ==> r.at < deadline)
      && (forall i: nat :: i < |s.slots| ==> Asked(s.requests, i) <= 2)
      && (forall i: nat :: i < |s.slots| && s.slots[i].Some? ==> Asked(s.requests, i) == Cost(s.slots[i].value))
      && ((forall w :: 0 <= w < |s.sweepers| ==> s.sweepers[w].Over?) ==>
            forall i: nat :: i < |s.slots| ==> s.slots[i].Some?)
      && |InFlight(CrewOf(s))| <= size
  {
    forall i: nat | i < |s.slots|
      ensures Asked(s.requests, i) <= 2
    {
      AtMostTwo(deadline, size, s, i);
    }
    if forall w :: 0 <= w < |s.sweepers| ==> s.sweepers[w].Over? {
      AllReported(size, s);
    }
    hide Inv, InFlight, CrewOf;
    InFlightBound(CrewOf(s));
  }

  lemma AllReported(size: nat, s: Sweep)
    requires Inv(|s.slots|, size, CrewOf(s)) && size == CrewSize(CONCURRENCY, |s.slots|)
    requires forall w :: 0 <= w < |s.sweepers| ==> s.sweepers[w].Over?
    ensures forall i: nat :: i < |s.slots| ==> s.slots[i].Some?
  {
    AllDone(|s.slots|, size, CrewOf(s));
    forall i: nat | i < |s.slots|
      ensures s.slots[i].Some?
    {
      assert i in CrewOf(s).done;
    }
  }

  lemma {:induction false} AtMostTwo(deadline: int, size: nat, s: Sweep, i: nat)
    requires SweepInv(deadline, size, s) && i < |s.slots|
    ensures Asked(s.requests, i) <= 2
  {
    var c := CrewOf(s);
    if i < c.next && s.slots[i].None? {
      assert Held(c, i);
      var w :| 0 <= w < |c.workers| && Busy(c.workers[w], i);
      assert Accounted(s.sweepers[w], s.requests);
    }
  }
}
