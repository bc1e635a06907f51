// How many connections one cron trigger can hold. The jobs of a chain run one after another, the
// chains of a trigger overlap freely, and neither budget-only work nor the send that follows
// settlement overlaps anything else.
module CronTrigger {
  import opened Options

  // The declared limit of a job; none where no budget entry stands for it.
  type Limit = Option<int>

  datatype Trigger = Trigger(chains: seq<seq<Limit>>, budgetOnly: seq<Limit>, send: int)

  // A lane stands before its `pos`-th job or in it, and holds `open` connections.
  datatype Lane = Lane(pos: nat, open: nat)

  datatype Move = Open(lane: nat) | Close(lane: nat) | Advance(lane: nat)

  // The chains, then budget-only work, then the send.
  function Lanes(t: Trigger): seq<seq<Limit>> {
    t.chains + [t.budgetOnly, [Some(t.send)]]
  }

  // Lanes of one group may hold connections together.
  function Group(t: Trigger, lane: nat): nat {
    if lane < |t.chains| then 0 else lane
  }

  function Start(t: Trigger): seq<Lane> {
    seq(|Lanes(t)|, _ => Lane(0, 0))
  }

  ghost predicate Alone(t: Trigger, s: seq<Lane>, lane: nat) {
    forall other :: 0 <= other < |s| && s[other].open > 0 ==> Group(t, other) == Group(t, lane)
  }

  predicate Allows(limit: Limit, open: nat) {
    limit.None? || open <= limit.value
  }

  ghost predicate CanMove(t: Trigger, s: seq<Lane>, m: Move) {
    && |s| == |Lanes(t)| && m.lane < |s|
    && var jobs := Lanes(t)[m.lane];
    && s[m.lane].pos < |jobs|
    && match m
      case Open(l) => Allows(jobs[s[l].pos], s[l].open + 1) && Alone(t, s, l)
      case Close(l) => s[l].open > 0
      case Advance(l) => s[l].open == 0
  }

  function Moved(t: Trigger, s: seq<Lane>, m: Move): seq<Lane>
    requires CanMove(t, s, m)
  {
    var lane := s[m.lane];
    match m
    case Open(l) => s[l := Lane(lane.pos, lane.open + 1)]
    case Close(l) => s[l := Lane(lane.pos, lane.open - 1)]
    case Advance(l) => s[l := Lane(lane.pos + 1, 0)]
  }

  ghost predicate IsRun(t: Trigger, s: seq<Lane>, moves: seq<Move>)
    decreases |moves|, 0
  {
    moves == [] ||
    (var n := |moves| - 1;
     IsRun(t, s, moves[..n]) && CanMove(t, After(t, s, moves[..n]), moves[n]))
  }

  ghost function After(t: Trigger, s: seq<Lane>, moves: seq<Move>): seq<Lane>
    requires IsRun(t, s, moves)
    decreases |moves|, 1
  {
    if moves == [] then s
    else
      var n := |moves| - 1;
      Moved(t, After(t, s, moves[..n]), moves[n])
  }

  ghost predicate Reachable(t: Trigger, s: seq<Lane>) {
    exists moves :: IsRun(t, Start(t), moves) && After(t, Start(t), moves) == s
  }

  function Held(s: seq<Lane>): nat {
    if s == [] then 0 else s[0].open + Held(s[1..])
  }

  // A state that the rules allow, whatever led to it.
  ghost predicate LaneLegal(jobs: seq<Limit>, lane: Lane) {
    && lane.pos <= |jobs|
    && (lane.open > 0 ==> lane.pos < |jobs| && Allows(jobs[lane.pos], lane.open))
  }

  ghost predicate Legal(t: Trigger, s: seq<Lane>) {
    && |s| == |Lanes(t)|
    && (forall l :: 0 <= l < |s| ==> LaneLegal(Lanes(t)[l], s[l]))
    && (forall k, l :: 0 <= k < |s| && 0 <= l < |s| && s[k].open > 0 && s[l].open > 0 ==> Group(t, k) == Group(t, l))
  }

  lemma StartLegal(t: Trigger)
    ensures Legal(t, Start(t))
  {
  }

  lemma MoveKeepsLegal(t: Trigger, s: seq<Lane>, m: Move)
    requires Legal(t, s) && CanMove(t, s, m)
    ensures Legal(t, Moved(t, s, m))
  {
    assert LaneLegal(Lanes(t)[m.lane], s[m.lane]);
  }

  lemma {:induction false} RunIsLegal(t: Trigger, moves: seq<Move>)
    requires IsRun(t, Start(t), moves)
    ensures Legal(t, After(t, Start(t), moves))
    decreases |moves|
  {
    if moves == [] {
      StartLegal(t);
    } else {
      var n := |moves| - 1;
      RunIsLegal(t, moves[..n]);
      MoveKeepsLegal(t, After(t, Start(t), moves[..n]), moves[n]);
    }
  }

  function Effort(s: seq<Lane>): nat {
    if s == [] then 0 else s[0].pos + s[0].open + Effort(s[1..])
  }

  lemma {:induction false} EffortUpdate(s: seq<Lane>, l: nat, lane: Lane)
    requires l < |s|
    ensures Effort(s[l := lane]) == Effort(s) - s[l].pos - s[l].open + lane.pos + lane.open
  {
    if l == 0 {
      assert s[0 := lane][1..] == s[1..];
    } else {
      assert s[l := lane][1..] == s[1..][l - 1 := lane];
      EffortUpdate(s[1..], l - 1, lane);
    }
  }

  lemma {:induction false} NoEffort(s: seq<Lane>)
    requires forall l :: 0 <= l < |s| ==> s[l] == Lane(0, 0)
    ensures Effort(s) == 0
  {
    if s != [] {
      NoEffort(s[1..]);
    }
  }

  lemma ReachOn(t: Trigger, s: seq<Lane>, m: Move)
    requires Reachable(t, s) && CanMove(t, s, m)
    ensures Reachable(t, Moved(t, s, m))
  {
    var moves :| IsRun(t, Start(t), moves) && After(t, Start(t), moves) == s;
    var more := moves + [m];
    assert more[..|more| - 1] == moves;
    assert IsRun(t, Start(t), more) && After(t, Start(t), more) == Moved(t, s, m);
  }

  lemma StartReachable(t: Trigger)
    ensures Reachable(t, Start(t))
  {
    var none: seq<Move> := [];
    assert IsRun(t, Start(t), none) && After(t, Start(t), none) == Start(t);
  }

  // Whatever is legal can be reached: take the last connection or the last advance back.
  lemma {:induction false} LegalIsReachable(t: Trigger, s: seq<Lane>)
    requires Legal(t, s)
    ensures Reachable(t, s)
    decreases Effort(s)
  {
    hide Reachable;
    if l :| 0 <= l < |s| && s[l].open > 0 {
      var before := s[l := Lane(s[l].pos, s[l].open - 1)];
      EffortUpdate(s, l, before[l]);
      assert LaneLegal(Lanes(t)[l], s[l]);
      LegalIsReachable(t, before);
      ReachOn(t, before, Open(l));
      assert Moved(t, before, Open(l)) == s;
    } else if l :| 0 <= l < |s| && s[l].pos > 0 {
      var before := s[l := Lane(s[l].pos - 1, 0)];
      EffortUpdate(s, l, before[l]);
      assert LaneLegal(Lanes(t)[l], s[l]);
      LegalIsReachable(t, before);
      ReachOn(t, before, Advance(l));
      assert Moved(t, before, Advance(l)) == s;
    } else {
      assert s == Start(t);
      StartReachable(t);
    }
  }

  lemma ReachableIsLegal(t: Trigger, s: seq<Lane>)
    ensures Reachable(t, s) <==> Legal(t, s)
  {
    if Reachable(t, s) {
      var moves :| IsRun(t, Start(t), moves) && After(t, Start(t), moves) == s;
      RunIsLegal(t, moves);
    }
    if Legal(t, s) {
      LegalIsReachable(t, s);
    }
  }

  // The peaks that the budget adds up; jobs without a limit do not count.
  function Max(a: int, b: int): int {
    if a > b then a else b
  }

  function Peak(jobs: seq<Limit>): (p: int)
    ensures p >= 0
  {
    if jobs == [] then 0
    else
      var before := Peak(jobs[..|jobs| - 1]);
      var last := jobs[|jobs| - 1];
      if last.None? then before else Max(before, last.value)
  }

  function Parallel(chains: seq<seq<Limit>>): (p: int)
    ensures p >= 0
  {
    if chains == [] then 0 else Parallel(chains[..|chains| - 1]) + Peak(chains[|chains| - 1])
  }

  function Total(t: Trigger): int {
    Max(Max(Parallel(t.chains), Peak(t.budgetOnly)), t.send)
  }

  ghost predicate AllKnown(jobs: seq<Limit>) {
    forall j :: 0 <= j < |jobs| ==> jobs[j].Some?
  }

  ghost predicate Known(t: Trigger) {
    forall l :: 0 <= l < |Lanes(t)| ==> AllKnown(Lanes(t)[l])
  }

  lemma {:induction false} PeakBounds(jobs: seq<Limit>, j: nat)
    requires j < |jobs| && jobs[j].Some?
    ensures jobs[j].value <= Peak(jobs)
  {
    if j < |jobs| - 1 {
      PeakBounds(jobs[..|jobs| - 1], j);
    }
  }

  // A peak is what some job of the lane may hold, or nothing.
  lemma {:induction false} PeakAttained(jobs: seq<Limit>) returns (lane: Lane)
    ensures lane.open == Peak(jobs) && LaneLegal(jobs, lane)
  {
    if jobs == [] {
      lane := Lane(0, 0);
    } else {
      var n := |jobs| - 1;
      if jobs[n].Some? && jobs[n].value > Peak(jobs[..n]) {
        lane := Lane(n, jobs[n].value);
      } else {
        lane := PeakAttained(jobs[..n]);
      }
    }
  }

  lemma {:induction false} LaneBound(jobs: seq<Limit>, lane: Lane)
    requires LaneLegal(jobs, lane) && AllKnown(jobs)
    ensures lane.open <= Peak(jobs)
  {
    if lane.open > 0 {
      PeakBounds(jobs, lane.pos);
    }
  }

  lemma {:induction false} HeldAppend(a: seq<Lane>, b: seq<Lane>)
    ensures Held(a + b) == Held(a) + Held(b)
  {
    if a == [] {
      assert a + b == b;
    } else {
      assert (a + b)[1..] == a[1..] + b;
      HeldAppend(a[1..], b);
    }
  }

  lemma {:induction false} HeldNothing(s: seq<Lane>)
    requires forall l :: 0 <= l < |s| ==> s[l].open == 0
    ensures Held(s) == 0
  {
    if s != [] {
      HeldNothing(s[1..]);
    }
  }

  lemma {:induction false} HeldSplit(s: seq<Lane>, n: nat)
    requires n + 2 == |s|
    ensures Held(s) == Held(s[..n]) + s[n].open + s[n + 1].open
  {
    assert s == s[..n] + [s[n], s[n + 1]];
    HeldAppend(s[..n], [s[n], s[n + 1]]);
    assert [s[n], s[n + 1]][1..] == [s[n + 1]];
    assert [s[n + 1]][1..] == [];
    assert Held([s[n + 1]]) == s[n + 1].open;
  }

  lemma {:induction false} ChainsBound(chains: seq<seq<Limit>>, s: seq<Lane>)
    requires |s| == |chains|
    requires forall l :: 0 <= l < |s| ==> LaneLegal(chains[l], s[l]) && AllKnown(chains[l])
    ensures Held(s) <= Parallel(chains)
  {
    if s == [] {
    } else {
      var n := |s| - 1;
      ChainsBound(chains[..n], s[..n]);
      LaneBound(chains[n], s[n]);
      assert s == s[..n] + [s[n]];
      HeldAppend(s[..n], [s[n]]);
      assert [s[n]][1..] == [];
    }
  }

  // When every job has a limit, no legal state holds more than the trigger's total.
  lemma {:induction false} LegalBound(t: Trigger, s: seq<Lane>)
    requires Legal(t, s) && Known(t)
    ensures Held(s) <= Total(t)
  {
    var n := |t.chains|;
    HeldSplit(s, n);
    assert LaneLegal(Lanes(t)[n], s[n]) && AllKnown(Lanes(t)[n]);
    assert LaneLegal(Lanes(t)[n + 1], s[n + 1]);
    LaneBound(t.budgetOnly, s[n]);
    if s[n].open > 0 {
      OthersQuiet(t, s, n);
      HeldNothing(s[..n]);
      assert s[n + 1].open == 0;
    } else if s[n + 1].open > 0 {
      OthersQuiet(t, s, n + 1);
      HeldNothing(s[..n]);
      assert s[n + 1].open <= t.send;
    } else {
      forall l | 0 <= l < n
        ensures LaneLegal(t.chains[l], s[..n][l]) && AllKnown(t.chains[l])
      {
        assert LaneLegal(Lanes(t)[l], s[l]) && AllKnown(Lanes(t)[l]);
      }
      ChainsBound(t.chains, s[..n]);
      assert Held(s) <= Parallel(t.chains);
    }
  }

  lemma OthersQuiet(t: Trigger, s: seq<Lane>, l: nat)
    requires Legal(t, s) && |t.chains| <= l < |s| && s[l].open > 0
    ensures forall k :: 0 <= k < |s| && k != l ==> s[k].open == 0
  {
    forall k: nat | k < |s| && k != l
      ensures s[k].open == 0
    {
      assert Group(t, k) != Group(t, l);
    }
  }

  lemma {:induction false} ChainsAttained(chains: seq<seq<Limit>>) returns (s: seq<Lane>)
    ensures |s| == |chains| && Held(s) == Parallel(chains)
    ensures forall l :: 0 <= l < |s| ==> LaneLegal(chains[l], s[l])
  {
    if chains == [] {
      s := [];
    } else {
      var n := |chains| - 1;
      var before := ChainsAttained(chains[..n]);
      var last := PeakAttained(chains[n]);
      s := before + [last];
      HeldAppend(before, [last]);
      assert [last][1..] == [];
    }
  }

  lemma {:induction false} QuietLanes(n: nat) returns (s: seq<Lane>)
    ensures |s| == n && Held(s) == 0 && forall l :: 0 <= l < n ==> s[l] == Lane(0, 0)
  {
    s := seq(n, _ => Lane(0, 0));
    HeldNothing(s);
  }

  // The total is no overestimate: some legal state holds exactly that much.
  lemma TotalAttained(t: Trigger) returns (s: seq<Lane>)
    ensures Legal(t, s) && Held(s) == Total(t)
  {
    var n := |t.chains|;
    var quiet := QuietLanes(n);
    hide Held, Peak, Parallel;
    if Total(t) == Parallel(t.chains) {
      var busy := ChainsAttained(t.chains);
      s := busy + [Lane(0, 0), Lane(0, 0)];
      assert s[..n] == busy;
      assert forall l :: 0 <= l < n ==> s[l] == busy[l];
    } else if Total(t) == Peak(t.budgetOnly) {
      var lane := PeakAttained(t.budgetOnly);
      s := quiet + [lane, Lane(0, 0)];
      assert s[..n] == quiet;
    } else {
      s := quiet + [Lane(0, 0), Lane(0, t.send)];
      assert s[..n] == quiet;
    }
    HeldSplit(s, n);
  }

  // A job without a limit may hold anything.
  lemma UnknownUnbounded(t: Trigger, much: nat) returns (s: seq<Lane>)
    requires !Known(t)
    ensures Legal(t, s) && Held(s) >= much
  {
    var l: nat :| l < |Lanes(t)| && !AllKnown(Lanes(t)[l]);
    var j: nat :| j < |Lanes(t)[l]| && Lanes(t)[l][j].None?;
    var quiet := QuietLanes(|Lanes(t)|);
    s := quiet[l := Lane(j, much)];
    HeldAtLeast(s, l);
  }

  lemma {:induction false} HeldAtLeast(s: seq<Lane>, l: nat)
    requires l < |s|
    ensures Held(s) >= s[l].open
  {
    if l > 0 {
      HeldAtLeast(s[1..], l - 1);
    }
  }

  // The exact worth of the check: all jobs have a limit and the total stays below `failAt` if and
  // only if no moment of any run of the trigger holds `failAt` connections.
  lemma FitsExactly(t: Trigger, failAt: int)
    ensures Known(t) && Total(t) < failAt <==> forall s :: Reachable(t, s) ==> Held(s) < failAt
  {
    hide Reachable, Legal, Total, Held;
    if Known(t) && Total(t) < failAt {
      forall s | Reachable(t, s)
        ensures Held(s) < failAt
      {
        ReachableIsLegal(t, s);
        LegalBound(t, s);
      }
    } else {
      var s: seq<Lane>;
      if Known(t) {
        s := TotalAttained(t);
      } else {
        s := UnknownUnbounded(t, if failAt < 0 then 0 else failAt);
      }
      ReachableIsLegal(t, s);
      assert Reachable(t, s) && Held(s) >= failAt;
    }
  }
}
