// What the report of a path says of the replies that its requests got, in the route sweep of
// scripts/ci/run-post-deploy-acceptance.ts.
module RouteReports {
  import opened Options
  import opened WorkerCrew
  import opened RouteSweep

  // A reply and when it was received.
  datatype Got = Got(reply: Reply, at: int)

  // The replies received so far for each path.
  type Heard = seq<seq<Got>>

  function Hears(s: Sweep, t: Turn, heard: Heard): Heard
    requires CanTurn(s, t) && |heard| == |s.slots|
  {
    match t
    case Take(_, _) => heard
    case Receive(w, reply, now) =>
      var i := s.sweepers[w].index;
      heard[i := heard[i] + [Got(reply, now)]]
  }

  ghost function HeardBy(deadline: int, s: Sweep, turns: seq<Turn>, heard: Heard): (after: Heard)
    requires IsSweep(deadline, s, turns) && |heard| == |s.slots|
    ensures |after| == |heard|
    decreases |turns|
  {
    if turns == [] then heard
    else
      TurnKeepsSlots(deadline, s, turns[0]);
      HeardBy(deadline, Turned(deadline, s, turns[0]), turns[1..], Hears(s, turns[0], heard))
  }

  // A first answer that is asked again: of status 500 to 599, and received before the deadline.
  predicate AskedAgain(deadline: int, g: Got) {
    g.reply.Answered? && 500 <= g.reply.status <= 599 && g.at < deadline
  }

  // The report of a path: none that ran heard nothing; one without retry shows the one reply there was,
  // which was not to be asked again; and one with a retry shows the second, after a first that was.
  ghost predicate Tells(deadline: int, probe: Probe, got: seq<Got>) {
    match probe
    case NotRun => got == []
    case Ran(reply, retried) =>
      && |got| == (if retried then 2 else 1) && got[|got| - 1].reply == reply
      && (AskedAgain(deadline, got[0]) <==> retried)
  }

  // A request under way: the first has heard nothing, the second follows an answer to be asked again.
  predicate Waits(deadline: int, sweeper: Sweeper, heard: Heard) {
    match sweeper
    case First(i) => i < |heard| && heard[i] == []
    case Again(i) => i < |heard| && |heard[i]| == 1 && AskedAgain(deadline, heard[i][0])
    case _ => true
  }

  ghost predicate HeardInv(deadline: int, s: Sweep, heard: Heard) {
    && |heard| == |s.slots|
    && (forall i :: 0 <= i < |heard| && s.slots[i].Some? ==> Tells(deadline, s.slots[i].value, heard[i]))
    && (forall w :: 0 <= w < |s.sweepers| ==> Waits(deadline, s.sweepers[w], heard))
    && (forall i: nat :: s.next <= i < |heard| ==> heard[i] == [])
  }

  lemma TakeHears(deadline: int, s: Sweep, t: Turn, heard: Heard)
    requires HeardInv(deadline, s, heard) && CanTurn(s, t) && t.Take?
    ensures HeardInv(deadline, Turned(deadline, s, t), heard)
  {
  }

  lemma ReceiveHears(deadline: int, size: nat, s: Sweep, t: Turn, heard: Heard)
    requires SweepInv(deadline, size, s) && HeardInv(deadline, s, heard) && CanTurn(s, t) && t.Receive?
    ensures HeardInv(deadline, Turned(deadline, s, t), Hears(s, t, heard))
  {
    InHand(size, s, t.worker);
    InHandIsTaken(size, s, t.worker);
    hide SweepInv, Inv, CrewOf;
    var i, after := s.sweepers[t.worker].index, Hears(s, t, heard);
    assert Waits(deadline, s.sweepers[t.worker], heard);
    forall v | 0 <= v < |s.sweepers| && v != t.worker
      ensures Waits(deadline, s.sweepers[v], after)
    {
      assert Waits(deadline, s.sweepers[v], heard);
    }
  }

  lemma InHandIsTaken(size: nat, s: Sweep, w: nat)
    requires Inv(|s.slots|, size, CrewOf(s)) && w < |s.sweepers| && (s.sweepers[w].First? || s.sweepers[w].Again?)
    ensures s.sweepers[w].index < s.next
  {
    InHand(size, s, w);
  }

  lemma {:induction false} SweepHears(deadline: int, size: nat, s: Sweep, turns: seq<Turn>, heard: Heard)
    requires SweepInv(deadline, size, s) && HeardInv(deadline, s, heard) && IsSweep(deadline, s, turns)
    ensures HeardInv(deadline, Swept(deadline, s, turns), HeardBy(deadline, s, turns, heard))
    decreases |turns|
  {
    hide SweepInv, HeardInv, CanTurn, Turned, Hears;
    HeardSize(deadline, s, heard);
    if turns != [] {
      TurnKeepsInv(deadline, size, s, turns[0]);
      TurnKeepsSlots(deadline, s, turns[0]);
      if turns[0].Take? {
        TakeHears(deadline, s, turns[0], heard);
        assert Hears(s, turns[0], heard) == heard by {
          TakeIsSilent(s, turns[0], heard);
        }
      } else {
        ReceiveHears(deadline, size, s, turns[0], heard);
      }
      SweepHears(deadline, size, Turned(deadline, s, turns[0]), turns[1..], Hears(s, turns[0], heard));
    }
  }

  lemma HeardSize(deadline: int, s: Sweep, heard: Heard)
    requires HeardInv(deadline, s, heard)
    ensures |heard| == |s.slots|
  {
  }

  lemma TakeIsSilent(s: Sweep, t: Turn, heard: Heard)
    requires CanTurn(s, t) && |heard| == |s.slots| && t.Take?
    ensures Hears(s, t, heard) == heard
  {
  }

  // Every report of every sweep tells the replies its path got: a path is asked again exactly if its
  // first answer is a server error received before the deadline, and its last reply is what is reported.
  lemma {:induction false} EveryReport(deadline: int, n: nat, turns: seq<Turn>)
    requires IsSweep(deadline, Begun(n), turns)
    ensures var s, heard := Swept(deadline, Begun(n), turns), HeardBy(deadline, Begun(n), turns, seq(n, _ => []));
      && |s.slots| == n
      && forall i :: 0 <= i < n && s.slots[i].Some? ==> Tells(deadline, s.slots[i].value, heard[i])
  {
    var size := CrewSize(CONCURRENCY, n);
    var silent := seq(n, _ => []);
    SweepKeepsInv(deadline, size, Begun(n), turns);
    assert HeardInv(deadline, Begun(n), silent);
    SweepHears(deadline, size, Begun(n), turns, silent);
    hide IsSweep, Swept, HeardBy, SweepInv, Tells;
  }

  // A worker that is not over has a turn to take, whatever the clock says and whatever it hears.
  lemma AlwaysCanTurn(deadline: int, size: nat, s: Sweep, w: nat, reply: Reply, now: int)
    requires SweepInv(deadline, size, s) && w < |s.sweepers| && !s.sweepers[w].Over?
    ensures s.sweepers[w].Resting? ==> CanTurn(s, Take(w, now))
    ensures !s.sweepers[w].Resting? ==> CanTurn(s, Receive(w, reply, now))
  {
    if !s.sweepers[w].Resting? {
      InHand(size, s, w);
    }
    hide Inv, CrewOf;
  }

  // A path is given up only when its turn comes at the deadline or later.
  ghost predicate GivenUp(s: Sweep) {
    exists i :: 0 <= i < |s.slots| && s.slots[i] == Some(NotRun)
  }

  lemma {:induction false} GivenUpLate(deadline: int, s: Sweep, turns: seq<Turn>)
    requires IsSweep(deadline, s, turns) && !GivenUp(s)
    requires forall t :: t in turns && t.Take? ==> t.now < deadline
    ensures !GivenUp(Swept(deadline, s, turns))
    decreases |turns|
  {
    if turns != [] {
      var after := Turned(deadline, s, turns[0]);
      assert turns[0] in turns;
      assert !GivenUp(after);
      hide Turned, CanTurn, GivenUp;
      assert forall t :: t in turns[1..] ==> t in turns;
      GivenUpLate(deadline, after, turns[1..]);
    }
  }
}
