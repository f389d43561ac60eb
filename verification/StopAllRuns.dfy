/**
 Who can outlive a StopAll.  A child on the list at the snapshot cannot; a child whose Spawn call
 is past its context check but has not added it yet can, and nobody else can.
 */
module StopAllRuns {
  import opened Wrappers
  import opened ManagedProcess
  import opened ProcessProtocol
  import opened ProcessRuns

  /** Past its context check, with no child on the list yet. */
  ghost predicate Unlisted(pc: SpawnPC) { pc.SpawnPassed? || pc.Forked? || pc.MarkedRunning? }

  /** Spawn call id can still put a live child on the list. */
  ghost predicate CanDeliver(s: State, id: nat)
    requires id in s.spawns
  {
    var pc := s.spawns[id].pc;
    Unlisted(pc) && (pc.SpawnPassed? || (pc.p in s.procs && s.procs[pc.p].alive))
  }

  ghost predicate InFlight(s: State) { exists id :: id in s.spawns && CanDeliver(s, id) }

  /** Label k is the context check of Spawn call id, and the context is alive. */
  ghost predicate PassesCheck(r: Run, k: nat, id: nat) {
    && k < |r.labels| && k < |r.states|
    && r.labels[k].SpawnCheck? && r.labels[k].id == id && r.labels[k].ctx !in r.states[k].cancelled
  }

  /** StopAll call a takes its snapshot at step i and has returned in state j. */
  ghost predicate StopsAll(r: Run, i: nat, j: nat, a: nat, ctx: nat) {
    && IsRun(r) && i < j < |r.states| && r.labels[i] == TakeSnapshot(a, ctx)
    && a in r.states[j].stopAlls && r.states[j].stopAlls[a].pc == StopAllReturned
  }

  lemma {:induction false} FreshNat(s: set<nat>) returns (x: nat)
    ensures forall y | y in s :: y < x
    decreases |s|
  {
    if s == {} {
      x := 0;
    } else {
      var z :| z in s;
      var m := FreshNat(s - {z});
      x := if m <= z then z + 1 else m;
      assert forall y | y in s :: y == z || y in s - {z};
    }
  }

  // ----- StopAll runs its Stops side by side --------------------------------------------------------

  /** StopAll can launch all its Stop calls before any of them has done a thing. */
  lemma {:induction false} LaunchesAll(r: Run, a: nat) returns (e: Run)
    requires IsRun(r) && a in LastState(r).stopAlls && LastState(r).stopAlls[a].pc == Launching
    ensures IsRun(e) && r.labels <= e.labels
    ensures forall k | |r.labels| <= k < |e.labels| :: e.labels[k].LaunchStop? && e.labels[k].id == a
    ensures a in LastState(e).stopAlls
    ensures var all := LastState(e).stopAlls[a]; all.pc == Launching && |all.calls| == |all.snapshot|
    decreases |LastState(r).stopAlls[a].snapshot| - |LastState(r).stopAlls[a].calls|
  {
    var s := LastState(r);
    RunInv(r, |r.labels|);
    assert StopAllOk(s, a);
    if |s.stopAlls[a].calls| == |s.stopAlls[a].snapshot| {
      e := r;
    } else {
      var c := FreshNat(s.stops.Keys);
      assert c !in s.stops;
      e := LaunchesAll(Extend(r, LaunchStop(a, c)), a);
    }
  }

  /** No StopAll is ever stuck: it launches, returns as soon as all its calls have, or one of them moves. */
  lemma StopAllNeverStuck(r: Run, i: nat, a: nat) returns (l: Label)
    requires IsRun(r) && i < |r.states| && a in r.states[i].stopAlls
    requires r.states[i].stopAlls[a].pc == Launching
    ensures Enabled(r.states[i], l)
    ensures var s := r.states[i]; var all := s.stopAlls[a];
      if |all.calls| < |all.snapshot| then l.LaunchStop? && l.id == a
      else if forall c | c in all.calls :: c in s.stops && s.stops[c].pc == StopReturned then l == StopAllReturn(a)
      else exists c | c in all.calls :: c in s.stops && s.stops[c].pc != StopReturned && StopMoves(s, l, c)
  {
    var s, all := r.states[i], r.states[i].stopAlls[a];
    RunInv(r, i);
    assert StopAllOk(s, a);
    if |all.calls| < |all.snapshot| {
      var c := FreshNat(s.stops.Keys);
      assert c !in s.stops;
      l := LaunchStop(a, c);
    } else if forall c | c in all.calls :: c in s.stops && s.stops[c].pc == StopReturned {
      l := StopAllReturn(a);
    } else {
      var c :| c in all.calls && !(c in s.stops && s.stops[c].pc == StopReturned);
      l := StopNeverStuck(r, i, c);
    }
  }

  // ----- Nobody else ---------------------------------------------------------------------------

  lemma PassedStep(s: State, l: Label, id: nat)
    requires Enabled(s, l) && id in Apply(s, l).spawns && Apply(s, l).spawns[id].pc == SpawnPassed
    ensures
      || (id in s.spawns && s.spawns[id].pc == SpawnPassed)
      || (l.SpawnCheck? && l.id == id && l.ctx !in s.cancelled)
  {
  }

  lemma {:induction false} PassedWhen(r: Run, i: nat, j: nat, id: nat)
    requires IsRun(r) && i <= j < |r.states|
    requires id in r.states[j].spawns && r.states[j].spawns[id].pc == SpawnPassed
    ensures
      || (id in r.states[i].spawns && r.states[i].spawns[id].pc == SpawnPassed)
      || exists k | i <= k < j :: PassesCheck(r, k, id)
    decreases j - i
  {
    if i < j {
      assert StepAt(r, j - 1);
      PassedStep(r.states[j - 1], r.labels[j - 1], id);
      if !PassesCheck(r, j - 1, id) {
        PassedWhen(r, i, j - 1, id);
      }
    }
  }

  lemma BornStep(s: State, l: Label, p: nat)
    requires Enabled(s, l) && p in Apply(s, l).procs
    ensures p !in s.procs ==> l == SpawnStart(Apply(s, l).procs[p].spawner, Some(p))
    ensures p in s.procs ==> Apply(s, l).procs[p].spawner == s.procs[p].spawner
  {
  }

  lemma {:induction false} BornWhen(r: Run, i: nat, j: nat, p: nat) returns (k: nat)
    requires IsRun(r) && i <= j < |r.states| && p in r.states[j].procs && p !in r.states[i].procs
    ensures i <= k < j && r.labels[k] == SpawnStart(r.states[j].procs[p].spawner, Some(p))
    decreases j - i
  {
    k := j - 1;
    assert StepAt(r, k);
    BornStep(r.states[k], r.labels[k], p);
    if p in r.states[k].procs {
      k := BornWhen(r, i, j - 1, p);
    }
  }

  /**
   A child alive after StopAll was missing from the snapshot, and its Spawn call was in flight at
   the snapshot or passed its context check later.
   */
  lemma SurvivorsWereInFlight(r: Run, i: nat, j: nat, a: nat, ctx: nat, p: nat)
    requires StopsAll(r, i, j, a, ctx)
    requires p in r.states[j].procs && r.states[j].procs[p].alive
    ensures p !in r.states[i].list
    ensures var id := r.states[j].procs[p].spawner;
      || (id in r.states[i].spawns && CanDeliver(r.states[i], id))
      || exists k | i < k < j :: PassesCheck(r, k, id)
  {
    StopAllLeavesNoneAlive(r, i, j, a, ctx);
    if p in r.states[i].procs {
      RunLater(r, i, j);
      RunInv(r, i);
      assert ProcLater(r.states[i].procs[p], r.states[j].procs[p]);
      assert ChildOk(r.states[i], p);
    } else {
      var k := BornWhen(r, i, j, p);
      var id := r.states[j].procs[p].spawner;
      assert StepAt(r, k) && StepAt(r, i);
      PassedWhen(r, i, k, id);
    }
  }

  /** With no Spawn in flight at the snapshot and none passing its check later, nobody is left alive. */
  lemma NobodyOutlives(r: Run, i: nat, j: nat, a: nat, ctx: nat)
    requires StopsAll(r, i, j, a, ctx) && !InFlight(r.states[i])
    requires forall k, id | i < k < j :: !PassesCheck(r, k, id)
    ensures forall p | p in r.states[j].procs :: !r.states[j].procs[p].alive
  {
    forall p | p in r.states[j].procs && r.states[j].procs[p].alive ensures false {
      SurvivorsWereInFlight(r, i, j, a, ctx, p);
    }
  }

  // ----- And everybody in flight can ---------------------------------------------------------------

  /** e goes on from r without any further context check. */
  ghost predicate Continues(r: Run, e: Run) {
    && r.states <= e.states && r.labels <= e.labels
    && forall k | |r.labels| <= k < |e.labels| :: !e.labels[k].SpawnCheck?
  }

  /** StopAll call a has dealt with the first n children of its snapshot; p is alive and not in it. */
  ghost predicate Draining(s: State, a: nat, snap: seq<nat>, n: nat, p: nat) {
    && a in s.stopAlls && s.stopAlls[a].pc == Launching
    && s.stopAlls[a].snapshot == snap && |s.stopAlls[a].calls| == n <= |snap|
    && (forall c | c in s.stopAlls[a].calls :: c in s.stops && s.stops[c].pc == StopReturned)
    && (forall q | q in snap :: q in s.list)
    && p in s.procs && s.procs[p].alive && p !in snap
  }

  ghost function Remaining(pr: Proc): nat { 3 - WaiterRank(pr.waiter) + if pr.alive then 1 else 0 }

  /** The label brings child q closer to its end, and q is on the list. */
  ghost predicate Finishes(s: State, l: Label, q: nat) {
    Enabled(s, l) && q in s.procs && Advances(s, l, q) && q in s.list && ListedExactly(s, q)
  }

  lemma FinishKeeps(s: State, l: Label, a: nat, snap: seq<nat>, n: nat, p: nat, q: nat)
    requires Draining(s, a, snap, n, p) && q in snap && Finishes(s, l, q)
    ensures !l.SpawnCheck? && Draining(Apply(s, l), a, snap, n, p)
  {
  }

  lemma FinishMoves(s: State, l: Label, q: nat)
    requires Finishes(s, l, q) && ProcOk(s.procs[q])
    ensures q in Apply(s, l).procs && Remaining(Apply(s, l).procs[q]) < Remaining(s.procs[q])
  {
  }

  /** A listed child can be brought to the end without touching anything else. */
  lemma {:induction false} Finish(r: Run, a: nat, snap: seq<nat>, n: nat, p: nat, q: nat) returns (e: Run)
    requires IsRun(r) && Draining(LastState(r), a, snap, n, p) && q in snap && q in LastState(r).procs
    ensures IsRun(e) && Continues(r, e) && Draining(LastState(e), a, snap, n, p)
    ensures q in LastState(e).procs && LastState(e).procs[q].done && Final(LastState(e).procs[q].state)
    decreases Remaining(LastState(r).procs[q])
  {
    var s := LastState(r);
    RunInv(r, |r.labels|);
    assert ChildOk(s, q);
    if s.procs[q].done {
      e := r;
    } else {
      var l := ChildNeverStuck(s, q);
      FinishKeeps(s, l, a, snap, n, p, q);
      FinishMoves(s, l, q);
      e := Finish(Extend(r, l), a, snap, n, p, q);
    }
  }

  lemma LaunchOne(s: State, a: nat, snap: seq<nat>, n: nat, p: nat, c: nat)
    requires Draining(s, a, snap, n, p) && n < |snap| && c !in s.stops
    ensures Enabled(s, LaunchStop(a, c))
    ensures Apply(s, LaunchStop(a, c)) ==
      s.(stops := s.stops[c := StopCall(Some(snap[n]), s.stopAlls[a].ctx, StopEntered)],
         stopAlls := s.stopAlls[a := s.stopAlls[a].(calls := s.stopAlls[a].calls + [c])])
  {
  }

  /** The Stop call for a finished child loses its claim. */
  lemma LoseClaim(s: State, c: nat)
    requires c in s.stops && s.stops[c].pc == StopEntered && s.stops[c].target.Some?
    requires s.stops[c].target.value in s.procs && s.procs[s.stops[c].target.value].state != StateRunning
    ensures Enabled(s, Claim(c)) && Apply(s, Claim(c)) == SetStop(s, c, Lost)
  {
  }

  lemma DrainedOne(s: State, t: State, a: nat, snap: seq<nat>, n: nat, p: nat, c: nat)
    requires Draining(s, a, snap, n, p) && n < |snap| && c !in s.stops
    requires t.procs == s.procs && t.list == s.list
    requires t.stopAlls == s.stopAlls[a := s.stopAlls[a].(calls := s.stopAlls[a].calls + [c])]
    requires c in t.stops && t.stops[c].pc == StopReturned
    requires forall d | d in s.stops :: d in t.stops && t.stops[d] == s.stops[d]
    ensures Draining(t, a, snap, n + 1, p)
  {
  }

  /** The three labels of a round, one after the other. */
  lemma RoundStates(s: State, a: nat, snap: seq<nat>, n: nat, p: nat, c: nat)
    requires Draining(s, a, snap, n, p) && n < |snap| && c !in s.stops
    requires snap[n] in s.procs && s.procs[snap[n]].done && Final(s.procs[snap[n]].state)
    ensures Enabled(s, LaunchStop(a, c))
    ensures var s1 := Apply(s, LaunchStop(a, c));
      && Enabled(s1, Claim(c)) && Enabled(Apply(s1, Claim(c)), StopReturn(c))
      && Draining(Apply(Apply(s1, Claim(c)), StopReturn(c)), a, snap, n + 1, p)
  {
    LaunchOne(s, a, snap, n, p, c);
    var s1 := Apply(s, LaunchStop(a, c));
    LoseClaim(s1, c);
    DrainedOne(s, Apply(Apply(s1, Claim(c)), StopReturn(c)), a, snap, n, p, c);
  }

  lemma OneRound(r: Run, a: nat, snap: seq<nat>, n: nat, p: nat) returns (e: Run)
    requires IsRun(r) && Draining(LastState(r), a, snap, n, p) && n < |snap|
    requires snap[n] in LastState(r).procs && LastState(r).procs[snap[n]].done
    requires Final(LastState(r).procs[snap[n]].state)
    ensures IsRun(e) && Continues(r, e) && Draining(LastState(e), a, snap, n + 1, p)
  {
    var s := LastState(r);
    var c := FreshNat(s.stops.Keys);
    assert c !in s.stops;
    RoundStates(s, a, snap, n, p, c);
    e := Extend(Extend(Extend(r, LaunchStop(a, c)), Claim(c)), StopReturn(c));
  }

  lemma {:induction false} Drain(r: Run, a: nat, snap: seq<nat>, n: nat, p: nat) returns (e: Run)
    requires IsRun(r) && Draining(LastState(r), a, snap, n, p)
    ensures IsRun(e) && Continues(r, e)
    ensures a in LastState(e).stopAlls && LastState(e).stopAlls[a].pc == StopAllReturned
    ensures p in LastState(e).procs && LastState(e).procs[p].alive
    decreases |snap| - n
  {
    if n == |snap| {
      e := Extend(r, StopAllReturn(a));
    } else {
      RunInv(r, |r.labels|);
      assert snap[n] in LastState(r).list && Visible(LastState(r), snap[n]);
      e := Finish(r, a, snap, n, p, snap[n]);
      e := OneRound(e, a, snap, n, p);
      e := Drain(e, a, snap, n + 1, p);
    }
  }

  /** After the snapshot, with the child of the Spawn in flight started. */
  lemma StartDraining(r: Run, a: nat, ctx: nat, id: nat) returns (e: Run, p: nat)
    requires IsRun(r) && a !in LastState(r).stopAlls
    requires id in LastState(r).spawns && CanDeliver(LastState(r), id)
    ensures IsRun(e) && Continues(r, e) && |e.labels| > |r.labels| && e.labels[|r.labels|] == TakeSnapshot(a, ctx)
    ensures Draining(LastState(e), a, LastState(r).list, 0, p)
  {
    var s := LastState(r);
    RunInv(r, |r.labels|);
    assert SpawnOk(s, id);
    e := Extend(r, TakeSnapshot(a, ctx));
    if s.spawns[id].pc.SpawnPassed? {
      p := FreshNat(s.procs.Keys);
      assert p !in s.procs;
      assert p !in s.list by { assert p in s.list ==> Visible(s, p); }
      e := Extend(e, SpawnStart(id, Some(p)));
    } else {
      p := s.spawns[id].pc.p;
      assert ChildOk(s, p);
    }
  }

  /** Whatever has happened so far, a Spawn in flight can make its child outlive a StopAll. */
  lemma ChildCanOutliveStopAll(r: Run, a: nat, ctx: nat, id: nat) returns (e: Run, p: nat)
    requires IsRun(r) && a !in LastState(r).stopAlls
    requires id in LastState(r).spawns && CanDeliver(LastState(r), id)
    ensures Continues(r, e) && |r.labels| < |e.labels| && StopsAll(e, |r.labels|, |e.labels|, a, ctx)
    ensures p in LastState(e).procs && LastState(e).procs[p].alive
  {
    e, p := StartDraining(r, a, ctx, id);
    e := Drain(e, a, LastState(r).list, 0, p);
  }

  /** StopAll call a, starting where r ends and with no context check passing, leaves a child alive. */
  ghost predicate LeavesSurvivor(r: Run, e: Run, a: nat, ctx: nat) {
    && |r.labels| < |e.labels| && r.labels <= e.labels && r.states <= e.states
    && StopsAll(e, |r.labels|, |e.labels|, a, ctx)
    && (forall k, id | |r.labels| < k < |e.labels| :: !PassesCheck(e, k, id))
    && exists p :: p in LastState(e).procs && LastState(e).procs[p].alive
  }

  /**
   Exactly when StopAll can leave a child behind although no later Spawn passes its check: when a
   Spawn that passed it earlier is in flight, with its child not started yet or alive, at the snapshot.
   */
  lemma SurvivalExactly(r: Run, a: nat, ctx: nat)
    requires IsRun(r) && a !in LastState(r).stopAlls
    ensures InFlight(LastState(r)) <==> exists e :: LeavesSurvivor(r, e, a, ctx)
  {
    if InFlight(LastState(r)) {
      var id :| id in LastState(r).spawns && CanDeliver(LastState(r), id);
      var e, p := ChildCanOutliveStopAll(r, a, ctx, id);
      assert LeavesSurvivor(r, e, a, ctx);
    }
    forall e | LeavesSurvivor(r, e, a, ctx) ensures InFlight(LastState(r)) {
      assert e.states[|r.labels|] == LastState(r);
      if !InFlight(LastState(r)) {
        NobodyOutlives(e, |r.labels|, |e.labels|, a, ctx);
      }
    }
  }

  /** Such a state is reached with every context cancelled: the check came first. */
  lemma InFlightWhenCancelled() returns (r: Run)
    ensures IsRun(r) && InFlight(LastState(r)) && LastState(r).stopAlls == map[]
    ensures forall id | id in LastState(r).spawns :: LastState(r).spawns[id].ctx in LastState(r).cancelled
  {
    r := MarkedRun();
    r := Extend(r, Cancel(0));
    assert CanDeliver(LastState(r), 0);
  }
}
