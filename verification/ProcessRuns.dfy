/**
 What holds in every run of the process protocol: every interleaving of children exiting,
 their waiters, and any number of concurrent Spawn, Stop and StopAll calls.
 */
module ProcessRuns {
  import opened Wrappers
  import opened ManagedProcess
  import opened ProcessProtocol

  /** A finite prefix of an execution: label i takes state i to state i + 1. */
  datatype Run = Run(states: seq<State>, labels: seq<Label>)

  ghost predicate StepAt(r: Run, i: nat)
    requires |r.states| == |r.labels| + 1 && i < |r.labels|
  {
    Enabled(r.states[i], r.labels[i]) && r.states[i + 1] == Apply(r.states[i], r.labels[i])
  }

  ghost predicate IsRun(r: Run) {
    && |r.states| == |r.labels| + 1
    && r.states[0] == INIT
    && forall i | 0 <= i < |r.labels| :: StepAt(r, i)
  }

  lemma {:induction false} RunInv(r: Run, i: nat)
    requires IsRun(r) && i < |r.states|
    ensures Inv(r.states[i])
  {
    if i > 0 {
      RunInv(r, i - 1);
      assert StepAt(r, i - 1);
      InvStep(r.states[i - 1], r.labels[i - 1]);
    }
  }

  lemma {:induction false} RunLater(r: Run, i: nat, j: nat)
    requires IsRun(r) && i <= j < |r.states|
    ensures Later(r.states[i], r.states[j])
    decreases j - i
  {
    if i < j {
      RunLater(r, i, j - 1);
      assert Later(r.states[j - 1], r.states[j]) by {
        RunInv(r, j - 1);
        assert StepAt(r, j - 1);
        LaterStep(r.states[j - 1], r.labels[j - 1]);
      }
      LaterTransitive(r.states[i], r.states[j - 1], r.states[j]);
    }
  }

  // ----- The life of one child ---------------------------------------------------------------

  ghost predicate StateAt(r: Run, i: nat, p: nat, st: ProcessState) {
    i < |r.states| && p in r.states[i].procs && r.states[i].procs[p].state == st
  }

  /** At step i the child stops being Running. */
  ghost predicate LeavesRunning(r: Run, i: nat, p: nat) {
    StateAt(r, i, p, StateRunning) && i + 1 < |r.states| && !StateAt(r, i + 1, p, StateRunning)
  }

  /** A final state never changes, and neither does the recorded exit error after settling. */
  lemma FinalStateNeverChanges(r: Run, i: nat, j: nat, p: nat)
    requires IsRun(r) && i <= j < |r.states| && p in r.states[i].procs
    ensures p in r.states[j].procs
    ensures Final(r.states[i].procs[p].state) ==> r.states[j].procs[p].state == r.states[i].procs[p].state
    ensures HasSettled(r.states[i].procs[p]) ==>
      HasSettled(r.states[j].procs[p]) && r.states[j].procs[p].wait == r.states[i].procs[p].exit
  {
    RunLater(r, i, j);
    RunInv(r, i);
    assert ProcLater(r.states[i].procs[p], r.states[j].procs[p]);
  }

  /** What a child exited with is what its record and, once settled, its Wait report for ever. */
  lemma ExitErrorIsReported(r: Run, i: nat, j: nat, p: nat, err: WaitError)
    requires IsRun(r) && i < j < |r.states| && r.labels[i] == Exit(p, err)
    ensures p in r.states[j].procs && !r.states[j].procs[p].alive && r.states[j].procs[p].exit == err
    ensures HasSettled(r.states[j].procs[p]) ==> r.states[j].procs[p].wait == err
  {
    assert StepAt(r, i);
    RunLater(r, i + 1, j);
    RunInv(r, j);
    assert ProcLater(r.states[i + 1].procs[p], r.states[j].procs[p]);
  }

  /** A context counts as cancelled exactly when somebody cancelled it before. */
  lemma {:induction false} CancelledExactly(r: Run, j: nat, ctx: nat)
    requires IsRun(r) && j < |r.states|
    ensures ctx in r.states[j].cancelled <==> exists i | 0 <= i < j :: r.labels[i] == Cancel(ctx)
  {
    if j > 0 {
      assert StepAt(r, j - 1);
      CancelledExactly(r, j - 1, ctx);
      CancelStep(r.states[j - 1], r.labels[j - 1], ctx);
    }
  }

  lemma CancelStep(s: State, l: Label, ctx: nat)
    requires Enabled(s, l)
    ensures ctx in Apply(s, l).cancelled <==> ctx in s.cancelled || l == Cancel(ctx)
  {
  }

  lemma LeavesRunningAtMostOnce(r: Run, i: nat, j: nat, p: nat)
    requires IsRun(r) && LeavesRunning(r, i, p) && LeavesRunning(r, j, p)
    ensures i == j
  {
    if i != j {
      var a, b := if i < j then i else j, if i < j then j else i;
      RunLater(r, a, a + 1);
      assert ProcLater(r.states[a].procs[p], r.states[a + 1].procs[p]);
      FinalStateNeverChanges(r, a + 1, b, p);
    }
  }

  /** Nothing is Stopped or Failed without having been Running: it left Running exactly once. */
  lemma {:induction false} FinalLeftRunning(r: Run, j: nat, p: nat) returns (i: nat)
    requires IsRun(r) && j < |r.states| && p in r.states[j].procs && Final(r.states[j].procs[p].state)
    ensures i < j && LeavesRunning(r, i, p)
  {
    assert StepAt(r, j - 1);
    RunInv(r, j - 1);
    if StateAt(r, j - 1, p, StateRunning) {
      i := j - 1;
    } else {
      assert p in r.states[j - 1].procs && Final(r.states[j - 1].procs[p].state) by {
        FinalComesFrom(r.states[j - 1], r.labels[j - 1], p);
      }
      i := FinalLeftRunning(r, j - 1, p);
    }
  }

  lemma FinalComesFrom(s: State, l: Label, p: nat)
    requires Enabled(s, l) && p in Apply(s, l).procs && Final(Apply(s, l).procs[p].state)
    requires p in s.procs ==> ProcOk(s.procs[p])
    ensures p in s.procs && (s.procs[p].state == StateRunning || Final(s.procs[p].state))
  {
  }

  // ----- done -------------------------------------------------------------------------------

  /** `done` is closed at most once, after the child is dead and its exit error is recorded. */
  lemma DoneClosesOnceAfterSettling(r: Run, i: nat, p: nat)
    requires IsRun(r) && i < |r.labels| && r.labels[i] == CloseDone(p)
    ensures p in r.states[i].procs
    ensures !r.states[i].procs[p].alive && r.states[i].procs[p].wait == r.states[i].procs[p].exit
    ensures Final(r.states[i].procs[p].state)
    ensures forall j | i < j < |r.labels| :: r.labels[j] != CloseDone(p)
  {
    RunInv(r, i);
    assert StepAt(r, i) && ProcOk(r.states[i].procs[p]);
    forall j | i < j < |r.labels| ensures r.labels[j] != CloseDone(p) {
      RunLater(r, i + 1, j);
      assert StepAt(r, j) && ProcLater(r.states[i + 1].procs[p], r.states[j].procs[p]);
    }
  }

  /** Stop returns only once `done` is closed, so the child is dead and settled. */
  lemma StopReturnsAfterDone(r: Run, i: nat, c: nat)
    requires IsRun(r) && i < |r.states| && c in r.states[i].stops
    requires r.states[i].stops[c].pc == StopReturned && r.states[i].stops[c].target.Some?
    ensures var p := r.states[i].stops[c].target.value;
      && p in r.states[i].procs && r.states[i].procs[p].done && !r.states[i].procs[p].alive
      && Final(r.states[i].procs[p].state)
      && r.states[i].procs[p].wait == r.states[i].procs[p].exit
  {
    RunInv(r, i);
    assert StopOk(r.states[i], c);
    assert ProcOk(r.states[i].procs[r.states[i].stops[c].target.value]);
  }

  /** A step that brings a child closer to closing `done`. */
  ghost predicate Advances(s: State, l: Label, p: nat)
    requires p in s.procs
  {
    || (l.Exit? && l.p == p) || l == Settle(p) || l == CloseDone(p)
    || (s.procs[p].waiter == NotStarted && (l.SpawnMark? || l.SpawnAdd? || l.SpawnGo?) && l.id == s.procs[p].spawner)
  }

  /** Until `done` is closed some goroutine, or the child itself, can always move towards it. */
  lemma ChildNeverStuck(s: State, p: nat) returns (l: Label)
    requires Inv(s) && p in s.procs && !s.procs[p].done
    ensures Enabled(s, l) && Advances(s, l, p)
  {
    var pr := s.procs[p];
    assert ProcOk(pr) && InHands(s, p);
    match pr.waiter
    case NotStarted =>
      var id := pr.spawner;
      l := if s.spawns[id].pc.Forked? then SpawnMark(id)
           else if s.spawns[id].pc.MarkedRunning? then SpawnAdd(id)
           else SpawnGo(id);
    case Waiting => l := if pr.alive then Exit(p, None) else Settle(p);
    case Settled => l := CloseDone(p);
    case Closed =>
  }

  /**
   What a Stop call that has not returned does next, or waits for: it claims, a claimant signals,
   and only a call that has lost the claim or has signalled waits for `done`.
   */
  ghost predicate StopMoves(s: State, l: Label, c: nat)
    requires c in s.stops
  {
    var call := s.stops[c];
    if call.target.None? then l == StopReturn(c)
    else if call.pc == StopEntered then l == Claim(c)
    else if call.pc == Claimed then l == SendTerm(c)
    else
      && call.target.value in s.procs
      && if s.procs[call.target.value].done then l == StopReturn(c) else Advances(s, l, call.target.value)
  }

  /** No Stop call is ever stuck. */
  lemma StopNeverStuck(r: Run, i: nat, c: nat) returns (l: Label)
    requires IsRun(r) && i < |r.states| && c in r.states[i].stops
    requires r.states[i].stops[c].pc != StopReturned
    ensures Enabled(r.states[i], l) && StopMoves(r.states[i], l, c)
  {
    var s := r.states[i];
    RunInv(r, i);
    assert StopOk(s, c);
    var call := s.stops[c];
    if call.target.None? {
      l := StopReturn(c);
    } else if call.pc == StopEntered {
      l := Claim(c);
    } else if call.pc == Claimed {
      l := SendTerm(c);
    } else if s.procs[call.target.value].done {
      l := StopReturn(c);
    } else {
      l := ChildNeverStuck(s, call.target.value);
    }
  }

  /** Anybody can start a Stop for nobody or for any child on the list, under any context, at any time. */
  lemma AnyoneCanStop(r: Run, i: nat, c: nat, target: Option<nat>, ctx: nat)
    requires IsRun(r) && i < |r.states| && c !in r.states[i].stops
    requires target.Some? ==> target.value in r.states[i].list
    ensures Enabled(r.states[i], StopEnter(c, target, ctx))
    ensures var t := Apply(r.states[i], StopEnter(c, target, ctx));
      c in t.stops && t.stops[c] == StopCall(target, ctx, StopEntered)
  {
  }

  /** A live child can exit at any time, with any error. */
  lemma ChildCanExit(s: State, p: nat, err: WaitError)
    requires p in s.procs && s.procs[p].alive
    ensures Enabled(s, Exit(p, err))
    ensures var t := Apply(s, Exit(p, err)); !t.procs[p].alive && t.procs[p].exit == err
  {
  }

  /** The claim wins exactly on a running child, and a lost one changes nothing but the call. */
  lemma ClaimDecides(r: Run, i: nat, c: nat)
    requires IsRun(r) && i < |r.labels| && r.labels[i] == Claim(c)
    ensures c in r.states[i].stops && r.states[i].stops[c].target.Some? && c in r.states[i + 1].stops
    ensures var p := r.states[i].stops[c].target.value;
      if StateAt(r, i, p, StateRunning) then
        r.states[i + 1].stops[c].pc == Claimed && StateAt(r, i + 1, p, StateStopped)
      else r.states[i + 1].stops[c].pc == Lost && r.states[i + 1].procs == r.states[i].procs
  {
    assert StepAt(r, i);
  }

  // ----- signals -------------------------------------------------------------------------------

  /** Label i is Stop call c signalling child p. */
  ghost predicate Signals(r: Run, i: nat, c: nat, p: nat) {
    && i < |r.labels| && i < |r.states|
    && (r.labels[i] == SendTerm(c) || (r.labels[i].SendKill? && r.labels[i].id == c))
    && c in r.states[i].stops && r.states[i].stops[c].target == Some(p)
  }

  lemma SignallerIsClaimant(r: Run, i: nat, c: nat, p: nat)
    requires IsRun(r) && Signals(r, i, c, p)
    ensures p in r.states[i].procs && r.states[i].procs[p].claimedBy == Some(c)
    ensures r.states[i].procs[p].state == StateStopped
  {
    RunInv(r, i);
    assert StepAt(r, i) && StopOk(r.states[i], c);
    assert ProcOk(r.states[i].procs[p]);
  }

  /** However many Stop calls race, one of them sends all the signals a child ever gets. */
  lemma OneSignaller(r: Run, i: nat, j: nat, c: nat, d: nat, p: nat)
    requires IsRun(r) && Signals(r, i, c, p) && Signals(r, j, d, p)
    ensures c == d
  {
    SignallerIsClaimant(r, i, c, p);
    SignallerIsClaimant(r, j, d, p);
    var a, b := if i < j then i else j, if i < j then j else i;
    RunLater(r, a, b);
    assert ProcLater(r.states[a].procs[p], r.states[b].procs[p]);
  }

  /** Each Stop call sends each signal at most once. */
  lemma EachSignalOnce(r: Run, i: nat, j: nat, c: nat)
    requires IsRun(r) && i < j < |r.labels|
    requires r.labels[i] == SendTerm(c) || (r.labels[i].SendKill? && r.labels[i].id == c)
    requires r.labels[j] == SendTerm(c) || (r.labels[j].SendKill? && r.labels[j].id == c)
    ensures r.labels[i] == SendTerm(c) && r.labels[j].SendKill?
  {
    assert StepAt(r, i) && StepAt(r, j);
    RunLater(r, i + 1, j);
    assert StopLater(r.states[i + 1].stops[c], r.states[j].stops[c]);
  }

  lemma TermStep(s: State, l: Label, c: nat)
    requires Enabled(s, l) && c in Apply(s, l).stops && Apply(s, l).stops[c].pc in {Terminated, Killed}
    ensures l == SendTerm(c) || (c in s.stops && s.stops[c].pc in {Terminated, Killed})
  {
  }

  /** A Stop call that is past its TERM sent it earlier. */
  lemma {:induction false} PastTermSentTerm(r: Run, j: nat, c: nat) returns (i: nat)
    requires IsRun(r) && j < |r.states| && c in r.states[j].stops
    requires r.states[j].stops[c].pc in {Terminated, Killed}
    ensures i < j && r.labels[i] == SendTerm(c)
  {
    i := j - 1;
    assert StepAt(r, i);
    TermStep(r.states[i], r.labels[i], c);
    if r.labels[i] != SendTerm(c) {
      i := PastTermSentTerm(r, j - 1, c);
    }
  }

  /** SIGKILL only ever follows SIGTERM, and a context-driven one follows the cancellation. */
  lemma KillFollowsTerm(r: Run, j: nat, c: nat, byContext: bool) returns (i: nat)
    requires IsRun(r) && j < |r.labels| && r.labels[j] == SendKill(c, byContext)
    ensures i < j && r.labels[i] == SendTerm(c)
    ensures c in r.states[j].stops
    ensures byContext ==> exists k | 0 <= k < j :: r.labels[k] == Cancel(r.states[j].stops[c].ctx)
  {
    assert StepAt(r, j);
    i := PastTermSentTerm(r, j, c);
    CancelledExactly(r, j, r.states[j].stops[c].ctx);
  }

  /** A call that claimed its target and is past TERM, by its program counter. */
  ghost predicate HasSignalled(s: State, c: nat) {
    && c in s.stops && s.stops[c].pc in {Terminated, Killed, StopReturned}
    && s.stops[c].target.Some? && s.stops[c].target.value in s.procs
    && s.procs[s.stops[c].target.value].claimedBy == Some(c)
  }

  lemma SignalledStep(s: State, l: Label, c: nat)
    requires Enabled(s, l) && HasSignalled(Apply(s, l), c)
    requires c in s.stops ==> StopOk(s, c)
    ensures l == SendTerm(c) || HasSignalled(s, c)
  {
    match l
    case Claim(_) =>
    case SendKill(_, _) =>
    case StopReturn(_) =>
    case SpawnStart(_, _) =>
    case _ =>
  }

  /** The Stop call that claims a child signals it: by the time it has returned it has sent TERM. */
  lemma {:induction false} ClaimantSentTerm(r: Run, j: nat, c: nat) returns (i: nat)
    requires IsRun(r) && j < |r.states| && HasSignalled(r.states[j], c)
    ensures i < j && r.labels[i] == SendTerm(c)
  {
    i := j - 1;
    assert StepAt(r, i);
    RunInv(r, i);
    SignalledStep(r.states[i], r.labels[i], c);
    if r.labels[i] != SendTerm(c) {
      i := ClaimantSentTerm(r, j - 1, c);
    }
  }

  /**
   A claimant can send TERM at once, whatever the child does; after that KILL follows the timeout
   at any time, or the cancellation of its context as soon as that happened.
   */
  lemma ClaimantCanSignal(r: Run, i: nat, c: nat)
    requires IsRun(r) && i < |r.states| && c in r.states[i].stops
    ensures r.states[i].stops[c].pc == Claimed ==> Enabled(r.states[i], SendTerm(c))
    ensures r.states[i].stops[c].pc == Terminated ==> Enabled(r.states[i], SendKill(c, false))
    ensures r.states[i].stops[c].pc == Terminated && r.states[i].stops[c].ctx in r.states[i].cancelled ==>
      Enabled(r.states[i], SendKill(c, true))
  {
  }

  // ----- who decides the final state ---------------------------------------------------------

  /** Label i is the mutex section in which some Stop call claims child p. */
  ghost predicate Claims(r: Run, i: nat, p: nat) {
    && i < |r.labels| && i < |r.states| && r.labels[i].Claim?
    && r.labels[i].id in r.states[i].stops && r.states[i].stops[r.labels[i].id].target == Some(p)
    && StateAt(r, i, p, StateRunning)
  }

  ghost predicate ClaimLabel(s: State, l: Label, p: nat) {
    && l.Claim? && l.id in s.stops && s.stops[l.id].target == Some(p)
    && p in s.procs && s.procs[p].state == StateRunning
  }

  lemma ClaimStep(s: State, l: Label, p: nat)
    requires Enabled(s, l) && p in s.procs && ProcOk(s.procs[p])
    ensures p in Apply(s, l).procs
    ensures Apply(s, l).procs[p].claimedBy.Some? <==> s.procs[p].claimedBy.Some? || ClaimLabel(s, l, p)
  {
  }

  lemma {:induction false} ClaimedMeansClaims(r: Run, j: nat, p: nat)
    requires IsRun(r) && j < |r.states| && p in r.states[j].procs
    ensures r.states[j].procs[p].claimedBy.Some? <==> exists i | 0 <= i < j :: Claims(r, i, p)
  {
    if j > 0 {
      var s, l := r.states[j - 1], r.labels[j - 1];
      assert StepAt(r, j - 1);
      RunInv(r, j - 1);
      if p in s.procs {
        ClaimedMeansClaims(r, j - 1, p);
        ClaimStep(s, l, p);
        assert Claims(r, j - 1, p) <==> ClaimLabel(s, l, p);
      } else {
        assert l == SpawnStart(l.id, Some(p));
        forall i | 0 <= i < j ensures !Claims(r, i, p) {
          RunLater(r, i, j - 1);
        }
      }
    }
  }

  /**
   The verdict on a settled child, exactly: it is Failed if and only if it exited with an error
   and no Stop call's section claimed it before the waiter's section ran.
   */
  lemma FailedExactly(r: Run, i: nat, j: nat, p: nat)
    requires IsRun(r) && i < j < |r.states| && r.labels[i] == Settle(p)
    ensures p in r.states[i].procs && p in r.states[j].procs
    ensures r.states[j].procs[p].state == StateFailed <==>
      r.states[j].procs[p].exit.Some? && forall k | 0 <= k < i :: !Claims(r, k, p)
    ensures r.states[j].procs[p].state == StateStopped <==>
      r.states[j].procs[p].exit.None? || exists k | 0 <= k < i :: Claims(r, k, p)
  {
    assert StepAt(r, i);
    RunInv(r, i);
    RunInv(r, i + 1);
    ClaimedMeansClaims(r, i, p);
    assert ProcOk(r.states[i].procs[p]) && ProcOk(r.states[i + 1].procs[p]);
    RunLater(r, i + 1, j);
    assert ProcLater(r.states[i + 1].procs[p], r.states[j].procs[p]);
  }

  ghost function LastState(r: Run): State
    requires IsRun(r)
  {
    r.states[|r.labels|]
  }

  ghost function Extend(r: Run, l: Label): (e: Run)
    requires IsRun(r) && Enabled(LastState(r), l)
    ensures IsRun(e) && LastState(e) == Apply(LastState(r), l)
    ensures r.states <= e.states && e.labels == r.labels + [l]
  {
    var e := Run(r.states + [Apply(LastState(r), l)], r.labels + [l]);
    assert forall i | 0 <= i < |r.labels| :: StepAt(r, i) ==> StepAt(e, i);
    assert StepAt(e, |r.labels|);
    e
  }

  /** A child that has been started and marked, but is not on the list yet. */
  lemma MarkedRun() returns (r: Run)
    ensures IsRun(r) && |r.labels| == 3 && forall k | 0 <= k < 3 :: !r.labels[k].Claim?
    ensures LastState(r) == State(map[0 := Proc(StateRunning, true, None, None, NotStarted, false, 0, None)],
                                  [], {}, map[0 := SpawnCall(0, MarkedRunning(0))], map[], map[])
  {
    r := Extend(Run([INIT], []), SpawnCheck(0, 0));
    r := Extend(r, SpawnStart(0, Some(0)));
    r := Extend(r, SpawnMark(0));
  }

  /** The shortest run with a child under a waiter. */
  lemma SpawnedRun() returns (r: Run)
    ensures IsRun(r) && |r.labels| == 5 && 0 in LastState(r).procs
    ensures LastState(r).procs[0] == Proc(StateRunning, true, None, None, Waiting, false, 0, None)
    ensures LastState(r).list == [0] && LastState(r).stops == map[]
    ensures forall k | 0 <= k < 5 :: !r.labels[k].Claim?
  {
    r := MarkedRun();
    r := Extend(r, SpawnAdd(0));
    r := Extend(r, SpawnGo(0));
  }

  /** Its child has exited with an error, and a Stop call for it has just been entered. */
  lemma ExitedRun() returns (r: Run)
    ensures IsRun(r) && |r.labels| == 7 && forall k | 0 <= k < 7 :: !r.labels[k].Claim?
    ensures r.labels[5] == Exit(0, Some("exit status 1")) && 0 in LastState(r).procs
    ensures LastState(r).procs[0] == Proc(StateRunning, false, Some("exit status 1"), None, Waiting, false, 0, None)
    ensures 0 in LastState(r).stops && LastState(r).stops[0] == StopCall(Some(0), 0, StopEntered)
  {
    r := SpawnedRun();
    r := Extend(r, Exit(0, Some("exit status 1")));
    r := Extend(r, StopEnter(0, Some(0), 0));
  }

  /**
   Exiting first is not enough: here the child exits with an error before any Stop call claims it,
   but the claim still beats the waiter's section and the final state is Stopped.
   */
  lemma ErrorExitCanEndStopped() returns (r: Run)
    ensures IsRun(r) && |r.labels| == 9
    ensures r.labels[5] == Exit(0, Some("exit status 1")) && r.labels[8] == Settle(0)
    ensures forall k | 0 <= k <= 5 :: !Claims(r, k, 0)
    ensures StateAt(r, 9, 0, StateStopped)
  {
    r := ExitedRun();
    r := Extend(r, Claim(0));
    r := Extend(r, Settle(0));
  }

  // ----- StopAll and Spawn ------------------------------------------------------------------

  /** The managed list only grows, and everything on it stays known. */
  lemma ListOnlyGrows(r: Run, i: nat, j: nat)
    requires IsRun(r) && i <= j < |r.states|
    ensures r.states[i].list <= r.states[j].list
    ensures forall p | p in r.states[i].list :: p in r.states[j].procs
  {
    RunLater(r, i, j);
    RunInv(r, i);
    RunInv(r, j);
    forall p | p in r.states[i].list ensures p in r.states[j].procs {
      assert Visible(r.states[i], p);
    }
  }

  /**
   When StopAll returns, every child that was on the list when it took its snapshot is dead,
   whatever exits, other Stop calls and Spawns were interleaved with it.
   */
  lemma StopAllLeavesNoneAlive(r: Run, i: nat, j: nat, a: nat, ctx: nat)
    requires IsRun(r) && i < j < |r.states|
    requires r.labels[i] == TakeSnapshot(a, ctx)
    requires a in r.states[j].stopAlls && r.states[j].stopAlls[a].pc == StopAllReturned
    ensures forall p | p in r.states[i].list ::
      && p in r.states[j].procs && !r.states[j].procs[p].alive && r.states[j].procs[p].done
      && Final(r.states[j].procs[p].state)
  {
    assert StepAt(r, i);
    RunLater(r, i + 1, j);
    RunInv(r, j);
    var all := r.states[j].stopAlls[a];
    assert StopAllLater(r.states[i + 1].stopAlls[a], all);
    assert all.snapshot == r.states[i].list;
    assert StopAllOk(r.states[j], a);
    forall k | 0 <= k < |all.snapshot|
      ensures var p := all.snapshot[k];
        && p in r.states[j].procs && !r.states[j].procs[p].alive && r.states[j].procs[p].done
        && Final(r.states[j].procs[p].state)
    {
      StopReturnsAfterDone(r, j, all.calls[k]);
    }
  }

  /** StopAll launches one Stop per child of its snapshot, in order, under its own context. */
  lemma StopAllCallsMatchSnapshot(r: Run, j: nat, a: nat, k: nat)
    requires IsRun(r) && j < |r.states| && a in r.states[j].stopAlls
    requires k < |r.states[j].stopAlls[a].calls|
    ensures var all := r.states[j].stopAlls[a];
      && all.calls[k] in r.states[j].stops && k < |all.snapshot|
      && r.states[j].stops[all.calls[k]].target == Some(all.snapshot[k])
      && r.states[j].stops[all.calls[k]].ctx == all.ctx
  {
    RunInv(r, j);
    assert StopAllOk(r.states[j], a);
  }

  // ----- Spawn ------------------------------------------------------------------------------------

  ghost predicate NoRepeats(s: seq<nat>) { forall i, j | 0 <= i < j < |s| :: s[i] != s[j] }

  lemma NoRepeatsStep(s: State, l: Label)
    requires Inv(s) && Enabled(s, l) && NoRepeats(s.list)
    ensures NoRepeats(Apply(s, l).list)
  {
    if l.SpawnAdd? {
      var p := s.spawns[l.id].pc.p;
      assert SpawnOk(s, l.id) && ChildOk(s, p);
      assert p !in s.list;
    }
  }

  /** No child is ever on the list twice, so StopAll stops each of them once. */
  lemma {:induction false} ListedOnce(r: Run, j: nat)
    requires IsRun(r) && j < |r.states|
    ensures NoRepeats(r.states[j].list)
  {
    if j > 0 {
      assert StepAt(r, j - 1);
      RunInv(r, j - 1);
      ListedOnce(r, j - 1);
      NoRepeatsStep(r.states[j - 1], r.labels[j - 1]);
    }
  }

  /** Under a live context a Spawn can pass its check, and then its command starts or does not. */
  lemma SpawnPassesCheck(r: Run, id: nat, ctx: nat) returns (e: Run)
    requires IsRun(r) && id !in LastState(r).spawns && ctx !in LastState(r).cancelled
    ensures IsRun(e) && e.labels == r.labels + [SpawnCheck(id, ctx)]
    ensures LastState(e) == LastState(r).(spawns := LastState(r).spawns[id := SpawnCall(ctx, SpawnPassed)])
    ensures Enabled(LastState(e), SpawnStart(id, None))
    ensures Apply(LastState(e), SpawnStart(id, None)) ==
      LastState(e).(spawns := LastState(e).spawns[id := SpawnCall(ctx, SpawnReturned(None))])
  {
    e := Extend(r, SpawnCheck(id, ctx));
  }

  /** The record of a child whose Spawn call has got this far. */
  ghost function NewChild(id: nat, state: ProcessState, waiter: Waiter): Proc {
    Proc(state, true, None, None, waiter, false, id, None)
  }

  ghost predicate IsAt(s: State, id: nat, ctx: nat, pc: SpawnPC, p: nat, pr: Proc) {
    id in s.spawns && s.spawns[id] == SpawnCall(ctx, pc) && p in s.procs && s.procs[p] == pr
  }

  ghost function At(s: State, id: nat, ctx: nat, pc: SpawnPC, p: nat, pr: Proc): State {
    s.(spawns := s.spawns[id := SpawnCall(ctx, pc)], procs := s.procs[p := pr])
  }

  lemma MarkChild(s: State, id: nat, ctx: nat, p: nat)
    requires IsAt(s, id, ctx, Forked(p), p, NewChild(id, StateStarting, NotStarted))
    ensures Enabled(s, SpawnMark(id))
    ensures Apply(s, SpawnMark(id)) == At(s, id, ctx, MarkedRunning(p), p, NewChild(id, StateRunning, NotStarted))
  {
  }

  lemma AddChild(s: State, id: nat, ctx: nat, p: nat)
    requires IsAt(s, id, ctx, MarkedRunning(p), p, NewChild(id, StateRunning, NotStarted))
    ensures Enabled(s, SpawnAdd(id))
    ensures Apply(s, SpawnAdd(id)) ==
      At(s, id, ctx, Added(p), p, NewChild(id, StateRunning, NotStarted)).(list := s.list + [p])
  {
    assert s.procs[p := s.procs[p]] == s.procs;
  }

  lemma GoChild(s: State, id: nat, ctx: nat, p: nat)
    requires IsAt(s, id, ctx, Added(p), p, NewChild(id, StateRunning, NotStarted))
    ensures Enabled(s, SpawnGo(id))
    ensures Apply(s, SpawnGo(id)) == At(s, id, ctx, SpawnReturned(Some(p)), p, NewChild(id, StateRunning, Waiting))
  {
  }

  lemma SpawnForks(r: Run, id: nat, ctx: nat, p: nat) returns (e: Run)
    requires IsRun(r) && id in LastState(r).spawns && LastState(r).spawns[id] == SpawnCall(ctx, SpawnPassed)
    requires p !in LastState(r).procs
    ensures IsRun(e) && e.labels == r.labels + [SpawnStart(id, Some(p)), SpawnMark(id)]
    ensures LastState(e) == At(LastState(r), id, ctx, MarkedRunning(p), p, NewChild(id, StateRunning, NotStarted))
  {
    e := Extend(r, SpawnStart(id, Some(p)));
    assert LastState(e) == At(LastState(r), id, ctx, Forked(p), p, NewChild(id, StateStarting, NotStarted));
    MarkChild(LastState(e), id, ctx, p);
    e := Extend(e, SpawnMark(id));
    AtTwice(LastState(r), id, ctx, Forked(p), p, NewChild(id, StateStarting, NotStarted),
            MarkedRunning(p), NewChild(id, StateRunning, NotStarted));
  }

  lemma AtTwice(s: State, id: nat, ctx: nat, pc: SpawnPC, p: nat, pr: Proc, pc': SpawnPC, pr': Proc)
    ensures At(At(s, id, ctx, pc, p, pr), id, ctx, pc', p, pr') == At(s, id, ctx, pc', p, pr')
  {
    assert s.procs[p := pr][p := pr'] == s.procs[p := pr'];
    assert s.spawns[id := SpawnCall(ctx, pc)][id := SpawnCall(ctx, pc')] == s.spawns[id := SpawnCall(ctx, pc')];
  }

  lemma SpawnLists(r: Run, id: nat, ctx: nat, p: nat) returns (e: Run)
    requires IsRun(r)
    requires IsAt(LastState(r), id, ctx, MarkedRunning(p), p, NewChild(id, StateRunning, NotStarted))
    ensures IsRun(e) && e.labels == r.labels + [SpawnAdd(id), SpawnGo(id)]
    ensures LastState(e) ==
      At(LastState(r), id, ctx, SpawnReturned(Some(p)), p, NewChild(id, StateRunning, Waiting)).(
        list := LastState(r).list + [p])
  {
    AddChild(LastState(r), id, ctx, p);
    e := Extend(r, SpawnAdd(id));
    GoChild(LastState(e), id, ctx, p);
    e := Extend(e, SpawnGo(id));
    AtTwice(LastState(r), id, ctx, Added(p), p, NewChild(id, StateRunning, NotStarted),
            SpawnReturned(Some(p)), NewChild(id, StateRunning, Waiting));
  }

  /** A whole Spawn: the child ends up running under its waiter and last on the list, and nothing else changes. */
  lemma SpawnCanFinish(r: Run, id: nat, ctx: nat, p: nat) returns (e: Run)
    requires IsRun(r) && id !in LastState(r).spawns && ctx !in LastState(r).cancelled && p !in LastState(r).procs
    ensures IsRun(e)
    ensures e.labels ==
      r.labels + [SpawnCheck(id, ctx), SpawnStart(id, Some(p)), SpawnMark(id), SpawnAdd(id), SpawnGo(id)]
    ensures LastState(e) == LastState(r).(
      procs := LastState(r).procs[p := Proc(StateRunning, true, None, None, Waiting, false, id, None)],
      list := LastState(r).list + [p],
      spawns := LastState(r).spawns[id := SpawnCall(ctx, SpawnReturned(Some(p)))])
  {
    var checked := SpawnPassesCheck(r, id, ctx);
    var forked := SpawnForks(checked, id, ctx, p);
    e := SpawnLists(forked, id, ctx, p);
    AtTwice(LastState(checked), id, ctx, MarkedRunning(p), p, NewChild(id, StateRunning, NotStarted),
            SpawnReturned(Some(p)), NewChild(id, StateRunning, Waiting));
    assert LastState(e).spawns == LastState(r).spawns[id := SpawnCall(ctx, SpawnReturned(Some(p)))];
  }

  /** A child that Spawn has returned is on the list, so every later snapshot contains it. */
  lemma SpawnedChildIsListed(r: Run, i: nat, j: nat, id: nat, p: nat)
    requires IsRun(r) && i <= j < |r.states| && id in r.states[i].spawns
    requires r.states[i].spawns[id].pc == SpawnReturned(Some(p))
    ensures p in r.states[j].list
  {
    RunInv(r, i);
    RunLater(r, i, j);
    assert Listed(r.states[i], id);
  }

  /** A Spawn whose context was cancelled before its check never creates a child. */
  lemma CancelledSpawnCreatesNothing(r: Run, i: nat, j: nat, id: nat, ctx: nat)
    requires IsRun(r) && i < j < |r.states| && r.labels[i] == SpawnCheck(id, ctx)
    requires ctx in r.states[i].cancelled
    ensures id in r.states[j].spawns && r.states[j].spawns[id].pc == SpawnReturned(None)
    ensures forall k | i < k < |r.labels| && r.labels[k].SpawnStart? :: r.labels[k].id != id
  {
    assert StepAt(r, i);
    RunLater(r, i + 1, j);
    assert SpawnLater(r.states[i + 1].spawns[id], r.states[j].spawns[id]);
    forall k | i < k < |r.labels| && r.labels[k].SpawnStart? ensures r.labels[k].id != id {
      assert StepAt(r, k);
      RunLater(r, i + 1, k);
      assert SpawnLater(r.states[i + 1].spawns[id], r.states[k].spawns[id]);
    }
  }
}
