/**
 How a supervisor ends and how it comes back, in every run: cancellations and clean exits end it for
 good, and nothing else does.
 */
module RestartRuns {
  import opened Wrappers
  import opened Supervisor
  import opened SupervisorRuns

  // ----- Ends -------------------------------------------------------------------------------------

  lemma EndMoves(r: Run, n: nat, j: nat, i: nat)
    requires IsRun(r, n) && j < |r.labels| && i < n
    ensures r.labels[j] in {Of(i, SeeCancelled), Of(i, BackoffCancelled)} ==>
      At(r, n, j + 1, i).pc == Returned(ByContext)
    ensures At(r, n, j, i).pc.Returned? ==>
      At(r, n, j + 1, i).pc == At(r, n, j, i).pc && r.labels[j] != Of(i, Launch)
  {
    InstMoves(r, n, j, i);
    if r.labels[j].Of? && r.labels[j].i == i {
      CancelEnds(At(r, n, j, i), r.labels[j].a, r.states[j].ctxDone);
    }
  }

  lemma {:induction false} ReturnedStays(r: Run, n: nat, k: nat, j: nat, i: nat)
    requires IsRun(r, n) && k <= j < |r.states| && i < n && At(r, n, k, i).pc.Returned?
    ensures At(r, n, j, i).pc == At(r, n, k, i).pc
    ensures j < |r.labels| ==> r.labels[j] != Of(i, Launch)
    decreases j - k
  {
    if k < j {
      ReturnedStays(r, n, k, j - 1, i);
      EndMoves(r, n, j - 1, i);
    }
    if j < |r.labels| {
      EndMoves(r, n, j, i);
    }
  }

  /** A supervisor that takes the context's branch has returned for good and launches nothing more. */
  lemma CancelledForGood(r: Run, n: nat, j: nat, m: nat, i: nat)
    requires IsRun(r, n) && j < m < |r.states| && i < n
    requires r.labels[j] in {Of(i, SeeCancelled), Of(i, BackoffCancelled)}
    ensures At(r, n, m, i).pc == Returned(ByContext)
    ensures m < |r.labels| ==> r.labels[m] != Of(i, Launch)
  {
    EndMoves(r, n, j, i);
    ReturnedStays(r, n, j + 1, m, i);
  }

  lemma CleanMoves(r: Run, n: nat, j: nat, i: nat)
    requires IsRun(r, n) && j < |r.labels| && i < n
    ensures r.labels[j] == Of(i, TakeExit(None)) ==> At(r, n, j + 1, i).pc == ExitCase(None)
    ensures At(r, n, j, i).pc == ExitCase(None) ==>
      At(r, n, j + 1, i).pc in {ExitCase(None), Returned(ByExit(None))} && r.labels[j] != Of(i, Launch)
  {
    InstMoves(r, n, j, i);
    if r.labels[j].Of? && r.labels[j].i == i {
      CleanExitEnds(At(r, n, j, i), r.labels[j].a, r.states[j].ctxDone);
    }
  }

  /** So has a supervisor that receives an exit without an error. */
  lemma {:induction false} CleanExitForGood(r: Run, n: nat, j: nat, m: nat, i: nat)
    requires IsRun(r, n) && j < m < |r.states| && i < n && r.labels[j] == Of(i, TakeExit(None))
    ensures At(r, n, m, i).pc in {ExitCase(None), Returned(ByExit(None))}
    ensures m < |r.labels| ==> r.labels[m] != Of(i, Launch)
    decreases m - j
  {
    if j + 1 == m {
      CleanMoves(r, n, j, i);
    } else {
      CleanExitForGood(r, n, j, m - 1, i);
      CleanMoves(r, n, m - 1, i);
      EndMoves(r, n, m - 1, i);
    }
    if m < |r.labels| {
      CleanMoves(r, n, m, i);
      EndMoves(r, n, m, i);
    }
  }

  /** After a cancellation a supervisor reaches its return by itself, whatever it was doing. */
  lemma {:induction false} CancelLeadsOut(r: Run, n: nat, i: nat) returns (e: Run)
    requires IsRun(r, n) && i < n && |LastState(r, n).insts| == n && LastState(r, n).ctxDone
    ensures IsRun(e, n) && Continues(r, e) && |LastState(e, n).insts| == n && LastState(e, n).insts[i].pc.Returned?
    ensures forall k | |r.labels| <= k < |e.labels| :: e.labels[k].Of? && e.labels[k].i == i && OwnAction(e.labels[k].a)
    decreases WayOut(LastState(r, n).insts[i])
  {
    var s := LastState(r, n);
    if s.insts[i].pc.Returned? {
      e := r;
    } else {
      RunInv(r, n, |r.labels|);
      var a := WindDown(s.insts[i]);
      e := CancelLeadsOut(Extend(r, n, Of(i, a)), n, i);
    }
  }

  // ----- Coming back --------------------------------------------------------------------------------

  lemma FinishedMoves(r: Run, n: nat, j: nat, i: nat)
    requires IsRun(r, n) && j < |r.labels| && i < n && Finished(At(r, n, j, i), r.states[j].ctxDone)
    ensures Finished(At(r, n, j + 1, i), r.states[j + 1].ctxDone)
    ensures At(r, n, j + 1, i).state == Ready ==> At(r, n, j, i).state == Ready
    ensures r.labels[j] !in {Of(i, Launch), Of(i, SetReady)}
  {
    InstMoves(r, n, j, i);
    assert StepAt(r, j);
    if r.labels[j].Of? && r.labels[j].i == i {
      FinishedAct(At(r, n, j, i), r.labels[j].a, r.states[j].ctxDone);
      ReadyAct(At(r, n, j, i), r.labels[j].a, r.states[j].ctxDone);
    }
  }

  /** A finished instance is never launched or marked Ready again. */
  lemma {:induction false} FinishedForGood(r: Run, n: nat, k: nat, j: nat, i: nat)
    requires IsRun(r, n) && k <= j < |r.states| && i < n && Finished(At(r, n, k, i), r.states[k].ctxDone)
    ensures Finished(At(r, n, j, i), r.states[j].ctxDone)
    ensures At(r, n, j, i).state == Ready ==> At(r, n, k, i).state == Ready
    ensures j < |r.labels| ==> r.labels[j] !in {Of(i, Launch), Of(i, SetReady)}
    decreases j - k
  {
    if k < j {
      FinishedForGood(r, n, k, j - 1, i);
      FinishedMoves(r, n, j - 1, i);
    }
    if j < |r.labels| {
      FinishedMoves(r, n, j, i);
    }
  }

  lemma {:induction false} DriveUp(r: Run, n: nat, i: nat) returns (e: Run)
    requires IsRun(r, n) && i < n && |LastState(r, n).insts| == n
    requires !Finished(LastState(r, n).insts[i], LastState(r, n).ctxDone)
    ensures ReachesReady(r, n, i, e)
    decreases Distance(LastState(r, n).insts[i])
  {
    var s := LastState(r, n);
    if Up(s.insts[i]) {
      e := r;
    } else {
      RunInv(r, n, |r.labels|);
      var a := Approach(s.insts[i], s.ctxDone);
      e := Extend(r, n, Of(i, a));
      if !Up(LastState(e, n).insts[i]) {
        e := DriveUp(e, n, i);
      }
    }
  }

  ghost predicate ReachesReady(r: Run, n: nat, i: nat, e: Run) {
    && IsRun(e, n) && Continues(r, e) && i < |LastState(e, n).insts|
    && LastState(e, n).insts[i].state == Ready
  }

  /**
   A failed start, an error exit or a backoff never ends a supervisor: its instance can be Ready now
   or later exactly when it is Ready or not finished.
   */
  lemma ReadyPossibleExactly(r: Run, n: nat, i: nat)
    requires IsRun(r, n) && i < n
    ensures var x := At(r, n, |r.labels|, i);
      (exists e :: ReachesReady(r, n, i, e)) <==> x.state == Ready || !Finished(x, LastState(r, n).ctxDone)
  {
    var x := At(r, n, |r.labels|, i);
    if x.state == Ready {
      assert ReachesReady(r, n, i, r);
    } else if !Finished(x, LastState(r, n).ctxDone) {
      var e := DriveUp(r, n, i);
    }
    forall e | ReachesReady(r, n, i, e) ensures x.state == Ready || !Finished(x, LastState(r, n).ctxDone) {
      assert e.states[|r.labels|] == LastState(r, n);
      if Finished(x, LastState(r, n).ctxDone) {
        assert At(e, n, |r.labels|, i) == x;
        FinishedForGood(e, n, |r.labels|, |e.labels|, i);
      }
    }
  }
}
