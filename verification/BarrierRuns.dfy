/**
 When StartAllWithRestart can still return nil.  An instance whose process exits without an error
 before it was ever Ready is given up by its supervisor, as is one whose next launch a cancellation
 forestalls; then the barrier cannot return nil any more.
 */
module BarrierRuns {
  import opened Wrappers
  import opened Supervisor
  import opened SupervisorRuns

  // ----- A doomed instance blocks the barrier ---------------------------------------------------

  ghost predicate DoomedAt(r: Run, n: nat, j: nat, i: nat)
    requires IsRun(r, n) && j < |r.states| && i < n
  {
    Doomed(At(r, n, j, i), r.states[j].ctxDone)
  }

  lemma DoomedMoves(r: Run, n: nat, j: nat, i: nat)
    requires IsRun(r, n) && j < |r.labels| && i < n && DoomedAt(r, n, j, i)
    ensures DoomedAt(r, n, j + 1, i)
  {
    InstMoves(r, n, j, i);
    assert StepAt(r, j);
    if r.labels[j].Of? && r.labels[j].i == i {
      FinishedAct(At(r, n, j, i), r.labels[j].a, r.states[j].ctxDone);
      AnnouncedAct(At(r, n, j, i), r.labels[j].a, r.states[j].ctxDone);
    }
  }

  lemma {:induction false} DoomedStays(r: Run, n: nat, k: nat, j: nat, i: nat)
    requires IsRun(r, n) && k <= j < |r.states| && i < n && DoomedAt(r, n, k, i)
    ensures DoomedAt(r, n, j, i)
    decreases j - k
  {
    if k < j {
      DoomedStays(r, n, k, j - 1, i);
      DoomedMoves(r, n, j - 1, i);
    }
  }

  /** Once an instance that was never Ready is doomed, nil is never returned. */
  lemma DoomedBlocksBarrier(r: Run, n: nat, k: nat, j: nat, i: nat)
    requires IsRun(r, n) && k <= j < |r.states| && i < n && DoomedAt(r, n, k, i)
    ensures r.states[j].main != ReturnedNil
  {
    DoomedStays(r, n, k, j, i);
    RunInv(r, n, j);
    IndicesBelow(FiredSet(r.states[j]), n);
    assert i !in FiredSet(r.states[j]);
  }

  // ----- And nothing else does ------------------------------------------------------------------

  /** The counting goroutine waits and has not been woken by a cancellation. */
  ghost predicate Waiting(main: MainPC) { main in {Counting, MainParked, TokenTaken} }

  /** The counting goroutine is still waiting, no instance is doomed, and the first m have fired. */
  ghost predicate Hopeful(s: State, m: nat) {
    && Waiting(s.main) && m <= |s.insts|
    && (forall i | 0 <= i < |s.insts| :: !Doomed(s.insts[i], s.ctxDone))
    && (forall i | 0 <= i < m :: s.insts[i].onceReady)
  }

  /** Instance m is driven to its announcement, the others stand still. */
  lemma {:induction false} DriveOne(r: Run, n: nat, m: nat) returns (e: Run)
    requires IsRun(r, n) && m < n && |LastState(r, n).insts| == n && Hopeful(LastState(r, n), m)
    ensures IsRun(e, n) && Continues(r, e) && |LastState(e, n).insts| == n && Hopeful(LastState(e, n), m + 1)
    decreases Distance(LastState(r, n).insts[m])
  {
    var s := LastState(r, n);
    if s.insts[m].onceReady {
      e := r;
    } else {
      RunInv(r, n, |r.labels|);
      var a := Approach(s.insts[m], s.ctxDone);
      e := Extend(r, n, Of(m, a));
      if LastState(e, n).insts[m].onceReady {
        assert Hopeful(LastState(e, n), m + 1);
      } else {
        e := DriveOne(e, n, m);
      }
    }
  }

  lemma {:induction false} DriveAll(r: Run, n: nat, m: nat) returns (e: Run)
    requires IsRun(r, n) && m <= n && |LastState(r, n).insts| == n && Hopeful(LastState(r, n), m)
    ensures IsRun(e, n) && Continues(r, e) && |LastState(e, n).insts| == n && Hopeful(LastState(e, n), n)
    decreases n - m
  {
    if m == n {
      e := r;
    } else {
      e := DriveOne(r, n, m);
      e := DriveAll(e, n, m + 1);
    }
  }

  lemma {:induction false} AllIndices(fired: set<nat>, n: nat)
    requires forall i: nat :: i in fired <==> i < n
    ensures |fired| == n
  {
    if n == 0 {
      assert fired == {};
    } else {
      AllIndices(fired - {n - 1}, n - 1);
    }
  }

  lemma ReceiveStep(s: State, n: nat)
    requires Inv(s) && |s.insts| == n && Hopeful(s, n) && s.started < n
    ensures Enabled(s, Receive)
    ensures var t := Apply(s, Receive); |t.insts| == n && Hopeful(t, n) && t.started == s.started + 1
  {
    AllIndices(FiredSet(s), n);
  }

  lemma CountOne(r: Run, n: nat) returns (e: Run)
    requires IsRun(r, n) && |LastState(r, n).insts| == n && Hopeful(LastState(r, n), n) && LastState(r, n).started < n
    ensures IsRun(e, n) && Continues(r, e) && |LastState(e, n).insts| == n && Hopeful(LastState(e, n), n)
    ensures LastState(e, n).started == LastState(r, n).started + 1
  {
    RunInv(r, n, |r.labels|);
    ReceiveStep(LastState(r, n), n);
    e := Extend(r, n, Receive);
  }

  lemma CountDone(r: Run, n: nat) returns (e: Run)
    requires IsRun(r, n) && |LastState(r, n).insts| == n && Hopeful(LastState(r, n), n) && LastState(r, n).started >= n
    ensures IsRun(e, n) && Continues(r, e) && LastState(e, n).main == ReturnedNil
  {
    RunInv(r, n, |r.labels|);
    e := Extend(r, n, ReturnNil);
  }

  /** With every instance announced, the counting goroutine receives all tokens and returns nil. */
  lemma {:induction false} CountAll(r: Run, n: nat) returns (e: Run)
    requires IsRun(r, n) && |LastState(r, n).insts| == n && Hopeful(LastState(r, n), n)
    ensures IsRun(e, n) && Continues(r, e) && LastState(e, n).main == ReturnedNil
    decreases n - LastState(r, n).started
  {
    if LastState(r, n).started >= n {
      e := CountDone(r, n);
    } else {
      e := CountOne(r, n);
      e := CountAll(e, n);
    }
  }

  ghost predicate ReturnsNil(r: Run, n: nat, e: Run) {
    IsRun(e, n) && Continues(r, e) && LastState(e, n).main == ReturnedNil
  }

  ghost predicate GaveUp(main: MainPC) { main in {CancelTaken, ReturnedError} }

  lemma {:induction false} GaveUpStays(r: Run, n: nat, k: nat, j: nat)
    requires IsRun(r, n) && k <= j < |r.states| && GaveUp(r.states[k].main)
    ensures GaveUp(r.states[j].main)
    decreases j - k
  {
    if k < j {
      GaveUpStays(r, n, k, j - 1);
      assert StepAt(r, j - 1);
    }
  }

  lemma NilBlocked(r: Run, n: nat, e: Run)
    requires IsRun(r, n) && ReturnsNil(r, n, e)
    ensures !GaveUp(LastState(r, n).main) && forall i | 0 <= i < n :: !DoomedAt(r, n, |r.labels|, i)
  {
    assert e.states[|r.labels|] == LastState(r, n);
    if GaveUp(LastState(r, n).main) {
      GaveUpStays(e, n, |r.labels|, |e.labels|);
    }
    forall i | 0 <= i < n ensures !DoomedAt(r, n, |r.labels|, i) {
      if DoomedAt(r, n, |r.labels|, i) {
        DoomedBlocksBarrier(e, n, |r.labels|, |e.labels|, i);
      }
    }
  }

  lemma NilReachable(r: Run, n: nat) returns (e: Run)
    requires IsRun(r, n) && !GaveUp(LastState(r, n).main)
    requires forall i | 0 <= i < n :: !DoomedAt(r, n, |r.labels|, i)
    ensures ReturnsNil(r, n, e)
  {
    if LastState(r, n).main == ReturnedNil {
      e := r;
    } else {
      RunInv(r, n, |r.labels|);
      forall i | 0 <= i < n ensures !Doomed(LastState(r, n).insts[i], LastState(r, n).ctxDone) {
        assert !DoomedAt(r, n, |r.labels|, i);
      }
      e := DriveAll(r, n, 0);
      e := CountAll(e, n);
    }
  }

  /**
   Some continuation returns nil exactly when no instance is doomed and the counting goroutine has
   not been woken by a cancellation.
   */
  lemma NilPossibleExactly(r: Run, n: nat)
    requires IsRun(r, n)
    ensures (exists e :: ReturnsNil(r, n, e)) <==>
      !GaveUp(LastState(r, n).main) && forall i | 0 <= i < n :: !DoomedAt(r, n, |r.labels|, i)
  {
    forall e | ReturnsNil(r, n, e)
      ensures !GaveUp(LastState(r, n).main) && forall i | 0 <= i < n :: !DoomedAt(r, n, |r.labels|, i)
    {
      NilBlocked(r, n, e);
    }
    if !GaveUp(LastState(r, n).main) && forall i | 0 <= i < n :: !DoomedAt(r, n, |r.labels|, i) {
      var e := NilReachable(r, n);
    }
  }

  // ----- The counting goroutine ------------------------------------------------------------------

  /** Whenever it is not parked it can go on, by any branch of its select that is ready. */
  lemma BarrierMoves(r: Run, n: nat, j: nat)
    requires IsRun(r, n) && j < |r.states|
    ensures var s := r.states[j];
      && (s.main == Counting && s.started == n ==> Enabled(s, ReturnNil))
      && (s.main == Counting && s.started < n && s.tokens > 0 ==> Enabled(s, Receive))
      && (s.main == Counting && s.started < n && s.ctxDone ==> Enabled(s, ReturnCancelled))
      && (s.main == Counting && s.started < n && s.tokens == 0 && !s.ctxDone ==> Enabled(s, MainParks))
      && (s.main == TokenTaken ==> Enabled(s, Receive) && !Enabled(s, ReturnCancelled))
      && (s.main == CancelTaken ==> Enabled(s, ReturnCancelled) && !Enabled(s, Receive))
  {
    RunInv(r, n, j);
  }

  /** What wakes it decides its branch: the token it was waiting for, or the cancellation. */
  lemma BarrierWakes(r: Run, n: nat, j: nat)
    requires IsRun(r, n) && j < |r.labels| && r.states[j].main == MainParked
    ensures r.states[j + 1].main ==
      if r.labels[j] == Cancel then CancelTaken
      else if FirstReady(r.states[j], r.labels[j]) then TokenTaken
      else MainParked
  {
    assert StepAt(r, j);
    NoTokenIsDropped(r, n, j);
  }

  /** A received token counts one more instance; the verdicts are what they say, for good. */
  lemma BarrierVerdicts(r: Run, n: nat, j: nat, m: nat)
    requires IsRun(r, n) && j < m < |r.states|
    ensures r.labels[j] == Receive ==> r.states[j + 1].started == r.states[j].started + 1
    ensures r.labels[j] == ReturnCancelled ==> r.states[m].main == ReturnedError
    ensures r.labels[j] == ReturnNil ==> r.states[m].main == ReturnedNil
    decreases m - j
  {
    assert StepAt(r, j);
    if j + 1 < m {
      BarrierVerdicts(r, n, j, m - 1);
      assert StepAt(r, m - 1);
    }
  }

  // ----- Waiting for ever -----------------------------------------------------------------------

  /** As long as nobody cancels, the barrier waits for a doomed instance and gives no verdict. */
  lemma WaitsForever(r: Run, n: nat, k: nat, j: nat, i: nat)
    requires IsRun(r, n) && k <= j < |r.states| && i < n && DoomedAt(r, n, k, i)
    requires forall m | 0 <= m < j :: r.labels[m] != Cancel
    ensures Waiting(r.states[j].main)
  {
    DoomedBlocksBarrier(r, n, k, j, i);
    DoneExactly(r, n, j);
    RunInv(r, n, j);
    if r.states[j].main == ReturnedError {
      BarrierFailsOnlyOnCancel(r, n, j);
    }
  }

  /** One instance, nobody cancelling, nothing announced. */
  ghost function Alone(x: Inst): State { State([x], false, 0, 0, Counting) }

  lemma Step(r: Run, x: Inst, a: Action, y: Inst) returns (e: Run)
    requires IsRun(r, 1) && LastState(r, 1) == Alone(x) && Cancel !in r.labels
    requires CanAct(x, a, false) && a != OnceReady && y == Act(x, a, false)
    ensures IsRun(e, 1) && LastState(e, 1) == Alone(y) && Cancel !in e.labels
  {
    e := Extend(r, 1, Of(0, a));
    assert LastState(e, 1).insts == [y];
  }

  /** The process of the only instance has just been started. */
  lemma LaunchedRun() returns (r: Run)
    ensures IsRun(r, 1) && Cancel !in r.labels
    ensures LastState(r, 1) ==
      Alone(FRESH.(state := Bootstrapping, pc := Launched(0), children := [Child(true, None, false)]))
  {
    r := Run([Alone(FRESH)], []);
    assert Init(1).insts == [FRESH];
    var x := FRESH.(state := Bootstrapping);
    r := Step(r, FRESH, Bootstrap, x.(pc := WritingFiles));
    r := Step(r, x.(pc := WritingFiles), FilesWritten, x.(pc := Spawning));
    r := Step(r, x.(pc := Spawning), SpawnPasses, x.(pc := SpawnChecked));
    r := Step(r, x.(pc := SpawnChecked), Launch, x.(pc := Launched(0), children := [Child(true, None, false)]));
  }

  /** It exits without an error before the bootstrap timer fires, and its exit is in waitCh. */
  lemma ExitedRun() returns (r: Run)
    ensures IsRun(r, 1) && Cancel !in r.labels
    ensures LastState(r, 1) ==
      Alone(Inst(Bootstrapping, Monitor, 0, false, Some(0), [Child(false, None, true)], Armed, Sent, Some(None), Free))
  {
    r := LaunchedRun();
    var x := FRESH.(state := Bootstrapping, pc := Launched(0), children := [Child(true, None, false)]);
    var y := Inst(Bootstrapping, Monitor, 0, false, Some(0), [Child(true, None, false)], Armed, Reading, None, Free);
    r := Step(r, x, AssignProc, y);
    r := Step(r, y, ChildExits(0, None), y.(children := [Child(false, None, false)]));
    var z := y.(children := [Child(false, None, true)]);
    r := Step(r, y.(children := [Child(false, None, false)]), ChildSettles(0), z);
    r := Step(r, z, WaitReads, z.(waiter := Blocked(0)));
    r := Step(r, z.(waiter := Blocked(0)), WaitSends, z.(waiter := Sent, waitCh := Some(None)));
  }

  /** So an instance can be doomed without any cancellation, and the barrier waits for ever. */
  lemma DoomedWithoutCancel() returns (r: Run)
    ensures IsRun(r, 1) && Cancel !in r.labels && Waiting(LastState(r, 1).main)
    ensures DoomedAt(r, 1, |r.labels|, 0)
  {
    r := ExitedRun();
    var x := Inst(Bootstrapping, Monitor, 0, false, Some(0), [Child(false, None, true)], Armed, Sent, Some(None), Free);
    var y := x.(timer := NoTimer, pc := ExitCase(None), waitCh := None);
    r := Step(r, x, TakeExit(None), y);
    r := Step(r, y, CheckExit, y.(pc := Returned(ByExit(None))));
    assert At(r, 1, |r.labels|, 0) == y.(pc := Returned(ByExit(None)));
  }
}
