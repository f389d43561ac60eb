/**
 Every run of StartAllWithRestart over n instances: the supervisors of Supervisor.dfy side by
 side, the ready channel of capacity n between them and the counting goroutine, and a context
 that may be cancelled at any moment.
 */
module SupervisorRuns {
  import opened Wrappers
  import opened Backoff
  import opened Supervisor

  /** The counting goroutine: its select, parked or taken by a branch, and its two returns. */
  datatype MainPC = Counting | MainParked | TokenTaken | CancelTaken | ReturnedNil | ReturnedError

  /** `tokens` is what is queued in readyCh. */
  datatype State = State(insts: seq<Inst>, ctxDone: bool, tokens: nat, started: nat, main: MainPC)

  datatype Label =
    | Cancel
    | Of(i: nat, a: Action)
    | MainParks
    | Receive
    | ReturnNil
    | ReturnCancelled

  ghost function Init(n: nat): State { State(seq(n, i => FRESH), false, 0, 0, Counting) }

  ghost predicate Enabled(s: State, l: Label) {
    match l
    case Cancel => true
    case Of(i, a) => i < |s.insts| && CanAct(s.insts[i], a, s.ctxDone)
    case MainParks => s.main == Counting && s.started < |s.insts| && s.tokens == 0 && !s.ctxDone
    case Receive => s.main in {Counting, TokenTaken} && s.started < |s.insts| && s.tokens > 0
    case ReturnNil => s.main == Counting && s.started >= |s.insts|
    case ReturnCancelled => s.started < |s.insts| && s.ctxDone && s.main in {Counting, CancelTaken}
  }

  /** The first time through onceReady.Do, with room in the channel or without. */
  ghost predicate FirstReady(s: State, l: Label) {
    l.Of? && l.a.OnceReady? && l.i < |s.insts| && !s.insts[l.i].onceReady
  }

  ghost function AllCancelled(insts: seq<Inst>): (r: seq<Inst>)
    ensures |r| == |insts| && forall i | 0 <= i < |insts| :: r[i] == Cancelled(insts[i])
  {
    seq(|insts|, i requires 0 <= i < |insts| => Cancelled(insts[i]))
  }

  ghost function Apply(s: State, l: Label): State
    requires Enabled(s, l)
  {
    match l
    case Cancel =>
      s.(ctxDone := true, insts := AllCancelled(s.insts), main := if s.main == MainParked then CancelTaken else s.main)
    case Of(i, a) =>
      var sent := FirstReady(s, l) && s.tokens < |s.insts|;
      s.(insts := s.insts[i := Act(s.insts[i], a, s.ctxDone)],
         tokens := if sent then s.tokens + 1 else s.tokens,
         main := if sent && s.main == MainParked then TokenTaken else s.main)
    case MainParks => s.(main := MainParked)
    case Receive => s.(tokens := s.tokens - 1, started := s.started + 1, main := Counting)
    case ReturnNil => s.(main := ReturnedNil)
    case ReturnCancelled => s.(main := ReturnedError)
  }

  /** The instances whose onceReady has fired. */
  ghost function FiredSet(s: State): set<nat> { set i: nat | i < |s.insts| && s.insts[i].onceReady }

  ghost predicate Inv(s: State) {
    && (forall i | 0 <= i < |s.insts| :: InstOk(s.insts[i]) && ContextOk(s.insts[i], s.ctxDone))
    && s.tokens + s.started == |FiredSet(s)|
    && MainOk(s)
  }

  /** What the counting goroutine knows at its select and after its return. */
  ghost predicate MainOk(s: State) {
    && (s.main == ReturnedNil ==> s.started == |s.insts|)
    && (s.main in {MainParked, TokenTaken, CancelTaken} ==> s.started < |s.insts|)
    && (s.main == MainParked ==> s.tokens == 0 && !s.ctxDone)
    && (s.main == TokenTaken ==> s.tokens > 0)
    && (s.main == CancelTaken ==> s.ctxDone)
  }

  lemma {:induction false} IndicesBelow(fired: set<nat>, n: nat)
    requires forall i | i in fired :: i < n
    ensures |fired| <= n
    ensures |fired| == n ==> forall i: nat | i < n :: i in fired
  {
    if n > 0 {
      if n - 1 in fired {
        IndicesBelow(fired - {n - 1}, n - 1);
      } else {
        IndicesBelow(fired, n - 1);
      }
    }
  }

  lemma FiredStep(s: State, l: Label)
    requires Enabled(s, l) && (l.Of? ==> CanAct(s.insts[l.i], l.a, s.ctxDone))
    ensures FiredSet(Apply(s, l)) == FiredSet(s) + (if FirstReady(s, l) then {l.i} else {})
  {
    if l.Of? {
      AnnouncedAct(s.insts[l.i], l.a, s.ctxDone);
    }
  }

  lemma InstsStep(s: State, l: Label)
    requires Inv(s) && Enabled(s, l)
    ensures forall i | 0 <= i < |Apply(s, l).insts| ::
      InstOk(Apply(s, l).insts[i]) && ContextOk(Apply(s, l).insts[i], Apply(s, l).ctxDone)
  {
    var t := Apply(s, l);
    if l.Of? {
      InstStep(s.insts[l.i], l.a, s.ctxDone);
    }
    forall i | 0 <= i < |t.insts| ensures InstOk(t.insts[i]) && ContextOk(t.insts[i], t.ctxDone) {
      assert InstOk(s.insts[i]) && ContextOk(s.insts[i], s.ctxDone);
      if l.Cancel? {
        CancelledOk(s.insts[i]);
      }
    }
  }

  lemma TokensStep(s: State, l: Label)
    requires Inv(s) && Enabled(s, l)
    ensures FirstReady(s, l) ==> s.tokens < |s.insts|
    ensures Apply(s, l).tokens + Apply(s, l).started == |FiredSet(Apply(s, l))| <= |s.insts|
  {
    FiredStep(s, l);
    IndicesBelow(FiredSet(s), |s.insts|);
    IndicesBelow(FiredSet(Apply(s, l)), |s.insts|);
  }

  lemma MainStep(s: State, l: Label)
    requires Enabled(s, l) && MainOk(s) && (FirstReady(s, l) ==> s.tokens < |s.insts|)
    requires s.tokens + s.started <= |s.insts|
    ensures MainOk(Apply(s, l))
  {
  }

  lemma InvStep(s: State, l: Label)
    requires Inv(s) && Enabled(s, l)
    ensures Inv(Apply(s, l))
    ensures FirstReady(s, l) ==> s.tokens < |s.insts|
  {
    InstsStep(s, l);
    TokensStep(s, l);
    IndicesBelow(FiredSet(s), |s.insts|);
    MainStep(s, l);
  }

  datatype Run = Run(states: seq<State>, labels: seq<Label>)

  ghost predicate StepAt(r: Run, i: nat)
    requires |r.states| == |r.labels| + 1 && i < |r.labels|
  {
    Enabled(r.states[i], r.labels[i]) && r.states[i + 1] == Apply(r.states[i], r.labels[i])
  }

  ghost predicate IsRun(r: Run, n: nat) {
    && |r.states| == |r.labels| + 1
    && r.states[0] == Init(n)
    && forall i | 0 <= i < |r.labels| :: StepAt(r, i)
  }

  lemma {:induction false} RunInv(r: Run, n: nat, j: nat)
    requires IsRun(r, n) && j < |r.states|
    ensures Inv(r.states[j]) && |r.states[j].insts| == n
  {
    if j > 0 {
      RunInv(r, n, j - 1);
      assert StepAt(r, j - 1);
      InvStep(r.states[j - 1], r.labels[j - 1]);
    } else {
      assert FiredSet(Init(n)) == {};
    }
  }

  ghost function LastState(r: Run, n: nat): State
    requires IsRun(r, n)
  {
    r.states[|r.labels|]
  }

  ghost function Extend(r: Run, n: nat, l: Label): (e: Run)
    requires IsRun(r, n) && Enabled(LastState(r, n), l)
    ensures IsRun(e, n) && LastState(e, n) == Apply(LastState(r, n), l)
    ensures r.states <= e.states && e.labels == r.labels + [l]
  {
    var e := Run(r.states + [Apply(LastState(r, n), l)], r.labels + [l]);
    assert forall i | 0 <= i < |r.labels| :: StepAt(r, i) ==> StepAt(e, i);
    assert StepAt(e, |r.labels|);
    e
  }

  ghost predicate Continues(r: Run, e: Run) { r.states <= e.states && r.labels <= e.labels }

  // ----- The ready barrier ----------------------------------------------------------------------

  /**
   Queued tokens plus counted instances are exactly the instances that have been ready, never more
   than the channel holds; so the default branch of the send is never taken.
   */
  lemma NoTokenIsDropped(r: Run, n: nat, j: nat)
    requires IsRun(r, n) && j < |r.states|
    ensures r.states[j].tokens + r.states[j].started == |FiredSet(r.states[j])| <= n
    ensures j < |r.labels| && FirstReady(r.states[j], r.labels[j]) ==>
      r.states[j].tokens < n && r.states[j + 1].tokens == r.states[j].tokens + 1
  {
    RunInv(r, n, j);
    IndicesBelow(FiredSet(r.states[j]), n);
    if j < |r.labels| {
      assert StepAt(r, j);
      InvStep(r.states[j], r.labels[j]);
    }
  }

  /** The instance's record at state j. */
  ghost function At(r: Run, n: nat, j: nat, i: nat): (x: Inst)
    requires IsRun(r, n) && j < |r.states| && i < n
    ensures InstOk(x) && ContextOk(x, r.states[j].ctxDone)
    ensures i < |r.states[j].insts| == n && x == r.states[j].insts[i]
  {
    RunInv(r, n, j);
    r.states[j].insts[i]
  }

  /** From one state to the next an instance acts, stands still, or has its select woken by a cancellation. */
  lemma InstMoves(r: Run, n: nat, j: nat, i: nat)
    requires IsRun(r, n) && j < |r.labels| && i < n
    ensures r.labels[j].Of? && r.labels[j].i == i ==>
      && CanAct(At(r, n, j, i), r.labels[j].a, r.states[j].ctxDone)
      && At(r, n, j + 1, i) == Act(At(r, n, j, i), r.labels[j].a, r.states[j].ctxDone)
    ensures !(r.labels[j].Of? && r.labels[j].i == i) ==>
      At(r, n, j + 1, i) == if r.labels[j].Cancel? then Cancelled(At(r, n, j, i)) else At(r, n, j, i)
  {
    assert StepAt(r, j);
  }

  lemma AnnouncedMoves(r: Run, n: nat, j: nat, i: nat)
    requires IsRun(r, n) && j < |r.labels| && i < n && Announced(At(r, n, j + 1, i))
    ensures Announced(At(r, n, j, i)) || r.labels[j] == Of(i, SetReady)
  {
    InstMoves(r, n, j, i);
    if r.labels[j].Of? && r.labels[j].i == i {
      AnnouncedAct(At(r, n, j, i), r.labels[j].a, r.states[j].ctxDone);
    }
  }

  lemma SetReadyMoves(r: Run, n: nat, j: nat, i: nat)
    requires IsRun(r, n) && j < |r.labels| && i < n && r.labels[j] == Of(i, SetReady)
    ensures At(r, n, j, i).state == Bootstrapping && At(r, n, j + 1, i).state == Ready
  {
    InstMoves(r, n, j, i);
    ReadyAct(At(r, n, j, i), SetReady, r.states[j].ctxDone);
  }

  /** An instance that has fired was marked Ready, from Bootstrapping, before. */
  lemma {:induction false} FiredWasReady(r: Run, n: nat, j: nat, i: nat) returns (k: nat)
    requires IsRun(r, n) && j < |r.states| && i < n && Announced(At(r, n, j, i))
    ensures k < j && r.labels[k] == Of(i, SetReady)
    ensures At(r, n, k, i).state == Bootstrapping && At(r, n, k + 1, i).state == Ready
  {
    AnnouncedMoves(r, n, j - 1, i);
    if r.labels[j - 1] == Of(i, SetReady) {
      k := j - 1;
      SetReadyMoves(r, n, k, i);
    } else {
      k := FiredWasReady(r, n, j - 1, i);
    }
  }

  /** A nil return means every single instance went from Bootstrapping to Ready. */
  lemma NilMeansAllReady(r: Run, n: nat, j: nat, i: nat) returns (k: nat)
    requires IsRun(r, n) && j < |r.states| && r.states[j].main == ReturnedNil && i < n
    ensures k < j && r.labels[k] == Of(i, SetReady)
    ensures At(r, n, k, i).state == Bootstrapping && At(r, n, k + 1, i).state == Ready
  {
    RunInv(r, n, j);
    IndicesBelow(FiredSet(r.states[j]), n);
    assert i in FiredSet(r.states[j]);
    k := FiredWasReady(r, n, j, i);
  }

  // ----- One supervisor ---------------------------------------------------------------------------

  /** At most one child of an instance is alive, and outside Start that child is inst.proc. */
  lemma AtMostOneLiveChild(r: Run, n: nat, j: nat, i: nat, a: nat, b: nat)
    requires IsRun(r, n) && j < |r.states| && i < n
    requires a < |At(r, n, j, i).children| && At(r, n, j, i).children[a].alive
    requires b < |At(r, n, j, i).children| && At(r, n, j, i).children[b].alive
    ensures a == b
    ensures !At(r, n, j, i).pc.Launched? ==> At(r, n, j, i).proc == Some(a)
  {
    OneLiveChild(At(r, n, j, i), a, b);
  }

  /** No supervisor deadlocks: until it returns, something about its instance can happen. */
  lemma SupervisorNeverStuck(r: Run, n: nat, j: nat, i: nat) returns (a: Action)
    requires IsRun(r, n) && j < |r.states| && i < n && !At(r, n, j, i).pc.Returned?
    ensures Enabled(r.states[j], Of(i, a))
  {
    a := NeverStuck(At(r, n, j, i), r.states[j].ctxDone);
  }

  /** A relaunch happens only when every earlier child has exited and its waiter has finished. */
  lemma RelaunchAfterFinish(r: Run, n: nat, j: nat, i: nat)
    requires IsRun(r, n) && j < |r.labels| && i < n && r.labels[j] == Of(i, Launch)
    ensures forall k | 0 <= k < |At(r, n, j, i).children| ::
      !At(r, n, j, i).children[k].alive && At(r, n, j, i).children[k].done
  {
    InstMoves(r, n, j, i);
    var x := At(r, n, j, i);
    forall k | 0 <= k < |x.children| ensures !x.children[k].alive && x.children[k].done {
      LaunchAfterFinish(x, k);
    }
  }

  lemma CheckedMoves(r: Run, n: nat, j: nat, i: nat)
    requires IsRun(r, n) && j < |r.labels| && i < n && At(r, n, j + 1, i).pc == SpawnChecked
    ensures r.labels[j] != Of(i, Launch)
    ensures (r.labels[j] == Of(i, SpawnPasses) && !r.states[j].ctxDone) || At(r, n, j, i).pc == SpawnChecked
  {
    InstMoves(r, n, j, i);
    if r.labels[j].Of? && r.labels[j].i == i {
      CheckedAct(At(r, n, j, i), r.labels[j].a, r.states[j].ctxDone);
    }
  }

  lemma {:induction false} CheckedWhen(r: Run, n: nat, j: nat, i: nat) returns (k: nat)
    requires IsRun(r, n) && j < |r.states| && i < n && At(r, n, j, i).pc == SpawnChecked
    ensures k < j && r.labels[k] == Of(i, SpawnPasses) && !r.states[k].ctxDone
    ensures forall m | k < m < j :: r.labels[m] != Of(i, Launch)
  {
    k := j - 1;
    CheckedMoves(r, n, k, i);
    if At(r, n, k, i).pc == SpawnChecked {
      k := CheckedWhen(r, n, j - 1, i);
    }
  }

  /** Every launch follows a context check of its own that came before any cancellation. */
  lemma LaunchWasChecked(r: Run, n: nat, j: nat, i: nat) returns (k: nat)
    requires IsRun(r, n) && j < |r.labels| && i < n && r.labels[j] == Of(i, Launch)
    ensures k < j && r.labels[k] == Of(i, SpawnPasses)
    ensures forall m | 0 <= m < k :: r.labels[m] != Cancel
    ensures forall m | k < m < j :: r.labels[m] != Of(i, Launch)
  {
    InstMoves(r, n, j, i);
    k := CheckedWhen(r, n, j, i);
    DoneExactly(r, n, k);
  }

  /** Ready is entered by SetReady alone, and only from Bootstrapping. */
  lemma ReadyOnlyFromBootstrapping(r: Run, n: nat, j: nat, i: nat)
    requires IsRun(r, n) && j < |r.labels| && i < n
    requires At(r, n, j, i).state != Ready && At(r, n, j + 1, i).state == Ready
    ensures r.labels[j] == Of(i, SetReady) && At(r, n, j, i).state == Bootstrapping
  {
    InstMoves(r, n, j, i);
    ReadyAct(At(r, n, j, i), r.labels[j].a, r.states[j].ctxDone);
  }

  lemma ExitMoves(r: Run, n: nat, j: nat, i: nat, c: nat)
    requires IsRun(r, n) && j < |r.labels| && i < n
    ensures r.labels[j].Of? && r.labels[j].i == i && r.labels[j].a.ChildExits? && r.labels[j].a.child == c ==>
      && c < |At(r, n, j + 1, i).children| && !At(r, n, j + 1, i).children[c].alive
      && At(r, n, j + 1, i).children[c].exit == r.labels[j].a.err
    ensures c < |At(r, n, j, i).children| && !At(r, n, j, i).children[c].alive ==>
      && c < |At(r, n, j + 1, i).children| && !At(r, n, j + 1, i).children[c].alive
      && At(r, n, j + 1, i).children[c].exit == At(r, n, j, i).children[c].exit
  {
    InstMoves(r, n, j, i);
    if r.labels[j].Of? && r.labels[j].i == i && c < |At(r, n, j, i).children| && !At(r, n, j, i).children[c].alive {
      ExitAct(At(r, n, j, i), r.labels[j].a, r.states[j].ctxDone, c);
    }
  }

  /** What a child exited with never changes afterwards. */
  lemma {:induction false} ExitIsKept(r: Run, n: nat, k: nat, j: nat, i: nat, c: nat, err: WaitError)
    requires IsRun(r, n) && k < j < |r.states| && i < n && r.labels[k] == Of(i, ChildExits(c, err))
    ensures c < |At(r, n, j, i).children|
    ensures !At(r, n, j, i).children[c].alive && At(r, n, j, i).children[c].exit == err
  {
    ExitMoves(r, n, j - 1, i, c);
    if k < j - 1 {
      ExitIsKept(r, n, k, j - 1, i, c, err);
    }
  }

  lemma DeadMoves(r: Run, n: nat, j: nat, i: nat, c: nat)
    requires IsRun(r, n) && j < |r.labels| && i < n
    requires c < |At(r, n, j + 1, i).children| && !At(r, n, j + 1, i).children[c].alive
    ensures var err := At(r, n, j + 1, i).children[c].exit;
      || r.labels[j] == Of(i, ChildExits(c, err))
      || (c < |At(r, n, j, i).children| && !At(r, n, j, i).children[c].alive && At(r, n, j, i).children[c].exit == err)
  {
    InstMoves(r, n, j, i);
    if r.labels[j].Of? && r.labels[j].i == i {
      DeadAct(At(r, n, j, i), r.labels[j].a, r.states[j].ctxDone, c);
    }
  }

  lemma {:induction false} DeadExited(r: Run, n: nat, j: nat, i: nat, c: nat) returns (k: nat)
    requires IsRun(r, n) && j < |r.states| && i < n
    requires c < |At(r, n, j, i).children| && !At(r, n, j, i).children[c].alive
    ensures k < j && r.labels[k] == Of(i, ChildExits(c, At(r, n, j, i).children[c].exit))
  {
    k := j - 1;
    DeadMoves(r, n, k, i, c);
    if r.labels[k] != Of(i, ChildExits(c, At(r, n, j, i).children[c].exit)) {
      k := DeadExited(r, n, j - 1, i, c);
    }
  }

  /** The supervisor only ever receives the error that the child launched last exited with. */
  lemma ReceivedExitHappened(r: Run, n: nat, j: nat, i: nat, err: WaitError) returns (k: nat)
    requires IsRun(r, n) && j < |r.labels| && i < n && r.labels[j] == Of(i, TakeExit(err))
    ensures 0 < |At(r, n, j, i).children|
    ensures k < j && r.labels[k] == Of(i, ChildExits(|At(r, n, j, i).children| - 1, err))
  {
    InstMoves(r, n, j, i);
    TakeExitAct(At(r, n, j, i), err, r.states[j].ctxDone);
    k := DeadExited(r, n, j, i, |At(r, n, j, i).children| - 1);
  }

  /** The context is done exactly when it was cancelled before. */
  lemma {:induction false} DoneExactly(r: Run, n: nat, j: nat)
    requires IsRun(r, n) && j < |r.states|
    ensures r.states[j].ctxDone <==> exists k | 0 <= k < j :: r.labels[k] == Cancel
  {
    if j > 0 {
      assert StepAt(r, j - 1);
      DoneExactly(r, n, j - 1);
    }
  }

  lemma ContextMoves(r: Run, n: nat, j: nat, i: nat)
    requires IsRun(r, n) && j < |r.labels| && i < n && At(r, n, j + 1, i).pc == Returned(ByContext)
    ensures At(r, n, j, i).pc == Returned(ByContext) || r.states[j + 1].ctxDone
    ensures r.states[j].ctxDone ==> r.states[j + 1].ctxDone
  {
    InstMoves(r, n, j, i);
    assert StepAt(r, j);
    if r.labels[j].Of? && r.labels[j].i == i {
      ReturnAct(At(r, n, j, i), r.labels[j].a, r.states[j].ctxDone);
    }
  }

  /** A supervisor that left through ctx.Done did so after the cancellation. */
  lemma {:induction false} ContextReturn(r: Run, n: nat, j: nat, i: nat)
    requires IsRun(r, n) && j < |r.states| && i < n && At(r, n, j, i).pc == Returned(ByContext)
    ensures r.states[j].ctxDone
  {
    ContextMoves(r, n, j - 1, i);
    if At(r, n, j - 1, i).pc == Returned(ByContext) {
      ContextReturn(r, n, j - 1, i);
    }
  }

  /** A supervisor gives up only on cancellation or after its last child exited without an error. */
  lemma SupervisorReturns(r: Run, n: nat, j: nat, i: nat)
    requires IsRun(r, n) && j < |r.states| && i < n && At(r, n, j, i).pc.Returned?
    ensures
      || (exists k | 0 <= k < j :: r.labels[k] == Cancel)
      || (var cs := At(r, n, j, i).children;
          && |cs| > 0 && cs[|cs| - 1].done && cs[|cs| - 1].exit.None?
          && forall k | 0 <= k < |cs| :: !cs[k].alive)
  {
    if At(r, n, j, i).pc.reason.ByContext? {
      ContextReturn(r, n, j, i);
      DoneExactly(r, n, j);
    } else {
      CleanReturn(At(r, n, j, i));
    }
  }

  /** StartAllWithRestart fails only because of a cancellation, and its verdict is final. */
  lemma {:induction false} BarrierFailsOnlyOnCancel(r: Run, n: nat, j: nat)
    requires IsRun(r, n) && j < |r.states| && r.states[j].main == ReturnedError
    ensures exists k | 0 <= k < j :: r.labels[k] == Cancel
    ensures j < |r.labels| ==> r.states[j + 1].main == ReturnedError
  {
    if j < |r.labels| {
      assert StepAt(r, j);
    }
    assert StepAt(r, j - 1);
    if r.labels[j - 1] == ReturnCancelled {
      DoneExactly(r, n, j - 1);
    } else {
      BarrierFailsOnlyOnCancel(r, n, j - 1);
    }
  }

  // ----- Failures and backoff -------------------------------------------------------------------------

  ghost function FailureAt(l: Label, i: nat): nat {
    if l.Of? && l.i == i && IsFailure(l.a) then 1 else 0
  }

  ghost function Sleep(l: Label, i: nat): nat {
    if l.Of? && l.i == i && l.a.BackoffElapsed? then l.a.seconds else 0
  }

  /** The failed launches of instance i since it was last marked Ready, read off the labels. */
  ghost function FailuresSinceReady(labels: seq<Label>, i: nat): nat {
    if labels == [] then 0
    else
      var last, front := labels[|labels| - 1], labels[..|labels| - 1];
      if last == Of(i, SetReady) then 0
      else FailuresSinceReady(front, i) + FailureAt(last, i)
  }

  /** The seconds instance i spent in backoff since it was last marked Ready. */
  ghost function SleptSinceReady(labels: seq<Label>, i: nat): nat {
    if labels == [] then 0
    else
      var last, front := labels[|labels| - 1], labels[..|labels| - 1];
      if last == Of(i, SetReady) then 0 else SleptSinceReady(front, i) + Sleep(last, i)
  }

  lemma CountsStep(labels: seq<Label>, j: nat, i: nat)
    requires j < |labels|
    ensures FailuresSinceReady(labels[..j + 1], i) ==
      if labels[j] == Of(i, SetReady) then 0
      else FailuresSinceReady(labels[..j], i) + FailureAt(labels[j], i)
    ensures SleptSinceReady(labels[..j + 1], i) ==
      if labels[j] == Of(i, SetReady) then 0 else SleptSinceReady(labels[..j], i) + Sleep(labels[j], i)
  {
    assert labels[..j + 1][..j] == labels[..j];
  }

  lemma CountMoves(r: Run, n: nat, j: nat, i: nat, slept: nat)
    requires IsRun(r, n) && j < |r.labels| && i < n && SleptExact(At(r, n, j, i), slept)
    ensures var ready := r.labels[j] == Of(i, SetReady);
      && Failures(At(r, n, j + 1, i)) == (if ready then 0 else Failures(At(r, n, j, i)) + FailureAt(r.labels[j], i))
      && SleptExact(At(r, n, j + 1, i), if ready then 0 else slept + Sleep(r.labels[j], i))
  {
    var x, l := At(r, n, j, i), r.labels[j];
    InstMoves(r, n, j, i);
    if l.Of? && l.i == i {
      BackoffHasFailures(x);
      FailuresAct(x, l.a, r.states[j].ctxDone);
      SleptAct(x, l.a, r.states[j].ctxDone, slept);
    }
  }

  /** The failure counter counts failures since Ready, and the sleeps add up to TotalBackoff. */
  lemma {:induction false} BackoffFollowsFailures(r: Run, n: nat, j: nat, i: nat)
    requires IsRun(r, n) && j < |r.states| && i < n
    ensures Failures(At(r, n, j, i)) == FailuresSinceReady(r.labels[..j], i)
    ensures SleptExact(At(r, n, j, i), SleptSinceReady(r.labels[..j], i))
  {
    if j > 0 {
      BackoffFollowsFailures(r, n, j - 1, i);
      CountMoves(r, n, j - 1, i, SleptSinceReady(r.labels[..j - 1], i));
      CountsStep(r.labels, j - 1, i);
    }
  }

  /**
   Each sleep lasts BackoffSeconds(k) for the k failures since Ready; n in a row last 2^n - 1 s for
   n up to 5, then 30 s more each.
   */
  lemma SleepsAreExponential(r: Run, n: nat, j: nat, i: nat, d: nat)
    requires IsRun(r, n) && j < |r.labels| && i < n && r.labels[j] == Of(i, BackoffElapsed(d))
    ensures var k := FailuresSinceReady(r.labels[..j], i);
      && k > 0
      && d == BackoffSeconds(k)
      && SleptSinceReady(r.labels[..j + 1], i) == if k <= 5 then Pow2(k) - 1 else 31 + 30 * (k - 5)
  {
    InstMoves(r, n, j, i);
    BackoffFollowsFailures(r, n, j, i);
    BackoffHasFailures(At(r, n, j, i));
    CountsStep(r.labels, j, i);
    TotalBackoffClosedForm(FailuresSinceReady(r.labels[..j], i));
  }
}
