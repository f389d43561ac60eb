/**
 The restart supervisors of internal/tor/restart.go and the barrier that waits for them in
 internal/tor/manager.go: one RunWithRestart goroutine per instance, the goroutine that waits
 for its child, the bootstrap timer, the buffered ready channel, and the goroutine counting
 instances in StartAllWithRestart.  Nobody else stops or restarts an instance here.
 */
module Supervisor {
  import opened Wrappers
  import opened Backoff

  datatype InstState = Starting | Bootstrapping | Ready | Failed

  /** A child as its waiter shows it: dead once it exited, done once the exit was published. */
  datatype Child = Child(alive: bool, exit: WaitError, done: bool)

  datatype Timer = NoTimer | Armed | Fired | Drained

  /** The goroutine that calls inst.Wait() for the current launch. */
  datatype WaitGoroutine = NoWaiter | Reading | Blocked(child: nat) | Sent

  /**
   The inner select.  A goroutine that finds no branch ready parks; the first branch to become
   ready is then the one it takes, whatever becomes ready before it runs again.
   */
  datatype Select = Free | Parked | ForTimer | ForExit | ForContext

  function Woken(sel: Select, branch: Select): Select { if sel == Parked then branch else sel }

  datatype Reason = ByContext | ByExit(err: WaitError)

  datatype PC =
    | LoopTop
    | WritingFiles            // inside Start, before torrc and data directory exist
    | Spawning                // inside Start, Spawn called
    | SpawnChecked            // Spawn's check found the context alive
    | Launched(child: nat)    // Spawn returned, inst.proc not assigned yet
    | StartFailed
    | StartBackoff
    | Monitor                 // the inner select
    | TimerCase
    | MarkReady
    | Announce
    | ExitCase(err: WaitError)
    | ExitFailed
    | ExitBackoff
    | Returned(reason: Reason)

  datatype Inst = Inst(state: InstState, pc: PC, failures: nat, onceReady: bool, proc: Option<nat>,
                       children: seq<Child>, timer: Timer, waiter: WaitGoroutine, waitCh: Option<WaitError>,
                       sel: Select)

  datatype Action =
    | Bootstrap                       // setState(Bootstrapping) at the loop head
    | FilesWritten                    // torrc and data directory exist, setState(Bootstrapping)
    | FilesFailed
    | SpawnPasses                     // Spawn's context check
    | Launch                          // Spawn succeeds
    | LaunchFailed                    // Spawn fails, at its check or in cmd.Start; setState(Failed)
    | AssignProc                      // inst.proc = proc, wait goroutine and timer started
    | CountStartFailure               // setState(Failed), failures++
    | CountExit                       // the same after an unexpected exit
    | BackoffElapsed(seconds: nat)
    | BackoffCancelled
    | ChildExits(child: nat, err: WaitError)
    | ChildSettles(child: nat)
    | TimerFires
    | Park                            // the inner select finds no branch ready
    | TakeTimer
    | CheckBootstrapping
    | SetReady                        // setState(Ready), failures = 0
    | OnceReady                       // the once-guarded, drop-on-full send
    | WaitReads                       // inst.Wait() reads inst.proc
    | WaitSends                       // the child is done, its error goes into waitCh
    | TakeExit(err: WaitError)        // received from waitCh
    | CheckExit
    | SeeCancelled

  ghost predicate CanAct(x: Inst, a: Action, ctxDone: bool) {
    match a
    case Bootstrap => x.pc == LoopTop
    case FilesWritten => x.pc == WritingFiles
    case FilesFailed => x.pc == WritingFiles
    case SpawnPasses => x.pc == Spawning && !ctxDone
    case Launch => x.pc == SpawnChecked
    case LaunchFailed => x.pc == SpawnChecked || (x.pc == Spawning && ctxDone)
    case AssignProc => x.pc.Launched?
    case CountStartFailure => x.pc == StartFailed
    case CountExit => x.pc == ExitFailed
    case BackoffElapsed(d) => x.pc in {StartBackoff, ExitBackoff} && d == BackoffSeconds(x.failures)
    case BackoffCancelled => x.pc in {StartBackoff, ExitBackoff} && ctxDone
    case ChildExits(k, err) => k < |x.children| && x.children[k].alive
    case ChildSettles(k) => k < |x.children| && !x.children[k].alive && !x.children[k].done
    case TimerFires => x.timer == Armed
    case Park => x.pc == Monitor && x.sel == Free && x.timer != Fired && x.waitCh.None? && !ctxDone
    case TakeTimer => x.pc == Monitor && x.timer == Fired && x.sel in {Free, ForTimer}
    case CheckBootstrapping => x.pc == TimerCase
    case SetReady => x.pc == MarkReady
    case OnceReady => x.pc == Announce
    case WaitReads => x.waiter == Reading
    case WaitSends => x.waiter.Blocked? && x.waiter.child < |x.children| && x.children[x.waiter.child].done
    case TakeExit(err) => x.pc == Monitor && x.waitCh == Some(err) && x.sel in {Free, ForExit}
    case CheckExit => x.pc.ExitCase?
    case SeeCancelled => x.pc == Monitor && ctxDone && x.sel in {Free, ForContext}
  }

  ghost function Act(x: Inst, a: Action, ctxDone: bool): Inst
    requires CanAct(x, a, ctxDone)
  {
    match a
    case Bootstrap => x.(state := Bootstrapping, pc := WritingFiles)
    case FilesWritten => x.(state := Bootstrapping, pc := Spawning)
    case FilesFailed => x.(pc := StartFailed)
    case SpawnPasses => x.(pc := SpawnChecked)
    case Launch => x.(children := x.children + [Child(true, None, false)], pc := Launched(|x.children|))
    case LaunchFailed => x.(state := Failed, pc := StartFailed)
    case AssignProc =>
      x.(proc := Some(x.pc.child), pc := Monitor, timer := Armed, waiter := Reading, waitCh := None)
    case CountStartFailure => x.(state := Failed, failures := x.failures + 1, pc := StartBackoff)
    case CountExit => x.(state := Failed, failures := x.failures + 1, pc := ExitBackoff)
    case BackoffElapsed(_) => x.(pc := LoopTop)
    case BackoffCancelled => x.(pc := Returned(ByContext))
    case ChildExits(k, err) => x.(children := x.children[k := x.children[k].(alive := false, exit := err)])
    case ChildSettles(k) => x.(children := x.children[k := x.children[k].(done := true)])
    case TimerFires => x.(timer := Fired, sel := Woken(x.sel, ForTimer))
    case Park => x.(sel := Parked)
    case TakeTimer => x.(timer := Drained, pc := TimerCase, sel := Free)
    case CheckBootstrapping => x.(pc := if x.state == Bootstrapping then MarkReady else Monitor)
    case SetReady => x.(state := Ready, failures := 0, pc := Announce)
    case OnceReady => x.(onceReady := true, pc := Monitor)
    case WaitReads =>
      (match x.proc
       case None => x.(waiter := Sent, waitCh := Some(None), sel := Woken(x.sel, ForExit))
       case Some(p) => x.(waiter := Blocked(p)))
    case WaitSends =>
      x.(waiter := Sent, waitCh := Some(x.children[x.waiter.child].exit), sel := Woken(x.sel, ForExit))
    case TakeExit(err) => x.(timer := NoTimer, pc := ExitCase(err), waitCh := None, sel := Free)
    case CheckExit =>
      x.(pc := if x.pc.err.Some? && x.state != Failed then ExitFailed else Returned(ByExit(x.pc.err)))
    case SeeCancelled => x.(timer := NoTimer, pc := Returned(ByContext), sel := Free)
  }

  /** What the cancellation of the context does to an instance: it wakes its select. */
  ghost function Cancelled(x: Inst): Inst { x.(sel := Woken(x.sel, ForContext)) }

  ghost const FRESH := Inst(Starting, LoopTop, 0, false, None, [], NoTimer, NoWaiter, None, Free)

  // ----- One instance ------------------------------------------------------------------------

  /** The supervisor watches the child it launched last. */
  ghost predicate Watching(pc: PC) { pc in {Monitor, TimerCase, MarkReady, Announce} }

  /** Only these program points can coexist with an unfinished child. */
  ghost predicate MayHaveChild(pc: PC) { Watching(pc) || pc.Launched? || pc == Returned(ByContext) }

  ghost predicate ChildrenOk(x: Inst) {
    && (forall k | 0 <= k < |x.children| :: x.children[k].done ==> !x.children[k].alive)
    && (forall k | 0 <= k < |x.children| && !x.children[k].done ::
          k == |x.children| - 1 && MayHaveChild(x.pc))
  }

  /** What the program counter and inst.proc say about the child launched last. */
  ghost predicate ProcOk(x: Inst) {
    && (x.pc.Launched? ==> x.pc.child == |x.children| - 1)
    && (Watching(x.pc) ==> 0 < |x.children| && x.proc == Some(|x.children| - 1))
  }

  /** A child left behind by a cancelled supervisor is still inst.proc. */
  ghost predicate LeftOk(x: Inst) {
    x.pc == Returned(ByContext) && (exists k :: 0 <= k < |x.children| && !x.children[k].done) ==>
      x.proc == Some(|x.children| - 1)
  }

  /** Nobody waits for a child that is not watched. */
  ghost predicate IdleOk(x: Inst) {
    !(Watching(x.pc) || x.pc == Returned(ByContext)) ==> x.waiter in {NoWaiter, Sent} && x.waitCh.None?
  }

  /** The wait goroutine of a watched child. */
  ghost predicate WaiterOk(x: Inst) {
    && (Watching(x.pc) ==>
          && x.waiter != NoWaiter && (x.waiter == Sent ==> x.waitCh.Some?)
          && (x.waiter.Blocked? ==> x.waiter.child == |x.children| - 1)
          && (x.waitCh.Some? ==> 0 < |x.children| && x.children[|x.children| - 1].done
                                 && x.waitCh.value == x.children[|x.children| - 1].exit && x.waiter == Sent))
  }

  /** An exit the supervisor acts on is that of the child launched last. */
  ghost predicate ExitOk(x: Inst) {
    x.pc.ExitCase? || (x.pc.Returned? && x.pc.reason.ByExit?) ==>
      && 0 < |x.children| && x.children[|x.children| - 1].done
      && x.children[|x.children| - 1].exit == if x.pc.ExitCase? then x.pc.err else x.pc.reason.err
  }

  ghost predicate StateOk(x: Inst) {
    && (x.pc in {WritingFiles, Spawning, SpawnChecked, TimerCase, MarkReady} || x.pc.Launched? ==>
          x.state == Bootstrapping)
    && (x.pc == Monitor || x.pc.ExitCase? ==> x.state in {Bootstrapping, Ready})
    && (x.state == Ready ==> x.onceReady || x.pc == Announce)
    && (x.pc == Announce ==> x.state == Ready)
    && (x.pc in {StartBackoff, ExitBackoff} ==> x.state == Failed && x.failures > 0)
    && (x.pc.Returned? && x.pc.reason.ByExit? ==> x.pc.reason.err.None?)
  }

  /** The bootstrap timer runs while the instance is watched and bootstrapping. */
  ghost predicate TimerOk(x: Inst) {
    && (x.pc == Monitor ==> (x.timer in {Armed, Fired} <==> x.state == Bootstrapping))
    && (x.pc in {TimerCase, MarkReady, Announce} ==> x.timer == Drained)
    && (x.timer in {Armed, Fired} ==> x.pc == Monitor)
  }

  ghost predicate SelectOk(x: Inst) {
    && (x.sel != Free ==> x.pc == Monitor)
    && (x.sel == Parked ==> x.timer != Fired && x.waitCh.None?)
    && (x.sel == ForTimer ==> x.timer == Fired)
    && (x.sel == ForExit ==> x.waitCh.Some?)
  }

  ghost predicate InstOk(x: Inst) {
    && ChildrenOk(x) && ProcOk(x) && LeftOk(x)
    && IdleOk(x) && WaiterOk(x) && ExitOk(x)
    && StateOk(x) && TimerOk(x) && SelectOk(x)
  }

  /** What a select knows about the context. */
  ghost predicate ContextOk(x: Inst, ctxDone: bool) {
    (x.sel == ForContext ==> ctxDone) && (x.sel == Parked ==> !ctxDone)
  }

  lemma ChildrenStep(x: Inst, a: Action, ctxDone: bool)
    requires InstOk(x) && CanAct(x, a, ctxDone)
    ensures ChildrenOk(Act(x, a, ctxDone))
  {
  }

  lemma ProcStep(x: Inst, a: Action, ctxDone: bool)
    requires InstOk(x) && CanAct(x, a, ctxDone)
    ensures ProcOk(Act(x, a, ctxDone))
  {
  }

  lemma LeftStep(x: Inst, a: Action, ctxDone: bool)
    requires InstOk(x) && CanAct(x, a, ctxDone)
    ensures LeftOk(Act(x, a, ctxDone))
  {
  }

  lemma IdleStep(x: Inst, a: Action, ctxDone: bool)
    requires InstOk(x) && CanAct(x, a, ctxDone)
    ensures IdleOk(Act(x, a, ctxDone))
  {
  }

  lemma WaiterStep(x: Inst, a: Action, ctxDone: bool)
    requires InstOk(x) && CanAct(x, a, ctxDone)
    ensures WaiterOk(Act(x, a, ctxDone))
  {
    match a
    case Launch =>
    case AssignProc =>
    case ChildExits(_, _) =>
    case ChildSettles(_) =>
    case WaitSends =>
    case TakeExit(_) =>
    case CheckExit =>
    case _ =>
  }

  lemma ExitStep(x: Inst, a: Action, ctxDone: bool)
    requires InstOk(x) && CanAct(x, a, ctxDone)
    ensures ExitOk(Act(x, a, ctxDone))
  {
  }

  lemma StateStep(x: Inst, a: Action, ctxDone: bool)
    requires InstOk(x) && CanAct(x, a, ctxDone)
    ensures StateOk(Act(x, a, ctxDone))
  {
  }

  lemma TimerStep(x: Inst, a: Action, ctxDone: bool)
    requires InstOk(x) && CanAct(x, a, ctxDone)
    ensures TimerOk(Act(x, a, ctxDone))
  {
  }

  lemma SelectStep(x: Inst, a: Action, ctxDone: bool)
    requires InstOk(x) && CanAct(x, a, ctxDone)
    ensures SelectOk(Act(x, a, ctxDone))
    ensures ContextOk(x, ctxDone) ==> ContextOk(Act(x, a, ctxDone), ctxDone)
  {
  }

  /** A cancellation leaves everything but the select as it is. */
  lemma CancelledOk(x: Inst)
    requires InstOk(x)
    ensures InstOk(Cancelled(x)) && ContextOk(Cancelled(x), true)
  {
  }

  lemma InstStep(x: Inst, a: Action, ctxDone: bool)
    requires InstOk(x) && CanAct(x, a, ctxDone)
    ensures InstOk(Act(x, a, ctxDone))
    ensures ContextOk(x, ctxDone) ==> ContextOk(Act(x, a, ctxDone), ctxDone)
  {
    ChildrenStep(x, a, ctxDone);
    ProcStep(x, a, ctxDone);
    LeftStep(x, a, ctxDone);
    IdleStep(x, a, ctxDone);
    WaiterStep(x, a, ctxDone);
    ExitStep(x, a, ctxDone);
    StateStep(x, a, ctxDone);
    TimerStep(x, a, ctxDone);
    SelectStep(x, a, ctxDone);
  }

  // ----- What the invariant says about single actions --------------------------------------------

  /** A supervisor that has not returned can act, or its timer, child or wait goroutine can. */
  lemma NeverStuck(x: Inst, ctxDone: bool) returns (a: Action)
    requires InstOk(x) && ContextOk(x, ctxDone) && !x.pc.Returned?
    ensures CanAct(x, a, ctxDone)
  {
    match x.pc
    case LoopTop => a := Bootstrap;
    case WritingFiles => a := FilesWritten;
    case Spawning => a := if ctxDone then LaunchFailed else SpawnPasses;
    case SpawnChecked => a := Launch;
    case Launched(_) => a := AssignProc;
    case StartFailed => a := CountStartFailure;
    case TimerCase => a := CheckBootstrapping;
    case MarkReady => a := SetReady;
    case Announce => a := OnceReady;
    case ExitCase(_) => a := CheckExit;
    case ExitFailed => a := CountExit;
    case StartBackoff => a := BackoffElapsed(BackoffSeconds(x.failures));
    case ExitBackoff => a := BackoffElapsed(BackoffSeconds(x.failures));
    case Monitor =>
      var last := |x.children| - 1;
      if x.sel == ForContext {
        a := SeeCancelled;
      } else if x.sel == ForTimer {
        a := TakeTimer;
      } else if x.waiter == Reading {
        a := WaitReads;
      } else if x.waiter == Sent {
        a := TakeExit(x.waitCh.value);
      } else if x.children[last].done {
        a := WaitSends;
      } else if x.children[last].alive {
        a := ChildExits(last, None);
      } else {
        a := ChildSettles(last);
      }
  }

  lemma OneLiveChild(x: Inst, a: nat, b: nat)
    requires InstOk(x) && a < |x.children| && b < |x.children|
    requires x.children[a].alive && x.children[b].alive
    ensures a == b && (!x.pc.Launched? ==> x.proc == Some(a))
  {
  }

  lemma LaunchAfterFinish(x: Inst, k: nat)
    requires InstOk(x) && x.pc == SpawnChecked && k < |x.children|
    ensures !x.children[k].alive && x.children[k].done
  {
  }

  lemma ReadyAct(x: Inst, a: Action, ctxDone: bool)
    requires InstOk(x) && CanAct(x, a, ctxDone)
    ensures a == SetReady ==> x.state == Bootstrapping && Act(x, a, ctxDone).state == Ready
    ensures x.state != Ready && Act(x, a, ctxDone).state == Ready ==> a == SetReady
  {
  }

  lemma CheckedAct(x: Inst, a: Action, ctxDone: bool)
    requires CanAct(x, a, ctxDone) && Act(x, a, ctxDone).pc == SpawnChecked
    ensures a != Launch && ((a == SpawnPasses && !ctxDone) || x.pc == SpawnChecked)
  {
  }

  lemma ReturnAct(x: Inst, a: Action, ctxDone: bool)
    requires InstOk(x) && CanAct(x, a, ctxDone)
    ensures Act(x, a, ctxDone).pc == Returned(ByContext) ==> x.pc == Returned(ByContext) || ctxDone
  {
  }

  lemma CleanReturn(x: Inst)
    requires InstOk(x) && x.pc.Returned? && x.pc.reason.ByExit?
    ensures var n := |x.children|; n > 0 && x.children[n - 1].done && x.children[n - 1].exit.None?
    ensures forall k | 0 <= k < |x.children| :: !x.children[k].alive
  {
  }

  /** What the wait goroutine delivers is the exit error of the child launched last. */
  lemma TakeExitAct(x: Inst, err: WaitError, ctxDone: bool)
    requires InstOk(x) && CanAct(x, TakeExit(err), ctxDone)
    ensures var n := |x.children|; n > 0 && !x.children[n - 1].alive && x.children[n - 1].exit == err
  {
  }

  /** A dead child died by its own exit, and its error is what it exited with. */
  lemma DeadAct(x: Inst, a: Action, ctxDone: bool, c: nat)
    requires CanAct(x, a, ctxDone) && c < |Act(x, a, ctxDone).children| && !Act(x, a, ctxDone).children[c].alive
    ensures var y := Act(x, a, ctxDone);
      || a == ChildExits(c, y.children[c].exit)
      || (c < |x.children| && !x.children[c].alive && x.children[c].exit == y.children[c].exit)
  {
  }

  // ----- Instances that cannot come back -----------------------------------------------------------

  /** Past the last context check before the announcement. */
  ghost predicate UnderWay(pc: PC) { pc == SpawnChecked || pc.Launched? || Watching(pc) }

  /**
   Returned, or about to return without a restart, or cancelled before its next Spawn could pass
   its check.
   */
  ghost predicate Finished(x: Inst, ctxDone: bool) {
    || x.pc.Returned? || x.pc == ExitCase(None) || (ctxDone && !UnderWay(x.pc))
    || x.sel == ForContext || (x.sel == ForExit && (ctxDone || x.waitCh == Some(None)))
  }

  /** Finished without ever having been announced. */
  ghost predicate Doomed(x: Inst, ctxDone: bool) { !x.onceReady && Finished(x, ctxDone) }

  lemma FinishedAct(x: Inst, a: Action, ctxDone: bool)
    requires InstOk(x) && Finished(x, ctxDone) && CanAct(x, a, ctxDone)
    ensures Finished(Act(x, a, ctxDone), ctxDone) && a != Launch && a != SetReady && a != OnceReady
  {
  }

  /** How far an instance that is not finished is from being Ready and announced, on its shortest way. */
  ghost function Distance(x: Inst): nat {
    match x.pc
    case ExitCase(_) => 16
    case ExitFailed => 15
    case StartFailed => 15
    case ExitBackoff => 14
    case StartBackoff => 14
    case LoopTop => 13
    case WritingFiles => 12
    case Spawning => 11
    case SpawnChecked => 10
    case Launched(_) => 9
    case Monitor => if x.sel == ForExit then 17 else if x.timer == Armed then 8 else 7
    case TimerCase => 6
    case MarkReady => 5
    case Announce => 4
    case Returned(_) => 0
  }

  ghost predicate Up(x: Inst) { x.onceReady && x.state == Ready }

  /** The next action on that way. */
  lemma Approach(x: Inst, ctxDone: bool) returns (a: Action)
    requires InstOk(x) && !Up(x) && !Finished(x, ctxDone)
    ensures CanAct(x, a, ctxDone)
    ensures var y := Act(x, a, ctxDone); Up(y) || (!Finished(y, ctxDone) && Distance(y) < Distance(x))
  {
    match x.pc
    case ExitCase(_) => a := CheckExit;
    case ExitFailed => a := CountExit;
    case StartFailed => a := CountStartFailure;
    case ExitBackoff => a := BackoffElapsed(BackoffSeconds(x.failures));
    case StartBackoff => a := BackoffElapsed(BackoffSeconds(x.failures));
    case LoopTop => a := Bootstrap;
    case WritingFiles => a := FilesWritten;
    case Spawning => a := SpawnPasses;
    case SpawnChecked => a := Launch;
    case Launched(_) => a := AssignProc;
    case Monitor =>
      a := if x.sel == ForExit then TakeExit(x.waitCh.value) else if x.timer == Armed then TimerFires else TakeTimer;
    case TimerCase => a := CheckBootstrapping;
    case MarkReady => a := SetReady;
    case Announce => a := OnceReady;
  }

  /** An action of the supervisor's own goroutine: no child, no timer and no wait goroutine is needed. */
  predicate OwnAction(a: Action) {
    !(a.ChildExits? || a.ChildSettles? || a.TimerFires? || a.WaitReads? || a.WaitSends?)
  }

  /** How far a cancelled supervisor is from its return. */
  ghost function WayOut(x: Inst): nat {
    match x.pc
    case Returned(_) => 0
    case Monitor => if x.sel == ForTimer then 5 else if x.sel == ForExit then 4 else 1
    case StartBackoff => 1
    case ExitBackoff => 1
    case Announce => 2
    case Launched(_) => 2
    case ExitFailed => 2
    case StartFailed => 2
    case MarkReady => 3
    case SpawnChecked => 3
    case ExitCase(_) => 3
    case Spawning => 3
    case TimerCase => 4
    case WritingFiles => 4
    case LoopTop => 5
  }

  /** After a cancellation the supervisor gets out by itself. */
  lemma WindDown(x: Inst) returns (a: Action)
    requires InstOk(x) && ContextOk(x, true) && !x.pc.Returned?
    ensures OwnAction(a) && CanAct(x, a, true) && WayOut(Act(x, a, true)) < WayOut(x)
  {
    match x.pc
    case Monitor =>
      a := if x.sel == ForTimer then TakeTimer
           else if x.sel == ForExit then TakeExit(x.waitCh.value) else SeeCancelled;
    case StartBackoff => a := BackoffCancelled;
    case ExitBackoff => a := BackoffCancelled;
    case Announce => a := OnceReady;
    case Launched(_) => a := AssignProc;
    case ExitFailed => a := CountExit;
    case StartFailed => a := CountStartFailure;
    case MarkReady => a := SetReady;
    case SpawnChecked => a := Launch;
    case ExitCase(_) => a := CheckExit;
    case Spawning => a := LaunchFailed;
    case TimerCase => a := CheckBootstrapping;
    case WritingFiles => a := FilesWritten;
    case LoopTop => a := Bootstrap;
  }

  // ----- Choices -------------------------------------------------------------------------------------

  /** The outcomes that are not the supervisor's to choose: each of them can happen. */
  lemma Outcomes(x: Inst, ctxDone: bool, k: nat, err: WaitError)
    ensures x.pc == WritingFiles ==> CanAct(x, FilesWritten, ctxDone) && CanAct(x, FilesFailed, ctxDone)
    ensures x.pc == Spawning ==> (CanAct(x, SpawnPasses, ctxDone) <==> !ctxDone)
    ensures x.pc == Spawning ==> (CanAct(x, LaunchFailed, ctxDone) <==> ctxDone)
    ensures x.pc == SpawnChecked ==> CanAct(x, Launch, ctxDone) && CanAct(x, LaunchFailed, ctxDone)
    ensures k < |x.children| && x.children[k].alive ==> CanAct(x, ChildExits(k, err), ctxDone)
    ensures x.timer == Armed ==> CanAct(x, TimerFires, ctxDone)
    ensures x.pc in {StartBackoff, ExitBackoff} ==>
      && CanAct(x, BackoffElapsed(BackoffSeconds(x.failures)), ctxDone)
      && (CanAct(x, BackoffCancelled, ctxDone) <==> ctxDone)
  {
  }

  /** A select that has not parked can take every branch that is ready, and parks exactly if none is. */
  lemma FreeSelect(x: Inst, ctxDone: bool, err: WaitError)
    requires x.pc == Monitor && x.sel == Free
    ensures CanAct(x, TakeTimer, ctxDone) <==> x.timer == Fired
    ensures CanAct(x, TakeExit(err), ctxDone) <==> x.waitCh == Some(err)
    ensures CanAct(x, SeeCancelled, ctxDone) <==> ctxDone
    ensures CanAct(x, Park, ctxDone) <==> x.timer != Fired && x.waitCh.None? && !ctxDone
  {
  }

  /** A parked select is bound by the first branch that becomes ready, until it has taken it. */
  lemma ParkedSelect(x: Inst, a: Action, ctxDone: bool, err: WaitError)
    requires InstOk(x) && ContextOk(x, ctxDone) && x.sel != Free && CanAct(x, a, ctxDone)
    ensures a in {TakeTimer, TakeExit(err)} + {SeeCancelled, Park} ==>
      match x.sel
      case ForTimer => a == TakeTimer
      case ForExit => a == TakeExit(err) && x.waitCh == Some(err)
      case ForContext => a == SeeCancelled
      case _ => false
    ensures OwnAction(a) || Act(x, a, ctxDone).sel ==
      (if x.sel != Parked then x.sel
       else if a == TimerFires then ForTimer
       else if a == WaitSends then ForExit
       else if Act(x, a, ctxDone).waitCh.Some? then ForExit
       else Parked)
    ensures x.sel == ForTimer ==> CanAct(x, TakeTimer, ctxDone)
    ensures x.sel == ForExit ==> x.waitCh.Some? && CanAct(x, TakeExit(x.waitCh.value), ctxDone)
    ensures x.sel == ForContext ==> CanAct(x, SeeCancelled, ctxDone)
    ensures Cancelled(x).sel == if x.sel == Parked then ForContext else x.sel
  {
  }

  // ----- What ends a supervisor ----------------------------------------------------------------------

  /** Taking the context's branch is the end of it. */
  lemma CancelEnds(x: Inst, a: Action, ctxDone: bool)
    requires CanAct(x, a, ctxDone)
    ensures a in {SeeCancelled, BackoffCancelled} ==> Act(x, a, ctxDone).pc == Returned(ByContext)
    ensures x.pc.Returned? ==> Act(x, a, ctxDone).pc == x.pc && a != Launch
  {
  }

  /** And so is an exit without an error, as soon as the supervisor has received it. */
  lemma CleanExitEnds(x: Inst, a: Action, ctxDone: bool)
    requires CanAct(x, a, ctxDone)
    ensures a == TakeExit(None) ==> Act(x, a, ctxDone).pc == ExitCase(None)
    ensures x.pc == ExitCase(None) ==>
      Act(x, a, ctxDone).pc in {ExitCase(None), Returned(ByExit(None))} && a != Launch
  {
  }

  lemma ExitAct(x: Inst, a: Action, ctxDone: bool, c: nat)
    requires CanAct(x, a, ctxDone) && c < |x.children| && !x.children[c].alive
    ensures var y := Act(x, a, ctxDone);
      c < |y.children| && !y.children[c].alive && y.children[c].exit == x.children[c].exit
  {
  }

  /** The announcement of an instance that is about to fire, or has fired. */
  ghost predicate Announced(x: Inst) { x.onceReady || x.pc == Announce }

  lemma AnnouncedAct(x: Inst, a: Action, ctxDone: bool)
    requires CanAct(x, a, ctxDone)
    ensures Announced(Act(x, a, ctxDone)) ==> Announced(x) || a == SetReady
    ensures Act(x, a, ctxDone).onceReady <==> x.onceReady || a == OnceReady
  {
  }

  // ----- Backoff ---------------------------------------------------------------------------------

  /** How much of TotalBackoff has been slept when an instance is at x. */
  ghost predicate SleptExact(x: Inst, slept: nat) {
    if x.pc in {StartBackoff, ExitBackoff} && x.failures > 0 then slept == TotalBackoff(x.failures - 1)
    else if x.pc == Returned(ByContext) && x.failures > 0 then
      slept in {TotalBackoff(x.failures - 1), TotalBackoff(x.failures)}
    else slept == TotalBackoff(x.failures)
  }

  lemma BackoffHasFailures(x: Inst)
    requires InstOk(x)
    ensures x.pc in {StartBackoff, ExitBackoff} ==> x.failures > 0
    ensures x.pc.ExitCase? ==> x.state != Failed
  {
  }

  /** What makes a launch a failure: Start fails, or the child exits with an error. */
  ghost predicate IsFailure(a: Action) {
    a.FilesFailed? || a.LaunchFailed? || (a.TakeExit? && a.err.Some?)
  }

  /** A failure that happened and has not reached the counter yet. */
  ghost predicate Uncounted(pc: PC) { pc in {StartFailed, ExitFailed} || (pc.ExitCase? && pc.err.Some?) }

  ghost function Failures(x: Inst): nat { x.failures + if Uncounted(x.pc) then 1 else 0 }

  lemma FailuresAct(x: Inst, a: Action, ctxDone: bool)
    requires (x.pc.ExitCase? ==> x.state != Failed) && CanAct(x, a, ctxDone)
    ensures Failures(Act(x, a, ctxDone)) ==
      if a == SetReady then 0 else Failures(x) + if IsFailure(a) then 1 else 0
  {
  }

  lemma SleptAct(x: Inst, a: Action, ctxDone: bool, slept: nat)
    requires x.pc in {StartBackoff, ExitBackoff} ==> x.failures > 0
    requires CanAct(x, a, ctxDone) && SleptExact(x, slept)
    ensures SleptExact(Act(x, a, ctxDone),
                       if a == SetReady then 0 else slept + if a.BackoffElapsed? then a.seconds else 0)
  {
    match a
    case BackoffElapsed(_) =>
    case BackoffCancelled =>
    case CountStartFailure =>
    case CountExit =>
    case _ =>
  }
}
