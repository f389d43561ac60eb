/**
 The concurrent protocol of internal/process: any number of Spawn, Stop and StopAll
 calls, one waiter goroutine per child, and children that exit when they like.

 A label is one mutex section, channel operation, select branch, signal or process exit,
 together with the choice the scheduler or the environment made.  `Apply` is what the
 label does and `Enabled` is when it can happen.
 */
module ProcessProtocol {
  import opened Wrappers
  import opened ManagedProcess

  datatype Waiter = NotStarted | Waiting | Settled | Closed

  /** A child.  `spawner` and `claimedBy` are history: who created it, which Stop claimed it. */
  datatype Proc = Proc(state: ProcessState, alive: bool, exit: WaitError, wait: WaitError,
                       waiter: Waiter, done: bool, spawner: nat, claimedBy: Option<nat>)

  datatype SpawnPC =
    | SpawnPassed                    // the context check found the context alive
    | Forked(p: nat)                 // cmd.Start succeeded
    | MarkedRunning(p: nat)
    | Added(p: nat)                  // visible to StopAll, waiter not launched yet
    | SpawnReturned(result: Option<nat>)

  datatype SpawnCall = SpawnCall(ctx: nat, pc: SpawnPC)

  datatype StopPC = StopEntered | Lost | Claimed | Terminated | Killed | StopReturned

  datatype StopCall = StopCall(target: Option<nat>, ctx: nat, pc: StopPC)

  datatype StopAllPC = Launching | StopAllReturned

  datatype StopAllCall = StopAllCall(ctx: nat, snapshot: seq<nat>, calls: seq<nat>, pc: StopAllPC)

  datatype State = State(procs: map<nat, Proc>, list: seq<nat>, cancelled: set<nat>,
                         spawns: map<nat, SpawnCall>, stops: map<nat, StopCall>,
                         stopAlls: map<nat, StopAllCall>)

  datatype Label =
    | Cancel(ctx: nat)
    | Exit(p: nat, err: WaitError)
    | SpawnCheck(id: nat, ctx: nat)
    | SpawnStart(id: nat, started: Option<nat>)  // the new process, or cmd.Start failing
    | SpawnMark(id: nat)
    | SpawnAdd(id: nat)
    | SpawnGo(id: nat)
    | Settle(p: nat)
    | CloseDone(p: nat)
    | StopEnter(id: nat, target: Option<nat>, ctx: nat)
    | Claim(id: nat)
    | SendTerm(id: nat)
    | SendKill(id: nat, byContext: bool)         // the ctx.Done branch, or the timer branch
    | StopReturn(id: nat)                        // <-p.done received
    | TakeSnapshot(id: nat, ctx: nat)
    | LaunchStop(id: nat, call: nat)
    | StopAllReturn(id: nat)

  ghost const INIT := State(map[], [], {}, map[], map[], map[])

  ghost predicate Enabled(s: State, l: Label) {
    match l
    case Cancel(ctx) => true
    case Exit(p, err) => p in s.procs && s.procs[p].alive
    case SpawnCheck(id, ctx) => id !in s.spawns
    case SpawnStart(id, started) =>
      && id in s.spawns && s.spawns[id].pc == SpawnPassed
      && (started.Some? ==> started.value !in s.procs)
    case SpawnMark(id) => id in s.spawns && s.spawns[id].pc.Forked? && s.spawns[id].pc.p in s.procs
    case SpawnAdd(id) => id in s.spawns && s.spawns[id].pc.MarkedRunning?
    case SpawnGo(id) => id in s.spawns && s.spawns[id].pc.Added? && s.spawns[id].pc.p in s.procs
    case Settle(p) => p in s.procs && s.procs[p].waiter == Waiting && !s.procs[p].alive
    case CloseDone(p) => p in s.procs && s.procs[p].waiter == Settled
    case StopEnter(id, target, ctx) => id !in s.stops && (target.Some? ==> target.value in s.list)
    case Claim(id) =>
      && id in s.stops && s.stops[id].pc == StopEntered
      && s.stops[id].target.Some? && s.stops[id].target.value in s.procs
    case SendTerm(id) => id in s.stops && s.stops[id].pc == Claimed
    case SendKill(id, byContext) =>
      id in s.stops && s.stops[id].pc == Terminated && (byContext ==> s.stops[id].ctx in s.cancelled)
    case StopReturn(id) =>
      && id in s.stops
      && match s.stops[id].target {
           case None => s.stops[id].pc == StopEntered
           case Some(p) => s.stops[id].pc in {Lost, Terminated, Killed} && p in s.procs && s.procs[p].done
         }
    case TakeSnapshot(id, ctx) => id !in s.stopAlls
    case LaunchStop(id, call) =>
      && id in s.stopAlls && s.stopAlls[id].pc == Launching
      && |s.stopAlls[id].calls| < |s.stopAlls[id].snapshot| && call !in s.stops
    case StopAllReturn(id) =>
      && id in s.stopAlls && s.stopAlls[id].pc == Launching
      && |s.stopAlls[id].calls| == |s.stopAlls[id].snapshot|
      && forall c | c in s.stopAlls[id].calls :: c in s.stops && s.stops[c].pc == StopReturned
  }

  ghost function SetProc(s: State, p: nat, pr: Proc): State { s.(procs := s.procs[p := pr]) }

  ghost function SetSpawn(s: State, id: nat, pc: SpawnPC): State
    requires id in s.spawns
  {
    s.(spawns := s.spawns[id := s.spawns[id].(pc := pc)])
  }

  ghost function SetStop(s: State, id: nat, pc: StopPC): State
    requires id in s.stops
  {
    s.(stops := s.stops[id := s.stops[id].(pc := pc)])
  }

  ghost function Apply(s: State, l: Label): State
    requires Enabled(s, l)
  {
    match l
    case Cancel(ctx) => s.(cancelled := s.cancelled + {ctx})
    case Exit(p, err) => SetProc(s, p, s.procs[p].(alive := false, exit := err))
    case SpawnCheck(id, ctx) =>
      s.(spawns := s.spawns[id := SpawnCall(ctx, if ctx in s.cancelled then SpawnReturned(None) else SpawnPassed)])
    case SpawnStart(id, started) =>
      (match started
       case None => SetSpawn(s, id, SpawnReturned(None))
       case Some(p) =>
         SetSpawn(SetProc(s, p, Proc(StateStarting, true, None, None, NotStarted, false, id, None)),
                  id, Forked(p)))
    case SpawnMark(id) =>
      var p := s.spawns[id].pc.p;
      SetSpawn(SetProc(s, p, s.procs[p].(state := StateRunning)), id, MarkedRunning(p))
    case SpawnAdd(id) =>
      var p := s.spawns[id].pc.p;
      SetSpawn(s.(list := s.list + [p]), id, Added(p))
    case SpawnGo(id) =>
      var p := s.spawns[id].pc.p;
      SetSpawn(SetProc(s, p, s.procs[p].(waiter := Waiting)), id, SpawnReturned(Some(p)))
    case Settle(p) =>
      var pr := s.procs[p];
      SetProc(s, p, pr.(wait := pr.exit, state := SettleSection(pr.state, pr.exit), waiter := Settled))
    case CloseDone(p) => SetProc(s, p, s.procs[p].(waiter := Closed, done := true))
    case StopEnter(id, target, ctx) => s.(stops := s.stops[id := StopCall(target, ctx, StopEntered)])
    case Claim(id) =>
      var p := s.stops[id].target.value;
      var pr := s.procs[p];
      if pr.state != StateRunning then SetStop(s, id, Lost)
      else SetStop(SetProc(s, p, pr.(state := ClaimSection(pr.state), claimedBy := Some(id))), id, Claimed)
    case SendTerm(id) => SetStop(s, id, Terminated)
    case SendKill(id, byContext) => SetStop(s, id, Killed)
    case StopReturn(id) => SetStop(s, id, StopReturned)
    case TakeSnapshot(id, ctx) =>
      s.(stopAlls := s.stopAlls[id := StopAllCall(ctx, s.list, [], Launching)])
    case LaunchStop(id, call) =>
      var a := s.stopAlls[id];
      s.(stops := s.stops[call := StopCall(Some(a.snapshot[|a.calls|]), a.ctx, StopEntered)],
         stopAlls := s.stopAlls[id := a.(calls := a.calls + [call])])
    case StopAllReturn(id) =>
      s.(stopAlls := s.stopAlls[id := s.stopAlls[id].(pc := StopAllReturned)])
  }

  // ----- The inductive invariant ---------------------------------------------------------

  ghost predicate Final(state: ProcessState) { state in {StateStopped, StateFailed} }

  ghost predicate HasSettled(pr: Proc) { pr.waiter in {Settled, Closed} }

  /** What one child's record always satisfies. */
  ghost predicate ProcOk(pr: Proc) {
    && (pr.done <==> pr.waiter == Closed)
    && (HasSettled(pr) ==> !pr.alive && pr.wait == pr.exit && Final(pr.state))
    && (pr.state == StateStarting ==> pr.waiter == NotStarted)
    && (pr.claimedBy.Some? ==> pr.state == StateStopped)
    && (pr.state == StateFailed ==> HasSettled(pr) && pr.exit.Some?)
    && (pr.state == StateStopped && pr.claimedBy.None? ==> HasSettled(pr) && pr.exit.None?)
  }

  /** The child a Spawn call is working on is its own and has not been handed to a waiter. */
  ghost predicate SpawnOk(s: State, id: nat)
    requires id in s.spawns
  {
    var pc := s.spawns[id].pc;
    (pc.Forked? || pc.MarkedRunning? || pc.Added?) ==>
      && pc.p in s.procs && s.procs[pc.p].spawner == id && s.procs[pc.p].waiter == NotStarted
      && (pc.Forked? <==> s.procs[pc.p].state == StateStarting)
  }

  /** A child is on the list before its waiter starts and before Spawn returns it. */
  ghost predicate Listed(s: State, id: nat)
    requires id in s.spawns
  {
    var pc := s.spawns[id].pc;
    && (pc.Added? ==> pc.p in s.list)
    && (pc.SpawnReturned? && pc.result.Some? ==> pc.result.value in s.list)
  }

  ghost predicate StopOk(s: State, id: nat)
    requires id in s.stops
  {
    var c := s.stops[id];
    match c.target
    case None => c.pc in {StopEntered, StopReturned}
    case Some(p) =>
      && p in s.procs && s.procs[p].state != StateStarting
      && (s.procs[p].claimedBy == Some(id) ==> c.pc in {Claimed, Terminated, Killed, StopReturned})
      && (c.pc in {Claimed, Terminated, Killed} ==> s.procs[p].claimedBy == Some(id))
      && (c.pc == StopReturned ==> s.procs[p].done)
  }

  ghost predicate StopAllOk(s: State, id: nat)
    requires id in s.stopAlls
  {
    var a := s.stopAlls[id];
    && |a.calls| <= |a.snapshot|
    && (a.pc == StopAllReturned ==> |a.calls| == |a.snapshot|)
    && (forall p | p in a.snapshot :: p in s.procs && s.procs[p].state != StateStarting)
    && (forall i | 0 <= i < |a.calls| ::
          && a.calls[i] in s.stops && s.stops[a.calls[i]].target == Some(a.snapshot[i])
          && s.stops[a.calls[i]].ctx == a.ctx
          && (a.pc == StopAllReturned ==> s.stops[a.calls[i]].pc == StopReturned))
  }

  /** A child other goroutines can reach: it exists and has left Starting. */
  ghost predicate Visible(s: State, p: nat) {
    p in s.procs && s.procs[p].state != StateStarting && ProcOk(s.procs[p])
  }

  ghost predicate ClaimantExists(s: State, p: nat)
    requires p in s.procs
  {
    s.procs[p].claimedBy.Some? ==> s.procs[p].claimedBy.value in s.stops
  }

  /** A child without a waiter is still in the hands of the Spawn call that made it. */
  ghost predicate InHands(s: State, p: nat)
    requires p in s.procs
  {
    var id := s.procs[p].spawner;
    s.procs[p].waiter == NotStarted ==>
      id in s.spawns && s.spawns[id].pc in {Forked(p), MarkedRunning(p), Added(p)}
  }

  /** A child is on the list exactly when it has a waiter, or when its Spawn call has just added it. */
  ghost predicate ListedExactly(s: State, p: nat)
    requires p in s.procs
  {
    var id := s.procs[p].spawner;
    p in s.list <==> s.procs[p].waiter != NotStarted || (id in s.spawns && s.spawns[id].pc == Added(p))
  }

  ghost predicate ChildOk(s: State, p: nat)
    requires p in s.procs
  {
    ProcOk(s.procs[p]) && ClaimantExists(s, p) && InHands(s, p) && ListedExactly(s, p)
  }

  ghost predicate Inv(s: State) {
    && (forall p | p in s.procs :: ChildOk(s, p))
    && (forall p | p in s.list :: Visible(s, p))
    && (forall id | id in s.spawns :: SpawnOk(s, id) && Listed(s, id))
    && (forall id | id in s.stops :: StopOk(s, id))
    && (forall id | id in s.stopAlls :: StopAllOk(s, id))
  }

  // ----- What a step can only move forward -------------------------------------------------

  ghost function StopRank(pc: StopPC): nat {
    match pc
    case StopEntered => 0 case Lost => 1 case Claimed => 1 case Terminated => 2
    case Killed => 3 case StopReturned => 4
  }

  ghost function WaiterRank(w: Waiter): nat {
    match w case NotStarted => 0 case Waiting => 1 case Settled => 2 case Closed => 3
  }

  ghost predicate ProcLater(a: Proc, b: Proc) {
    && a.spawner == b.spawner
    && (a.state != StateStarting ==> b.state != StateStarting)
    && (Final(a.state) ==> b.state == a.state && b.claimedBy == a.claimedBy)
    && WaiterRank(a.waiter) <= WaiterRank(b.waiter)
    && (!a.alive ==> !b.alive && b.exit == a.exit)
    && (HasSettled(a) ==> b.wait == a.wait)
    && (a.done ==> b.done)
  }

  ghost predicate StopLater(a: StopCall, b: StopCall) {
    a.target == b.target && a.ctx == b.ctx && StopRank(a.pc) <= StopRank(b.pc)
  }

  ghost predicate StopAllLater(a: StopAllCall, b: StopAllCall) {
    && a.ctx == b.ctx && a.snapshot == b.snapshot
    && (a.pc == StopAllReturned ==> b == a)
  }

  ghost predicate SpawnLater(a: SpawnCall, b: SpawnCall) {
    a.ctx == b.ctx && (a.pc.SpawnReturned? ==> b.pc == a.pc)
  }

  ghost predicate Later(s: State, t: State) {
    && s.list <= t.list
    && s.cancelled <= t.cancelled
    && (forall p | p in s.procs :: p in t.procs && ProcLater(s.procs[p], t.procs[p]))
    && (forall id | id in s.spawns :: id in t.spawns && SpawnLater(s.spawns[id], t.spawns[id]))
    && (forall id | id in s.stops :: id in t.stops && StopLater(s.stops[id], t.stops[id]))
    && (forall id | id in s.stopAlls :: id in t.stopAlls && StopAllLater(s.stopAlls[id], t.stopAlls[id]))
  }

  // ----- One component at a time ------------------------------------------------------------
  //
  // Each lemma follows one record through one step; the empty cases only split the proof by label.

  /** What the Spawn call named by the label, if any, is known to own. */
  ghost predicate SpawnerOk(s: State, l: Label)
    requires Enabled(s, l)
  {
    (l.SpawnMark? || l.SpawnAdd? || l.SpawnGo?) ==> SpawnOk(s, l.id)
  }

  ghost predicate MovesSpawn(l: Label) {
    l.SpawnCheck? || l.SpawnStart? || l.SpawnMark? || l.SpawnAdd? || l.SpawnGo?
  }

  lemma ProcStep(s: State, l: Label, p: nat)
    requires Enabled(s, l) && SpawnerOk(s, l) && p in Apply(s, l).procs
    requires p in s.procs ==> ProcOk(s.procs[p])
    ensures ProcOk(Apply(s, l).procs[p])
  {
    match l
    case Claim(_) =>
    case Settle(_) =>
    case CloseDone(_) =>
    case Exit(_, _) =>
    case SpawnStart(_, _) =>
    case SpawnMark(_) =>
    case SpawnGo(_) =>
    case _ =>
  }

  lemma SpawnMovesProc(s: State, l: Label, p: nat)
    requires Enabled(s, l) && SpawnerOk(s, l) && MovesSpawn(l) && p in s.procs && ProcOk(s.procs[p])
    ensures p in Apply(s, l).procs && ProcLater(s.procs[p], Apply(s, l).procs[p])
  {
    match l
    case SpawnCheck(_, _) =>
    case SpawnStart(_, _) =>
    case SpawnMark(_) =>
    case SpawnAdd(_) =>
    case SpawnGo(_) =>
  }

  lemma ProcLaterStep(s: State, l: Label, p: nat)
    requires Enabled(s, l) && SpawnerOk(s, l) && p in s.procs && ProcOk(s.procs[p])
    ensures p in Apply(s, l).procs && ProcLater(s.procs[p], Apply(s, l).procs[p])
  {
    if MovesSpawn(l) {
      SpawnMovesProc(s, l, p);
    }
  }

  lemma ClaimantStep(s: State, l: Label, p: nat)
    requires Enabled(s, l) && p in Apply(s, l).procs
    requires p in s.procs ==> ClaimantExists(s, p)
    ensures ClaimantExists(Apply(s, l), p)
  {
  }

  lemma HandsMove(s: State, l: Label, p: nat)
    requires Enabled(s, l) && SpawnerOk(s, l) && MovesSpawn(l) && p in Apply(s, l).procs
    requires p in s.procs ==> InHands(s, p)
    ensures InHands(Apply(s, l), p)
  {
    match l
    case SpawnCheck(_, _) =>
    case SpawnStart(_, _) =>
    case SpawnMark(_) =>
    case SpawnAdd(_) =>
    case SpawnGo(_) =>
  }

  lemma HandsStep(s: State, l: Label, p: nat)
    requires Enabled(s, l) && SpawnerOk(s, l) && p in Apply(s, l).procs
    requires p in s.procs ==> InHands(s, p)
    ensures InHands(Apply(s, l), p)
  {
    if MovesSpawn(l) {
      HandsMove(s, l, p);
    }
  }

  lemma SpawnListsExactly(s: State, l: Label, p: nat)
    requires Enabled(s, l) && SpawnerOk(s, l) && MovesSpawn(l) && p in Apply(s, l).procs
    requires p in s.procs ==> ListedExactly(s, p)
    requires p in s.list ==> Visible(s, p)
    ensures ListedExactly(Apply(s, l), p)
  {
    match l
    case SpawnStart(_, _) =>
    case SpawnMark(_) =>
    case SpawnAdd(_) =>
    case SpawnGo(_) =>
    case _ =>
  }

  lemma ListedExactlyStep(s: State, l: Label, p: nat)
    requires Enabled(s, l) && SpawnerOk(s, l) && p in Apply(s, l).procs
    requires p in s.procs ==> ListedExactly(s, p)
    requires p in s.list ==> Visible(s, p)
    ensures ListedExactly(Apply(s, l), p)
  {
    if MovesSpawn(l) {
      SpawnListsExactly(s, l, p);
    }
  }

  lemma ListStep(s: State, l: Label, p: nat)
    requires Enabled(s, l) && SpawnerOk(s, l) && p in Apply(s, l).list
    requires p in s.list ==> Visible(s, p)
    requires p in s.procs ==> ProcOk(s.procs[p])
    ensures Visible(Apply(s, l), p)
  {
    match l
    case Claim(_) =>
    case Settle(_) =>
    case CloseDone(_) =>
    case Exit(_, _) =>
    case SpawnStart(_, _) =>
    case SpawnMark(_) =>
    case SpawnGo(_) =>
    case _ =>
  }

  lemma SpawnMoves(s: State, l: Label, id: nat)
    requires Enabled(s, l) && SpawnerOk(s, l) && MovesSpawn(l) && id in Apply(s, l).spawns
    requires id in s.spawns ==> SpawnOk(s, id)
    ensures SpawnOk(Apply(s, l), id)
  {
    match l
    case SpawnCheck(_, _) =>
    case SpawnStart(_, _) =>
    case SpawnMark(_) =>
    case SpawnAdd(_) =>
    case SpawnGo(_) =>
  }

  lemma SpawnStep(s: State, l: Label, id: nat)
    requires Enabled(s, l) && SpawnerOk(s, l) && id in Apply(s, l).spawns
    requires id in s.spawns ==> SpawnOk(s, id)
    ensures SpawnOk(Apply(s, l), id)
  {
    if MovesSpawn(l) {
      SpawnMoves(s, l, id);
    }
  }

  lemma SpawnLaterStep(s: State, l: Label, id: nat)
    requires Enabled(s, l) && id in s.spawns
    ensures id in Apply(s, l).spawns && SpawnLater(s.spawns[id], Apply(s, l).spawns[id])
  {
  }

  lemma ListedStep(s: State, l: Label, id: nat)
    requires Enabled(s, l) && id in Apply(s, l).spawns
    requires id in s.spawns ==> Listed(s, id)
    ensures Listed(Apply(s, l), id)
  {
  }

  /** A Stop call and the child it is about. */
  ghost predicate StopPre(s: State, id: nat)
    requires id in s.stops
  {
    StopOk(s, id) && (s.stops[id].target.Some? ==> Visible(s, s.stops[id].target.value))
  }

  ghost predicate MovesStop(l: Label) {
    l.StopEnter? || l.LaunchStop? || l.StopReturn? || l.SendTerm? || l.SendKill?
  }

  lemma ClaimStopStep(s: State, l: Label, id: nat)
    requires Enabled(s, l) && l.Claim?
    requires id in s.stops && StopPre(s, id) && StopPre(s, l.id)
    ensures id in Apply(s, l).stops && StopOk(Apply(s, l), id)
  {
  }

  lemma MoveStopStep(s: State, l: Label, id: nat)
    requires Enabled(s, l) && MovesStop(l)
    requires id in s.stops && StopPre(s, id)
    ensures id in Apply(s, l).stops && StopOk(Apply(s, l), id)
  {
  }

  /** A label that leaves the Stop calls alone can only bring their targets further. */
  lemma KeepStopStep(s: State, l: Label, id: nat)
    requires Enabled(s, l) && SpawnerOk(s, l) && !l.Claim? && !MovesStop(l)
    requires id in s.stops && StopPre(s, id)
    ensures id in Apply(s, l).stops && StopOk(Apply(s, l), id)
  {
    match l
    case Settle(_) =>
    case CloseDone(_) =>
    case Exit(_, _) =>
    case SpawnMark(_) =>
    case SpawnGo(_) =>
    case _ =>
  }

  lemma StopStep(s: State, l: Label, id: nat)
    requires Enabled(s, l) && SpawnerOk(s, l)
    requires id in s.stops && StopPre(s, id) && (l.Claim? ==> StopPre(s, l.id))
    ensures id in Apply(s, l).stops && StopOk(Apply(s, l), id)
  {
    if l.Claim? {
      ClaimStopStep(s, l, id);
    } else if MovesStop(l) {
      MoveStopStep(s, l, id);
    } else {
      KeepStopStep(s, l, id);
    }
  }

  lemma StopLaterStep(s: State, l: Label, id: nat)
    requires Enabled(s, l) && id in s.stops
    ensures id in Apply(s, l).stops && StopLater(s.stops[id], Apply(s, l).stops[id])
  {
  }

  /** The calls of a new Stop are about a visible child, so it starts out well. */
  lemma NewStop(s: State, l: Label, id: nat)
    requires Inv(s) && Enabled(s, l) && id in Apply(s, l).stops && id !in s.stops
    ensures StopOk(Apply(s, l), id)
  {
    if l.LaunchStop? {
      var a := s.stopAlls[l.id];
      var p := a.snapshot[|a.calls|];
      assert StopAllOk(s, l.id) && p in a.snapshot;
      assert ClaimantExists(s, p);
    } else {
      assert l.StopEnter?;
    }
  }

  lemma GrowStep(s: State, l: Label)
    requires Enabled(s, l)
    ensures s.list <= Apply(s, l).list && s.cancelled <= Apply(s, l).cancelled
    ensures forall id | id in s.stopAlls ::
      id in Apply(s, l).stopAlls && StopAllLater(s.stopAlls[id], Apply(s, l).stopAlls[id])
  {
  }

  /** StopAll calls depend on Stop calls only through facts that later states keep. */
  lemma StopAllKept(s: State, t: State, id: nat)
    requires Later(s, t) && id in s.stopAlls && id in t.stopAlls && s.stopAlls[id] == t.stopAlls[id]
    requires StopAllOk(s, id)
    ensures StopAllOk(t, id)
  {
    var a := s.stopAlls[id];
    forall i | 0 <= i < |a.calls|
      ensures a.calls[i] in t.stops && t.stops[a.calls[i]].target == Some(a.snapshot[i])
      ensures t.stops[a.calls[i]].ctx == a.ctx
      ensures a.pc == StopAllReturned ==> t.stops[a.calls[i]].pc == StopReturned
    {
      assert StopLater(s.stops[a.calls[i]], t.stops[a.calls[i]]);
    }
    forall p | p in a.snapshot ensures p in t.procs && t.procs[p].state != StateStarting {
      assert ProcLater(s.procs[p], t.procs[p]);
    }
  }

  lemma LaunchStep(s: State, l: Label)
    requires Enabled(s, l) && l.LaunchStop? && Later(s, Apply(s, l)) && StopAllOk(s, l.id)
    ensures StopAllOk(Apply(s, l), l.id)
  {
    var t := Apply(s, l);
    var a, n := s.stopAlls[l.id], |s.stopAlls[l.id].calls|;
    forall i | 0 <= i <= n
      ensures t.stopAlls[l.id].calls[i] in t.stops
      ensures t.stops[t.stopAlls[l.id].calls[i]].target == Some(a.snapshot[i])
      ensures t.stops[t.stopAlls[l.id].calls[i]].ctx == a.ctx
    {
      if i < n {
        assert StopLater(s.stops[a.calls[i]], t.stops[a.calls[i]]);
      }
    }
    forall p | p in a.snapshot ensures p in t.procs && t.procs[p].state != StateStarting {
      assert ProcLater(s.procs[p], t.procs[p]);
    }
  }

  lemma SnapshotStep(s: State, l: Label)
    requires Enabled(s, l) && l.TakeSnapshot? && forall p | p in s.list :: Visible(s, p)
    ensures StopAllOk(Apply(s, l), l.id)
  {
  }

  lemma StopAllReturnStep(s: State, l: Label)
    requires Enabled(s, l) && l.StopAllReturn? && StopAllOk(s, l.id)
    ensures StopAllOk(Apply(s, l), l.id)
  {
    var a := s.stopAlls[l.id];
    assert forall i | 0 <= i < |a.calls| :: a.calls[i] in a.calls;
  }

  lemma StopAllStep(s: State, l: Label, id: nat)
    requires Enabled(s, l) && id in Apply(s, l).stopAlls && Later(s, Apply(s, l))
    requires id in s.stopAlls ==> StopAllOk(s, id)
    requires forall p | p in s.list :: Visible(s, p)
    ensures StopAllOk(Apply(s, l), id)
  {
    if l.LaunchStop? && l.id == id {
      LaunchStep(s, l);
    } else if l.StopAllReturn? && l.id == id {
      StopAllReturnStep(s, l);
    } else if l.TakeSnapshot? && l.id == id {
      SnapshotStep(s, l);
    } else {
      StopAllKept(s, Apply(s, l), id);
    }
  }

  lemma LaterStep(s: State, l: Label)
    requires Inv(s) && Enabled(s, l)
    ensures Later(s, Apply(s, l))
  {
    var t := Apply(s, l);
    GrowStep(s, l);
    forall p | p in s.procs ensures p in t.procs && ProcLater(s.procs[p], t.procs[p]) {
      ProcLaterStep(s, l, p);
    }
    forall id | id in s.spawns ensures id in t.spawns && SpawnLater(s.spawns[id], t.spawns[id]) {
      SpawnLaterStep(s, l, id);
    }
    forall id | id in s.stops ensures id in t.stops && StopLater(s.stops[id], t.stops[id]) {
      StopLaterStep(s, l, id);
    }
  }

  lemma ChildStep(s: State, l: Label, p: nat)
    requires Inv(s) && Enabled(s, l) && p in Apply(s, l).procs
    ensures ChildOk(Apply(s, l), p)
  {
    ListedExactlyStep(s, l, p);
    ProcStep(s, l, p);
    ClaimantStep(s, l, p);
    HandsStep(s, l, p);
  }

  lemma ChildrenStep(s: State, l: Label)
    requires Inv(s) && Enabled(s, l)
    ensures forall p | p in Apply(s, l).procs :: ChildOk(Apply(s, l), p)
    ensures forall p | p in Apply(s, l).list :: Visible(Apply(s, l), p)
  {
    var t := Apply(s, l);
    forall p | p in t.procs ensures ChildOk(t, p) { ChildStep(s, l, p); }
    forall p | p in t.list ensures Visible(t, p) { ListStep(s, l, p); }
  }

  lemma CallsStep(s: State, l: Label)
    requires Inv(s) && Enabled(s, l)
    ensures forall id | id in Apply(s, l).spawns :: SpawnOk(Apply(s, l), id) && Listed(Apply(s, l), id)
    ensures forall id | id in Apply(s, l).stops :: StopOk(Apply(s, l), id)
  {
    var t := Apply(s, l);
    forall id | id in t.spawns ensures SpawnOk(t, id) && Listed(t, id) {
      SpawnStep(s, l, id);
      ListedStep(s, l, id);
    }
    forall id | id in t.stops ensures StopOk(t, id) {
      if id in s.stops { StopStep(s, l, id); } else { NewStop(s, l, id); }
    }
  }

  lemma InvStep(s: State, l: Label)
    requires Inv(s) && Enabled(s, l)
    ensures Inv(Apply(s, l))
  {
    var t := Apply(s, l);
    ChildrenStep(s, l);
    CallsStep(s, l);
    forall id | id in t.stopAlls ensures StopAllOk(t, id) {
      LaterStep(s, l);
      StopAllStep(s, l, id);
    }
  }

  lemma LaterTransitive(s: State, t: State, u: State)
    requires Later(s, t) && Later(t, u)
    ensures Later(s, u)
  {
    forall p | p in s.procs ensures p in u.procs && ProcLater(s.procs[p], u.procs[p]) {
      assert ProcLater(s.procs[p], t.procs[p]) && ProcLater(t.procs[p], u.procs[p]);
    }
  }
}
