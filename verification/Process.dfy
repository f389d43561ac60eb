/**
 One managed child process as an object.  Its methods are the two mutex sections that compete for
 a running process; the protocol in ProcessProtocol.dfy interleaves them with everything else,
 through the same section functions.
 */
module ManagedProcess {
  import opened Wrappers

  datatype ProcessState = StateStarting | StateRunning | StateStopped | StateFailed

  /** What the section at the head of Stop leaves behind: only a running process is claimed. */
  function ClaimSection(state: ProcessState): ProcessState {
    if state == StateRunning then StateStopped else state
  }

  /** What the waiter's section leaves behind: a claimed process keeps the claimant's verdict. */
  function SettleSection(state: ProcessState, waitErr: WaitError): ProcessState {
    if state == StateRunning then
      if waitErr.Some? then StateFailed else StateStopped
    else state
  }

  class Process {
    var state: ProcessState
    var wait: WaitError

    constructor ()
      ensures state == StateStarting && wait == None
    {
      state, wait := StateStarting, None;
    }

    /** The first mutex section of Stop: at most one caller ever sees `won`. */
    method Claim() returns (won: bool)
      modifies this`state
      ensures won <==> old(state) == StateRunning
      ensures state == ClaimSection(old(state))
      ensures state != StateRunning
    {
      if state != StateRunning {
        return false;
      }
      state := StateStopped;
      won := true;
    }

    /** The waiter's mutex section: the exit error is recorded whoever decided the state. */
    method Settle(waitErr: WaitError)
      modifies this`state, this`wait
      ensures wait == waitErr
      ensures state == SettleSection(old(state), waitErr)
      ensures state != StateRunning
    {
      wait := waitErr;
      if state == StateRunning {
        if waitErr.Some? {
          state := StateFailed;
        } else {
          state := StateStopped;
        }
      }
    }
  }
}
