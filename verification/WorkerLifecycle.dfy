/** The sequential lifecycle of the scanner worker. */
module WorkerLifecycle {
  import opened Text

  datatype State = Stopped | Idle | Refreshing | Connecting | Scanning | Cancelling
  datatype Operation = NoOperation | Refresh | Connect | Scan
  datatype Snapshot = Snapshot(state: State, operation: Operation, cancelRequested: bool)

  const STOPPED := Snapshot(Stopped, NoOperation, false)
  const IDLE := Snapshot(Idle, NoOperation, false)

  function RunningState(operation: Operation): State
    requires operation != NoOperation
  {
    match operation
    case Refresh => Refreshing
    case Connect => Connecting
    case Scan => Scanning
  }

  predicate Cancellable(state: State) {
    state == Refreshing || state == Connecting || state == Scanning
  }

  // Each call on the lifecycle; None where it throws.

  function Started(m: Snapshot): Option<Snapshot> {
    if m.state != Stopped then None else Some(m.(state := Idle))
  }

  function Begun(m: Snapshot, operation: Operation): Option<Snapshot> {
    if m.state != Idle || operation == NoOperation then None
    else Some(Snapshot(RunningState(operation), operation, false))
  }

  function CancelRequested(m: Snapshot): Option<Snapshot> {
    if !Cancellable(m.state) then None else Some(m.(state := Cancelling, cancelRequested := true))
  }

  function Completed(m: Snapshot): Option<Snapshot> {
    if !Cancellable(m.state) && m.state != Cancelling then None else Some(IDLE)
  }

  function ShutDown(m: Snapshot): Option<Snapshot> {
    if m.state != Idle && m.state != Stopped then None else Some(STOPPED)
  }

  /** The states the lifecycle can be in: an operation is recorded exactly while one runs. */
  predicate Consistent(m: Snapshot) {
    match m.state
    case Stopped => m == STOPPED
    case Idle => m == IDLE
    case Cancelling => m.operation != NoOperation && m.cancelRequested
    case running => m.operation != NoOperation && running == RunningState(m.operation) && !m.cancelRequested
  }

  /** One operation, cancelled or not, ends where it began, and shutdown works only between operations. */
  lemma OperationReturnsToIdle(operation: Operation)
    requires operation != NoOperation
    ensures Begun(IDLE, operation).Some?
    ensures var running := Begun(IDLE, operation).value;
            Consistent(running) && Completed(running) == Some(IDLE) && ShutDown(running) == None
            && Begun(running, operation) == None
            && CancelRequested(running).Some? && Consistent(CancelRequested(running).value)
            && CancelRequested(CancelRequested(running).value) == None
            && Completed(CancelRequested(running).value) == Some(IDLE)
  {
  }

  class WiaWorkerModel {
    var state: State
    var operation: Operation
    var cancelRequested: bool

    function View(): Snapshot
      reads this
    {
      Snapshot(state, operation, cancelRequested)
    }

    constructor ()
      ensures View() == STOPPED
    {
      state, operation, cancelRequested := Stopped, NoOperation, false;
    }

    method Start() returns (ok: bool)
      modifies this
      ensures ok <==> Started(old(View())).Some?
      ensures View() == if ok then Started(old(View())).value else old(View())
    {
      if state != Stopped { return false; }
      state := Idle;
      ok := true;
    }

    method Begin(operation: Operation) returns (ok: bool)
      modifies this
      ensures ok <==> Begun(old(View()), operation).Some?
      ensures View() == if ok then Begun(old(View()), operation).value else old(View())
    {
      if state != Idle || operation == NoOperation { return false; }
      this.operation := operation;
      cancelRequested := false;
      if operation == Refresh { state := Refreshing; }
      if operation == Connect { state := Connecting; }
      if operation == Scan { state := Scanning; }
      ok := true;
    }

    method RequestCancel() returns (ok: bool)
      modifies this
      ensures ok <==> CancelRequested(old(View())).Some?
      ensures View() == if ok then CancelRequested(old(View())).value else old(View())
    {
      if state != Refreshing && state != Connecting && state != Scanning { return false; }
      cancelRequested := true;
      state := Cancelling;
      ok := true;
    }

    method Complete() returns (ok: bool)
      modifies this
      ensures ok <==> Completed(old(View())).Some?
      ensures View() == if ok then Completed(old(View())).value else old(View())
    {
      if state != Refreshing && state != Connecting && state != Scanning && state != Cancelling { return false; }
      state := Idle;
      operation := NoOperation;
      cancelRequested := false;
      ok := true;
    }

    method Shutdown() returns (ok: bool)
      modifies this
      ensures ok <==> ShutDown(old(View())).Some?
      ensures View() == if ok then ShutDown(old(View())).value else old(View())
    {
      if state != Idle && state != Stopped { return false; }
      state := Stopped;
      operation := NoOperation;
      cancelRequested := false;
      ok := true;
    }
  }
}
