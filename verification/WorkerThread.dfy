/** The worker object: its fields, one method per critical section and per unlocked action of its thread.

    Each method takes the object from View() to the state the step system gives for the same action. */
module WorkerThread {
  import opened Text
  import opened WorkerLifecycle
  import opened Worker

  class WiaComWorker {
    // guarded by the mutex
    var queue: seq<Ticket>
    var started: bool
    var accepting: bool
    var stopping: bool
    var active: bool
    var startupDone: bool
    var startupSucceeded: bool
    var published: Snapshot
    // the atomic flag
    var cancelRequested: bool
    // the locals of run()
    var lifecycle: WiaWorkerModel
    var pending: Option<Ticket>
    var reply: Reply
    var cancelled: seq<Ticket>
    var apartmentOpen: bool
    var backendOpen: bool
    // where the worker thread and the controlling client are, and the promises made and set so far
    var pc: Pc
    var control: Control
    var past: Past

    function View(): World
      reads this, lifecycle
    {
      World(Shared(queue, cancelRequested, published, started, accepting, stopping, active, startupDone, startupSucceeded),
            Local(pc, pending, reply, cancelled, lifecycle.View(), apartmentOpen, backendOpen), control, past)
    }

    ghost predicate Valid()
      reads this, lifecycle
    {
      Inv(View())
    }

    constructor ()
      ensures Valid() && View() == Initial() && fresh(lifecycle)
    {
      queue, started, accepting, stopping, active := [], false, false, false, false;
      startupDone, startupSucceeded, published, cancelRequested := false, false, STOPPED, false;
      lifecycle := new WiaWorkerModel();
      pending, reply, cancelled, apartmentOpen, backendOpen := None, NO_REPLY, [], false, false;
      pc, control, past := NoThread, Outside, Initial().past;
      new;
      InitialHasInv();
    }

    // ------------------------------------------------------------------ clients

    /** Queues a request; false where the source throws. */
    method Submit(r: Request) returns (ok: bool)
      requires Valid()
      modifies this
      ensures Valid() && lifecycle == old(lifecycle) && View() == SubmitStep(old(View()), r)
      ensures ok <==> ValidRequest(r) && old(MayAccept(View().shared))
    {
      hide Inv, ValidRequest;
      SubmitKeepsInv(View(), r);
      if !ValidRequest(r) || !started || !accepting || stopping || |queue| >= MAX_QUEUE { return false; }
      var ticket := Ticket(|past.accepted|, r);
      queue := queue + [ticket];
      past := past.(accepted := past.accepted + [ticket]);
      ok := true;
    }

    method FlagActive()
      requires active
      modifies this
      ensures View() == Flagged(old(View())) && lifecycle == old(lifecycle)
    {
      past := past.(cancelledInTime := past.cancelledInTime + ReachedInTime(View().local));
      cancelRequested := true;
      published := published.(cancelRequested := true, state := Cancelling);
    }

    method RequestCancel() returns (ok: bool)
      requires Valid()
      modifies this
      ensures Valid() && lifecycle == old(lifecycle) && View() == RequestCancelStep(old(View()))
      ensures ok == old(active)
    {
      hide Inv, Flagged;
      NextKeepsInv(View(), Action.RequestCancel);
      if !active { return false; }
      FlagActive();
      ok := true;
    }

    method ResetFlags()
      modifies this
      ensures View() == old(View()).(shared := old(View()).shared.(
                          stopping := false, accepting := false, startupDone := false, startupSucceeded := false,
                          cancelRequested := false))
      ensures lifecycle == old(lifecycle)
    {
      stopping, accepting, startupDone, startupSucceeded, cancelRequested := false, false, false, false, false;
    }

    /** A new thread in run(), with locals of its own. */
    method Launch()
      modifies this`lifecycle, this`pending, this`reply, this`cancelled, this`apartmentOpen, this`backendOpen, this`pc
      ensures fresh(lifecycle)
      ensures View().local == Local(Initialize, None, NO_REPLY, [], STOPPED, false, false)
    {
      lifecycle := new WiaWorkerModel();
      pending, reply, cancelled, apartmentOpen, backendOpen, pc := None, NO_REPLY, [], false, false, Initialize;
    }

    /** start() up to its wait. */
    method BeginStart() returns (ok: bool)
      requires Valid() && control == Outside
      modifies this
      ensures Valid() && (lifecycle == old(lifecycle) || fresh(lifecycle)) && View() == StartBeginStep(old(View())).value
      ensures ok <==> old(pc == NoThread && !started)
    {
      ghost var before := View();
      hide Inv;
      StartBeginKeepsInv(before);
      ok := pc == NoThread && !started;
      if ok {
        ResetFlags();
        Launch();
        control := StartWaiting;
      }
    }

    /** start() once startup is done. */
    method WakeStart() returns (ok: bool)
      requires Valid() && control == StartWaiting && startupDone
      modifies this
      ensures Valid() && lifecycle == old(lifecycle) && View() == StartWakeStep(old(View())).value
      ensures ok == old(startupSucceeded)
    {
      hide Inv;
      NextKeepsInv(View(), StartWake);
      if !startupSucceeded {
        control := StartJoining;
        return false;
      }
      started, accepting, control := true, true, Outside;
      ok := true;
    }

    method JoinAfterFailedStart()
      requires Valid() && control == StartJoining && pc == Returned
      modifies this
      ensures Valid() && lifecycle == old(lifecycle) && View() == StartJoinStep(old(View())).value
    {
      hide Inv;
      NextKeepsInv(View(), StartJoin);
      pc, control := NoThread, Outside;
    }

    /** The first critical section of shutdown(); true where the thread is to be joined. */
    method BeginShutdown() returns (join: bool)
      requires Valid() && control == Outside
      modifies this
      ensures Valid() && lifecycle == old(lifecycle) && View() == ShutdownBeginStep(old(View())).value
      ensures join == old(pc != NoThread)
    {
      hide Inv;
      NextKeepsInv(View(), ShutdownBegin);
      join := pc != NoThread;
      if !join {
        started, accepting, published := false, false, STOPPED;
      } else {
        accepting, stopping, control := false, true, ShutdownJoining;
        if active {
          FlagActive();
        }
      }
    }

    method JoinForShutdown()
      requires Valid() && control == ShutdownJoining && pc == Returned
      modifies this
      ensures Valid() && lifecycle == old(lifecycle) && View() == ShutdownJoinStep(old(View())).value
    {
      hide Inv;
      NextKeepsInv(View(), ShutdownJoin);
      pc, control := NoThread, ShutdownFinishing;
    }

    method FinishShutdown()
      requires Valid() && control == ShutdownFinishing
      modifies this
      ensures Valid() && lifecycle == old(lifecycle) && View() == ShutdownFinishStep(old(View())).value
    {
      hide Inv;
      NextKeepsInv(View(), ShutdownFinish);
      started, active, published, control := false, false, STOPPED, Outside;
    }

    // -------------------------------------------------------------------- run()

    /** Apartment, backend and lifecycle, up to the first critical section. */
    method OpenUp(o: Outcome)
      requires Valid() && (pc == Initialize || pc == OpenBackend || pc == StartLifecycle)
      modifies this, lifecycle
      ensures Valid() && lifecycle == old(lifecycle) && View() == StartupStep(old(View()), o)
    {
      hide Inv;
      OpeningKeepsInv(View(), o);
      if pc == Initialize {
        apartmentOpen := o.ok;
        pc := if o.ok then OpenBackend else SignalStartup;
      } else if pc == OpenBackend {
        backendOpen := o.ok;
        pc := if o.ok then StartLifecycle else SignalStartup;
      } else {
        var ok := lifecycle.Start();
        pc := if ok then PublishIdle else Terminated;
      }
    }

    /** publish(lifecycle.snapshot()), wherever run() calls it. */
    method Publish(o: Outcome)
      requires Valid() && (pc == PublishIdle || pc == PublishBegin || pc == PublishStopped)
      requires pc == PublishBegin ==> pending.Some?
      modifies this
      ensures Valid() && lifecycle == old(lifecycle) && WorkStep(old(View()), o) == Some(View())
    {
      hide Inv;
      WorkKeepsInv(View(), o);
      published := lifecycle.View();
      pc := if pc == PublishIdle then SignalStartup else if pc == PublishBegin then Execute else Uninitialize;
    }

    method Signal(o: Outcome)
      requires Valid() && (pc == SignalStartup || pc == CheckReady)
      modifies this
      ensures Valid() && lifecycle == old(lifecycle) && View() == StartupStep(old(View()), o)
    {
      hide Inv;
      WorkKeepsInv(View(), o);
      if pc == SignalStartup {
        startupSucceeded, startupDone, pc := backendOpen, true, CheckReady;
      } else {
        pc := if backendOpen then WaitForWork else if apartmentOpen then Uninitialize else Returned;
      }
    }

    /** The critical section that ends the wait for work. */
    method Take(o: Outcome)
      requires Valid() && pc == WaitForWork && (stopping || queue != [])
      modifies this
      ensures Valid() && lifecycle == old(lifecycle) && View() == TakeWork(old(View())).value
    {
      hide Inv;
      TakeWorkKeepsInv(View());
      if stopping {
        pc := TakeQueue;
      } else {
        pending, queue := Some(queue[0]), queue[1..];
        active, cancelRequested, pc := true, false, Begin;
      }
    }

    method BeginRequest(o: Outcome)
      requires Valid() && pending.Some? && pc == Begin
      modifies this, lifecycle
      ensures Valid() && lifecycle == old(lifecycle) && View() == RequestStep(old(View()), o)
    {
      hide Inv;
      BeginningKeepsInv(View(), o);
      var ok := lifecycle.Begin(pending.value.request.operation);
      pc := if ok then PublishBegin else Terminated;
    }

    /** The backend returned o.reply, or threw where that is None. */
    method TakeReply(o: Outcome)
      requires Valid() && pending.Some? && pc == Execute
      modifies this
      ensures Valid() && lifecycle == old(lifecycle) && View() == RequestStep(old(View()), o)
    {
      hide Inv;
      ExecutingKeepsInv(View(), o);
      var request := pending.value.request;
      if o.reply.Some? {
        reply := o.reply.value.(requestId := request.id, operation := request.operation);
        if !reply.success && !SafeIssueCode(reply.issueCode) {
          reply := reply.(issueCode := "driver_failure");
        }
        if reply.success {
          reply := reply.(issueCode := "");
        }
      } else {
        reply := FailureReply(request, "driver_failure");
      }
      past := past.(executed := past.executed[pending.value.number := o.reply]);
      pc := CheckCancel;
    }

    /** The load of the cancel flag, and what follows from it. */
    method LookAtFlag(o: Outcome)
      requires Valid() && pending.Some? && pc == CheckCancel
      modifies this, lifecycle
      ensures Valid() && lifecycle == old(lifecycle) && View() == RequestStep(old(View()), o)
    {
      hide Inv;
      ExecutingKeepsInv(View(), o);
      pc := Complete;
      if cancelRequested {
        var ok := lifecycle.RequestCancel();
        pc := if ok then Complete else Terminated;
        reply := FailureReply(pending.value.request, "cancelled");
      }
    }

    method CompleteRequest(o: Outcome)
      requires Valid() && pending.Some? && pc == Complete
      modifies this, lifecycle
      ensures Valid() && lifecycle == old(lifecycle) && View() == RequestStep(old(View()), o)
    {
      hide Inv;
      FinishingKeepsInv(View(), o);
      var ok := lifecycle.Complete();
      pc := if ok then Finish else Terminated;
    }

    /** The critical section after a request. */
    method FinishRequest(o: Outcome)
      requires Valid() && pending.Some? && pc == Finish
      modifies this
      ensures Valid() && lifecycle == old(lifecycle) && View() == RequestStep(old(View()), o)
    {
      hide Inv;
      FinishingKeepsInv(View(), o);
      active, cancelRequested, published, pc := false, false, lifecycle.View(), Pc.SetPromise;
    }

    /** promise.set_value for a promise not yet set. */
    method Answer(ticket: Ticket, reply: Reply)
      requires ticket.number !in past.promisesSet
      modifies this`past
      ensures View() == Answered(old(View()), ticket, reply)
    {
      past := past.(answers := past.answers + [Worker.Answer(ticket, reply)],
                    promisesSet := past.promisesSet + {ticket.number});
    }

    method SetPromise(o: Outcome)
      requires Valid() && pending.Some? && pc == Pc.SetPromise && pending.value.number !in past.promisesSet
      modifies this
      ensures Valid() && lifecycle == old(lifecycle) && View() == RequestStep(old(View()), o)
    {
      hide Inv;
      SettingKeepsInv(View(), o);
      var ticket := pending.value;
      pending, pc := None, WaitForWork;
      Answer(ticket, reply);
    }

    /** The critical section of cancel_queued_requests. */
    method SwapQueue()
      requires Valid() && pc == TakeQueue
      modifies this
      ensures Valid() && lifecycle == old(lifecycle) && View() == ClosingStep(old(View()))
    {
      hide Inv;
      TakingQueueKeepsInv(View());
      cancelled, queue, pc := queue, [], CancelNext;
    }

    /** One turn of its loop, or its end. */
    method AnswerNextCancelled()
      requires Valid() && pc == CancelNext && (cancelled != [] ==> cancelled[0].number !in past.promisesSet)
      modifies this
      ensures Valid() && lifecycle == old(lifecycle) && View() == ClosingStep(old(View()))
    {
      hide Inv;
      CancellingKeepsInv(View());
      if cancelled == [] {
        pc := CloseBackend;
      } else {
        var ticket := cancelled[0];
        cancelled := cancelled[1..];
        Answer(ticket, FailureReply(ticket.request, "cancelled"));
      }
    }

    method Close()
      requires Valid() && (pc == CloseBackend || pc == ShutdownLifecycle)
      modifies this, lifecycle
      ensures Valid() && lifecycle == old(lifecycle) && View() == ClosingStep(old(View()))
    {
      hide Inv;
      ClosingKeepsInv(View());
      if pc == CloseBackend {
        backendOpen, pc := false, ShutdownLifecycle;
      } else {
        var ok := lifecycle.Shutdown();
        pc := if ok then PublishStopped else Terminated;
      }
    }

    method LeaveApartment()
      requires Valid() && pc == Uninitialize
      modifies this
      ensures Valid() && lifecycle == old(lifecycle) && View() == ClosingStep(old(View()))
    {
      hide Inv;
      ReturningKeepsInv(View());
      apartmentOpen, pc := false, Returned;
    }
  }
}
