/** What every client gets, field by field. */
module WorkerReplies {
  import opened Text
  import opened WorkerLifecycle
  import opened Worker
  import opened WorkerRuns

  /** One to 64 characters, each a lower-case letter or an underscore. */
  predicate PlainCode(code: string) {
    1 <= |code| <= 64 && forall i :: 0 <= i < |code| ==> code[i] == '_' || 'a' <= code[i] <= 'z'
  }

  /** The answer of a request that the backend never got, or that a cancel reached in time. */
  predicate SaysCancelled(reply: Reply) {
    !reply.success && reply.issueCode == "cancelled" && reply.payload == 0
  }

  /** The answer of a request that the backend answered with `raw`; None where it threw. */
  predicate Conveys(raw: Option<Reply>, reply: Reply) {
    match raw
    case None => !reply.success && reply.issueCode == "driver_failure" && reply.payload == 0
    case Some(from) =>
      reply.success == from.success && reply.payload == from.payload
      && (from.success ==> reply.issueCode == "")
      && (!from.success && PlainCode(from.issueCode) ==> reply.issueCode == from.issueCode)
      && (!from.success && !PlainCode(from.issueCode) ==> reply.issueCode == "driver_failure")
  }

  lemma OwedFields(p: Past, t: Ticket)
    ensures var reply := ExpectedReply(p, t);
            reply.requestId == t.request.id && reply.operation == t.request.operation
            && if t.number !in p.executed || t.number in p.cancelledInTime then SaysCancelled(reply)
               else Conveys(p.executed[t.number], reply)
  {
    if t.number in p.executed && p.executed[t.number].Some? {
      SafeIsPlain(p.executed[t.number].value.issueCode);
    }
  }

  lemma SafeIsPlain(code: string)
    ensures SafeIssueCode(code) <==> PlainCode(code)
  {
  }

  /** After any interleaving, every answer stands field by field: the id and operation of its request, and then "cancelled" if
      the backend never got the request or a cancel came in time, "driver_failure" if the backend threw, and otherwise what the
      backend returned, with no code on success and "driver_failure" in place of a code that is not plain. */
  lemma AnswersFieldByField(actions: seq<Action>, i: nat)
    requires i < |Exec(Initial(), actions).past.answers|
    ensures var p := Exec(Initial(), actions).past;
            var answer := p.answers[i];
            i < |p.accepted| && answer.ticket == p.accepted[i] && answer.ticket.number == i
            && answer.reply.requestId == p.accepted[i].request.id && answer.reply.operation == p.accepted[i].request.operation
            && if i !in p.executed || i in p.cancelledInTime then SaysCancelled(answer.reply)
               else Conveys(p.executed[i], answer.reply)
  {
    hide Exec, ExpectedReply, SaysCancelled, Conveys, ProperReply;
    RepliesAreExact(actions);
    AcceptedAreConserved(actions);
    OwedFields(Exec(Initial(), actions).past, Exec(Initial(), actions).past.accepted[i]);
  }

  /** What counts as executed is what the backend returned for the request at that moment, and nothing else. */
  lemma ExecutedIsWhatReturned(w: World, a: Action)
    requires Next(w, a).Some?
    ensures Next(w, a).value.past.executed
            == if a.Work? && w.local.pc == Execute && w.local.pending.Some?
               then w.past.executed[w.local.pending.value.number := a.outcome.reply] else w.past.executed
  {
    hide Sanitized, CancelledReply, ValidRequest, Started, Begun, CancelRequested, Completed, ShutDown;
  }

  /** A cancel comes in time exactly where request_cancel, or a shutdown of a running worker, meets an active request that the
      worker has taken but whose flag it has not looked at. */
  lemma CancelsInTime(w: World, a: Action)
    requires Inv(w) && Next(w, a).Some?
    ensures Next(w, a).value.past.cancelledInTime
            == if (a.RequestCancel? || a.ShutdownBegin?) && w.local.pending.Some?
                  && (w.local.pc == Begin || w.local.pc == PublishBegin || w.local.pc == Execute || w.local.pc == CheckCancel)
               then w.past.cancelledInTime + {w.local.pending.value.number} else w.past.cancelledInTime
  {
    hide Sanitized, CancelledReply, ValidRequest, Started, Begun, CancelRequested, Completed, ShutDown, Conserved,
         PromisesInOrder, RepliesProper, ProperReply, LifecycleFits;
  }

  // --------------------------------------------------------------- submissions

  /** A submission is accepted exactly with a number, a short device name, room in the queue and a worker that accepts work, and
      with nothing else for refresh, a device and a generation for connect, and these and settings for scan. */
  lemma SubmitAcceptsExactly(w: World, r: Request)
    requires Inv(w)
    ensures var accepts := w.shared.accepting && |w.shared.queue| < 64 && r.id != 0 && |r.deviceId| <= 64;
            var fits := (r.operation == Refresh && r.deviceId == "" && r.generation == 0 && !r.hasScan)
                        || (r.operation == Connect && r.deviceId != "" && r.generation != 0 && !r.hasScan)
                        || (r.operation == Scan && r.deviceId != "" && r.generation != 0 && r.hasScan);
            var after := SubmitStep(w, r);
            if accepts && fits then
              var ticket := Ticket(|w.past.accepted|, r);
              after.past.accepted == w.past.accepted + [ticket] && after.shared.queue == w.shared.queue + [ticket]
            else after == w
  {
    hide Conserved, PromisesInOrder, RepliesProper, LocalsFit, ControlFits;
  }

  // --------------------------------------------------------- what clients see

  /** The snapshot that the worker last published, before any cancel, at each point. */
  function Shown(l: Local): Snapshot {
    match l.pc
    case NoThread => Snapshot(Stopped, NoOperation, false)
    case Initialize => Snapshot(Stopped, NoOperation, false)
    case OpenBackend => Snapshot(Stopped, NoOperation, false)
    case StartLifecycle => Snapshot(Stopped, NoOperation, false)
    case PublishIdle => Snapshot(Stopped, NoOperation, false)
    case SignalStartup => if l.backendOpen then Snapshot(Idle, NoOperation, false) else Snapshot(Stopped, NoOperation, false)
    case CheckReady => if l.backendOpen then Snapshot(Idle, NoOperation, false) else Snapshot(Stopped, NoOperation, false)
    case Execute => Busy(l)
    case CheckCancel => Busy(l)
    case Complete => Busy(l)
    case Finish => Busy(l)
    case Uninitialize => Snapshot(Stopped, NoOperation, false)
    case Returned => Snapshot(Stopped, NoOperation, false)
    case _ => Snapshot(Idle, NoOperation, false)
  }

  /** The snapshot of a running operation. */
  function Busy(l: Local): Snapshot {
    if l.pending.None? then Snapshot(Idle, NoOperation, false)
    else match l.pending.value.request.operation
      case Refresh => Snapshot(Refreshing, Refresh, false)
      case Connect => Snapshot(Connecting, Connect, false)
      case Scan => Snapshot(Scanning, Scan, false)
      case NoOperation => Snapshot(Idle, NoOperation, false)
  }

  /** That snapshot, or the same with a cancel that is still pending. */
  predicate SeenRight(w: World) {
    var shown := Shown(w.local);
    w.shared.published == shown
    || (w.shared.cancelRequested && w.shared.published == Snapshot(Cancelling, shown.operation, true))
  }

  lemma StartupKeepsSeen(w: World, o: Outcome)
    requires Inv(w) && GuardMet(w) && SeenRight(w) && InStartup(w.local.pc)
    ensures SeenRight(StartupStep(w, o))
  {
    hide Conserved, PromisesInOrder, RepliesProper, ProperReply, ControlFits;
  }

  lemma TakingKeepsSeen(w: World)
    requires SeenRight(w) && w.local.pc == WaitForWork && !w.shared.cancelRequested && TakeWork(w).Some?
    ensures SeenRight(TakeWork(w).value)
  {
  }

  lemma RequestKeepsSeen(w: World, o: Outcome)
    requires Inv(w) && GuardMet(w) && SeenRight(w) && InRequest(w.local.pc) && w.local.pending.Some?
    ensures SeenRight(RequestStep(w, o))
  {
    hide Conserved, PromisesInOrder, RepliesProper, ProperReply, ControlFits, Sanitized, CancelledReply;
  }

  lemma ClosingKeepsSeen(w: World)
    requires Inv(w) && GuardMet(w) && SeenRight(w) && InClosing(w.local.pc)
    ensures SeenRight(ClosingStep(w))
  {
    hide Conserved, PromisesInOrder, RepliesProper, ProperReply, ControlFits, CancelledReply;
  }

  lemma WorkKeepsSeen(w: World, o: Outcome)
    requires Inv(w) && SeenRight(w) && WorkStep(w, o).Some?
    ensures SeenRight(WorkStep(w, o).value)
  {
    GuardsAreMet(w);
    hide Conserved, PromisesInOrder, RepliesProper, LocalsFit, GuardMet, SeenRight, StartupStep, TakeWork, RequestStep,
         ClosingStep, ControlFits;
    if InStartup(w.local.pc) {
      StartupKeepsSeen(w, o);
    } else if w.local.pc == WaitForWork {
      TakingKeepsSeen(w);
    } else if InRequest(w.local.pc) && w.local.pending.Some? {
      RequestKeepsSeen(w, o);
    } else {
      ClosingKeepsSeen(w);
    }
  }

  lemma NextKeepsSeen(w: World, a: Action)
    requires Inv(w) && SeenRight(w) && Next(w, a).Some?
    ensures SeenRight(Next(w, a).value)
  {
    hide Conserved, PromisesInOrder, RepliesProper, ProperReply, ValidRequest, WorkStep, LifecycleFits;
    if a.Work? {
      WorkKeepsSeen(w, a.outcome);
    }
  }

  lemma {:induction false} ExecKeepsSeen(w: World, actions: seq<Action>)
    requires Inv(w) && SeenRight(w)
    ensures SeenRight(Exec(w, actions))
    decreases |actions|
  {
    hide Inv, SeenRight, Next;
    if actions != [] {
      var next := Next(w, actions[0]);
      if next.Some? {
        NextKeepsInv(w, actions[0]);
        NextKeepsSeen(w, actions[0]);
      }
      ExecKeepsSeen(if next.Some? then next.value else w, actions[1..]);
    }
  }

  /** In every reachable state clients see the state and the operation the worker is in, but for a cancel that is pending. */
  lemma ClientsSeeTheOperation(actions: seq<Action>)
    ensures SeenRight(Exec(Initial(), actions))
  {
    hide Exec, Inv;
    InitialHasInv();
    ExecKeepsSeen(Initial(), actions);
  }
}
