/** What the worker promises its clients over every interleaving. */
module WorkerRuns {
  import opened Text
  import opened WorkerLifecycle
  import opened Worker

  function Reached(actions: seq<Action>): World {
    Exec(Initial(), actions)
  }

  lemma ReachedHasInv(actions: seq<Action>)
    ensures Inv(Reached(actions))
  {
    InitialHasInv();
    ExecKeepsInv(Initial(), actions);
  }

  // ------------------------------------------------------------ process safety

  /** The guard of the call the worker is about to make, where that call throws without it. */
  predicate GuardMet(w: World) {
    var l := w.local;
    match l.pc
    case StartLifecycle => Started(l.lifecycle).Some?
    case Begin => l.pending.Some? && Begun(l.lifecycle, l.pending.value.request.operation).Some?
    case CheckCancel => CancelRequested(l.lifecycle).Some?
    case Complete => Completed(l.lifecycle).Some?
    case ShutdownLifecycle => ShutDown(l.lifecycle).Some?
    case SetPromise => l.pending.Some? && l.pending.value.number !in w.past.promisesSet
    case CancelNext => l.cancelled == [] || l.cancelled[0].number !in w.past.promisesSet
    case Terminated => false
    case _ => true
  }

  lemma GuardsAreMet(w: World)
    requires Inv(w)
    ensures GuardMet(w)
  {
    hide ProperReply, RepliesProper, AnsweredTickets, FlagsFit, SafeIssueCode;
    if w.local.pending.Some? {
      PendingIsValid(w);
    }
    if w.local.pc == CancelNext && w.local.cancelled != [] {
      hide ValidRequest;
      assert w.past.accepted[|w.past.answers|] == w.local.cancelled[0];
    }
  }

  /** No call inside the noexcept run() throws, so no interleaving terminates the process. */
  lemma NeverTerminates(actions: seq<Action>)
    ensures GuardMet(Reached(actions)) && Reached(actions).local.pc != Terminated
  {
    ReachedHasInv(actions);
    GuardsAreMet(Reached(actions));
  }

  /** Apartment and backend are opened and closed in pairs, the backend inside the apartment. */
  lemma ResourcesArePaired(actions: seq<Action>)
    ensures var l := Reached(actions).local;
            (l.backendOpen ==> l.apartmentOpen)
            && (l.pc == Execute || l.pc == CloseBackend ==> l.backendOpen)
            && (l.pc == Uninitialize ==> l.apartmentOpen && !l.backendOpen)
            && (l.pc == NoThread || l.pc == Initialize || l.pc == Returned ==> !l.apartmentOpen && !l.backendOpen)
  {
    ReachedHasInv(actions);
    hide Reached, Conserved, RepliesProper, PromisesInOrder, FlagsFit, ProperReply;
  }

  // -------------------------------------------------------------- conservation

  /** No accepted request is lost, repeated or reordered, and the queue stays within its bound. */
  lemma AcceptedAreConserved(actions: seq<Action>)
    ensures var w := Reached(actions);
            w.past.accepted
            == AnsweredTickets(w.past.answers) + InFlight(w) + w.local.cancelled + w.shared.queue
            && |w.shared.queue| <= 64
            && (forall i :: 0 <= i < |w.past.answers| ==>
                  w.past.answers[i].ticket == w.past.accepted[i] && w.past.answers[i].ticket.number == i)
            && (forall n: nat :: n in w.past.promisesSet <==> n < |w.past.answers|)
  {
    ReachedHasInv(actions);
    var w := Reached(actions);
    hide Reached, ValidRequest, RepliesProper, LocalsFit, FlagsFit;
    forall i | 0 <= i < |w.past.answers|
      ensures w.past.answers[i].ticket == w.past.accepted[i] && w.past.answers[i].ticket.number == i
    {
      assert w.past.accepted[i] == AnsweredTickets(w.past.answers)[i];
    }
  }

  /** A submission is accepted exactly when it is valid, the worker accepts work and the queue has room. */
  lemma SubmitAcceptsIff(w: World, r: Request)
    requires Inv(w)
    ensures SubmitStep(w, r).past.accepted
            == if ValidRequest(r) && w.shared.accepting && |w.shared.queue| < 64
               then w.past.accepted + [Ticket(|w.past.accepted|, r)] else w.past.accepted
  {
    hide Conserved, PromisesInOrder, RepliesProper, LocalsFit, ControlFits, ValidRequest;
  }

  predicate NoStart(actions: seq<Action>) {
    forall i :: 0 <= i < |actions| ==> !actions[i].StartBegin?
  }

  /** Once stopping, nothing is accepted until the worker is started again. */
  lemma {:induction false} NothingAcceptedAfterStopping(w: World, actions: seq<Action>)
    requires w.shared.stopping && NoStart(actions)
    ensures Exec(w, actions).past.accepted == w.past.accepted && Exec(w, actions).shared.stopping
    decreases |actions|
  {
    if actions != [] {
      var next := Next(w, actions[0]);
      if next.Some? {
        StoppingStep(w, actions[0]);
      }
      NothingAcceptedAfterStopping(if next.Some? then next.value else w, actions[1..]);
    }
  }

  lemma StoppingStep(w: World, a: Action)
    requires w.shared.stopping && !a.StartBegin? && Next(w, a).Some?
    ensures Next(w, a).value.past.accepted == w.past.accepted && Next(w, a).value.shared.stopping
  {
    hide ValidRequest, WorkStep;
    if a.Work? {
      WorkKeepsAccepted(w, a.outcome);
    }
  }

  lemma WorkKeepsAccepted(w: World, o: Outcome)
    requires WorkStep(w, o).Some?
    ensures WorkStep(w, o).value.past.accepted == w.past.accepted
    ensures WorkStep(w, o).value.shared.stopping == w.shared.stopping
    ensures WorkStep(w, o).value.control == w.control
  {
    hide Sanitized, CancelledReply, Started, Begun, CancelRequested, Completed, ShutDown;
  }

  // ------------------------------------------------------------------- replies

  /** The reply each request is owed: "cancelled" if the backend never got it or a cancel came in time. */
  function ExpectedReply(p: Past, t: Ticket): Reply {
    if t.number !in p.executed || t.number in p.cancelledInTime then CancelledReply(t.request)
    else Sanitized(t.request, p.executed[t.number])
  }

  /** The tickets taken from the queue so far by the request loop or answered. */
  function Entered(w: World): nat {
    |w.past.answers| + |InFlight(w)|
  }

  predicate AnswersExact(p: Past) {
    forall i :: 0 <= i < |p.answers| ==> p.answers[i].reply == ExpectedReply(p, p.answers[i].ticket)
  }

  ghost predicate OnlyBegunRecorded(w: World) {
    (forall n: nat | n in w.past.executed :: n < Entered(w)) && (forall n: nat | n in w.past.cancelledInTime :: n < Entered(w))
  }

  predicate FlightExact(w: World) {
    var l, p := w.local, w.past;
    l.pending.Some? ==>
      var n := l.pending.value.number;
      (HoldsReply(l.pc) <==> n in p.executed)
      && (l.pc == CheckCancel ==> l.reply == Sanitized(l.pending.value.request, p.executed[n]))
      && (HoldsReply(l.pc) && l.pc != CheckCancel ==> l.reply == ExpectedReply(p, l.pending.value))
      && (BeforeCheck(l.pc) ==> (w.shared.cancelRequested <==> n in p.cancelledInTime))
  }

  ghost predicate RepliesExact(w: World) {
    AnswersExact(w.past) && OnlyBegunRecorded(w) && FlightExact(w)
  }

  /** The published snapshot shows a cancel only while one is pending for the active request. */
  predicate SnapshotFits(s: Shared) {
    (s.published.state == Cancelling <==> s.published.cancelRequested)
    && (s.published.cancelRequested ==> s.active && s.cancelRequested)
  }

  lemma AnswerNumbers(w: World)
    requires Conserved(w)
    ensures forall i :: 0 <= i < |w.past.answers| ==> w.past.answers[i].ticket.number == i
  {
    hide ValidRequest;
    forall i | 0 <= i < |w.past.answers|
      ensures w.past.answers[i].ticket.number == i
    {
      assert w.past.accepted[i] == AnsweredTickets(w.past.answers)[i];
    }
  }

  /** A record about a ticket not yet answered leaves the answers as expected. */
  lemma RecordingKeepsAnswers(w: World, p: Past)
    requires Conserved(w) && AnswersExact(w.past) && p.answers == w.past.answers
    requires forall n: nat | n < |w.past.answers| ::
               (n in p.cancelledInTime <==> n in w.past.cancelledInTime)
               && (n in p.executed <==> n in w.past.executed)
               && (n in p.executed ==> p.executed[n] == w.past.executed[n])
    ensures AnswersExact(p)
  {
    hide Sanitized, CancelledReply, Conserved;
    AnswerNumbers(w);
    forall i | 0 <= i < |p.answers|
      ensures p.answers[i].reply == ExpectedReply(p, p.answers[i].ticket)
    {
      assert p.answers[i].ticket.number == i;
    }
  }

  lemma FlaggedKeepsExact(w: World)
    requires Inv(w) && RepliesExact(w) && w.shared.active
    ensures RepliesExact(Flagged(w))
  {
    hide Sanitized, CancelledReply, RepliesProper, ValidRequest, ProperReply, ControlFits, LifecycleFits, AnswersExact, AnsweredTickets, Conserved, PromisesInOrder;
    PendingIsValid(w);
    RecordingKeepsAnswers(w, Flagged(w).past);
  }

  /** Steps that leave the records, the flag and the request alone. */
  lemma UnrecordedStep(w: World, after: World)
    requires RepliesExact(w) && after.past.answers == w.past.answers
    requires after.past.executed == w.past.executed && after.past.cancelledInTime == w.past.cancelledInTime
    requires after.local.pending == w.local.pending
    requires w.local.pending.Some? ==>
               after.local.reply == w.local.reply
               && (after.local.pc == w.local.pc || (BeforeCheck(w.local.pc) && BeforeCheck(after.local.pc) && !HoldsReply(w.local.pc) && !HoldsReply(after.local.pc))
                   || (HoldsReply(w.local.pc) && HoldsReply(after.local.pc) && w.local.pc != CheckCancel && after.local.pc != CheckCancel))
               && (BeforeCheck(after.local.pc) ==> after.shared.cancelRequested == w.shared.cancelRequested)
    ensures RepliesExact(after)
  {
    hide Sanitized, CancelledReply;
  }

  lemma RequestKeepsExact(w: World, o: Outcome)
    requires Inv(w) && RepliesExact(w) && InRequest(w.local.pc) && w.local.pc != SetPromise
    ensures w.local.pending.Some? && RepliesExact(RequestStep(w, o))
  {
    hide Sanitized, CancelledReply, RepliesProper, ValidRequest, ProperReply, FlagsFit, AnswersExact, AnsweredTickets, Conserved, PromisesInOrder;
    PendingIsValid(w);
    GuardsAreMet(w);
    if w.local.pc == Execute {
      RecordingKeepsAnswers(w, RequestStep(w, o).past);
    } else if w.local.pc != CheckCancel {
      UnrecordedStep(w, RequestStep(w, o));
    }
  }

  lemma AnsweringKeepsExact(w: World, after: World, t: Ticket, reply: Reply)
    requires RepliesExact(w) && reply == ExpectedReply(w.past, t)
    requires after.past == w.past.(answers := w.past.answers + [Answer(t, reply)], promisesSet := after.past.promisesSet)
    requires after.local.pending == None && |InFlight(w)| <= 1
    ensures RepliesExact(after)
  {
    hide Sanitized, CancelledReply;
  }

  lemma WorkKeepsExact(w: World, o: Outcome)
    requires Inv(w) && RepliesExact(w) && WorkStep(w, o).Some?
    ensures RepliesExact(WorkStep(w, o).value)
  {
    hide Sanitized, CancelledReply, RepliesProper, ValidRequest, ProperReply, FlagsFit, AnswersExact, AnsweredTickets,
         Conserved, PromisesInOrder, RepliesExact, RequestStep, StartupStep, TakeWork, ClosingStep;
    var after := WorkStep(w, o).value;
    GuardsAreMet(w);
    if InStartup(w.local.pc) {
      StartupKeepsExact(w, o);
    } else if w.local.pc == WaitForWork {
      TakingKeepsExact(w);
    } else if w.local.pc == SetPromise {
      SettingKeepsExact(w, o);
    } else if InRequest(w.local.pc) {
      RequestKeepsExact(w, o);
    } else {
      ClosingKeepsExact(w);
    }
  }

  lemma StartupKeepsExact(w: World, o: Outcome)
    requires Inv(w) && RepliesExact(w) && InStartup(w.local.pc)
    ensures RepliesExact(StartupStep(w, o))
  {
    hide RepliesExact, Conserved, PromisesInOrder, RepliesProper, FlagsFit, ProperReply;
    UnrecordedStep(w, StartupStep(w, o));
  }

  lemma TakingKeepsExact(w: World)
    requires Inv(w) && RepliesExact(w) && w.local.pc == WaitForWork && TakeWork(w).Some?
    ensures RepliesExact(TakeWork(w).value)
  {
    hide RepliesProper, ProperReply, ValidRequest, AnswersExact, AnsweredTickets, ControlFits, LifecycleFits;
    if !w.shared.stopping {
      assert w.past.accepted[|w.past.answers|] == w.shared.queue[0];
    }
  }

  lemma SettingKeepsExact(w: World, o: Outcome)
    requires Inv(w) && RepliesExact(w) && w.local.pc == SetPromise
    ensures w.local.pending.Some? && RepliesExact(RequestStep(w, o))
  {
    hide RepliesProper, ProperReply, FlagsFit, AnswersExact, AnsweredTickets, Conserved, PromisesInOrder, ExpectedReply,
         Sanitized, OnlyBegunRecorded;
    GuardsAreMet(w);
    AnsweringKeepsExact(w, RequestStep(w, o), w.local.pending.value, w.local.reply);
  }

  lemma ClosingKeepsExact(w: World)
    requires Inv(w) && RepliesExact(w) && InClosing(w.local.pc)
    ensures RepliesExact(ClosingStep(w))
  {
    hide RepliesProper, ProperReply, FlagsFit, AnswersExact, AnsweredTickets, PromisesInOrder, Sanitized, CancelledReply,
         ValidRequest, LifecycleFits;
    GuardsAreMet(w);
    if w.local.pc == CancelNext && w.local.cancelled != [] {
      var t := w.local.cancelled[0];
      assert w.past.accepted[|w.past.answers|] == t;
      AnsweringKeepsExact(w, ClosingStep(w), t, CancelledReply(t.request));
    } else {
      UnrecordedStep(w, ClosingStep(w));
    }
  }

  lemma ControlKeepsExact(w: World, a: Action)
    requires Inv(w) && RepliesExact(w) && !a.Work? && !a.Submit? && Next(w, a).Some?
    ensures RepliesExact(Next(w, a).value)
  {
    hide RepliesProper, ProperReply, Conserved, PromisesInOrder, RepliesExact, LifecycleFits;
    if (a.RequestCancel? || a.ShutdownBegin?) && w.shared.active {
      FlaggedKeepsExact(w);
      if a.ShutdownBegin? {
        UnrecordedStep(Flagged(w), Next(w, a).value);
      }
    } else {
      UnrecordedStep(w, Next(w, a).value);
    }
  }

  lemma NextKeepsExact(w: World, a: Action)
    requires Inv(w) && RepliesExact(w) && Next(w, a).Some?
    ensures RepliesExact(Next(w, a).value)
  {
    hide Inv, RepliesExact, WorkStep, Flagged, StartBeginStep, StartWakeStep, StartJoinStep, ShutdownBeginStep,
         ShutdownJoinStep, ShutdownFinishStep, ValidRequest;
    match a
    case Submit(r) => UnrecordedStep(w, SubmitStep(w, r));
    case Work(o) => WorkKeepsExact(w, o);
    case _ => ControlKeepsExact(w, a);
  }

  lemma {:induction false} ExecKeepsExact(w: World, actions: seq<Action>)
    requires Inv(w) && RepliesExact(w)
    ensures RepliesExact(Exec(w, actions))
    decreases |actions|
  {
    hide Inv, Next, RepliesExact;
    if actions != [] {
      var next := Next(w, actions[0]);
      if next.Some? {
        NextKeepsInv(w, actions[0]);
        NextKeepsExact(w, actions[0]);
      }
      ExecKeepsExact(if next.Some? then next.value else w, actions[1..]);
    }
  }

  predicate AllAsOwed(p: Past) {
    |p.answers| <= |p.accepted|
    && forall i :: 0 <= i < |p.answers| ==>
         p.answers[i].ticket == p.accepted[i]
         && p.answers[i].reply == ExpectedReply(p, p.accepted[i])
         && ProperReply(p.accepted[i].request, p.answers[i].reply)
  }

  /** Every promise carries exactly the reply its request is owed, and that reply belongs to it. */
  lemma RepliesAreExact(actions: seq<Action>)
    ensures AllAsOwed(Reached(actions).past)
  {
    ReachedHasInv(actions);
    ExecKeepsExact(Initial(), actions);
    AcceptedAreConserved(actions);
    hide Reached, ExpectedReply, ProperReply, LocalsFit, FlagsFit, ValidRequest;
  }

  /** A ticket is recorded as cancelled only while it is the active request, before the worker looks at the flag. */
  lemma CancelReachesOnlyTheActive(w: World, a: Action, n: nat)
    requires Inv(w) && Next(w, a).Some?
    requires n in Next(w, a).value.past.cancelledInTime && n !in w.past.cancelledInTime
    ensures a.RequestCancel? || a.ShutdownBegin?
    ensures w.shared.active && w.local.pending.Some? && w.local.pending.value.number == n && BeforeCheck(w.local.pc)
  {
    hide Conserved, PromisesInOrder, RepliesProper, LifecycleFits, ControlFits, ValidRequest, Sanitized;
  }

  /** While the worker has no active request, a cancel is refused and nothing changes. */
  lemma CancelNeedsAnActiveRequest(actions: seq<Action>)
    ensures var w := Reached(actions);
            (w.shared.cancelRequested ==> w.shared.active)
            && (!IsActive(w.local.pc) ==> RequestCancelStep(w) == w)
            && (w.local.pc == SetPromise ==> w.shared.published == IDLE)
  {
    ReachedHasInv(actions);
    hide Reached, Conserved, PromisesInOrder, RepliesProper, LocalsFit, ControlFits;
  }

  // ------------------------------------------------------------- the snapshot

  lemma WorkKeepsSnapshot(w: World, o: Outcome)
    requires Inv(w) && SnapshotFits(w.shared) && WorkStep(w, o).Some?
    ensures SnapshotFits(WorkStep(w, o).value.shared)
  {
    hide Inv, Sanitized, CancelledReply, RequestStep;
    GuardsAreMet(w);
    PublishesNoCancel(w);
    if w.local.pending.Some? {
      RequestKeepsSnapshot(w, o);
    }
  }

  /** Where run() publishes the lifecycle, no cancel is recorded in it. */
  predicate NoCancelPublished(w: World) {
    var pc := w.local.pc;
    (pc == PublishIdle || pc == PublishBegin || pc == Finish || pc == PublishStopped ==>
       w.local.lifecycle.state != Cancelling && !w.local.lifecycle.cancelRequested)
    && (pc == WaitForWork ==> !w.shared.active)
  }

  lemma PublishesNoCancel(w: World)
    requires Inv(w)
    ensures NoCancelPublished(w)
  {
    hide Conserved, PromisesInOrder, RepliesProper, ControlFits, ProperReply;
  }

  lemma RequestKeepsSnapshot(w: World, o: Outcome)
    requires w.local.pending.Some? && GuardMet(w) && NoCancelPublished(w) && SnapshotFits(w.shared)
    ensures SnapshotFits(RequestStep(w, o).shared)
  {
    hide Sanitized, CancelledReply;
  }

  lemma NextKeepsSnapshot(w: World, a: Action)
    requires Inv(w) && SnapshotFits(w.shared) && Next(w, a).Some?
    ensures SnapshotFits(Next(w, a).value.shared)
  {
    hide Conserved, PromisesInOrder, RepliesProper, LocalsFit, ValidRequest, WorkStep;
    if a.Work? {
      WorkKeepsSnapshot(w, a.outcome);
    }
  }

  lemma {:induction false} ExecKeepsSnapshot(w: World, actions: seq<Action>)
    requires Inv(w) && SnapshotFits(w.shared)
    ensures SnapshotFits(Exec(w, actions).shared)
    decreases |actions|
  {
    hide Inv, Next, SnapshotFits;
    if actions != [] {
      var next := Next(w, actions[0]);
      if next.Some? {
        NextKeepsInv(w, actions[0]);
        NextKeepsSnapshot(w, actions[0]);
      }
      ExecKeepsSnapshot(if next.Some? then next.value else w, actions[1..]);
    }
  }

  /** In every reachable state, the snapshot shows a cancel only while one is pending for the active request. */
  lemma SnapshotIsHonest(actions: seq<Action>)
    ensures SnapshotFits(Reached(actions).shared)
  {
    InitialHasInv();
    ExecKeepsSnapshot(Initial(), actions);
  }

  // ------------------------------------------------------------- late cancels

  /** The worker has looked at ticket n's cancel flag for good. */
  predicate Settled(w: World, n: nat) {
    n < |w.past.answers|
    || (n == |w.past.answers| && w.local.pending.Some? && HoldsReply(w.local.pc) && w.local.pc != CheckCancel)
  }

  lemma SettledStep(w: World, a: Action, n: nat)
    requires Inv(w) && Settled(w, n) && Next(w, a).Some?
    ensures var after := Next(w, a).value;
            Settled(after, n) && (n in after.past.cancelledInTime <==> n in w.past.cancelledInTime)
            && (n in after.past.executed <==> n in w.past.executed)
            && (n in w.past.executed ==> after.past.executed[n] == w.past.executed[n])
            && after.past.accepted[..|w.past.accepted|] == w.past.accepted
  {
    hide Conserved, PromisesInOrder, RepliesProper, FlagsFit, ValidRequest, Sanitized, ProperReply, CancelledReply;
    GuardsAreMet(w);
    if w.local.pending.Some? {
      PendingIsValid(w);
    }
  }

  lemma {:induction false} SettledRun(w: World, actions: seq<Action>, n: nat)
    requires Inv(w) && Settled(w, n)
    ensures var p := Exec(w, actions).past;
            (n in p.cancelledInTime <==> n in w.past.cancelledInTime)
            && (n in p.executed <==> n in w.past.executed)
            && (n in w.past.executed ==> p.executed[n] == w.past.executed[n])
    decreases |actions|
  {
    hide Inv, Settled, Next;
    if actions != [] {
      var next := Next(w, actions[0]);
      if next.Some? {
        NextKeepsInv(w, actions[0]);
        SettledStep(w, actions[0], n);
      }
      SettledRun(if next.Some? then next.value else w, actions[1..], n);
    }
  }

  lemma RecordsGrow(w: World, a: Action)
    requires Next(w, a).Some?
    ensures w.past.cancelledInTime <= Next(w, a).value.past.cancelledInTime
    ensures w.past.accepted <= Next(w, a).value.past.accepted
  {
    hide ValidRequest, Sanitized, CancelledReply, Started, Begun, CancelRequested, Completed, ShutDown;
  }

  lemma {:induction false} RecordsGrowOverRuns(w: World, actions: seq<Action>)
    ensures w.past.cancelledInTime <= Exec(w, actions).past.cancelledInTime
    ensures w.past.accepted <= Exec(w, actions).past.accepted
    decreases |actions|
  {
    hide Next;
    if actions != [] {
      var next := Next(w, actions[0]);
      if next.Some? {
        RecordsGrow(w, actions[0]);
      }
      RecordsGrowOverRuns(if next.Some? then next.value else w, actions[1..]);
    }
  }

  lemma AnswerAt(w: World, n: nat)
    requires Inv(w) && RepliesExact(w) && n < |w.past.answers|
    ensures |w.past.answers| <= |w.past.accepted|
    ensures w.past.answers[n].reply == ExpectedReply(w.past, w.past.accepted[n])
  {
    hide ExpectedReply, ValidRequest, RepliesProper, LocalsFit, FlagsFit, PromisesInOrder;
    assert w.past.accepted[n] == AnsweredTickets(w.past.answers)[n];
  }

  /** A cancel that request_cancel accepts decides the reply exactly when it comes before the worker looks at the
      flag; one that comes later is dropped, and the reply already made is delivered. */
  lemma CancelIsHonouredIffInTime(w: World, actions: seq<Action>)
    requires Inv(w) && RepliesExact(w) && w.shared.active && w.local.pending.Some?
    requires w.local.pending.value.number < |Exec(Flagged(w), actions).past.answers|
    ensures var t := w.local.pending.value;
            Exec(Flagged(w), actions).past.answers[t.number].reply
            == if BeforeCheck(w.local.pc) then CancelledReply(t.request) else w.local.reply
  {
    hide Exec, RepliesProper, PromisesInOrder, ValidRequest, ProperReply, Sanitized, CancelledReply, ControlFits,
         LifecycleFits, AnswersExact, OnlyBegunRecorded, AnsweredTickets;
    var t, flagged := w.local.pending.value, Flagged(w);
    var end := Exec(flagged, actions);
    PendingIsValid(w);
    assert w.past.accepted[|w.past.answers|] == t;
    FlaggedKeepsInv(w);
    FlaggedKeepsExact(w);
    ExecKeepsInv(flagged, actions);
    ExecKeepsExact(flagged, actions);
    RecordsGrowOverRuns(flagged, actions);
    AnswerAt(end, t.number);
    assert end.past.accepted[t.number] == t;
    if !BeforeCheck(w.local.pc) {
      SettledRun(flagged, actions, t.number);
    }
  }

  lemma ShownAfterStep(w: World, o: Outcome)
    requires IsActive(w.local.pc) && w.local.pending.Some? && GuardMet(w)
    requires w.shared.published.cancelRequested && w.shared.cancelRequested
    requires w.local.pc == PublishBegin || w.local.pc == Finish ==> !w.local.lifecycle.cancelRequested
    ensures RequestStep(w, o).shared.published.cancelRequested <==> w.local.pc != PublishBegin && w.local.pc != Finish
    ensures w.local.pc == PublishBegin ==> RequestStep(w, o).shared.cancelRequested
  {
    hide Sanitized, CancelledReply;
  }

  /** A cancel shows in the published snapshot after the worker's next step, unless that step publishes over it. */
  lemma CancelStaysShownIff(w: World, o: Outcome)
    requires Inv(w) && w.shared.active
    ensures WorkStep(Flagged(w), o).Some?
    ensures WorkStep(Flagged(w), o).value.shared.published.cancelRequested
            <==> w.local.pc != PublishBegin && w.local.pc != Finish
    ensures w.local.pc == PublishBegin ==> WorkStep(Flagged(w), o).value.shared.cancelRequested
  {
    hide Conserved, PromisesInOrder, RepliesProper, ControlFits, RequestStep, ProperReply, ValidRequest;
    GuardsAreMet(w);
    ShownAfterStep(Flagged(w), o);
  }

  // ------------------------------------------------------------------ shutdown

  /** Steps the worker still takes at most once it is told to stop. */
  function Rank(w: World): nat {
    var queued := |w.shared.queue|;
    match w.local.pc
    case Uninitialize => 1
    case PublishStopped => 2
    case ShutdownLifecycle => 3
    case CloseBackend => 4
    case CancelNext => 5 + |w.local.cancelled|
    case TakeQueue => 6 + queued
    case WaitForWork => 7 + queued
    case CheckReady => 8 + queued
    case SetPromise => 8 + queued
    case Finish => 9 + queued
    case Complete => 10 + queued
    case CheckCancel => 11 + queued
    case Execute => 12 + queued
    case PublishBegin => 13 + queued
    case Begin => 14 + queued
    case _ => 0
  }

  /** While a client waits in shutdown's join, the worker can always take a step that brings it closer to returning. */
  lemma StoppingWorkerAdvances(w: World, o: Outcome)
    requires Inv(w) && w.control == ShutdownJoining && w.local.pc != Returned
    ensures WorkStep(w, o).Some? && Rank(WorkStep(w, o).value) < Rank(w)
    ensures WorkStep(w, o).value.control == ShutdownJoining
  {
    hide Conserved, PromisesInOrder, RepliesProper, ProperReply, Sanitized, CancelledReply, ValidRequest;
    GuardsAreMet(w);
  }

  /** Other clients do not delay it. */
  lemma ClientsDoNotDelayShutdown(w: World, a: Action)
    requires Inv(w) && w.control == ShutdownJoining && !a.Work? && !a.ShutdownJoin? && Next(w, a).Some?
    ensures Rank(Next(w, a).value) == Rank(w) && Next(w, a).value.control == ShutdownJoining
    ensures Next(w, a).value.local.pc == w.local.pc
  {
    hide Conserved, PromisesInOrder, RepliesProper, ProperReply, LocalsFit, ValidRequest;
  }

  function WorkSteps(actions: seq<Action>): nat {
    if actions == [] then 0 else (if actions[0].Work? then 1 else 0) + WorkSteps(actions[1..])
  }

  predicate NoJoin(actions: seq<Action>) {
    forall i :: 0 <= i < |actions| ==> !actions[i].ShutdownJoin?
  }

  lemma {:induction false} WorkerReturns(w: World, actions: seq<Action>)
    requires Inv(w) && w.control == ShutdownJoining && NoJoin(actions) && Rank(w) <= WorkSteps(actions)
    ensures Exec(w, actions).local.pc == Returned && Exec(w, actions).control == ShutdownJoining
    decreases |actions|
  {
    hide Inv, Next, Rank;
    if actions == [] {
      StillWorking(w);
    } else {
      var a, next := actions[0], Next(w, actions[0]);
      var after := if next.Some? then next.value else w;
      if next.Some? {
        NextKeepsInv(w, a);
      }
      if w.local.pc == Returned {
        ReturnedStays(w, a);
      } else if a.Work? {
        WorkIsNext(w, a.outcome);
        StoppingWorkerAdvances(w, a.outcome);
      } else if next.Some? {
        ClientsDoNotDelayShutdown(w, a);
      }
      WorkerReturns(after, actions[1..]);
    }
  }

  lemma WorkIsNext(w: World, o: Outcome)
    ensures Next(w, Work(o)) == WorkStep(w, o)
  {
    hide WorkStep;
  }

  lemma StillWorking(w: World)
    requires Inv(w) && w.control == ShutdownJoining && Rank(w) == 0
    ensures w.local.pc == Returned
  {
    hide Conserved, PromisesInOrder, RepliesProper, LocalsFit;
  }

  lemma ReturnedStays(w: World, a: Action)
    requires Inv(w) && w.control == ShutdownJoining && w.local.pc == Returned && !a.ShutdownJoin?
    ensures Next(w, a).Some? ==> Next(w, a).value.local.pc == Returned && Next(w, a).value.control == ShutdownJoining
    ensures Next(w, a).Some? ==> Rank(Next(w, a).value) == 0
    ensures Rank(w) == 0
  {
    hide Conserved, PromisesInOrder, RepliesProper, LocalsFit, ValidRequest;
  }

  /** Where the worker stands when it has returned: nothing queued, nothing owed. */
  lemma ReturnedOwesNothing(w: World)
    requires Inv(w) && w.control == ShutdownJoining && w.local.pc == Returned
    ensures w.shared.queue == [] && !w.shared.active && |w.past.answers| == |w.past.accepted|
  {
    hide PromisesInOrder, RepliesProper, LifecycleFits;
  }

  /** If execute always returns, every shutdown finishes: given as many worker steps as the rank (never more than 78),
      the worker has returned with every accepted request answered, and the client can join, finish and start again. */
  lemma ShutdownFinishes(w: World, actions: seq<Action>)
    requires Inv(w) && w.control == ShutdownJoining && NoJoin(actions) && WorkSteps(actions) >= 78
    ensures var end := Exec(w, actions);
            end.local.pc == Returned && end.shared.queue == []
            && |end.past.answers| == |end.past.accepted|
            && var closed := Exec(end, [ShutdownJoin, ShutdownFinish]);
               closed.control == Outside && !closed.shared.started && closed.shared.published == STOPPED
               && closed.past == end.past
               && StartBeginStep(closed).Some? && StartBeginStep(closed).value.control == StartWaiting
  {
    RankIsBounded(w);
    WorkerReturns(w, actions);
    ExecKeepsInv(w, actions);
    ReturnedOwesNothing(Exec(w, actions));
    Closing(Exec(w, actions));
  }

  lemma Closing(end: World)
    requires end.control == ShutdownJoining && end.local.pc == Returned
    ensures var closed := Exec(end, [ShutdownJoin, ShutdownFinish]);
            closed.control == Outside && !closed.shared.started && closed.shared.published == STOPPED
            && closed.past == end.past && closed.local.pc == NoThread
  {
    var joined := ShutdownJoinStep(end).value;
    var last := [ShutdownFinish];
    assert [ShutdownJoin, ShutdownFinish][1..] == last;
    assert last[1..] == [];
    assert Exec(joined, last) == Exec(ShutdownFinishStep(joined).value, []);
  }

  lemma RankIsBounded(w: World)
    requires Inv(w) && w.control == ShutdownJoining
    ensures Rank(w) <= 78
  {
    hide PromisesInOrder, RepliesProper, LifecycleFits;
  }

  // ------------------------------------------- two claims that do not hold

  function Proceed(): Action {
    Work(Outcome(true, None))
  }

  /** The worker started, with nothing submitted yet. */
  function Ready(): World {
    World(Shared([], false, IDLE, true, true, false, false, true, true),
          Local(WaitForWork, None, NO_REPLY, [], IDLE, true, true), Outside, Past([], [], {}, map[], {}))
  }

  lemma ExecOne(w: World, a: Action, rest: seq<Action>)
    requires Next(w, a).Some?
    ensures Exec(w, [a] + rest) == Exec(Next(w, a).value, rest)
  {
    assert ([a] + rest)[1..] == rest;
  }

  /** The backend just opened. */
  function JustOpened(): World {
    Initial().(local := Local(StartLifecycle, None, NO_REPLY, [], STOPPED, true, true), control := StartWaiting)
  }

  lemma Opens(rest: seq<Action>)
    ensures Reached([StartBegin] + ([Proceed()] + ([Proceed()] + rest))) == Exec(JustOpened(), rest)
  {
    hide Exec;
    var p, w := Proceed(), Initial();
    ExecOne(w, StartBegin, [p] + ([p] + rest));
    var w0 := StartBeginStep(w).value;
    ExecOne(w0, p, [p] + rest);
    var w1 := WorkStep(w0, p.outcome).value;
    ExecOne(w1, p, rest);
    assert WorkStep(w1, p.outcome).value == JustOpened();
  }

  /** Its idle snapshot just published. */
  function JustPublishedIdle(): World {
    var w := JustOpened();
    w.(shared := w.shared.(published := IDLE), local := w.local.(pc := SignalStartup, lifecycle := IDLE))
  }

  lemma PublishesIdle(rest: seq<Action>)
    ensures Exec(JustOpened(), [Proceed()] + ([Proceed()] + rest)) == Exec(JustPublishedIdle(), rest)
  {
    hide Exec;
    var p, w := Proceed(), JustOpened();
    ExecOne(w, p, [p] + rest);
    var w1 := WorkStep(w, p.outcome).value;
    ExecOne(w1, p, rest);
    assert WorkStep(w1, p.outcome).value == JustPublishedIdle();
  }

  lemma SignalsSuccess(rest: seq<Action>)
    ensures Exec(JustPublishedIdle(), [Proceed()] + ([Proceed()] + ([StartWake] + rest))) == Exec(Ready(), rest)
  {
    hide Exec;
    var p, w := Proceed(), JustPublishedIdle();
    var wake := [StartWake] + rest;
    ExecOne(w, p, [p] + wake);
    var w1 := WorkStep(w, p.outcome).value;
    ExecOne(w1, p, wake);
    var w2 := WorkStep(w1, p.outcome).value;
    ExecOne(w2, StartWake, rest);
    assert StartWakeStep(w2) == Some(Ready());
  }

  lemma Readies(rest: seq<Action>)
    ensures Exec(JustOpened(), [Proceed()] + ([Proceed()] + ([Proceed()] + ([Proceed()] + ([StartWake] + rest)))))
            == Exec(Ready(), rest)
  {
    hide Exec, JustOpened, JustPublishedIdle, Ready;
    PublishesIdle([Proceed()] + ([Proceed()] + ([StartWake] + rest)));
    SignalsSuccess(rest);
  }

  lemma StartsUp(rest: seq<Action>)
    ensures Reached([StartBegin] + ([Proceed()] + ([Proceed()] + ([Proceed()] + ([Proceed()] + ([Proceed()]
              + ([Proceed()] + ([StartWake] + rest)))))))) == Exec(Ready(), rest)
  {
    hide Exec;
    var p := Proceed();
    Opens([p] + ([p] + ([p] + ([p] + ([StartWake] + rest)))));
    Readies(rest);
  }

  /** Request r just taken from the queue. */
  function JustTaken(r: Request): World {
    Ready().(shared := Ready().shared.(active := true),
             local := Ready().local.(pc := Begin, pending := Some(Ticket(0, r))),
             past := Ready().past.(accepted := [Ticket(0, r)]))
  }

  lemma TakesFirst(r: Request, rest: seq<Action>)
    requires ValidRequest(r)
    ensures Exec(Ready(), [Submit(r)] + ([Proceed()] + rest)) == Exec(JustTaken(r), rest)
  {
    hide Exec, ValidRequest;
    ExecOne(Ready(), Submit(r), [Proceed()] + rest);
    var w := SubmitStep(Ready(), r);
    ExecOne(w, Proceed(), rest);
    assert WorkStep(w, Proceed().outcome).value == JustTaken(r);
  }

  /** The same request with the backend's reply in hand and the cancel flag already looked at. */
  function JustChecked(r: Request, raw: Option<Reply>): World
    requires r.operation != NoOperation
  {
    var running := Snapshot(RunningState(r.operation), r.operation, false);
    var w := JustTaken(r);
    w.(shared := w.shared.(published := running),
       local := w.local.(pc := Complete, lifecycle := running, reply := Sanitized(r, raw)),
       past := w.past.(executed := map[0 := raw]))
  }

  lemma OperationIsReal(r: Request)
    requires ValidRequest(r)
    ensures r.operation != NoOperation
  {
  }

  /** The same request with its running snapshot published. */
  function JustPublished(r: Request): World
    requires r.operation != NoOperation
  {
    var running := Snapshot(RunningState(r.operation), r.operation, false);
    JustTaken(r).(shared := JustTaken(r).shared.(published := running),
                  local := JustTaken(r).local.(pc := Execute, lifecycle := running))
  }

  lemma Publishes(r: Request, rest: seq<Action>)
    requires r.operation != NoOperation
    ensures Exec(JustTaken(r), [Proceed()] + ([Proceed()] + rest)) == Exec(JustPublished(r), rest)
  {
    hide Exec;
    var p, w := Proceed(), JustTaken(r);
    ExecOne(w, p, [p] + rest);
    var w1 := WorkStep(w, p.outcome).value;
    ExecOne(w1, p, rest);
    assert WorkStep(w1, p.outcome).value == JustPublished(r);
  }

  lemma Executes(r: Request, raw: Option<Reply>, rest: seq<Action>)
    requires r.operation != NoOperation
    ensures Exec(JustPublished(r), [Work(Outcome(true, raw))] + ([Proceed()] + rest)) == Exec(JustChecked(r, raw), rest)
  {
    hide Exec, Sanitized;
    var p, o, w := Proceed(), Outcome(true, raw), JustPublished(r);
    ExecOne(w, Work(o), [p] + rest);
    var w1 := WorkStep(w, o).value;
    ExecOne(w1, p, rest);
    assert WorkStep(w1, p.outcome).value == JustChecked(r, raw);
  }

  /** A reachable run in which request_cancel succeeds and the backend's reply is delivered all the same. */
  lemma LateCancelIsDropped(r: Request, raw: Reply) returns (before: seq<Action>, after: seq<Action>)
    requires ValidRequest(r) && raw.success
    ensures Reached(before).shared.active && |Reached(before).past.answers| == 0
    ensures Reached(before + [RequestCancel]).shared.cancelRequested
    ensures Reached(before + [RequestCancel] + after).past.answers
            == [Answer(Ticket(0, r), raw.(requestId := r.id, operation := r.operation, issueCode := ""))]
  {
    hide Exec, ValidRequest;
    OperationIsReal(r);
    var p := Proceed();
    var startup := [StartBegin] + ([p] + ([p] + ([p] + ([p] + ([p] + ([p] + ([StartWake] + [])))))));
    var take := [Submit(r)] + ([p] + []);
    var execute := [p] + ([p] + ([Work(Outcome(true, Some(raw)))] + ([p] + [])));
    before := startup + take + execute;
    after := [p] + ([p] + ([p] + []));
    StartsUp([]);
    TakesFirst(r, []);
    Publishes(r, [Work(Outcome(true, Some(raw)))] + ([p] + []));
    Executes(r, Some(raw), []);
    ExecNothing(Ready());
    ExecNothing(JustTaken(r));
    ExecNothing(JustChecked(r, Some(raw)));
    ExecAppend(Initial(), startup, take);
    ExecAppend(Initial(), startup + take, execute);
    ExecAppend(Initial(), before, [RequestCancel]);
    var w := JustChecked(r, Some(raw));
    ExecOne(w, RequestCancel, []);
    assert [RequestCancel] + [] == [RequestCancel];
    var flagged := Flagged(w);
    ExecNothing(flagged);
    ExecAppend(Initial(), before + [RequestCancel], after);
    Delivers(r, raw);
  }

  lemma ExecNothing(w: World)
    ensures Exec(w, []) == w
  {
  }

  lemma {:induction false} ExecAppend(w: World, first: seq<Action>, second: seq<Action>)
    ensures Exec(w, first + second) == Exec(Exec(w, first), second)
    decreases |first|
  {
    hide Next;
    if first == [] {
      assert first + second == second;
    } else {
      assert (first + second)[1..] == first[1..] + second;
      var next := Next(w, first[0]);
      ExecAppend(if next.Some? then next.value else w, first[1..], second);
    }
  }

  lemma SuccessIsKept(r: Request, raw: Reply)
    requires raw.success
    ensures Sanitized(r, Some(raw)) == raw.(requestId := r.id, operation := r.operation, issueCode := "")
  {
  }

  lemma Delivers(r: Request, raw: Reply)
    requires r.operation != NoOperation && raw.success
    ensures Exec(Flagged(JustChecked(r, Some(raw))), [Proceed()] + ([Proceed()] + ([Proceed()] + []))).past.answers
            == [Answer(Ticket(0, r), raw.(requestId := r.id, operation := r.operation, issueCode := ""))]
  {
    hide Exec, Sanitized, WorkStep, Next;
    SuccessIsKept(r, raw);
    var p, w := Proceed(), Flagged(JustChecked(r, Some(raw)));
    WorkIsNext(w, p.outcome);
    CompletesAndFinishes(w, p.outcome);
    var w1 := WorkStep(w, p.outcome).value;
    var w2 := WorkStep(w1, p.outcome).value;
    ExecOne(w, p, [p] + ([p] + []));
    WorkIsNext(w1, p.outcome);
    ExecOne(w1, p, [p] + []);
    WorkIsNext(w2, p.outcome);
    SetsPromise(w2, p.outcome);
    ExecOne(w2, p, []);
    ExecNothing(WorkStep(w2, p.outcome).value);
  }

  lemma CompletesAndFinishes(w: World, o: Outcome)
    requires w.local.pc == Complete && w.local.pending.Some? && Completed(w.local.lifecycle).Some?
    ensures WorkStep(w, o).Some? && WorkStep(WorkStep(w, o).value, o).Some?
    ensures var after := WorkStep(WorkStep(w, o).value, o).value;
            after.past == w.past && after.local.pc == SetPromise
            && after.local.pending == w.local.pending && after.local.reply == w.local.reply
  {
    hide Completed;
  }

  lemma SetsPromise(w: World, o: Outcome)
    requires w.local.pc == SetPromise && w.local.pending.Some? && w.local.pending.value.number !in w.past.promisesSet
    ensures WorkStep(w, o).Some?
    ensures WorkStep(w, o).value.past.answers == w.past.answers + [Answer(w.local.pending.value, w.local.reply)]
  {
  }

  /** A reachable state whose active request has a cancel pending that the published snapshot does not show. */
  lemma PublishOverwritesCancel(r: Request) returns (actions: seq<Action>)
    requires ValidRequest(r)
    ensures r.operation != NoOperation
    ensures Reached(actions).shared.active && Reached(actions).shared.cancelRequested
    ensures Reached(actions).shared.published == Snapshot(RunningState(r.operation), r.operation, false)
  {
    hide Exec, ValidRequest;
    OperationIsReal(r);
    var p := Proceed();
    var startup := [StartBegin] + ([p] + ([p] + ([p] + ([p] + ([p] + ([p] + ([StartWake] + [])))))));
    var take := [Submit(r)] + ([p] + []);
    var last := [p] + ([RequestCancel] + ([p] + []));
    actions := startup + take + last;
    StartsUp([]);
    ExecNothing(Ready());
    TakesFirst(r, []);
    ExecNothing(JustTaken(r));
    ExecAppend(Initial(), startup, take);
    ExecAppend(Initial(), startup + take, last);
    ExecOne(JustTaken(r), p, [RequestCancel] + ([p] + []));
    var w := WorkStep(JustTaken(r), p.outcome).value;
    ExecOne(w, RequestCancel, [p] + []);
    ExecOne(Flagged(w), p, []);
    ExecNothing(WorkStep(Flagged(w), p.outcome).value);
  }
}
