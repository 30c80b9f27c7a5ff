/** Every accepted request is answered after a bounded number of worker steps, with or without a shutdown on the way. */
module WorkerProgress {
  import opened Text
  import opened WorkerLifecycle
  import opened Worker
  import opened WorkerRuns

  /** Worker steps from taking a request to the next wait for work. */
  const STEPS: nat := 8

  /** Requests up to ticket n that are not answered yet. */
  function Ahead(w: World, n: nat): nat {
    if n < |w.past.answers| then 0 else n + 1 - |w.past.answers|
  }

  /** Worker steps it takes at most until ticket n is answered. */
  function Distance(w: World, n: nat): nat {
    var ahead := Ahead(w, n);
    if ahead == 0 then 0
    else
      match w.local.pc
      case CancelNext => ahead
      case TakeQueue => ahead + 1
      case WaitForWork => STEPS * ahead
      case CheckReady => STEPS * ahead + 1
      case SetPromise => STEPS * (ahead - 1) + 1
      case Finish => STEPS * (ahead - 1) + 2
      case Complete => STEPS * (ahead - 1) + 3
      case CheckCancel => STEPS * (ahead - 1) + 4
      case Execute => STEPS * (ahead - 1) + 5
      case PublishBegin => STEPS * (ahead - 1) + 6
      case Begin => STEPS * (ahead - 1) + 7
      case _ => 0
  }

  predicate Serving(pc: Pc) {
    InRequest(pc) || pc == CancelNext || pc == TakeQueue || pc == WaitForWork || pc == CheckReady
  }

  lemma SomeoneIsOwed(w: World, n: nat)
    requires Inv(w) && |w.past.answers| <= n < |w.past.accepted|
    ensures w.local.pending.Some? || w.local.cancelled != [] || w.shared.queue != []
  {
    hide PromisesInOrder, RepliesProper, LocalsFit, FlagsFit, ValidRequest;
  }

  /** While a request is owed an answer, the worker thread is there to give it. */
  lemma OwedIsServed(w: World, n: nat)
    requires Inv(w) && |w.past.answers| <= n < |w.past.accepted|
    ensures Serving(w.local.pc)
    ensures w.local.pc == WaitForWork ==> w.local.cancelled == [] && w.shared.queue != []
    ensures w.local.pc == CancelNext ==> w.local.cancelled != []
  {
    SomeoneIsOwed(w, n);
    hide Conserved, PromisesInOrder, RepliesProper, ProperReply, LifecycleFits;
  }

  /** Its next step brings the answer closer. */
  lemma WorkBringsCloser(w: World, n: nat, o: Outcome)
    requires Inv(w) && |w.past.answers| <= n < |w.past.accepted|
    ensures WorkStep(w, o).Some?
    ensures Distance(WorkStep(w, o).value, n) < Distance(w, n)
  {
    OwedIsServed(w, n);
    GuardsAreMet(w);
    hide Conserved, PromisesInOrder, RepliesProper, ProperReply, Sanitized, CancelledReply, ValidRequest, FlagsFit,
         Started, Begun, CancelRequested, Completed, ShutDown, Inv;
  }

  /** What others do does not push it back. */
  lemma ClientsDoNotPushBack(w: World, n: nat, a: Action)
    requires Inv(w) && n < |w.past.accepted| && !a.Work? && Next(w, a).Some?
    ensures Distance(Next(w, a).value, n) <= Distance(w, n)
  {
    if |w.past.answers| <= n {
      OwedIsServed(w, n);
    }
    hide Conserved, PromisesInOrder, RepliesProper, ProperReply, ValidRequest, LocalsFit;
  }

  lemma AnswersStay(w: World, a: Action)
    requires Next(w, a).Some?
    ensures |w.past.answers| <= |Next(w, a).value.past.answers|
  {
    hide ValidRequest, Sanitized, CancelledReply, Started, Begun, CancelRequested, Completed, ShutDown;
  }

  /** Given as many worker steps as the distance, ticket n is answered, whatever clients do in between. */
  lemma {:induction false} AnsweredInTime(w: World, n: nat, actions: seq<Action>)
    requires Inv(w) && n < |w.past.accepted| && Distance(w, n) <= WorkSteps(actions)
    ensures n < |Exec(w, actions).past.answers|
    decreases |actions|
  {
    hide Inv, Next, Distance;
    if actions == [] {
      NoDistance(w, n);
    } else {
      var a, next := actions[0], Next(w, actions[0]);
      if next.Some? {
        NextKeepsInv(w, a);
        RecordsGrow(w, a);
        AnswersStay(w, a);
      }
      var after := if next.Some? then next.value else w;
      if n < |after.past.answers| {
        NoDistance(after, n);
      } else if a.Work? {
        WorkIsNext(w, a.outcome);
        WorkBringsCloser(w, n, a.outcome);
      } else if next.Some? {
        ClientsDoNotPushBack(w, n, a);
      }
      AnsweredInTime(after, n, actions[1..]);
    }
  }

  lemma NoDistance(w: World, n: nat)
    requires Inv(w) && n < |w.past.accepted|
    ensures Distance(w, n) == 0 <==> n < |w.past.answers|
  {
    if |w.past.answers| <= n {
      OwedIsServed(w, n);
    }
    hide Inv;
  }

  lemma DistanceIsBounded(w: World, n: nat)
    requires Inv(w) && n < |w.past.accepted|
    ensures Distance(w, n) <= STEPS * Ahead(w, n) + 1 && Ahead(w, n) <= MAX_QUEUE + 1
  {
    if |w.past.answers| <= n {
      OwedIsServed(w, n);
    }
    hide PromisesInOrder, RepliesProper, LifecycleFits, ProperReply, ValidRequest;
  }

  /** If execute always returns, every accepted request is answered: eight worker steps for itself and for each unanswered
      request before it are enough (and one to begin), with or without a shutdown, and its promise carries the reply that it
      is owed. */
  lemma AcceptedIsAnswered(before: seq<Action>, after: seq<Action>, n: nat)
    requires n < |Reached(before).past.accepted| && WorkSteps(after) >= STEPS * Ahead(Reached(before), n) + 1
    ensures var end := Reached(before + after).past;
            n < |end.answers| && end.answers[n].ticket == Reached(before).past.accepted[n]
            && end.answers[n].reply == ExpectedReply(end, end.answers[n].ticket)
    ensures STEPS * Ahead(Reached(before), n) + 1 <= 521
  {
    hide Exec, ExpectedReply, Ahead, Distance, Inv;
    var w := Reached(before);
    ReachedHasInv(before);
    DistanceIsBounded(w, n);
    AnsweredInTime(w, n, after);
    ExecAppend(Initial(), before, after);
    RecordsGrowOverRuns(w, after);
    AcceptedAreConserved(before + after);
    RepliesAreExact(before + after);
  }
}
