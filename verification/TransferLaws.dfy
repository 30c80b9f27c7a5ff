/** When each call on the transfer is accepted, why it is refused otherwise, and what it leaves, in numbers without a limit. */
module TransferLaws {
  import opened Text
  import opened Pages
  import opened Transfer

  /** The call comes at the right moment. */
  predicate InSequence(m: Model, call: Call) {
    match call
    case Configure(_, _) => m.state == Idle
    case BeginTransfer => m.state == Configured
    case BeginPage(_, _, _) => m.state == Transferring && !m.pageOpen && m.completedPages < m.requestedPages
    case AcceptChunk(bytes) => m.state == Transferring && m.pageOpen && bytes > 0
    case CompletePage(_) =>
      m.state == Transferring && m.pageOpen && 0 < m.currentPageBytes && m.currentPageBytes == m.declaredPageBytes
    case RequestCancel => m.state == Transferring
    case AcknowledgeCancel => m.state == Cancelling
    case ReportFeederEmpty => m.state == Transferring && !m.pageOpen && (m.source == AdfSimplex || m.source == AdfDuplex)
    case ReportFailure(failure) =>
      (m.state == Transferring || m.state == Cancelling) && (failure == PaperJam || failure == DeviceLost)
    case FinishTransfer => m.state == Transferring && !m.pageOpen
  }

  /** What it asks for is within the limits and the image is good. */
  predicate WithinLimits(m: Model, call: Call) {
    match call
    case Configure(source, pages) => 1 <= pages <= m.limits.maxPages && (source == Flatbed ==> pages == 1)
    case BeginPage(width, height, bytes) =>
      1 <= width <= m.limits.maxDimension && 1 <= height <= m.limits.maxDimension
      && 1 <= bytes <= m.limits.maxPageBytes && m.completedBytes + bytes <= m.limits.maxTotalBytes
    case AcceptChunk(bytes) => m.currentPageBytes + bytes <= m.declaredPageBytes
    case CompletePage(imageValid) => imageValid
    case FinishTransfer => m.completedPages == m.requestedPages
    case _ => true
  }

  /** What a refused call fails the transfer with. */
  function WhyNot(m: Model, call: Call): Failure {
    if !InSequence(m, call) then ProtocolError
    else match call
      case CompletePage(_) => InvalidImage
      case FinishTransfer => ProtocolError
      case _ => TransferLimit
  }

  /** A failed transfer: the failure is recorded, no page is open, the counts stay. */
  predicate FailsWith(m: Model, failure: Failure, after: Model) {
    after.state == Failed && after.failure == failure && !after.pageOpen && after.currentPageBytes == 0
    && after.declaredPageBytes == 0 && SameCounts(m, after) && SameJob(m, after) && after.shortBatch == m.shortBatch
  }

  predicate SameCounts(m: Model, after: Model) {
    after.completedPages == m.completedPages && after.completedBytes == m.completedBytes
  }

  predicate SameJob(m: Model, after: Model) {
    after.limits == m.limits && after.source == m.source && after.requestedPages == m.requestedPages
  }

  predicate SamePage(m: Model, after: Model) {
    after.pageOpen == m.pageOpen && after.currentPageBytes == m.currentPageBytes
    && after.declaredPageBytes == m.declaredPageBytes
  }

  predicate SameOutcome(m: Model, after: Model) {
    after.state == m.state && after.failure == m.failure && after.shortBatch == m.shortBatch
  }

  /** What an accepted call does. */
  predicate Effect(m: Model, call: Call, after: Model) {
    match call
    case Configure(source, pages) =>
      after.state == Configured && after.source == source && after.requestedPages == pages && after.limits == m.limits
      && SameCounts(m, after) && SamePage(m, after) && after.failure == m.failure && after.shortBatch == m.shortBatch
    case BeginTransfer =>
      after.state == Transferring && SameJob(m, after) && SameCounts(m, after) && SamePage(m, after)
      && after.failure == m.failure && after.shortBatch == m.shortBatch
    case BeginPage(_, _, bytes) =>
      after.pageOpen && after.currentPageBytes == 0 && after.declaredPageBytes == bytes
      && SameJob(m, after) && SameCounts(m, after) && SameOutcome(m, after)
    case AcceptChunk(bytes) =>
      after.pageOpen && after.currentPageBytes == m.currentPageBytes + bytes && after.declaredPageBytes == m.declaredPageBytes
      && SameJob(m, after) && SameCounts(m, after) && SameOutcome(m, after)
    case CompletePage(_) =>
      !after.pageOpen && after.currentPageBytes == 0 && after.declaredPageBytes == 0
      && after.completedPages == m.completedPages + 1 && after.completedBytes == m.completedBytes + m.declaredPageBytes
      && SameJob(m, after) && SameOutcome(m, after)
    case RequestCancel =>
      after.state == Cancelling && SameJob(m, after) && SameCounts(m, after) && SamePage(m, after)
      && after.failure == m.failure && after.shortBatch == m.shortBatch
    case AcknowledgeCancel => FailsWith(m, Cancelled, after)
    case ReportFeederEmpty =>
      if m.completedPages == 0 then FailsWith(m, FeederEmpty, after)
      else
        after.state == Completed && after.shortBatch == (m.completedPages < m.requestedPages)
        && SameJob(m, after) && SameCounts(m, after) && SamePage(m, after) && after.failure == m.failure
    case ReportFailure(failure) => FailsWith(m, failure, after)
    case FinishTransfer =>
      after.state == Completed && SameJob(m, after) && SameCounts(m, after) && SamePage(m, after)
      && after.failure == m.failure && after.shortBatch == m.shortBatch
  }

  lemma ArithmeticIsExact(m: Model, l: Ledger, bytes: U64)
    requires Accounted(m, l)
    ensures Sub64(m.limits.maxTotalBytes, m.completedBytes) == m.limits.maxTotalBytes - m.completedBytes
    ensures m.state == Transferring && m.pageOpen ==>
              Sub64(m.limits.maxPageBytes, m.currentPageBytes) == m.limits.maxPageBytes - m.currentPageBytes
              && Sub64(Sub64(m.limits.maxTotalBytes, m.completedBytes), m.currentPageBytes)
                 == m.limits.maxTotalBytes - m.completedBytes - m.currentPageBytes
              && Sub64(m.declaredPageBytes, m.currentPageBytes) == m.declaredPageBytes - m.currentPageBytes
              && (m.currentPageBytes + bytes <= m.declaredPageBytes ==>
                    Add64(m.currentPageBytes, bytes) == m.currentPageBytes + bytes)
              && (m.currentPageBytes == m.declaredPageBytes ==>
                    Add64(m.completedBytes, m.currentPageBytes) == m.completedBytes + m.declaredPageBytes
                    && Next32(m.completedPages) == m.completedPages + 1)
  {
    hide Sub64, Add64, Next32, Sum;
    SmallIsExact(m.limits.maxTotalBytes, m.completedBytes);
    SmallIsExact(m.limits.maxPageBytes, m.currentPageBytes);
    SmallIsExact(m.limits.maxTotalBytes - m.completedBytes, m.currentPageBytes);
    SmallIsExact(m.declaredPageBytes, m.currentPageBytes);
    SmallIsExact(m.currentPageBytes, bytes);
    SmallIsExact(m.completedBytes, m.currentPageBytes);
    OneMoreIsExact(m.completedPages);
  }

  lemma SmallIsExact(a: U64, b: U64)
    ensures b <= a ==> Sub64(a, b) == a - b
    ensures a + b <= U64_MAX ==> Add64(a, b) == a + b
  {
  }

  lemma OneMoreIsExact(n: U32)
    ensures n < U32_MAX ==> Next32(n) == n + 1
  {
  }

  /** On any transfer that was reached by calls, each call is accepted exactly at the right moment and within the limits, and
      then does this and nothing else; otherwise the transfer fails, for this reason. */
  lemma EveryCallIsAnswered(m: Model, l: Ledger, call: Call)
    requires Accounted(m, l)
    ensures var (after, ok) := Step(m, call);
            (ok <==> InSequence(m, call) && WithinLimits(m, call))
            && (ok ==> Effect(m, call, after)) && (!ok ==> FailsWith(m, WhyNot(m, call), after))
  {
    hide Sub64, Add64, Next32, Accounted;
    ArithmeticIsExact(m, l, if call.AcceptChunk? then call.bytes else 0);
    PagesAreCounted(m, l);
  }

  lemma PagesAreCounted(m: Model, l: Ledger)
    requires Accounted(m, l)
    ensures m.completedPages <= m.requestedPages && (!m.pageOpen ==> m.currentPageBytes == 0 && m.declaredPageBytes == 0)
    ensures m.pageOpen ==> m.currentPageBytes <= m.declaredPageBytes <= m.limits.maxPageBytes
                           && m.completedBytes + m.declaredPageBytes <= m.limits.maxTotalBytes
  {
  }

  /** The same over whole runs. */
  lemma EveryCallOfARun(limits: Limits, calls: seq<Call>, call: Call)
    requires LimitsValid(limits)
    ensures var m := Run(Fresh(limits), calls);
            var (after, ok) := Step(m, call);
            (ok <==> InSequence(m, call) && WithinLimits(m, call))
            && (ok ==> Effect(m, call, after)) && (!ok ==> FailsWith(m, WhyNot(m, call), after))
  {
    hide Accounted, Step, InSequence, WithinLimits, Effect, FailsWith, WhyNot;
    FreshIsAccounted(limits);
    RunKeepsAccounts(Fresh(limits), calls, BLANK_LEDGER);
    EveryCallIsAnswered(Run(Fresh(limits), calls), LedgerOf(Fresh(limits), calls, BLANK_LEDGER), call);
  }
}
