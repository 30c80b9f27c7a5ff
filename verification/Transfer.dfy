/** The transfer state machine and its byte accounting in 64-bit unsigned arithmetic. */
module Transfer {
  import opened Text
  import opened Pages

  datatype State = Idle | Configured | Transferring | Cancelling | Completed | Failed
  datatype Failure =
    | NoFailure | Cancelled | FeederEmpty | PaperJam | DeviceLost | TransferLimit | InvalidImage | ProtocolError

  datatype Limits = Limits(maxPages: U32, maxPageBytes: U64, maxTotalBytes: U64, maxDimension: U32)

  predicate LimitsValid(limits: Limits) {
    limits.maxPages != 0 && limits.maxPageBytes != 0 && limits.maxTotalBytes != 0
    && limits.maxPageBytes <= limits.maxTotalBytes && limits.maxDimension != 0
  }

  /** The fields of the model. */
  datatype Model = Model(
    limits: Limits, state: State, failure: Failure, source: SourceType, requestedPages: U32, completedPages: U32,
    completedBytes: U64, currentPageBytes: U64, declaredPageBytes: U64, pageOpen: bool, shortBatch: bool)

  datatype Call =
    | Configure(source: SourceType, requestedPages: U32)
    | BeginTransfer
    | BeginPage(width: U32, height: U32, declaredBytes: U64)
    | AcceptChunk(bytes: U64)
    | CompletePage(imageValid: bool)
    | RequestCancel
    | AcknowledgeCancel
    | ReportFeederEmpty
    | ReportFailure(failure: Failure)
    | FinishTransfer

  /** std::uint64_t subtraction and addition. */
  function Sub64(a: U64, b: U64): U64 {
    (a - b) % (U64_MAX + 1)
  }

  function Add64(a: U64, b: U64): U64 {
    (a + b) % (U64_MAX + 1)
  }

  function Next32(n: U32): U32 {
    (n + 1) % (U32_MAX + 1)
  }

  function Fresh(limits: Limits): Model {
    Model(limits, Idle, NoFailure, Flatbed, 0, 0, 0, 0, 0, false, false)
  }

  function FailedWith(m: Model, failure: Failure): Model {
    m.(state := Failed, failure := failure, pageOpen := false, currentPageBytes := 0, declaredPageBytes := 0)
  }

  function Refused(m: Model, failure: Failure): (Model, bool) {
    (FailedWith(m, failure), false)
  }

  function OutOfSequence(m: Model): (Model, bool) {
    Refused(m, ProtocolError)
  }

  /** No call changes the limits, and a failed model refuses every call and keeps its counts, but not its failure. */
  predicate Kept(m: Model, r: (Model, bool)) {
    r.0.limits == m.limits
    && (m.state == Failed ==>
          r.0.state == Failed && !r.1 && r.0.completedBytes == m.completedBytes && r.0.completedPages == m.completedPages
          && r.0.failure == ProtocolError)
  }

  function ConfigureStep(m: Model, source: SourceType, requestedPages: U32): (r: (Model, bool))
    ensures Kept(m, r)
  {
    if m.state != Idle then OutOfSequence(m)
    else if requestedPages == 0 || requestedPages > m.limits.maxPages || (source == Flatbed && requestedPages != 1)
    then Refused(m, TransferLimit)
    else (m.(source := source, requestedPages := requestedPages, state := Configured), true)
  }

  function BeginTransferStep(m: Model): (r: (Model, bool))
    ensures Kept(m, r)
  {
    if m.state != Configured then OutOfSequence(m)
    else (m.(state := Transferring), true)
  }

  function BeginPageStep(m: Model, width: U32, height: U32, declaredBytes: U64): (r: (Model, bool))
    ensures Kept(m, r)
  {
    if m.state != Transferring || m.pageOpen || m.completedPages >= m.requestedPages
    then OutOfSequence(m)
    else if width == 0 || height == 0 || width > m.limits.maxDimension || height > m.limits.maxDimension
            || declaredBytes == 0 || declaredBytes > m.limits.maxPageBytes
            || declaredBytes > Sub64(m.limits.maxTotalBytes, m.completedBytes)
    then Refused(m, TransferLimit)
    else (m.(pageOpen := true, currentPageBytes := 0, declaredPageBytes := declaredBytes), true)
  }

  function AcceptChunkStep(m: Model, bytes: U64): (r: (Model, bool))
    ensures Kept(m, r)
  {
    if m.state != Transferring || !m.pageOpen || bytes == 0
    then OutOfSequence(m)
    else if bytes > Sub64(m.limits.maxPageBytes, m.currentPageBytes)
            || bytes > Sub64(Sub64(m.limits.maxTotalBytes, m.completedBytes), m.currentPageBytes)
            || bytes > Sub64(m.declaredPageBytes, m.currentPageBytes)
    then Refused(m, TransferLimit)
    else (m.(currentPageBytes := Add64(m.currentPageBytes, bytes)), true)
  }

  function CompletePageStep(m: Model, imageValid: bool): (r: (Model, bool))
    ensures Kept(m, r)
  {
    if m.state != Transferring || !m.pageOpen || m.currentPageBytes == 0 || m.currentPageBytes != m.declaredPageBytes
    then OutOfSequence(m)
    else if !imageValid then Refused(m, InvalidImage)
    else
      (m.(completedPages := Next32(m.completedPages), completedBytes := Add64(m.completedBytes, m.currentPageBytes),
          pageOpen := false, currentPageBytes := 0, declaredPageBytes := 0), true)
  }

  function RequestCancelStep(m: Model): (r: (Model, bool))
    ensures Kept(m, r)
  {
    if m.state != Transferring then OutOfSequence(m)
    else (m.(state := Cancelling), true)
  }

  function AcknowledgeCancelStep(m: Model): (r: (Model, bool))
    ensures Kept(m, r)
  {
    if m.state != Cancelling then OutOfSequence(m)
    else (FailedWith(m, Cancelled), true)
  }

  function ReportFeederEmptyStep(m: Model): (r: (Model, bool))
    ensures Kept(m, r)
  {
    if m.state != Transferring || m.pageOpen || m.source == Flatbed
    then OutOfSequence(m)
    else if m.completedPages == 0 then (FailedWith(m, FeederEmpty), true)
    else (m.(state := Completed, shortBatch := m.completedPages < m.requestedPages), true)
  }

  function ReportFailureStep(m: Model, failure: Failure): (r: (Model, bool))
    ensures Kept(m, r)
  {
    if m.state != Transferring && m.state != Cancelling
    then OutOfSequence(m)
    else if failure != PaperJam && failure != DeviceLost then OutOfSequence(m)
    else (FailedWith(m, failure), true)
  }

  function FinishTransferStep(m: Model): (r: (Model, bool))
    ensures Kept(m, r)
  {
    if m.state != Transferring || m.pageOpen then OutOfSequence(m)
    else if m.completedPages != m.requestedPages
    then Refused(m, ProtocolError)
    else (m.(state := Completed), true)
  }

  /** The model after a call, and whether it was accepted rather than thrown out. */
  function Step(m: Model, call: Call): (r: (Model, bool))
    ensures Kept(m, r)
  {
    match call
    case Configure(source, requestedPages) => ConfigureStep(m, source, requestedPages)
    case BeginTransfer => BeginTransferStep(m)
    case BeginPage(width, height, declaredBytes) => BeginPageStep(m, width, height, declaredBytes)
    case AcceptChunk(bytes) => AcceptChunkStep(m, bytes)
    case CompletePage(imageValid) => CompletePageStep(m, imageValid)
    case RequestCancel => RequestCancelStep(m)
    case AcknowledgeCancel => AcknowledgeCancelStep(m)
    case ReportFeederEmpty => ReportFeederEmptyStep(m)
    case ReportFailure(failure) => ReportFailureStep(m, failure)
    case FinishTransfer => FinishTransferStep(m)
  }

  function Run(m: Model, calls: seq<Call>): Model
    decreases |calls|
  {
    if calls == [] then m else Run(Step(m, calls[0]).0, calls[1..])
  }

  // --------------------------------------------------------- an honest ledger

  function Sum(sizes: seq<nat>): nat {
    if sizes == [] then 0 else Sum(sizes[..|sizes| - 1]) + sizes[|sizes| - 1]
  }

  /** What a bystander notes down in unbounded numbers: the sizes of the completed pages
      and the bytes of the page in progress. */
  datatype Ledger = Ledger(done: seq<nat>, open: nat)

  const BLANK_LEDGER := Ledger([], 0)

  /** The ledger after a call, from the call and its acceptance alone. */
  function Noted(l: Ledger, call: Call, accepted: bool): Ledger {
    if !accepted then l
    else match call
      case BeginPage(_, _, _) => l.(open := 0)
      case AcceptChunk(bytes) => l.(open := l.open + bytes)
      case CompletePage(_) => Ledger(l.done + [l.open], 0)
      case _ => l
  }

  function LedgerOf(m: Model, calls: seq<Call>, l: Ledger): Ledger
    decreases |calls|
  {
    if calls == [] then l else LedgerOf(Step(m, calls[0]).0, calls[1..], Noted(l, calls[0], Step(m, calls[0]).1))
  }

  /** The model agrees with the ledger and respects its limits. */
  predicate Accounted(m: Model, l: Ledger) {
    LimitsValid(m.limits)
    && m.completedPages == |l.done| && m.completedBytes == Sum(l.done) && m.completedBytes <= m.limits.maxTotalBytes
    && (forall i :: 0 <= i < |l.done| ==> 0 < l.done[i] <= m.limits.maxPageBytes)
    && m.completedPages <= m.requestedPages <= m.limits.maxPages
    && (m.pageOpen ==>
          m.currentPageBytes == l.open
          && m.completedPages < m.requestedPages
          && m.currentPageBytes <= m.declaredPageBytes <= m.limits.maxPageBytes
          && m.completedBytes + m.declaredPageBytes <= m.limits.maxTotalBytes)
    && (!m.pageOpen ==> m.currentPageBytes == 0 && m.declaredPageBytes == 0)
    && (m.pageOpen ==> m.state == Transferring || m.state == Cancelling)
    && (m.state == Idle || m.state == Configured ==> l.done == [])
    && (m.state == Idle ==> m.requestedPages == 0)
    && (m.state != Idle && m.state != Failed ==> m.requestedPages > 0 && (m.source == Flatbed ==> m.requestedPages == 1))
    && (m.failure == NoFailure <==> m.state != Failed)
    && (m.shortBatch ==> m.state == Completed || m.state == Failed)
    && (m.state == Completed ==>
          if m.shortBatch then 0 < |l.done| < m.requestedPages && m.source != Flatbed else |l.done| == m.requestedPages)
  }

  lemma SumAppend(sizes: seq<nat>, size: nat)
    ensures Sum(sizes + [size]) == Sum(sizes) + size
  {
    assert (sizes + [size])[..|sizes|] == sizes;
  }

  lemma FailingKeepsAccounts(m: Model, l: Ledger, failure: Failure)
    requires Accounted(m, l) && failure != NoFailure
    ensures Accounted(FailedWith(m, failure), l)
  {
  }

  lemma BeginPageKeepsAccounts(m: Model, l: Ledger, width: U32, height: U32, bytes: U64)
    requires Accounted(m, l)
    ensures var r := BeginPageStep(m, width, height, bytes);
            Accounted(r.0, Noted(l, BeginPage(width, height, bytes), r.1))
  {
    hide FailedWith;
    FailingKeepsAccounts(m, l, ProtocolError);
    FailingKeepsAccounts(m, l, TransferLimit);
  }

  lemma AcceptChunkKeepsAccounts(m: Model, l: Ledger, bytes: U64)
    requires Accounted(m, l)
    ensures var r := AcceptChunkStep(m, bytes);
            Accounted(r.0, Noted(l, AcceptChunk(bytes), r.1))
  {
    hide FailedWith, Sub64, Add64, Next32, Sum;
    NothingWraps(m, l, bytes);
    FailingKeepsAccounts(m, l, ProtocolError);
    FailingKeepsAccounts(m, l, TransferLimit);
  }

  lemma CompletePageKeepsAccounts(m: Model, l: Ledger, imageValid: bool)
    requires Accounted(m, l)
    ensures var r := CompletePageStep(m, imageValid);
            Accounted(r.0, Noted(l, CompletePage(imageValid), r.1))
  {
    hide FailedWith, Sum;
    FailingKeepsAccounts(m, l, ProtocolError);
    FailingKeepsAccounts(m, l, InvalidImage);
    SumAppend(l.done, l.open);
  }

  lemma SetupStepsKeepAccounts(m: Model, l: Ledger, source: SourceType, requestedPages: U32)
    requires Accounted(m, l)
    ensures Accounted(ConfigureStep(m, source, requestedPages).0, l)
    ensures Accounted(BeginTransferStep(m).0, l)
  {
  }

  lemma CancelStepsKeepAccounts(m: Model, l: Ledger)
    requires Accounted(m, l)
    ensures Accounted(RequestCancelStep(m).0, l) && Accounted(AcknowledgeCancelStep(m).0, l)
  {
  }

  lemma EndStepsKeepAccounts(m: Model, l: Ledger, failure: Failure)
    requires Accounted(m, l)
    ensures Accounted(ReportFailureStep(m, failure).0, l) && Accounted(FinishTransferStep(m).0, l)
  {
    hide FailedWith, Sum;
    FailingKeepsAccounts(m, l, ProtocolError);
    FailingKeepsAccounts(m, l, PaperJam);
    FailingKeepsAccounts(m, l, DeviceLost);
  }

  lemma FeederEmptyKeepsAccounts(m: Model, l: Ledger)
    requires Accounted(m, l)
    ensures Accounted(ReportFeederEmptyStep(m).0, l)
  {
    hide FailedWith, Sum;
    FailingKeepsAccounts(m, l, ProtocolError);
    FailingKeepsAccounts(m, l, FeederEmpty);
  }

  lemma StepKeepsAccounts(m: Model, call: Call, l: Ledger)
    requires Accounted(m, l)
    ensures Accounted(Step(m, call).0, Noted(l, call, Step(m, call).1))
  {
    hide Accounted, ConfigureStep, BeginTransferStep, BeginPageStep, AcceptChunkStep, CompletePageStep, RequestCancelStep, AcknowledgeCancelStep, ReportFeederEmptyStep, ReportFailureStep, FinishTransferStep;
    match call
    case Configure(source, requestedPages) => SetupStepsKeepAccounts(m, l, source, requestedPages);
    case BeginTransfer => SetupStepsKeepAccounts(m, l, Flatbed, 1);
    case BeginPage(width, height, bytes) => BeginPageKeepsAccounts(m, l, width, height, bytes);
    case AcceptChunk(bytes) => AcceptChunkKeepsAccounts(m, l, bytes);
    case CompletePage(imageValid) => CompletePageKeepsAccounts(m, l, imageValid);
    case ReportFailure(failure) => EndStepsKeepAccounts(m, l, failure);
    case ReportFeederEmpty => FeederEmptyKeepsAccounts(m, l);
    case FinishTransfer => EndStepsKeepAccounts(m, l, PaperJam);
    case _ => CancelStepsKeepAccounts(m, l);
  }

  /** After any calls, rejected ones included, the counters are the ledger's. */
  lemma {:induction false} RunKeepsAccounts(m: Model, calls: seq<Call>, l: Ledger)
    requires Accounted(m, l)
    ensures Accounted(Run(m, calls), LedgerOf(m, calls, l))
    decreases |calls|
  {
    hide Accounted, Step;
    if calls != [] {
      StepKeepsAccounts(m, calls[0], l);
      RunKeepsAccounts(Step(m, calls[0]).0, calls[1..], Noted(l, calls[0], Step(m, calls[0]).1));
    }
  }

  lemma FreshIsAccounted(limits: Limits)
    requires LimitsValid(limits)
    ensures Accounted(Fresh(limits), BLANK_LEDGER)
  {
  }

  /** What a transfer of any length reports. */
  lemma OutcomeIsHonest(limits: Limits, calls: seq<Call>)
    requires LimitsValid(limits)
    ensures var m := Run(Fresh(limits), calls);
            var sizes := LedgerOf(Fresh(limits), calls, BLANK_LEDGER).done;
            m.completedPages == |sizes| && m.completedBytes == Sum(sizes) <= limits.maxTotalBytes
            && (m.state == Completed ==>
                  if m.shortBatch then 0 < |sizes| < m.requestedPages && m.source != Flatbed
                  else |sizes| == m.requestedPages)
  {
    hide Step;
    FreshIsAccounted(limits);
    RunKeepsAccounts(Fresh(limits), calls, BLANK_LEDGER);
    LimitsStay(Fresh(limits), calls);
  }

  lemma {:induction false} LimitsStay(m: Model, calls: seq<Call>)
    ensures Run(m, calls).limits == m.limits
    decreases |calls|
  {
    hide Step;
    if calls != [] {
      assert Kept(m, Step(m, calls[0]));
      LimitsStay(Step(m, calls[0]).0, calls[1..]);
    }
  }

  /** No subtraction wraps, and in accept_chunk the last guard decides alone. */
  lemma NothingWraps(m: Model, l: Ledger, bytes: U64)
    requires Accounted(m, l)
    ensures Sub64(m.limits.maxTotalBytes, m.completedBytes) == m.limits.maxTotalBytes - m.completedBytes
    ensures m.pageOpen ==>
              Sub64(m.limits.maxPageBytes, m.currentPageBytes) == m.limits.maxPageBytes - m.currentPageBytes
              && Sub64(Sub64(m.limits.maxTotalBytes, m.completedBytes), m.currentPageBytes)
                 == m.limits.maxTotalBytes - m.completedBytes - m.currentPageBytes
              && Sub64(m.declaredPageBytes, m.currentPageBytes) == m.declaredPageBytes - m.currentPageBytes
    ensures m.pageOpen && bytes <= m.declaredPageBytes - m.currentPageBytes ==>
              bytes <= m.limits.maxPageBytes - m.currentPageBytes
              && bytes <= m.limits.maxTotalBytes - m.completedBytes - m.currentPageBytes
              && Add64(m.currentPageBytes, bytes) == m.currentPageBytes + bytes
    ensures m.pageOpen ==> Add64(m.completedBytes, m.currentPageBytes) == m.completedBytes + m.currentPageBytes
    ensures m.pageOpen ==> Next32(m.completedPages) == m.completedPages + 1
  {
    hide Sub64, Add64, Next32, Sum;
    SubFits(m.limits.maxTotalBytes, m.completedBytes);
    if m.pageOpen {
      SubFits(m.limits.maxPageBytes, m.currentPageBytes);
      SubFits(m.limits.maxTotalBytes - m.completedBytes, m.currentPageBytes);
      SubFits(m.declaredPageBytes, m.currentPageBytes);
      AddFits(m.completedBytes, m.currentPageBytes);
      NextFits(m.completedPages);
      if bytes <= m.declaredPageBytes - m.currentPageBytes {
        AddFits(m.currentPageBytes, bytes);
      }
    }
  }

  lemma SubFits(a: U64, b: U64)
    requires b <= a
    ensures Sub64(a, b) == a - b
  {
  }

  lemma AddFits(a: U64, b: U64)
    requires a + b <= U64_MAX
    ensures Add64(a, b) == a + b
  {
  }

  lemma NextFits(n: U32)
    requires n < U32_MAX
    ensures Next32(n) == n + 1
  {
  }

  /** A chunk is accepted exactly when it fits into what the open page still lacks. */
  lemma ChunkAcceptedIffItFits(m: Model, l: Ledger, bytes: U64)
    requires Accounted(m, l)
    ensures Step(m, AcceptChunk(bytes)).1
            <==> m.state == Transferring && m.pageOpen && 0 < bytes <= m.declaredPageBytes - m.currentPageBytes
  {
    NothingWraps(m, l, bytes);
  }

  /** A failed transfer stays failed and keeps its counts, whatever is called; it keeps its failure exactly until the
      next call, which makes it a protocol error. */
  lemma {:induction false} FailedForever(m: Model, calls: seq<Call>)
    requires m.state == Failed
    ensures Run(m, calls).state == Failed
    ensures Run(m, calls).completedBytes == m.completedBytes && Run(m, calls).completedPages == m.completedPages
    ensures Run(m, calls).failure == if calls == [] then m.failure else ProtocolError
    decreases |calls|
  {
    hide Step;
    if calls != [] {
      assert Kept(m, Step(m, calls[0]));
      FailedForever(Step(m, calls[0]).0, calls[1..]);
    }
  }

  /** The calls of a transfer that is cancelled. */
  function CancelledRun(): seq<Call> {
    [Configure(Flatbed, 1), BeginTransfer, RequestCancel, AcknowledgeCancel]
  }

  lemma {:induction false} RunAppend(m: Model, first: seq<Call>, last: Call)
    ensures Run(m, first + [last]) == Step(Run(m, first), last).0
    decreases |first|
  {
    hide Step;
    if first == [] {
      assert first + [last] == [last] && [last][1..] == [];
      assert Run(m, [last]) == Run(Step(m, last).0, []);
    } else {
      assert (first + [last])[1..] == first[1..] + [last];
      RunAppend(Step(m, first[0]).0, first[1..], last);
    }
  }

  /** A cancelled transfer reports its cancellation until any further call is made, and a protocol error from then on. */
  lemma StrayCallHidesCancellation(limits: Limits, stray: Call, calls: seq<Call>)
    requires LimitsValid(limits)
    ensures Run(Fresh(limits), CancelledRun()).state == Failed && Run(Fresh(limits), CancelledRun()).failure == Cancelled
    ensures Run(Run(Fresh(limits), CancelledRun()), [stray] + calls).failure == ProtocolError
  {
    var c := CancelledRun();
    RunAppend(Fresh(limits), [], c[0]);
    RunAppend(Fresh(limits), [c[0]], c[1]);
    RunAppend(Fresh(limits), [c[0], c[1]], c[2]);
    RunAppend(Fresh(limits), [c[0], c[1], c[2]], c[3]);
    assert [] + [c[0]] == [c[0]] && [c[0]] + [c[1]] == [c[0], c[1]] && [c[0], c[1]] + [c[2]] == [c[0], c[1], c[2]];
    assert [c[0], c[1], c[2]] + [c[3]] == c;
    hide Step;
    FailedForever(Run(Fresh(limits), c), [stray] + calls);
  }

  // -------------------------------------------------------------------- class

  class WiaTransferModel {
    const limits: Limits
    var state: State
    var failure: Failure
    var source: SourceType
    var requestedPages: U32
    var completedPages: U32
    var completedBytes: U64
    var currentPageBytes: U64
    var declaredPageBytes: U64
    var pageOpen: bool
    var shortBatch: bool

    function View(): Model
      reads this
    {
      Model(limits, state, failure, source, requestedPages, completedPages, completedBytes, currentPageBytes,
            declaredPageBytes, pageOpen, shortBatch)
    }

    /** What a caller sees of the constructor: limits that make no sense are refused. */
    static method Create(limits: Limits) returns (model: Result<WiaTransferModel>)
      ensures model == Err("transfer limits are invalid") <==> !LimitsValid(limits)
      ensures model.Ok? ==> fresh(model.value) && model.value.View() == Fresh(limits)
      ensures model.Ok? || model == Err("transfer limits are invalid")
    {
      if limits.maxPages == 0 || limits.maxPageBytes == 0 || limits.maxTotalBytes == 0
         || limits.maxPageBytes > limits.maxTotalBytes || limits.maxDimension == 0 {
        return Err("transfer limits are invalid");
      }
      var created := new WiaTransferModel(limits);
      return Ok(created);
    }

    constructor (limits: Limits)
      requires LimitsValid(limits)
      ensures View() == Fresh(limits)
    {
      this.limits := limits;
      state, failure, source := Idle, NoFailure, Flatbed;
      requestedPages, completedPages := 0, 0;
      completedBytes, currentPageBytes, declaredPageBytes := 0, 0, 0;
      pageOpen, shortBatch := false, false;
    }

    method Fail(failure: Failure)
      modifies this
      ensures View() == FailedWith(old(View()), failure)
    {
      state := Failed;
      this.failure := failure;
      pageOpen := false;
      currentPageBytes := 0;
      declaredPageBytes := 0;
    }

    method Configure(source: SourceType, requestedPages: U32) returns (accepted: bool)
      modifies this
      ensures (View(), accepted) == Step(old(View()), Call.Configure(source, requestedPages))
    {
      if state != Idle {
        Fail(ProtocolError);
        return false;
      }
      if requestedPages == 0 || requestedPages > limits.maxPages || (source == Flatbed && requestedPages != 1) {
        Fail(TransferLimit);
        return false;
      }
      this.source := source;
      this.requestedPages := requestedPages;
      state := Configured;
      accepted := true;
    }

    method BeginTransfer() returns (accepted: bool)
      modifies this
      ensures (View(), accepted) == Step(old(View()), Call.BeginTransfer)
    {
      if state != Configured {
        Fail(ProtocolError);
        return false;
      }
      state := Transferring;
      accepted := true;
    }

    method BeginPage(width: U32, height: U32, declaredBytes: U64) returns (accepted: bool)
      modifies this
      ensures (View(), accepted) == Step(old(View()), Call.BeginPage(width, height, declaredBytes))
    {
      if state != Transferring || pageOpen || completedPages >= requestedPages {
        Fail(ProtocolError);
        return false;
      }
      if width == 0 || height == 0 || width > limits.maxDimension || height > limits.maxDimension
         || declaredBytes == 0 || declaredBytes > limits.maxPageBytes
         || declaredBytes > Sub64(limits.maxTotalBytes, completedBytes) {
        Fail(TransferLimit);
        return false;
      }
      pageOpen := true;
      currentPageBytes := 0;
      declaredPageBytes := declaredBytes;
      accepted := true;
    }

    method AcceptChunk(bytes: U64) returns (accepted: bool)
      modifies this
      ensures (View(), accepted) == Step(old(View()), Call.AcceptChunk(bytes))
    {
      if state != Transferring || !pageOpen || bytes == 0 {
        Fail(ProtocolError);
        return false;
      }
      if bytes > Sub64(limits.maxPageBytes, currentPageBytes)
         || bytes > Sub64(Sub64(limits.maxTotalBytes, completedBytes), currentPageBytes)
         || bytes > Sub64(declaredPageBytes, currentPageBytes) {
        Fail(TransferLimit);
        return false;
      }
      currentPageBytes := Add64(currentPageBytes, bytes);
      accepted := true;
    }

    method CompletePage(imageValid: bool) returns (accepted: bool)
      modifies this
      ensures (View(), accepted) == Step(old(View()), Call.CompletePage(imageValid))
    {
      if state != Transferring || !pageOpen || currentPageBytes == 0 || currentPageBytes != declaredPageBytes {
        Fail(ProtocolError);
        return false;
      }
      if !imageValid {
        Fail(InvalidImage);
        return false;
      }
      completedPages := Next32(completedPages);
      completedBytes := Add64(completedBytes, currentPageBytes);
      pageOpen := false;
      currentPageBytes := 0;
      declaredPageBytes := 0;
      accepted := true;
    }

    method RequestCancel() returns (accepted: bool)
      modifies this
      ensures (View(), accepted) == Step(old(View()), Call.RequestCancel)
    {
      if state != Transferring {
        Fail(ProtocolError);
        return false;
      }
      state := Cancelling;
      accepted := true;
    }

    method AcknowledgeCancel() returns (accepted: bool)
      modifies this
      ensures (View(), accepted) == Step(old(View()), Call.AcknowledgeCancel)
    {
      if state != Cancelling {
        Fail(ProtocolError);
        return false;
      }
      Fail(Cancelled);
      accepted := true;
    }

    method ReportFeederEmpty() returns (accepted: bool)
      modifies this
      ensures (View(), accepted) == Step(old(View()), Call.ReportFeederEmpty)
    {
      if state != Transferring || pageOpen || source == Flatbed {
        Fail(ProtocolError);
        return false;
      }
      if completedPages == 0 {
        Fail(FeederEmpty);
        return true;
      }
      state := Completed;
      shortBatch := completedPages < requestedPages;
      accepted := true;
    }

    method ReportFailure(failure: Failure) returns (accepted: bool)
      modifies this
      ensures (View(), accepted) == Step(old(View()), Call.ReportFailure(failure))
    {
      if state != Transferring && state != Cancelling {
        Fail(ProtocolError);
        return false;
      }
      if failure != PaperJam && failure != DeviceLost {
        Fail(ProtocolError);
        return false;
      }
      Fail(failure);
      accepted := true;
    }

    method FinishTransfer() returns (accepted: bool)
      modifies this
      ensures (View(), accepted) == Step(old(View()), Call.FinishTransfer)
    {
      if state != Transferring || pageOpen {
        Fail(ProtocolError);
        return false;
      }
      if completedPages != requestedPages {
        Fail(ProtocolError);
        return false;
      }
      state := Completed;
      accepted := true;
    }
  }
}
