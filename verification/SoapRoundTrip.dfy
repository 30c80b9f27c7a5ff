/** Every field of a job request is read back from its text. */
module SoapRoundTrip {
  import opened Text
  import opened WsdSafety
  import opened XmlText
  import opened Soap

  // ------------------------------------------------------------ tags as markup

  predicate Plain(s: string) {
    '<' !in s && '>' !in s
  }

  lemma PlainConcat(a: string, b: string)
    requires Plain(a) && Plain(b)
    ensures Plain(a + b)
  {
  }

  lemma ScanNamespaceIsPlain()
    ensures Plain(ScanNamespace())
  {
    PlainConcat("http://schemas.microsoft.com/", "windows/2006/08/wdp/scan");
  }

  lemma SoapNamespaceIsPlain()
    ensures Plain(SoapNamespace())
  {
  }

  lemma AddressingNamespaceIsPlain()
    ensures Plain(AddressingNamespace())
  {
    PlainConcat("http://schemas.xmlsoap.org/", "ws/2004/08/addressing");
  }

  lemma DeclarationsArePlain()
    ensures Plain(Namespaces()) && Namespaces() != "" && Namespaces()[0] == ' '
  {
    hide ScanNamespace, SoapNamespace, AddressingNamespace;
    ScanNamespaceIsPlain();
    SoapNamespaceIsPlain();
    AddressingNamespaceIsPlain();
  }

  predicate IsOuter(e: Element) {
    e.Envelope? || e.SoapHeader? || e.SoapBody? || e.Action? || e.MessageId? || e.To? || e.RelatesTo?
  }

  predicate IsTicketPart(e: Element) {
    e.CreateScanJobRequest? || e.ScanTicket? || e.DocumentParameters? || e.DocumentFormat? || e.ImagesToTransfer?
  }

  predicate IsMediaPart(e: Element) {
    e.Source? || e.MediaSides? || e.MediaFront? || e.ColorProcessing? || e.Resolution? || e.Width? || e.Height?
  }

  predicate IsJobPart(e: Element) {
    e.RetrieveImageRequest? || e.JobId? || e.JobToken? || e.DocumentDescription? || e.DocumentName? || e.CancelJobRequest?
  }

  lemma PartOfOne(e: Element)
    ensures IsOuter(e) || IsTicketPart(e) || IsMediaPart(e) || IsJobPart(e)
  {
  }

  predicate OutsideNames(c: char) {
    c == ' ' || c == '<' || c == '>'
  }

  lemma OuterNamesAvoid(e: Element, c: char)
    requires OutsideNames(c) && IsOuter(e)
    ensures c !in Name(e)
  {
  }

  lemma TicketNamesAvoid(e: Element, c: char)
    requires OutsideNames(c) && IsTicketPart(e)
    ensures c !in Name(e)
  {
  }

  lemma MediaNamesAvoid(e: Element, c: char)
    requires OutsideNames(c) && IsMediaPart(e)
    ensures c !in Name(e)
  {
  }

  lemma JobNamesAvoid(e: Element, c: char)
    requires OutsideNames(c) && IsJobPart(e)
    ensures c !in Name(e)
  {
  }

  lemma NamesAvoid(e: Element, c: char)
    requires OutsideNames(c)
    ensures c !in Name(e)
  {
    hide Name, IsOuter, IsTicketPart, IsMediaPart, IsJobPart;
    PartOfOne(e);
    if IsOuter(e) {
      OuterNamesAvoid(e, c);
    } else if IsTicketPart(e) {
      TicketNamesAvoid(e, c);
    } else if IsMediaPart(e) {
      MediaNamesAvoid(e, c);
    } else {
      JobNamesAvoid(e, c);
    }
  }

  lemma NamesArePlain(e: Element)
    ensures Plain(Name(e)) && ' ' !in Name(e)
  {
    hide Name;
    NamesAvoid(e, '<');
    NamesAvoid(e, '>');
    NamesAvoid(e, ' ');
  }

  lemma NamesStartWithLetter(e: Element)
    ensures |Name(e)| >= 1 && (Name(e)[0] == 's' || Name(e)[0] == 'w')
  {
  }

  lemma NameInjective(a: Element, b: Element)
    requires Name(a) == Name(b)
    ensures a == b
  {
  }

  lemma {:induction false} AngledIsMarkup(front: string, middle: string)
    requires (front == "<" || front == "</" || front == "<?") && Plain(middle)
    ensures IsMarkup(front + (middle + ">"))
  {
    var mark := front + (middle + ">");
    forall i | |front| <= i < |mark| - 1
      ensures mark[i] != '<' && mark[i] != '>'
    {
      assert mark[i] == middle[i - |front|];
    }
  }

  lemma DeclarationIsMarkup()
    ensures IsMarkup(Printed(Declaration))
  {
    hide IsMarkup, Plain, DeclarationText;
    DeclarationTextIsPlain();
    AngledIsMarkup("<?", DeclarationText());
  }

  lemma DeclarationTextIsPlain()
    ensures Plain(DeclarationText())
  {
  }

  /** Each tag prints as one piece of markup. */
  lemma PrintedIsMarkup(t: Tag)
    ensures IsMarkup(Printed(t))
  {
    hide IsMarkup, Name, Namespaces;
    match t
    case Declaration => DeclarationIsMarkup();
    case Start(e) =>
      NamesArePlain(e);
      if e == Envelope {
        DeclarationsArePlain();
        PlainConcat(Name(e), Namespaces());
        AngledIsMarkup("<", Name(e) + Namespaces());
        assert Name(e) + Namespaces() + ">" == Name(e) + (Namespaces() + ">");
      } else {
        AngledIsMarkup("<", Name(e));
      }
    case End(e) =>
      NamesArePlain(e);
      AngledIsMarkup("</", Name(e));
  }

  /** A text up to the first of the characters that end a name. */
  lemma SameUpTo(m: string, x: string, n: string, y: string)
    requires m + x == n + y && x != "" && y != "" && x[0] !in n && y[0] !in m
    ensures m == n
  {
    assert (m + x)[|m|] == x[0] && (n + y)[|n|] == y[0];
    assert forall i :: 0 <= i < |m| ==> (m + x)[i] == m[i];
    assert forall i :: 0 <= i < |n| ==> (n + y)[i] == n[i];
  }

  function Ending(e: Element): string {
    if e == Envelope then Namespaces() + ">" else ">"
  }

  lemma EndingsStartOutsideNames(e: Element, f: Element)
    ensures Ending(e) != "" && Ending(e)[0] !in Name(f)
  {
    hide Namespaces, Name;
    DeclarationsArePlain();
    NamesArePlain(f);
  }

  lemma StartOrEndInjective(front: string, e: Element, x: string, f: Element, y: string)
    requires front + (Name(e) + x) == front + (Name(f) + y) && x != "" && y != "" && x[0] !in Name(f) && y[0] !in Name(e)
    ensures e == f
  {
    hide Name;
    assert (front + (Name(e) + x))[|front|..] == Name(e) + x;
    assert (front + (Name(f) + y))[|front|..] == Name(f) + y;
    SameUpTo(Name(e), x, Name(f), y);
    NameInjective(e, f);
  }

  function SecondChar(t: Tag): char {
    match t
    case Declaration => '?'
    case Start(e) => 'n'
    case End(e) => '/'
  }

  lemma SecondCharTells(t: Tag)
    ensures |Printed(t)| >= 2 && var c := Printed(t)[1]; SecondChar(t) == if c == '?' || c == '/' then c else 'n'
  {
    hide Name, Namespaces;
    if t.Start? || t.End? {
      NamesStartWithLetter(t.element);
    }
  }

  lemma PrintedInjective(a: Tag, b: Tag)
    requires Printed(a) == Printed(b)
    ensures a == b
  {
    hide Name, Namespaces;
    SecondCharTells(a);
    SecondCharTells(b);
    if a.Start? && b.Start? {
      EndingsStartOutsideNames(a.element, b.element);
      EndingsStartOutsideNames(b.element, a.element);
      StartOrEndInjective("<", a.element, Ending(a.element), b.element, Ending(b.element));
    } else if a.End? && b.End? {
      NamesArePlain(a.element);
      NamesArePlain(b.element);
      StartOrEndInjective("</", a.element, ">", b.element, ">");
    }
  }

  // ---------------------------------------------------------------- documents

  /** Tags that each come once, and texts without '<'. */
  predicate GoodItems(items: seq<Item>) {
    (forall i :: 0 <= i < |items| ==> '<' !in items[i].text)
    && forall i, j :: 0 <= i < j < |items| ==> items[i].tag != items[j].tag
  }

  lemma GoodItemsGiveGoodSegments(items: seq<Item>, k: nat)
    requires GoodItems(items) && k < |items|
    ensures WellFormed(Segments(items)) && OccursOnce(Segments(items), k)
  {
    hide Printed, IsMarkup;
    forall i | 0 <= i < |items|
      ensures IsMarkup(Printed(items[i].tag))
    {
      PrintedIsMarkup(items[i].tag);
    }
    forall i | 0 <= i < |items| && Printed(items[i].tag) == Printed(items[k].tag)
      ensures i == k
    {
      PrintedInjective(items[i].tag, items[k].tag);
    }
  }

  /** Each tag is found at one place of the text, and nowhere else. */
  lemma EachTagOccursOnce(items: seq<Item>, k: nat)
    requires GoodItems(items) && k < |items|
    ensures forall i: nat :: OccursAt(Xml(items), Printed(items[k].tag), i) <==> i == Offset(Segments(items), k)
  {
    hide Printed, GoodItems, OccursAt, Flat, WellFormed;
    GoodItemsGiveGoodSegments(items, k);
    var segments := Segments(items);
    PrintedIsMarkup(items[k].tag);
    forall i: nat
      ensures OccursAt(Xml(items), Printed(items[k].tag), i) <==> i == Offset(segments, k)
    {
      OccursExactlyAtMarks(segments, Printed(items[k].tag), i);
      StartsOnce(segments, k, i);
    }
  }

  /** Reading an element gives the text behind its start tag. */
  lemma ReadsElement(items: seq<Item>, k: nat, e: Element, maximum: nat)
    requires GoodItems(items) && k + 1 < |items| && items[k].tag == Start(e) && items[k + 1].tag == End(e)
    requires 0 < |items[k].text| <= maximum
    ensures Read(Xml(items), e, maximum) == Ok(items[k].text)
  {
    hide Printed, GoodItems, Flat, WellFormed, UniqueXmlText;
    GoodItemsGiveGoodSegments(items, k);
    PrintedIsMarkup(End(e));
    ReadsUniqueText(Segments(items), k, Printed(End(e)), maximum);
  }

  lemma SafeHasNoAngle(s: string, max: nat)
    requires Safe(s, max)
    ensures '<' !in s && 0 < |s| <= max
  {
    assert !SafeChar('<');
  }

  lemma DigitsHaveNoAngle(s: string)
    requires AllDigits(s)
    ensures '<' !in s
  {
    assert !IsDigit('<');
  }

  // ----------------------------------------------------------------- requests

  lemma ActionTextIsPlain(action: string)
    requires '<' !in action
    ensures '<' !in ActionText(action) && ActionText(action) != ""
  {
    hide ScanNamespace;
    ScanNamespaceIsPlain();
  }

  /** The place of a tag among the envelope's, counted from the back behind the body; 0 elsewhere. */
  function EnvelopePlace(t: Tag): int {
    match t
    case Declaration => 1
    case Start(e) =>
      (match e
       case Envelope => 2 case SoapHeader => 3 case Action => 4 case MessageId => 6 case To => 8 case SoapBody => 11
       case _ => 0)
    case End(e) =>
      (match e
       case Action => 5 case MessageId => 7 case To => 9 case SoapHeader => 10 case SoapBody => -2 case Envelope => -1
       case _ => 0)
  }

  lemma HeadTagsInPlace(to: string, id: string, action: string)
    ensures var head := EnvelopeHead(to, id, action);
            |head| == 11 && forall i :: 0 <= i < 11 ==> EnvelopePlace(head[i].tag) == i + 1
  {
    hide ActionText;
  }

  lemma HeadTextsAreGood(to: string, id: string, action: string)
    requires '<' !in to && '<' !in id && '<' !in action
    ensures var head := EnvelopeHead(to, id, action); forall i :: 0 <= i < |head| ==> '<' !in head[i].text
  {
    hide ActionText;
    ActionTextIsPlain(action);
  }

  /** A body of distinct tags that are not the envelope's, with texts without '<'. */
  predicate GoodBody(body: seq<Item>) {
    GoodItems(body) && forall i :: 0 <= i < |body| ==> EnvelopePlace(body[i].tag) == 0
  }

  lemma EnvelopedIsGood(to: string, id: string, action: string, body: seq<Item>)
    requires '<' !in to && '<' !in id && '<' !in action && GoodBody(body)
    ensures GoodItems(EnvelopeItems(to, id, action, body))
  {
    hide EnvelopeHead;
    var items, n := EnvelopeItems(to, id, action, body), |body|;
    HeadTagsInPlace(to, id, action);
    HeadTextsAreGood(to, id, action);
    forall i, j | 0 <= i < j < |items|
      ensures items[i].tag != items[j].tag
    {
      assert forall k :: 0 <= k < |items| ==>
        EnvelopePlace(items[k].tag) == if k < 11 then k + 1 else if k < 11 + n then 0 else k - n - 13;
      if 11 <= i < j < 11 + n {
        assert items[i] == body[i - 11] && items[j] == body[j - 11];
      }
    }
  }

  /** Reading back an element of the body. */
  lemma ReadsBodyElement(to: string, id: string, action: string, body: seq<Item>, k: nat, e: Element, maximum: nat)
    requires '<' !in to && '<' !in id && '<' !in action && GoodBody(body)
    requires k + 1 < |body| && body[k].tag == Start(e) && body[k + 1].tag == End(e) && 0 < |body[k].text| <= maximum
    ensures Read(Xml(EnvelopeItems(to, id, action, body)), e, maximum) == Ok(body[k].text)
  {
    hide EnvelopeHead, GoodItems, Xml, Read, GoodBody, EnvelopePlace;
    HeadTagsInPlace(to, id, action);
    EnvelopedIsGood(to, id, action, body);
    ReadsElement(EnvelopeItems(to, id, action, body), 11 + k, e, maximum);
  }

  /** Reading back the addressing of any request. */
  lemma ReadsAddressing(to: string, id: string, action: string, body: seq<Item>)
    requires '<' !in to && '<' !in id && '<' !in action && GoodBody(body)
    ensures var xml := Xml(EnvelopeItems(to, id, action, body));
            (0 < |id| <= 128 ==> Read(xml, MessageId, 128) == Ok(id))
            && (0 < |to| <= 2048 ==> Read(xml, To, 2048) == Ok(to))
            && Read(xml, Action, |ActionText(action)|) == Ok(ActionText(action))
  {
    hide GoodItems, Xml, Read, GoodBody, EnvelopePlace, ActionText;
    var items := EnvelopeItems(to, id, action, body);
    EnvelopedIsGood(to, id, action, body);
    ActionTextIsPlain(action);
    HeadItem(to, id, action, body);
    ReadsElement(items, 3, Action, |ActionText(action)|);
    if 0 < |id| <= 128 {
      ReadsElement(items, 5, MessageId, 128);
    }
    if 0 < |to| <= 2048 {
      ReadsElement(items, 7, To, 2048);
    }
  }

  lemma HeadItem(to: string, id: string, action: string, body: seq<Item>)
    ensures var items := EnvelopeItems(to, id, action, body);
            |items| == 13 + |body|
            && items[3] == Item(Start(Action), ActionText(action)) && items[4].tag == End(Action)
            && items[5] == Item(Start(MessageId), id) && items[6].tag == End(MessageId)
            && items[7] == Item(Start(To), to) && items[8].tag == End(To)
  {
    hide ActionText;
  }

  // --------------------------------------------------------- retrieve and cancel

  function RetrievePlace(t: Tag): int {
    match t
    case Declaration => -1
    case Start(e) =>
      (match e
       case RetrieveImageRequest => 0 case JobId => 1 case JobToken => 3 case DocumentDescription => 5
       case DocumentName => 6 case _ => -1)
    case End(e) =>
      (match e
       case JobId => 2 case JobToken => 4 case DocumentName => 7 case DocumentDescription => 8
       case RetrieveImageRequest => 9 case _ => -1)
  }

  lemma RetrieveBodyIsGood(job: Credentials, name: string)
    requires '<' !in job.token && '<' !in name
    ensures |RetrieveBody(job, name)| == 10 && GoodBody(RetrieveBody(job, name))
  {
    hide Dec;
    var body := RetrieveBody(job, name);
    DigitsHaveNoAngle(Dec(job.jobId));
    assert forall i :: 0 <= i < 10 ==> RetrievePlace(body[i].tag) == i;
  }

  lemma ValidCredentialsIff(job: Credentials, limits: Limits)
    ensures ValidateCredentials(job, limits).Ok?
            <==> ValidateLimits(limits).Ok? && job.jobId != 0 && Safe(job.token, limits.maxJobTokenBytes)
  {
  }

  /** A retrieve request is encoded exactly for valid limits, a job number, and a safe token, name, address and id. */
  lemma RetrieveIsEncodedIff(to: string, id: string, job: Credentials, name: string, limits: Limits)
    ensures EncodeRetrieve(to, id, job, name, limits).Ok?
            <==> ValidateLimits(limits).Ok? && job.jobId != 0 && Safe(job.token, limits.maxJobTokenBytes)
                 && Safe(name, 128) && Safe(to, 2048) && Safe(id, 128)
    ensures EncodeRetrieve(to, id, job, name, limits).Ok? ==>
              EncodeRetrieve(to, id, job, name, limits).value
              == Xml(EnvelopeItems(to, id, "RetrieveImage", RetrieveBody(job, name)))
  {
    hide Safe, ValidateLimits, Xml, EnvelopeItems, RetrieveBody, ValidateCredentials;
    ValidCredentialsIff(job, limits);
  }

  predicate RetrieveFieldsRead(xml: string, to: string, id: string, job: Credentials, name: string, limits: Limits) {
    Read(xml, JobId, 10) == Ok(Dec(job.jobId)) && ParseU32(Dec(job.jobId), "job") == Ok(job.jobId)
    && Read(xml, JobToken, limits.maxJobTokenBytes) == Ok(job.token)
    && Read(xml, DocumentName, 128) == Ok(name)
    && Read(xml, MessageId, 128) == Ok(id) && Read(xml, To, 2048) == Ok(to)
  }

  lemma RetrieveHasNoAngles(to: string, id: string, job: Credentials, name: string, limits: Limits)
    requires EncodeRetrieve(to, id, job, name, limits).Ok?
    ensures '<' !in to && '<' !in id && '<' !in name && '<' !in job.token && '<' !in "RetrieveImage"
    ensures 0 < |to| <= 2048 && 0 < |id| <= 128 && 0 < |name| <= 128 && 0 < |job.token| <= limits.maxJobTokenBytes
  {
    hide Safe, ValidateLimits, Xml, EnvelopeItems, RetrieveBody, EncodeRetrieve;
    RetrieveIsEncodedIff(to, id, job, name, limits);
    SafeHasNoAngle(to, 2048);
    SafeHasNoAngle(id, 128);
    SafeHasNoAngle(name, 128);
    SafeHasNoAngle(job.token, limits.maxJobTokenBytes);
  }

  lemma JobNumberFits(n: U32)
    ensures 0 < |Dec(n)| <= 10 && ParseU32(Dec(n), "job") == Ok(n)
  {
    DecLength(n, 10);
    assert Pow10(10) == 10_000_000_000;
    ParseU32OfDec(n, "job");
  }

  /** Whatever fields are accepted, the request reads back as exactly those fields. */
  lemma RetrieveFieldsSurvive(to: string, id: string, job: Credentials, name: string, limits: Limits)
    requires EncodeRetrieve(to, id, job, name, limits).Ok?
    ensures RetrieveFieldsRead(EncodeRetrieve(to, id, job, name, limits).value, to, id, job, name, limits)
  {
    hide EncodeRetrieve, Xml, Read, GoodBody, EnvelopeItems, ParseU32, ActionText;
    var body, action := RetrieveBody(job, name), "RetrieveImage";
    RetrieveIsEncodedIff(to, id, job, name, limits);
    RetrieveHasNoAngles(to, id, job, name, limits);
    RetrieveBodyIsGood(job, name);
    JobNumberFits(job.jobId);
    ReadsBodyElement(to, id, action, body, 1, JobId, 10);
    ReadsBodyElement(to, id, action, body, 3, JobToken, limits.maxJobTokenBytes);
    ReadsBodyElement(to, id, action, body, 6, DocumentName, 128);
    ReadsAddressing(to, id, action, body);
  }

  /** Every tag of the request occurs at exactly one place of its text, so no field contributes markup. */
  lemma RetrieveTagsOccurOnce(to: string, id: string, job: Credentials, name: string, limits: Limits, k: nat)
    requires EncodeRetrieve(to, id, job, name, limits).Ok? && k < 23
    ensures var items := EnvelopeItems(to, id, "RetrieveImage", RetrieveBody(job, name));
            |items| == 23
            && forall i: nat :: OccursAt(EncodeRetrieve(to, id, job, name, limits).value, Printed(items[k].tag), i)
                                <==> i == Offset(Segments(items), k)
  {
    hide EncodeRetrieve, Xml, GoodItems, Printed, RetrieveBody, GoodBody, EnvelopeItems, OccursAt;
    var body := RetrieveBody(job, name);
    RetrieveIsEncodedIff(to, id, job, name, limits);
    RetrieveHasNoAngles(to, id, job, name, limits);
    RetrieveBodyIsGood(job, name);
    EnvelopedIsGood(to, id, "RetrieveImage", body);
    HeadItem(to, id, "RetrieveImage", body);
    EachTagOccursOnce(EnvelopeItems(to, id, "RetrieveImage", body), k);
  }

  lemma CancelBodyIsGood(job: Credentials)
    ensures GoodBody(CancelBody(job)) && |CancelBody(job)| == 4
  {
    DigitsHaveNoAngle(Dec(job.jobId));
  }

  lemma CancelFieldsSurvive(to: string, id: string, job: Credentials, limits: Limits)
    requires EncodeCancel(to, id, job, limits).Ok?
    ensures var xml := EncodeCancel(to, id, job, limits).value;
            Read(xml, JobId, 10) == Ok(Dec(job.jobId)) && ParseU32(Dec(job.jobId), "job") == Ok(job.jobId)
            && Read(xml, MessageId, 128) == Ok(id) && Read(xml, To, 2048) == Ok(to)
  {
    hide Xml, Read, GoodBody, EnvelopeItems, ParseU32, ActionText, Safe, ValidateCredentials, SafeChar;
    CancelBodyIsGood(job);
    SafeHasNoAngle(to, 2048);
    SafeHasNoAngle(id, 128);
    JobNumberFits(job.jobId);
    assert '<' !in "CancelJob";
    ReadsBodyElement(to, id, "CancelJob", CancelBody(job), 1, JobId, 10);
    ReadsAddressing(to, id, "CancelJob", CancelBody(job));
  }

  // -------------------------------------------------------------------- create

  function CreatePlace(t: Tag): int {
    match t
    case Declaration => -1
    case Start(e) =>
      (match e
       case CreateScanJobRequest => 0 case ScanTicket => 1 case DocumentParameters => 2 case DocumentFormat => 3
       case ImagesToTransfer => 5 case Source => 7 case MediaSides => 9 case MediaFront => 10 case ColorProcessing => 11
       case Resolution => 13 case Width => 14 case Height => 16 case _ => -1)
    case End(e) =>
      (match e
       case DocumentFormat => 4 case ImagesToTransfer => 6 case Source => 8 case ColorProcessing => 12 case Width => 15
       case Height => 17 case Resolution => 18 case MediaFront => 19 case MediaSides => 20
       case DocumentParameters => 21 case ScanTicket => 22 case CreateScanJobRequest => 23 case _ => -1)
  }

  lemma TicketTextsArePlain(t: Ticket)
    ensures '<' !in FormatText(t.format) && '<' !in SourceText(t.source) && '<' !in ColorText(t.color)
    ensures 0 < |FormatText(t.format)| <= 16 && 0 < |SourceText(t.source)| <= 16 && 0 < |ColorText(t.color)| <= 16
  {
  }

  lemma CreateTagsInPlace(t: Ticket)
    ensures var body := CreateBody(t);
            |body| == 24
            && forall i :: 0 <= i < 24 ==> CreatePlace(body[i].tag) == i && EnvelopePlace(body[i].tag) == 0
  {
    hide CreateBody, CreatePlace, EnvelopePlace;
    FirstTagsInPlace(t);
    LastTagsInPlace(t);
  }

  lemma FirstTagsInPlace(t: Ticket)
    ensures var body := CreateBody(t);
            |body| == 24
            && forall i :: 0 <= i < 12 ==> CreatePlace(body[i].tag) == i && EnvelopePlace(body[i].tag) == 0
  {
    hide FormatText, SourceText, ColorText, Dec;
  }

  lemma LastTagsInPlace(t: Ticket)
    ensures var body := CreateBody(t);
            |body| == 24
            && forall i :: 12 <= i < 24 ==> CreatePlace(body[i].tag) == i && EnvelopePlace(body[i].tag) == 0
  {
    hide FormatText, SourceText, ColorText, Dec;
  }

  lemma CreateTextsAreGood(t: Ticket)
    ensures var body := CreateBody(t); forall i :: 0 <= i < |body| ==> '<' !in body[i].text
  {
    hide FormatText, SourceText, ColorText;
    TicketTextsArePlain(t);
    DigitsHaveNoAngle(Dec(t.images));
    DigitsHaveNoAngle(Dec(t.horizontalDpi));
    DigitsHaveNoAngle(Dec(t.verticalDpi));
  }

  lemma CreateBodyIsGood(t: Ticket)
    ensures GoodBody(CreateBody(t)) && |CreateBody(t)| == 24
  {
    hide CreateBody, CreatePlace, EnvelopePlace;
    CreateTagsInPlace(t);
    CreateTextsAreGood(t);
  }

  predicate TicketRead(xml: string, t: Ticket) {
    Read(xml, DocumentFormat, 16) == Ok(FormatText(t.format)) && Read(xml, Source, 16) == Ok(SourceText(t.source))
    && Read(xml, ColorProcessing, 16) == Ok(ColorText(t.color)) && Read(xml, ImagesToTransfer, 10) == Ok(Dec(t.images))
    && Read(xml, Width, 10) == Ok(Dec(t.horizontalDpi)) && Read(xml, Height, 10) == Ok(Dec(t.verticalDpi))
  }

  predicate ElementAt(body: seq<Item>, k: nat, e: Element, text: string) {
    k + 1 < |body| && body[k] == Item(Start(e), text) && body[k + 1].tag == End(e)
  }

  lemma DocumentPlaces(t: Ticket)
    ensures var body := CreateBody(t);
            ElementAt(body, 3, DocumentFormat, FormatText(t.format)) && ElementAt(body, 5, ImagesToTransfer, Dec(t.images))
            && ElementAt(body, 7, Source, SourceText(t.source))
  {
    hide FormatText, SourceText, ColorText, Dec;
  }

  lemma MediaPlaces(t: Ticket)
    ensures var body := CreateBody(t);
            ElementAt(body, 11, ColorProcessing, ColorText(t.color))
            && ElementAt(body, 14, Width, Dec(t.horizontalDpi)) && ElementAt(body, 16, Height, Dec(t.verticalDpi))
  {
    hide FormatText, SourceText, ColorText, Dec;
  }

  /** Every setting of an accepted ticket reads back from the request. */
  lemma TicketSurvives(to: string, id: string, t: Ticket, limits: Limits)
    requires EncodeCreate(to, id, t, limits).Ok?
    ensures TicketRead(EncodeCreate(to, id, t, limits).value, t)
  {
    hide Xml, Read, GoodBody, EnvelopeItems, Safe, ValidateTicket, FormatText, SourceText, ColorText, SafeChar, CreateBody,
         ParseU32;
    var body, action := CreateBody(t), "CreateScanJob";
    CreateBodyIsGood(t);
    SafeHasNoAngle(to, 2048);
    SafeHasNoAngle(id, 128);
    TicketTextsArePlain(t);
    DocumentPlaces(t);
    MediaPlaces(t);
    JobNumberFits(t.images);
    JobNumberFits(t.horizontalDpi);
    JobNumberFits(t.verticalDpi);
    ReadsBodyElement(to, id, action, body, 3, DocumentFormat, 16);
    ReadsBodyElement(to, id, action, body, 5, ImagesToTransfer, 10);
    ReadsBodyElement(to, id, action, body, 7, Source, 16);
    ReadsBodyElement(to, id, action, body, 11, ColorProcessing, 16);
    ReadsBodyElement(to, id, action, body, 14, Width, 10);
    ReadsBodyElement(to, id, action, body, 16, Height, 10);
  }

  // --------------------------------------------------------------------- reply

  /** A job whose creation was read can be retrieved and cancelled: its credentials pass both encoders. */
  lemma CreatedJobIsUsable(xml: string, relates: string, limits: Limits, to: string, id: string, name: string)
    requires DecodeCreated(xml, relates, limits).Ok? && Safe(to, 2048) && Safe(id, 128) && Safe(name, 128)
    ensures Read(xml, RelatesTo, 128) == Ok(relates)
    ensures var job := DecodeCreated(xml, relates, limits).value.credentials;
            EncodeRetrieve(to, id, job, name, limits).Ok? && EncodeCancel(to, id, job, limits).Ok?
  {
    hide Safe, Read, ParseU32, Xml, EnvelopeItems, Printed, Find, ValidateCredentials;
  }
}
