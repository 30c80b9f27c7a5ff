/** The request texts, tag by tag and word by word. */
module SoapTexts {
  import opened Text
  import opened WsdSafety
  import opened XmlText
  import opened Soap
  import opened SoapRoundTrip

  // ------------------------------------------------------------------ tags

  function Opening(name: string, text: string): Segment {
    Segment("<" + (name + ">"), text)
  }

  function Closing(name: string): Segment {
    Segment("</" + (name + ">"), "")
  }

  const WSCN: string := "http://schemas.microsoft.com/" + "windows/2006/08/wdp/scan"

  /** The segments up to the start of the body, as any request begins. */
  function Head(to: string, id: string, action: string): seq<Segment> {
    [Segment("<?" + ("xml version=\"1.0\" encoding=\"utf-8\"?" + ">"), ""),
     Segment("<" + ("soap:Envelope" + (" xmlns:soap=\"" + "http://www.w3.org/2003/05/soap-envelope" + "\" xmlns:wsa=\""
                                       + ("http://schemas.xmlsoap.org/" + "ws/2004/08/addressing") + "\" xmlns:wscn=\"" + WSCN
                                       + "\"" + ">")), ""),
     Opening("soap:Header", ""),
     Opening("wsa:Action", WSCN + "/" + action), Closing("wsa:Action"),
     Opening("wsa:MessageID", id), Closing("wsa:MessageID"), Opening("wsa:To", to), Closing("wsa:To"),
     Closing("soap:Header"), Opening("soap:Body", "")]
  }

  function Request(to: string, id: string, action: string, body: seq<Segment>): string {
    Flat(Head(to, id, action) + body + [Closing("soap:Body"), Closing("soap:Envelope")])
  }

  predicate StandsAt(xml: string, s: Segment, from: nat, to: nat) {
    from <= to <= |xml| && xml[from..to] == s.mark + s.text
  }

  /** The text holds the tags and texts in order, from the first character to the last, and nothing between them. */
  lemma {:induction false} TagsFillTheText(segments: seq<Segment>) returns (at: seq<nat>)
    ensures |at| == |segments| + 1 && at[0] == 0 && at[|segments|] == |Flat(segments)|
    ensures forall k :: 0 <= k < |segments| ==> StandsAt(Flat(segments), segments[k], at[k], at[k + 1])
  {
    hide StandsAt;
    if segments == [] {
      at := [0];
    } else {
      var first, tail := segments[0], Flat(segments[1..]);
      var head := first.mark + first.text;
      var behind := TagsFillTheText(segments[1..]);
      at := [0] + seq(|segments|, i requires 0 <= i < |segments| => |head| + behind[i]);
      assert Flat(segments) == head + tail;
      StandsFirst(first, tail);
      forall k | 0 <= k < |segments| ensures StandsAt(head + tail, segments[k], at[k], at[k + 1]) {
        if k > 0 {
          assert segments[1..][k - 1] == segments[k];
          StandsBehind(head, tail, segments[k], behind[k - 1], behind[k]);
        }
      }
    }
  }

  lemma StandsFirst(s: Segment, tail: string)
    ensures StandsAt(s.mark + s.text + tail, s, 0, |s.mark + s.text|)
  {
  }

  lemma StandsBehind(head: string, tail: string, s: Segment, from: nat, to: nat)
    requires StandsAt(tail, s, from, to)
    ensures StandsAt(head + tail, s, |head| + from, |head| + to)
  {
    assert (head + tail)[|head| + from..|head| + to] == tail[from..to];
  }

  lemma SegmentsAppend(a: seq<Item>, b: seq<Item>)
    ensures Segments(a + b) == Segments(a) + Segments(b)
  {
    hide Printed;
    forall i | 0 <= i < |a + b| ensures Segments(a + b)[i] == (Segments(a) + Segments(b))[i] {
    }
  }

  lemma HeadText(to: string, id: string, action: string)
    ensures Segments(EnvelopeHead(to, id, action)) == Head(to, id, action)
  {
    hide Printed, Name, ActionText;
    PrintedTags();
    FirstTags();
    HeadNames();
    ActionIs(action);
    var segments, head := Segments(EnvelopeHead(to, id, action)), Head(to, id, action);
    assert forall i :: 0 <= i < 11 ==> segments[i] == head[i];
    assert segments == head;
  }

  lemma FirstTags()
    ensures Printed(Declaration) == "<?" + ("xml version=\"1.0\" encoding=\"utf-8\"?" + ">")
    ensures Printed(Start(Envelope))
            == "<" + ("soap:Envelope" + (" xmlns:soap=\"" + "http://www.w3.org/2003/05/soap-envelope" + "\" xmlns:wsa=\""
                                         + ("http://schemas.xmlsoap.org/" + "ws/2004/08/addressing") + "\" xmlns:wscn=\""
                                         + WSCN + "\"" + ">"))
  {
  }

  lemma HeadNames()
    ensures Name(SoapHeader) == "soap:Header" && Name(SoapBody) == "soap:Body"
    ensures Name(Action) == "wsa:Action" && Name(MessageId) == "wsa:MessageID" && Name(To) == "wsa:To"
  {
  }

  lemma ActionIs(action: string)
    ensures ActionText(action) == WSCN + "/" + action
  {
  }

  lemma EnvelopedText(to: string, id: string, action: string, body: seq<Item>)
    ensures Xml(EnvelopeItems(to, id, action, body)) == Request(to, id, action, Segments(body))
  {
    hide Flat, EnvelopeHead, Head, Segments;
    var tail := [Item(End(SoapBody), ""), Item(End(Envelope), "")];
    HeadText(to, id, action);
    SegmentsAppend(EnvelopeHead(to, id, action) + body, tail);
    SegmentsAppend(EnvelopeHead(to, id, action), body);
    TailText();
  }

  lemma TailText()
    ensures Segments([Item(End(SoapBody), ""), Item(End(Envelope), "")]) == [Closing("soap:Body"), Closing("soap:Envelope")]
  {
  }

  // -------------------------------------------------------- retrieve and cancel

  function RetrieveText(job: Credentials, name: string): seq<Segment> {
    [Opening("wscn:RetrieveImageRequest", ""), Opening("wscn:JobId", Dec(job.jobId)), Closing("wscn:JobId"),
     Opening("wscn:JobToken", job.token), Closing("wscn:JobToken"), Opening("wscn:DocumentDescription", ""),
     Opening("wscn:DocumentName", name), Closing("wscn:DocumentName"), Closing("wscn:DocumentDescription"),
     Closing("wscn:RetrieveImageRequest")]
  }

  /** A retrieve request is exactly this text. */
  lemma RetrieveRequestText(to: string, id: string, job: Credentials, name: string, limits: Limits)
    requires EncodeRetrieve(to, id, job, name, limits).Ok?
    ensures EncodeRetrieve(to, id, job, name, limits).value == Request(to, id, "RetrieveImage", RetrieveText(job, name))
  {
    hide Safe, ValidateCredentials, Xml, EnvelopeItems, Dec, Request, RetrieveBody, RetrieveText;
    EnvelopedText(to, id, "RetrieveImage", RetrieveBody(job, name));
    RetrieveSegments(job, name);
  }

  lemma JobNames()
    ensures Name(RetrieveImageRequest) == "wscn:RetrieveImageRequest" && Name(JobId) == "wscn:JobId"
    ensures Name(JobToken) == "wscn:JobToken" && Name(DocumentDescription) == "wscn:DocumentDescription"
    ensures Name(DocumentName) == "wscn:DocumentName" && Name(CancelJobRequest) == "wscn:CancelJobRequest"
  {
  }

  lemma RetrieveSegments(job: Credentials, name: string)
    ensures Segments(RetrieveBody(job, name)) == RetrieveText(job, name)
  {
    hide Dec, Printed, Name;
    PrintedTags();
    JobNames();
    var segments, text := Segments(RetrieveBody(job, name)), RetrieveText(job, name);
    assert forall i :: 0 <= i < 10 ==> segments[i] == text[i];
    assert segments == text;
  }

  function CancelText(job: Credentials): seq<Segment> {
    [Opening("wscn:CancelJobRequest", ""), Opening("wscn:JobId", Dec(job.jobId)), Closing("wscn:JobId"),
     Closing("wscn:CancelJobRequest")]
  }

  /** A cancel request is exactly this text. */
  lemma CancelRequestText(to: string, id: string, job: Credentials, limits: Limits)
    requires EncodeCancel(to, id, job, limits).Ok?
    ensures EncodeCancel(to, id, job, limits).value == Request(to, id, "CancelJob", CancelText(job))
  {
    hide Safe, ValidateCredentials, Xml, EnvelopeItems, Dec, Request, CancelBody, CancelText;
    EnvelopedText(to, id, "CancelJob", CancelBody(job));
    CancelSegments(job);
  }

  lemma CancelSegments(job: Credentials)
    ensures Segments(CancelBody(job)) == CancelText(job)
  {
    hide Dec, Printed, Name;
    PrintedTags();
    JobNames();
    var segments, text := Segments(CancelBody(job)), CancelText(job);
    assert forall i :: 0 <= i < 4 ==> segments[i] == text[i];
    assert segments == text;
  }

  // -------------------------------------------------------------------- create

  /** The ticket: platen or feeder, black and white, gray or colour, JPEG, PNG or TIFF, by the words of the protocol. */
  function DocumentText(t: Ticket): seq<Segment> {
    [Opening("wscn:CreateScanJobRequest", ""), Opening("wscn:ScanTicket", ""), Opening("wscn:DocumentParameters", ""),
     Opening("wscn:Format", if t.format == Jpeg then "exif" else if t.format == Png then "png" else "tiff-single-g4"),
     Closing("wscn:Format"), Opening("wscn:ImagesToTransfer", Dec(t.images)), Closing("wscn:ImagesToTransfer"),
     Opening("wscn:InputSource", if t.source == Platen then "Platen" else "ADF"), Closing("wscn:InputSource")]
  }

  function MediaText(t: Ticket): seq<Segment> {
    [Opening("wscn:MediaSides", ""), Opening("wscn:MediaFront", ""),
     Opening("wscn:ColorProcessing",
             if t.color == Monochrome then "BlackAndWhite1" else if t.color == Grayscale then "Grayscale8" else "RGB24"),
     Closing("wscn:ColorProcessing"), Opening("wscn:Resolution", ""),
     Opening("wscn:Width", Dec(t.horizontalDpi)), Closing("wscn:Width"),
     Opening("wscn:Height", Dec(t.verticalDpi)), Closing("wscn:Height"), Closing("wscn:Resolution")]
  }

  function EndText(): seq<Segment> {
    [Closing("wscn:MediaFront"), Closing("wscn:MediaSides"), Closing("wscn:DocumentParameters"),
     Closing("wscn:ScanTicket"), Closing("wscn:CreateScanJobRequest")]
  }

  function CreateText(t: Ticket): seq<Segment> {
    DocumentText(t) + MediaText(t) + EndText()
  }

  /** A create request is exactly this text. */
  lemma CreateRequestText(to: string, id: string, t: Ticket, limits: Limits)
    requires EncodeCreate(to, id, t, limits).Ok?
    ensures EncodeCreate(to, id, t, limits).value == Request(to, id, "CreateScanJob", CreateText(t))
  {
    hide Safe, ValidateTicket, Xml, EnvelopeItems, Dec, Request, CreateBody, CreateText;
    EnvelopedText(to, id, "CreateScanJob", CreateBody(t));
    CreateSegments(t);
  }

  lemma CreateSegments(t: Ticket)
    ensures Segments(CreateBody(t)) == CreateText(t)
  {
    hide CreateBody, DocumentText, MediaText, EndText, DocumentItems, MediaItems, EndItems, Segments;
    BodyInPieces(t);
    SegmentsAppend(DocumentItems(t) + MediaItems(t), EndItems());
    SegmentsAppend(DocumentItems(t), MediaItems(t));
    DocumentSegments(t);
    MediaSegments(t);
    EndSegments();
  }

  lemma WordsAre(t: Ticket)
    ensures FormatText(t.format) == if t.format == Jpeg then "exif" else if t.format == Png then "png" else "tiff-single-g4"
    ensures SourceText(t.source) == if t.source == Platen then "Platen" else "ADF"
    ensures ColorText(t.color)
            == if t.color == Monochrome then "BlackAndWhite1" else if t.color == Grayscale then "Grayscale8" else "RGB24"
  {
  }

  lemma PrintedTags()
    ensures forall e :: e != Envelope ==> Printed(Start(e)) == "<" + (Name(e) + ">")
    ensures forall e :: Printed(End(e)) == "</" + (Name(e) + ">")
  {
    hide Name;
  }

  lemma TicketNames()
    ensures Name(CreateScanJobRequest) == "wscn:CreateScanJobRequest" && Name(ScanTicket) == "wscn:ScanTicket"
    ensures Name(DocumentParameters) == "wscn:DocumentParameters" && Name(DocumentFormat) == "wscn:Format"
    ensures Name(ImagesToTransfer) == "wscn:ImagesToTransfer" && Name(Source) == "wscn:InputSource"
  {
  }

  lemma MediaNames()
    ensures Name(MediaSides) == "wscn:MediaSides" && Name(MediaFront) == "wscn:MediaFront"
    ensures Name(ColorProcessing) == "wscn:ColorProcessing" && Name(Resolution) == "wscn:Resolution"
    ensures Name(Width) == "wscn:Width" && Name(Height) == "wscn:Height"
  {
  }

  lemma DocumentSegments(t: Ticket)
    ensures Segments(DocumentItems(t)) == DocumentText(t)
  {
    hide FormatText, SourceText, ColorText, Dec, Printed, Name;
    PrintedTags();
    TicketNames();
    WordsAre(t);
    var segments, text := Segments(DocumentItems(t)), DocumentText(t);
    assert forall i :: 0 <= i < 9 ==> segments[i] == text[i];
  }

  lemma MediaSegments(t: Ticket)
    ensures Segments(MediaItems(t)) == MediaText(t)
  {
    hide FormatText, SourceText, ColorText, Dec, Printed, Name;
    PrintedTags();
    MediaNames();
    WordsAre(t);
    var segments, text := Segments(MediaItems(t)), MediaText(t);
    assert forall i :: 0 <= i < 10 ==> segments[i] == text[i];
  }

  lemma EndSegments()
    ensures Segments(EndItems()) == EndText()
  {
    hide Printed, Name;
    PrintedTags();
    TicketNames();
    MediaNames();
    var segments, text := Segments(EndItems()), EndText();
    assert forall i :: 0 <= i < 5 ==> segments[i] == text[i];
  }

  function DocumentItems(t: Ticket): seq<Item> {
    [Item(Start(CreateScanJobRequest), ""), Item(Start(ScanTicket), ""), Item(Start(DocumentParameters), ""),
     Item(Start(DocumentFormat), FormatText(t.format)), Item(End(DocumentFormat), ""),
     Item(Start(ImagesToTransfer), Dec(t.images)), Item(End(ImagesToTransfer), ""),
     Item(Start(Source), SourceText(t.source)), Item(End(Source), "")]
  }

  function MediaItems(t: Ticket): seq<Item> {
    [Item(Start(MediaSides), ""), Item(Start(MediaFront), ""),
     Item(Start(ColorProcessing), ColorText(t.color)), Item(End(ColorProcessing), ""),
     Item(Start(Resolution), ""), Item(Start(Width), Dec(t.horizontalDpi)), Item(End(Width), ""),
     Item(Start(Height), Dec(t.verticalDpi)), Item(End(Height), ""), Item(End(Resolution), "")]
  }

  function EndItems(): seq<Item> {
    [Item(End(MediaFront), ""), Item(End(MediaSides), ""), Item(End(DocumentParameters), ""),
     Item(End(ScanTicket), ""), Item(End(CreateScanJobRequest), "")]
  }

  lemma BodyInPieces(t: Ticket)
    ensures CreateBody(t) == DocumentItems(t) + MediaItems(t) + EndItems()
  {
    hide FormatText, SourceText, ColorText, Dec;
  }

  // ----------------------------------------------------------------- acceptance

  /** A create request is made exactly for usable limits, a resolution from 50 to 2400 both ways, one image to the limit, and an
      address and an id of safe characters. */
  lemma CreateIsEncodedIff(to: string, id: string, t: Ticket, limits: Limits)
    ensures EncodeCreate(to, id, t, limits).Ok?
            <==> limits.maxXmlBytes > 0 && limits.maxImageBytes > 0 && limits.maxImages > 0 && limits.maxJobTokenBytes > 0
                 && 50 <= t.horizontalDpi <= 2400 && 50 <= t.verticalDpi <= 2400 && 1 <= t.images <= limits.maxImages
                 && IsSafe(to, 2048) && IsSafe(id, 128)
  {
    hide Xml, EnvelopeItems, CreateBody, Safe, IsSafe;
    SafeIs(to, 2048);
    SafeIs(id, 128);
  }

  /** A retrieve request exactly for usable limits, a job number, and a token, name, address and id of safe characters; a cancel
      request for the same without the name. */
  lemma JobRequestsAreEncodedIff(to: string, id: string, job: Credentials, name: string, limits: Limits)
    ensures EncodeCancel(to, id, job, limits).Ok?
            <==> limits.maxXmlBytes > 0 && limits.maxImageBytes > 0 && limits.maxImages > 0 && limits.maxJobTokenBytes > 0
                 && job.jobId != 0 && IsSafe(job.token, limits.maxJobTokenBytes) && IsSafe(to, 2048) && IsSafe(id, 128)
    ensures EncodeRetrieve(to, id, job, name, limits).Ok? <==> EncodeCancel(to, id, job, limits).Ok? && IsSafe(name, 128)
  {
    hide Xml, EnvelopeItems, RetrieveBody, CancelBody, Safe, IsSafe, ValidateCredentials;
    SafeIs(to, 2048);
    SafeIs(id, 128);
    SafeIs(name, 128);
    SafeIs(job.token, limits.maxJobTokenBytes);
    ValidCredentialsIff(job, limits);
  }

  /** One to so many printable characters, none of them a blank, a quote or one of the three that are special in XML. */
  predicate IsSafe(s: string, max: nat) {
    1 <= |s| <= max
    && forall i :: 0 <= i < |s| ==> 0x21 <= s[i] as int <= 0x7e && s[i] != '<' && s[i] != '>' && s[i] != '&' && s[i] != '"'
                                    && s[i] != '\''
  }

  lemma SafeIs(s: string, max: nat)
    ensures Safe(s, max) <==> IsSafe(s, max)
  {
  }

  // -------------------------------------------------------------------- reply

  /** Element e stands once in the text, as segment k, with this text and its end tag right behind it. */
  predicate Holds(segments: seq<Segment>, k: nat, name: string, text: string) {
    k + 1 < |segments| && segments[k] == Opening(name, text) && segments[k + 1].mark == "</" + (name + ">")
    && OccursOnce(segments, k)
  }

  lemma ElementReads(segments: seq<Segment>, k: nat, e: Element, text: string, maximum: nat)
    requires WellFormed(segments) && Holds(segments, k, Name(e), text) && e != Envelope && 0 < |text| <= maximum
    ensures Read(Flat(segments), e, maximum) == Ok(text)
  {
    hide Flat, Name, OccursOnce, UniqueXmlText, IsMarkup, Namespaces;
    PrintedIsMarkup(End(e));
    PrintedTags();
    ReadsUniqueText(segments, k, Printed(End(e)), maximum);
  }

  lemma ReplyNames()
    ensures Name(RelatesTo) == "wsa:RelatesTo" && Name(JobId) == "wscn:JobId" && Name(JobToken) == "wscn:JobToken"
    ensures Name(DocumentFormat) == "wscn:Format"
  {
  }

  /** Whatever the rest of a reply that is made of tags and texts, without a document type or an entity: if it holds the message
      it relates to, a job number and a safe token once each, and its format once or not at all, it is decoded to these. */
  lemma ReplyIsDecoded(segments: seq<Segment>, r: nat, i: nat, t: nat, relates: string, id: U32, token: string, limits: Limits,
                       format: Option<(nat, string)>)
    requires WellFormed(segments) && ValidateLimits(limits).Ok? && 0 < |Flat(segments)| <= limits.maxXmlBytes
    requires Find(Flat(segments), "<!DOCTYPE", 0) == None && Find(Flat(segments), "<!ENTITY", 0) == None
    requires Holds(segments, r, "wsa:RelatesTo", relates) && 0 < |relates| <= 128
    requires Holds(segments, i, "wscn:JobId", Dec(id)) && id != 0
    requires Holds(segments, t, "wscn:JobToken", token) && IsSafe(token, limits.maxJobTokenBytes)
    requires match format
             case None => Find(Flat(segments), "<" + ("wscn:Format" + ">"), 0) == None
             case Some((f, text)) => Holds(segments, f, "wscn:Format", text) && 0 < |text| <= 64
    ensures DecodeCreated(Flat(segments), relates, limits)
            == Ok(CreatedJob(Credentials(id, token), match format case None => "" case Some((_, text)) => text))
  {
    hide Flat, Find, Read, Holds, WellFormed, Dec, Name, Printed, IsSafe, Safe, ValidateLimits;
    ReplyNames();
    PrintedTags();
    JobNumberFits(id);
    ElementReads(segments, r, RelatesTo, relates, 128);
    ElementReads(segments, i, JobId, Dec(id), 10);
    SafeIs(token, limits.maxJobTokenBytes);
    TokenIsThere(token, limits.maxJobTokenBytes);
    ElementReads(segments, t, JobToken, token, limits.maxJobTokenBytes);
    ParseU32OfDec(id, "job");
    ValidCredentialsIff(Credentials(id, token), limits);
    if format.Some? {
      ElementReads(segments, format.value.0, DocumentFormat, format.value.1, 64);
      ReadIsThere(Flat(segments), DocumentFormat, 64);
    }
  }

  lemma TokenIsThere(token: string, max: nat)
    requires IsSafe(token, max)
    ensures 0 < |token| <= max
  {
  }

  lemma ReadIsThere(xml: string, e: Element, maximum: nat)
    requires Read(xml, e, maximum).Ok?
    ensures Find(xml, Printed(Start(e)), 0).Some?
  {
    hide Find, Printed;
  }

  /** A text that is empty, too long, or declares a document type or an entity is not decoded. */
  lemma {:induction false} ReplyIsRefused(xml: string, relates: string, limits: Limits)
    requires xml == "" || |xml| > limits.maxXmlBytes || Find(xml, "<!DOCTYPE", 0).Some? || Find(xml, "<!ENTITY", 0).Some?
    ensures DecodeCreated(xml, relates, limits) == Err("invalid_wsd_job_response")
  {
    hide Find, Read, Printed, ParseU32, ValidateCredentials;
  }

  /** What is decoded stands in the text: it relates to the message, its job number is a plain number other than 0, its token
      is safe, and its format is the one that stands there, or none. */
  lemma DecodedStandsInText(xml: string, relates: string, limits: Limits, job: CreatedJob)
    requires DecodeCreated(xml, relates, limits) == Ok(job)
    ensures Read(xml, RelatesTo, 128) == Ok(relates)
    ensures exists digits :: Read(xml, JobId, 10) == Ok(digits) && AllDigits(digits) && Value(digits) == job.credentials.jobId
    ensures job.credentials.jobId != 0
    ensures Read(xml, JobToken, limits.maxJobTokenBytes) == Ok(job.credentials.token)
    ensures IsSafe(job.credentials.token, limits.maxJobTokenBytes)
    ensures job.finalFormat == "" || Read(xml, DocumentFormat, 64) == Ok(job.finalFormat)
  {
    hide Find, Read, Printed, IsSafe, Safe, ValidateLimits, ValidateCredentials, Value, AllDigits;
    ValidCredentialsIff(job.credentials, limits);
    SafeIs(job.credentials.token, limits.maxJobTokenBytes);
  }

  /** A text is refused where the opening mark is missing or comes again behind it. */
  lemma MarkHasToComeOnce(xml: string, open: string, close: string, maximum: nat, first: nat, again: nat)
    ensures Find(xml, open, 0) == None ==> UniqueXmlText(xml, open, close, maximum) == Err("invalid_wsd_job_response")
    ensures OccursAt(xml, open, first) && OccursAt(xml, open, again) && first + |open| <= again ==>
              UniqueXmlText(xml, open, close, maximum) == Err("invalid_wsd_job_response")
  {
    hide OccursAt;
    if OccursAt(xml, open, first) && OccursAt(xml, open, again) && first + |open| <= again {
      var at := Find(xml, open, 0);
      assert at.Some? && at.value <= first;
      assert Find(xml, open, at.value + |open|).Some?;
    }
  }
}
