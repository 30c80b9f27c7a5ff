/** The three job requests and the reply that creates a job. */
module Soap {
  import opened Text
  import opened WsdSafety
  import opened XmlText

  datatype InputSource = Platen | Adf
  datatype Color = Monochrome | Grayscale | Rgb24
  datatype Format = Jpeg | Png | Tiff
  datatype Ticket = Ticket(source: InputSource, color: Color, format: Format, horizontalDpi: U32, verticalDpi: U32, images: U32)
  datatype Credentials = Credentials(jobId: U32, token: string)
  datatype CreatedJob = CreatedJob(credentials: Credentials, finalFormat: string)

  // --------------------------------------------------------------- validation

  function ValidateLimits(limits: Limits): Result<()> {
    if limits.maxXmlBytes == 0 || limits.maxImageBytes == 0 || limits.maxImages == 0 || limits.maxJobTokenBytes == 0
    then Err("invalid_wsd_limits") else Ok(())
  }

  function ValidateTicket(t: Ticket, limits: Limits): Result<()> {
    var _ :- ValidateLimits(limits);
    if t.horizontalDpi < 50 || t.horizontalDpi > 2400 || t.verticalDpi < 50 || t.verticalDpi > 2400
    then Err("invalid_wsd_resolution")
    else if t.images == 0 || t.images > limits.maxImages then Err("invalid_wsd_image_count")
    else Ok(())
  }

  function ValidateCredentials(job: Credentials, limits: Limits): Result<()> {
    var _ :- ValidateLimits(limits);
    if job.jobId == 0 || job.token == "" || |job.token| > limits.maxJobTokenBytes then Err("invalid_wsd_job_credentials")
    else if exists i :: 0 <= i < |job.token| && !SafeChar(job.token[i]) then Err("unsafe_wsd_job_token")
    else Ok(())
  }

  // ------------------------------------------------------------------- markup

  datatype Element =
    | Envelope | SoapHeader | SoapBody | Action | MessageId | To | RelatesTo
    | CreateScanJobRequest | ScanTicket | DocumentParameters | DocumentFormat | ImagesToTransfer | Source
    | MediaSides | MediaFront | ColorProcessing | Resolution | Width | Height
    | RetrieveImageRequest | JobId | JobToken | DocumentDescription | DocumentName | CancelJobRequest

  datatype Tag = Declaration | Start(element: Element) | End(element: Element)

  function Name(e: Element): string {
    match e
    case Envelope => "soap:Envelope"
    case SoapHeader => "soap:Header"
    case SoapBody => "soap:Body"
    case Action => "wsa:Action"
    case MessageId => "wsa:MessageID"
    case To => "wsa:To"
    case RelatesTo => "wsa:RelatesTo"
    case CreateScanJobRequest => "wscn:CreateScanJobRequest"
    case ScanTicket => "wscn:ScanTicket"
    case DocumentParameters => "wscn:DocumentParameters"
    case DocumentFormat => "wscn:Format"
    case ImagesToTransfer => "wscn:ImagesToTransfer"
    case Source => "wscn:InputSource"
    case MediaSides => "wscn:MediaSides"
    case MediaFront => "wscn:MediaFront"
    case ColorProcessing => "wscn:ColorProcessing"
    case Resolution => "wscn:Resolution"
    case Width => "wscn:Width"
    case Height => "wscn:Height"
    case RetrieveImageRequest => "wscn:RetrieveImageRequest"
    case JobId => "wscn:JobId"
    case JobToken => "wscn:JobToken"
    case DocumentDescription => "wscn:DocumentDescription"
    case DocumentName => "wscn:DocumentName"
    case CancelJobRequest => "wscn:CancelJobRequest"
  }

  function ScanNamespace(): string { "http://schemas.microsoft.com/" + "windows/2006/08/wdp/scan" }
  function SoapNamespace(): string { "http://www.w3.org/2003/05/soap-envelope" }
  function AddressingNamespace(): string { "http://schemas.xmlsoap.org/" + "ws/2004/08/addressing" }

  function Namespaces(): string {
    " xmlns:soap=\"" + SoapNamespace() + "\" xmlns:wsa=\"" + AddressingNamespace() + "\" xmlns:wscn=\"" + ScanNamespace() + "\""
  }

  function DeclarationText(): string { "xml version=\"1.0\" encoding=\"utf-8\"?" }

  function Printed(t: Tag): string {
    match t
    case Declaration => "<?" + (DeclarationText() + ">")
    case Start(e) => "<" + (Name(e) + (if e == Envelope then Namespaces() + ">" else ">"))
    case End(e) => "</" + (Name(e) + ">")
  }

  /** A tag and the character data behind it. */
  datatype Item = Item(tag: Tag, text: string)

  function Segments(items: seq<Item>): (segments: seq<Segment>)
    ensures |segments| == |items|
  {
    seq(|items|, i requires 0 <= i < |items| => Segment(Printed(items[i].tag), items[i].text))
  }

  function Xml(items: seq<Item>): string {
    Flat(Segments(items))
  }

  // ----------------------------------------------------------------- requests

  function ActionText(action: string): string {
    ScanNamespace() + "/" + action
  }

  function EnvelopeHead(to: string, id: string, action: string): seq<Item> {
    [Item(Declaration, ""), Item(Start(Envelope), ""), Item(Start(SoapHeader), ""),
     Item(Start(Action), ActionText(action)), Item(End(Action), ""), Item(Start(MessageId), id), Item(End(MessageId), ""),
     Item(Start(To), to), Item(End(To), ""), Item(End(SoapHeader), ""), Item(Start(SoapBody), "")]
  }

  function EnvelopeItems(to: string, id: string, action: string, body: seq<Item>): seq<Item> {
    EnvelopeHead(to, id, action) + body + [Item(End(SoapBody), ""), Item(End(Envelope), "")]
  }

  function Enveloped(to: string, id: string, action: string, body: seq<Item>): Result<string> {
    if !Safe(to, 2048) || !Safe(id, 128) then Err("invalid_wsd_job_address")
    else Ok(Xml(EnvelopeItems(to, id, action, body)))
  }

  function SourceText(s: InputSource): string { if s == Platen then "Platen" else "ADF" }

  function ColorText(c: Color): string {
    match c
    case Monochrome => "BlackAndWhite1"
    case Grayscale => "Grayscale8"
    case Rgb24 => "RGB24"
  }

  function FormatText(f: Format): string {
    match f
    case Jpeg => "exif"
    case Png => "png"
    case Tiff => "tiff-single-g4"
  }

  function CreateBody(t: Ticket): seq<Item> {
    [Item(Start(CreateScanJobRequest), ""), Item(Start(ScanTicket), ""), Item(Start(DocumentParameters), ""),
     Item(Start(DocumentFormat), FormatText(t.format)), Item(End(DocumentFormat), ""),
     Item(Start(ImagesToTransfer), Dec(t.images)), Item(End(ImagesToTransfer), ""),
     Item(Start(Source), SourceText(t.source)), Item(End(Source), ""),
     Item(Start(MediaSides), ""), Item(Start(MediaFront), ""),
     Item(Start(ColorProcessing), ColorText(t.color)), Item(End(ColorProcessing), ""),
     Item(Start(Resolution), ""), Item(Start(Width), Dec(t.horizontalDpi)), Item(End(Width), ""),
     Item(Start(Height), Dec(t.verticalDpi)), Item(End(Height), ""), Item(End(Resolution), ""),
     Item(End(MediaFront), ""), Item(End(MediaSides), ""), Item(End(DocumentParameters), ""),
     Item(End(ScanTicket), ""), Item(End(CreateScanJobRequest), "")]
  }

  function EncodeCreate(to: string, id: string, t: Ticket, limits: Limits): Result<string> {
    var _ :- ValidateTicket(t, limits);
    Enveloped(to, id, "CreateScanJob", CreateBody(t))
  }

  function RetrieveBody(job: Credentials, name: string): seq<Item> {
    [Item(Start(RetrieveImageRequest), ""), Item(Start(JobId), Dec(job.jobId)), Item(End(JobId), ""),
     Item(Start(JobToken), job.token), Item(End(JobToken), ""), Item(Start(DocumentDescription), ""),
     Item(Start(DocumentName), name), Item(End(DocumentName), ""), Item(End(DocumentDescription), ""),
     Item(End(RetrieveImageRequest), "")]
  }

  function EncodeRetrieve(to: string, id: string, job: Credentials, name: string, limits: Limits): Result<string> {
    var _ :- ValidateCredentials(job, limits);
    if !Safe(name, 128) then Err("invalid_wsd_document_name")
    else Enveloped(to, id, "RetrieveImage", RetrieveBody(job, name))
  }

  function CancelBody(job: Credentials): seq<Item> {
    [Item(Start(CancelJobRequest), ""), Item(Start(JobId), Dec(job.jobId)), Item(End(JobId), ""),
     Item(End(CancelJobRequest), "")]
  }

  function EncodeCancel(to: string, id: string, job: Credentials, limits: Limits): Result<string> {
    var _ :- ValidateCredentials(job, limits);
    Enveloped(to, id, "CancelJob", CancelBody(job))
  }

  /** The text of an element, where the element comes once. */
  function Read(xml: string, e: Element, maximum: nat): Result<string> {
    UniqueXmlText(xml, Printed(Start(e)), Printed(End(e)), maximum)
  }

  // -------------------------------------------------------------------- reply

  function DecodeCreated(xml: string, relates: string, limits: Limits): Result<CreatedJob> {
    if xml == "" || |xml| > limits.maxXmlBytes || Find(xml, "<!DOCTYPE", 0).Some? || Find(xml, "<!ENTITY", 0).Some?
    then Err("invalid_wsd_job_response")
    else
      var related :- Read(xml, RelatesTo, 128);
      if related != relates then Err("wsd_job_response_not_correlated")
      else
        var idText :- Read(xml, JobId, 10);
        var id := ParseU32(idText, "job");
        if id.Err? || id.value == 0 then Err("invalid_wsd_job_response")
        else
          var token :- Read(xml, JobToken, limits.maxJobTokenBytes);
          var _ :- ValidateCredentials(Credentials(id.value, token), limits);
          if Find(xml, Printed(Start(DocumentFormat)), 0).None? then Ok(CreatedJob(Credentials(id.value, token), ""))
          else
            var format :- Read(xml, DocumentFormat, 64);
            Ok(CreatedJob(Credentials(id.value, token), format))
  }
}
