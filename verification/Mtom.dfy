/** Extracting one part of a multipart/related response (RFC 2387, on section 5.1.1 of RFC 2046). */
module Mtom {
  import opened Text
  import opened Search
  import opened WsdSafety

  datatype Image = Image(contentType: string, bytes: string)

  const MAX_HEADERS: nat := 16384

  function Crlf(): string { "\r\n" }
  function Blank(): string { "\r\n\r\n" }

  // ------------------------------------------------------------ header lookup

  predicate IsBlank(c: char) {
    c == ' ' || c == '\t'
  }

  function TrimStart(s: string): (t: string)
    ensures t == "" || !IsBlank(t[0])
  {
    if s != "" && IsBlank(s[0]) then TrimStart(s[1..]) else s
  }

  function TrimEnd(s: string): (t: string)
    ensures t == "" || !IsBlank(t[|t| - 1])
    ensures t <= s
  {
    if s != "" && IsBlank(s[|s| - 1]) then TrimEnd(s[..|s| - 1]) else s
  }

  /** A header value without the spaces and tabs around it. */
  function Trimmed(s: string): string {
    TrimEnd(TrimStart(s))
  }

  function RestOfLine(s: string, from: nat): string
    requires from <= |s|
  {
    var end := Find(s, Crlf(), from);
    if end.Some? then s[from..end.value] else s[from..]
  }

  /** The value of a named header; the first line counts only if no later one has the name. */
  function Header(headers: string, name: string): string {
    var found := Find(headers, Crlf() + (name + ":"), 0);
    if found.Some? then Trimmed(RestOfLine(headers, found.value + 2 + |name| + 1))
    else if StartsWith(headers, name + ":") then Trimmed(RestOfLine(headers, |name| + 1))
    else ""
  }

  function WithoutAngles(id: string): string {
    if |id| > 1 && id[0] == '<' && id[|id| - 1] == '>' then id[1..|id| - 1] else id
  }

  function ContentId(headers: string): string {
    WithoutAngles(Header(headers, "Content-ID"))
  }

  // ------------------------------------------------------------- the scanner

  function ImageOf(headers: string, bytes: string, limits: Limits): Result<Image> {
    var contentType := Header(headers, "Content-Type");
    if !Safe(contentType, 256) || |bytes| > limits.maxImageBytes then Err("invalid_wsd_mtom_image")
    else Ok(Image(contentType, bytes))
  }

  /** The position-driven scan for the part with the wanted id, from `pos` on. */
  function Scan(raw: string, mark: string, pos: nat, wanted: string, limits: Limits): Result<Image>
    requires mark != ""
    decreases |raw| - pos
  {
    var at := Find(raw, mark, pos);
    if at.None? then Err("missing_wsd_mtom_image")
    else
      var after := at.value + |mark|;
      if OccursAt(raw, "--", after) then Err("missing_wsd_mtom_image")
      else if !OccursAt(raw, Crlf(), after) then Err("invalid_wsd_mtom_body")
      else
        var end := Find(raw, Blank(), after + 2);
        if end.None? || end.value - (after + 2) > MAX_HEADERS then Err("invalid_wsd_mtom_headers")
        else
          var next := Find(raw, Crlf() + mark, end.value + 4);
          if next.None? then Err("invalid_wsd_mtom_body")
          else
            var headers := raw[after + 2..end.value];
            if ContentId(headers) == wanted then ImageOf(headers, raw[end.value + 4..next.value], limits)
            else Scan(raw, mark, next.value, wanted, limits)
  }

  /** The boundary parameter: quoted, or up to the next semicolon; an open quote takes the rest. */
  function Boundary(mediaType: string): Option<string> {
    var key := Find(mediaType, "boundary=", 0);
    if key.None? then None
    else
      var rest := mediaType[key.value + 9..];
      if rest != "" && rest[0] == '"' then
        var end := Find(rest, "\"", 1);
        Some(if end.Some? then rest[1..end.value] else rest[1..])
      else
        var end := Find(rest, ";", 0);
        Some(if end.Some? then rest[..end.value] else rest)
  }

  function Decode(mediaType: string, raw: string, wanted: string, limits: Limits): Result<Image> {
    if raw == "" || |raw| > limits.maxImageBytes || !StartsWith(mediaType, "multipart/related")
    then Err("invalid_wsd_mtom_response")
    else
      var boundary := Boundary(mediaType);
      if boundary.None? then Err("missing_wsd_mtom_boundary")
      else if !Safe(boundary.value, 200) || !Safe(wanted, 512) then Err("invalid_wsd_mtom_boundary")
      else
        var start := Find(raw, "--" + boundary.value, 0);
        if start.None? then Err("invalid_wsd_mtom_body")
        else Scan(raw, "--" + boundary.value, start.value, wanted, limits)
  }

  /** The decoder as it runs: one loop that moves a position forward. */
  method DecodeRetrieveResponse(mediaType: string, raw: string, wanted: string, limits: Limits)
    returns (result: Result<Image>)
    ensures result == Decode(mediaType, raw, wanted, limits)
  {
    if raw == "" || |raw| > limits.maxImageBytes || !StartsWith(mediaType, "multipart/related") {
      return Err("invalid_wsd_mtom_response");
    }
    var boundary := Boundary(mediaType);
    if boundary.None? { return Err("missing_wsd_mtom_boundary"); }
    if !Safe(boundary.value, 200) || !Safe(wanted, 512) { return Err("invalid_wsd_mtom_boundary"); }
    var mark := "--" + boundary.value;
    var start := Find(raw, mark, 0);
    if start.None? { return Err("invalid_wsd_mtom_body"); }
    result := ScanLoop(raw, mark, start.value, wanted, limits);
  }

  method ScanLoop(raw: string, mark: string, start: nat, wanted: string, limits: Limits) returns (result: Result<Image>)
    requires mark != ""
    ensures result == Scan(raw, mark, start, wanted, limits)
  {
    hide ContentId, ImageOf, OccursAt, Find, Blank, Crlf;
    var pos := start;
    while true
      invariant Scan(raw, mark, pos, wanted, limits) == Scan(raw, mark, start, wanted, limits)
      decreases |raw| - pos
    {
      var at := Find(raw, mark, pos);
      if at.None? { break; }
      pos := at.value + |mark|;
      if OccursAt(raw, "--", pos) { break; }
      if !OccursAt(raw, Crlf(), pos) { return Err("invalid_wsd_mtom_body"); }
      pos := pos + 2;
      var end := Find(raw, Blank(), pos);
      if end.None? || end.value - pos > MAX_HEADERS { return Err("invalid_wsd_mtom_headers"); }
      var next := Find(raw, Crlf() + mark, end.value + 4);
      if next.None? { return Err("invalid_wsd_mtom_body"); }
      OccursInRange(raw, Blank(), end.value);
      OccursInRange(raw, Crlf() + mark, next.value);
      var headers := raw[pos..end.value];
      if ContentId(headers) == wanted {
        return ImageOf(headers, raw[end.value + 4..next.value], limits);
      }
      pos := next.value;
    }
    result := Err("missing_wsd_mtom_image");
  }
}
