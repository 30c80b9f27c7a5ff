/** The address checks of discovery and of the transport, which are written twice. */
module Uri {
  import opened Text

  // ----------------------------------------------------------- IPv4 addresses

  predicate IsOctet(s: string) {
    1 <= |s| <= 3 && AllDigits(s) && Value(s) <= 255
  }

  /** Four decimal numbers up to 255, of one to three digits, with dots between them. */
  predicate IsIpv4(value: string) {
    var parts := Split(value, '.');
    |parts| == 4 && forall i :: 0 <= i < 4 ==> IsOctet(parts[i])
  }

  function AddressOf(parts: seq<string>): nat
    requires forall i :: 0 <= i < |parts| ==> IsOctet(parts[i])
  {
    if parts == [] then 0
    else
      var last := parts[|parts| - 1];
      assert IsOctet(last);
      AddressOf(parts[..|parts| - 1]) * 256 + Value(last)
  }

  function Power256(n: nat): nat {
    if n == 0 then 1 else 256 * Power256(n - 1)
  }

  lemma {:induction false} AddressBelowPower(parts: seq<string>)
    requires forall i :: 0 <= i < |parts| ==> IsOctet(parts[i])
    ensures AddressOf(parts) < Power256(|parts|)
  {
    hide IsOctet, Value;
    if parts != [] {
      var front := parts[..|parts| - 1];
      AddressBelowPower(front);
      OctetIsByte(parts[|parts| - 1]);
    }
  }

  lemma OctetIsByte(octet: string)
    requires IsOctet(octet)
    ensures Value(octet) <= 255
  {
  }

  lemma AddressBound(parts: seq<string>)
    requires |parts| <= 4 && forall i :: 0 <= i < |parts| ==> IsOctet(parts[i])
    ensures |parts| <= 3 ==> AddressOf(parts) < 0x100_0000
    ensures AddressOf(parts) <= U32_MAX
  {
    hide AddressOf, IsOctet;
    AddressBelowPower(parts);
    assert Power256(1) == 256 && Power256(2) == 0x1_0000 && Power256(3) == 0x100_0000 && Power256(4) == 0x1_0000_0000;
  }

  lemma AddressAppend(parts: seq<string>, octet: string)
    requires |parts| <= 3 && (forall i :: 0 <= i < |parts| ==> IsOctet(parts[i])) && IsOctet(octet)
    ensures forall i :: 0 <= i <= |parts| ==> IsOctet((parts + [octet])[i])
    ensures AddressOf(parts + [octet]) == AddressOf(parts) * 256 + Value(octet) <= U32_MAX
  {
    AddressBound(parts);
    assert (parts + [octet])[..|parts|] == parts;
  }

  lemma NoDotIsOnePart(s: string)
    requires '.' !in s
    ensures Split(s, '.') == [s]
  {
  }

  /** The digits of one part, accumulated from the left. */
  method ReadOctet(value: string, start: nat, stop: nat) returns (ok: bool, octet: nat)
    requires start < stop <= |value| && stop - start <= 3
    ensures ok <==> IsOctet(value[start..stop])
    ensures ok ==> octet == Value(value[start..stop])
  {
    octet := 0;
    var index := start;
    while index < stop
      invariant start <= index <= stop
      invariant AllDigits(value[start..index]) && octet == Value(value[start..index]) && octet <= 255
    {
      assert value[start..index + 1][..index - start] == value[start..index];
      assert value[start..index + 1][index - start] == value[index];
      if !IsDigit(value[index]) {
        assert value[start..stop][index - start] == value[index];
        return false, 0;
      }
      octet := octet * 10 + DigitValue(value[index]);
      if octet > 255 {
        LongerIsLarger(value[start..stop], index + 1 - start);
        assert value[start..stop][..index + 1 - start] == value[start..index + 1];
        return false, 0;
      }
      index := index + 1;
    }
    ok := true;
  }

  lemma {:induction false} LongerIsLarger(digits: string, k: nat)
    requires k <= |digits|
    ensures AllDigits(digits) ==> Value(digits[..k]) <= Value(digits)
    decreases |digits|
  {
    if AllDigits(digits) && k < |digits| {
      var front := digits[..|digits| - 1];
      LongerIsLarger(front, k);
      assert front[..k] == digits[..k];
    } else {
      assert k == |digits| ==> digits[..k] == digits;
    }
  }

  /** What the loop over the parts has done: the parts before `start`, and what is left to split. */
  ghost predicate PartsDone(value: string, done: seq<string>, start: nat) {
    (forall i :: 0 <= i < |done| ==> IsOctet(done[i]))
    && if start <= |value| then Split(value, '.') == done + Split(value[start..], '.')
       else start == |value| + 1 && Split(value, '.') == done
  }

  lemma FindsDot(value: string, start: nat)
    requires start <= |value|
    ensures var end := Find(value, ".", start);
            if end.Some? then start <= end.value < |value| && value[end.value] == '.' && '.' !in value[start..end.value]
            else '.' !in value[start..]
  {
    var end := Find(value, ".", start);
    if end.Some? {
      OccursChar(value, ".", end.value, 0);
    }
    forall i | start <= i < (if end.Some? then end.value else |value|) ensures value[i] != '.' {
      assert value[i..i + 1] == [value[i]];
      assert !OccursAt(value, ".", i);
    }
  }

  function PartEnd(value: string, end: Option<nat>): nat {
    if end.Some? then end.value else |value|
  }

  /** One turn of the loop: the next part ends at the next dot, or at the end. */
  lemma NextPart(value: string, done: seq<string>, start: nat)
    requires start <= |value| && PartsDone(value, done, start)
    ensures var end := Find(value, ".", start);
            var stop := PartEnd(value, end);
            start <= stop <= |value|
            && Split(value, '.')
               == done + [value[start..stop]] + (if end.Some? then Split(value[stop + 1..], '.') else [])
  {
    hide Find, OccursAt, Split, IsOctet;
    var rest, end := value[start..], Find(value, ".", start);
    FindsDot(value, start);
    if end.Some? {
      var k := end.value - start;
      assert rest[..k] == value[start..end.value] && rest[k + 1..] == value[end.value + 1..];
      SplitStep(rest, '.', k);
    } else {
      NoDotIsOnePart(rest);
      assert rest == value[start..|value|];
    }
  }

  /** A turn that fails: too few or too many dots, or no octet. */
  lemma TurnFails(value: string, done: seq<string>, start: nat)
    requires start <= |value| && PartsDone(value, done, start) && |done| < 4
    requires var end := Find(value, ".", start);
             (|done| < 3 && end.None?) || (|done| == 3 && end.Some?)
             || (start <= PartEnd(value, end) <= |value| && !IsOctet(value[start..PartEnd(value, end)]))
    ensures !IsIpv4(value)
  {
    hide Find, IsOctet;
    NextPart(value, done, start);
    assert start <= PartEnd(value, Find(value, ".", start)) ==>
      Split(value, '.')[|done|] == value[start..PartEnd(value, Find(value, ".", start))];
  }

  lemma TurnSucceeds(value: string, done: seq<string>, start: nat)
    requires start <= |value| && PartsDone(value, done, start)
    requires var stop := PartEnd(value, Find(value, ".", start));
             start <= stop <= |value| && IsOctet(value[start..stop])
    ensures var end := Find(value, ".", start);
            PartsDone(value, done + [value[start..PartEnd(value, end)]], PartEnd(value, end) + 1)
  {
    hide Find, OccursAt, IsOctet;
    FindsDot(value, start);
    NextPart(value, done, start);
  }

  lemma AllDone(value: string, done: seq<string>)
    requires |done| == 4 && PartsDone(value, done, |value| + 1)
    ensures IsIpv4(value) && Split(value, '.') == done
  {
  }

  lemma DotIsInside(value: string, start: nat)
    requires start <= |value|
    ensures start <= PartEnd(value, Find(value, ".", start)) <= |value|
    ensures Find(value, ".", start).Some? ==> PartEnd(value, Find(value, ".", start)) < |value|
  {
    hide Find;
    FindsDot(value, start);
  }

  /** Discovery's parser: four turns over the dots, each folding an octet into the address. */
  method ParseIpv4(value: string) returns (ok: bool, result: U32)
    ensures ok <==> IsIpv4(value)
    ensures ok ==> result == AddressOf(Split(value, '.'))
  {
    hide Find, Split, IsIpv4, IsOctet, PartsDone, AddressOf;
    var parsed: U32 := 0;
    var start: nat := 0;
    ghost var done: seq<string> := [];
    result := 0;
    StartParts(value);
    for part := 0 to 4
      invariant |done| == part && PartsDone(value, done, start) && AllOctets(done)
      invariant if part < 4 then start <= |value| else start == |value| + 1
      invariant parsed == AddressOf(done)
    {
      var end := Find(value, ".", start);
      DotIsInside(value, start);
      if (part < 3 && end.None?) || (part == 3 && end.Some?) {
        TurnFails(value, done, start);
        return false, 0;
      }
      var stop := if end.Some? then end.value else |value|;
      if stop == start || stop - start > 3 {
        NotAnOctet(value[start..stop]);
        TurnFails(value, done, start);
        return false, 0;
      }
      var good, octet := ReadOctet(value, start, stop);
      if !good {
        TurnFails(value, done, start);
        return false, 0;
      }
      AddressAppend(done, value[start..stop]);
      TurnSucceeds(value, done, start);
      parsed := parsed * 256 + octet;
      done := done + [value[start..stop]];
      start := stop + 1;
    }
    AllDone(value, done);
    return true, parsed;
  }

  predicate AllOctets(parts: seq<string>) {
    forall i :: 0 <= i < |parts| ==> IsOctet(parts[i])
  }

  lemma NotAnOctet(s: string)
    requires s == "" || |s| > 3
    ensures !IsOctet(s)
  {
  }

  lemma StartParts(value: string)
    ensures PartsDone(value, [], 0) && AddressOf([]) == 0
  {
    assert value[0..] == value;
  }

  /** The transport's check: the same loops over its own variables, without an address. */
  method IsIpv4Literal(value: string) returns (ok: bool)
    ensures ok <==> IsIpv4(value)
  {
    hide Find, Split, IsIpv4, IsOctet, PartsDone;
    var start: nat := 0;
    ghost var done: seq<string> := [];
    StartParts(value);
    for part := 0 to 4
      invariant |done| == part && PartsDone(value, done, start)
      invariant if part < 4 then start <= |value| else start == |value| + 1
    {
      var end := Find(value, ".", start);
      DotIsInside(value, start);
      if (part < 3 && end.None?) || (part == 3 && end.Some?) {
        TurnFails(value, done, start);
        return false;
      }
      var stop := if end.Some? then end.value else |value|;
      if stop == start || stop - start > 3 {
        NotAnOctet(value[start..stop]);
        TurnFails(value, done, start);
        return false;
      }
      var good, _ := ReadOctet(value, start, stop);
      if !good {
        TurnFails(value, done, start);
        return false;
      }
      TurnSucceeds(value, done, start);
      done := done + [value[start..stop]];
      start := stop + 1;
    }
    AllDone(value, done);
    ok := start == |value| + 1;
  }

  // ------------------------------------------------------- printing addresses

  /** Dotted decimal. */
  function PrintIpv4(address: U32): string {
    Join([Dec(address / 0x100_0000), Dec(address / 0x1_0000 % 0x100), Dec(address / 0x100 % 0x100), Dec(address % 0x100)],
         '.')
  }

  lemma DecIsOctet(n: nat)
    requires n <= 255
    ensures IsOctet(Dec(n)) && Value(Dec(n)) == n && '.' !in Dec(n)
  {
    ValueOfDec(n);
    DecLength(n, 3);
    assert Pow10(3) == 1000;
    assert !IsDigit('.');
  }

  lemma AddressOfFour(a: string, b: string, c: string, d: string)
    requires IsOctet(a) && IsOctet(b) && IsOctet(c) && IsOctet(d)
    ensures AddressOf([a, b, c, d]) == ((Value(a) * 256 + Value(b)) * 256 + Value(c)) * 256 + Value(d)
  {
    hide IsOctet, AddressOf;
    StartParts("");
    AddressAppend([], a);
    AddressAppend([a], b);
    AddressAppend([a, b], c);
    AddressAppend([a, b, c], d);
    assert [] + [a] == [a] && [a] + [b] == [a, b] && [a, b] + [c] == [a, b, c] && [a, b, c] + [d] == [a, b, c, d];
  }

  /** Every 32-bit address is read back from its dotted decimal form. */
  lemma PrintedAddressIsRead(address: U32)
    ensures IsIpv4(PrintIpv4(address)) && AddressOf(Split(PrintIpv4(address), '.')) == address
  {
    hide IsOctet, AddressOf, Split, Join, Dec;
    var a, b, c, d := address / 0x100_0000, address / 0x1_0000 % 0x100, address / 0x100 % 0x100, address % 0x100;
    DecIsOctet(a);
    DecIsOctet(b);
    DecIsOctet(c);
    DecIsOctet(d);
    var parts := [Dec(a), Dec(b), Dec(c), Dec(d)];
    SplitJoin(parts, '.');
    AddressOfFour(Dec(a), Dec(b), Dec(c), Dec(d));
    Digits256(address);
  }

  lemma Digits256(n: U32)
    ensures n == ((n / 0x100_0000 * 256 + n / 0x1_0000 % 0x100) * 256 + n / 0x100 % 0x100) * 256 + n % 0x100
  {
  }

  // -------------------------------------------------------------- URI checks

  function SchemeLength(uri: string): nat {
    if StartsWith(uri, "http://") then 7 else if StartsWith(uri, "https://") then 8 else 0
  }

  /** std::string_view::find_first_of, as the position where the part before it ends. */
  function EndBefore(s: string, stops: string, from: nat): (end: nat)
    requires from <= |s|
    ensures from <= end <= |s|
    ensures forall i :: from <= i < end ==> s[i] !in stops
    ensures end < |s| ==> s[end] in stops
    decreases |s| - from
  {
    if from == |s| || s[from] in stops then from else EndBefore(s, stops, from + 1)
  }

  lemma EndBeforeIs(s: string, stops: string, from: nat, end: nat)
    requires from <= end <= |s| && (forall i :: from <= i < end ==> s[i] !in stops) && (end < |s| ==> s[end] in stops)
    ensures EndBefore(s, stops, from) == end
  {
  }

  /** The transport's ports: one to five digits with a value from 1 to 65535. */
  predicate IsTransportPort(port: string) {
    1 <= |port| <= 5 && AllDigits(port) && 0 < Value(port) <= 65535
  }

  /** The number discovery's loop arrives at from the left, digit by digit. */
  function Folded(value: nat, port: string): nat
    requires AllDigits(port)
    decreases |port|
  {
    if port == "" then value else Folded(value * 10 + DigitValue(port[0]), port[1..])
  }

  predicate IsDiscoveryPort(port: string) {
    port != "" && |port| <= 5 && AllDigits(port) && Folded(0, port) != 0 && Folded(0, port) <= 65535
  }

  lemma {:induction false} FoldedAppend(value: nat, port: string, digit: char)
    requires AllDigits(port) && IsDigit(digit)
    ensures Folded(value, port + [digit]) == Folded(value, port) * 10 + DigitValue(digit)
    decreases |port|
  {
    if port == "" {
      assert Folded(value * 10 + DigitValue(digit), "") == value * 10 + DigitValue(digit);
      assert (port + [digit])[1..] == "";
    } else {
      assert (port + [digit])[1..] == port[1..] + [digit];
      FoldedAppend(value * 10 + DigitValue(port[0]), port[1..], digit);
    }
  }

  lemma {:induction false} FoldedIsValue(port: string)
    requires AllDigits(port)
    ensures Folded(0, port) == Value(port)
    decreases |port|
  {
    if port != "" {
      var front := port[..|port| - 1];
      FoldedIsValue(front);
      FoldedAppend(0, front, port[|port| - 1]);
      assert port == front + [port[|port| - 1]];
    }
  }

  /** A host, and a port behind a colon if there is one; no user part and no bracketed host: as discovery checks it, */
  predicate DiscoveryAuthority(authority: string) {
    authority != "" && '@' !in authority && authority[0] != '['
    && (':' in authority ==> IsDiscoveryPort(authority[IndexOf(authority, ':') + 1..]))
  }

  /** and as the transport checks it. */
  predicate TransportAuthority(authority: string) {
    authority != "" && '@' !in authority && authority[0] != '['
    && (':' in authority ==> IsTransportPort(authority[IndexOf(authority, ':') + 1..]))
  }

  /** The two checks of the authority, each with a port loop of its own, agree. */
  lemma AuthoritiesAgree(authority: string)
    ensures DiscoveryAuthority(authority) <==> TransportAuthority(authority)
  {
    if ':' in authority && AllDigits(authority[IndexOf(authority, ':') + 1..]) {
      FoldedIsValue(authority[IndexOf(authority, ':') + 1..]);
    }
  }

  function HostIn(authority: string): string {
    if ':' in authority then authority[..IndexOf(authority, ':')] else authority
  }

  /** The authority as discovery takes it: up to a slash, a question mark or a number sign. */
  function Authority(uri: string): string
    requires SchemeLength(uri) > 0
  {
    uri[SchemeLength(uri)..EndBefore(uri, "/?#", SchemeLength(uri))]
  }

  predicate TransportHostMatches(uri: string, remoteIpv4: string) {
    SchemeLength(uri) > 0 && DiscoveryAuthority(Authority(uri))
    && var host := HostIn(Authority(uri));
       IsIpv4(host) && IsIpv4(remoteIpv4) && AddressOf(Split(host, '.')) == AddressOf(Split(remoteIpv4, '.'))
  }

  /** Nothing that starts a query or a fragment, behind the scheme. */
  predicate NoQuery(uri: string) {
    SchemeLength(uri) > 0 && forall i :: SchemeLength(uri) <= i < |uri| ==> uri[i] != '?' && uri[i] != '#'
  }

  /** The transport's check takes the authority up to the first slash. */
  predicate IsSafeTransportUri(uri: string) {
    SchemeLength(uri) > 0 && EndBefore(uri, "?#", SchemeLength(uri)) == |uri|
    && var authority := uri[SchemeLength(uri)..EndBefore(uri, "/", SchemeLength(uri))];
       TransportAuthority(authority) && IsIpv4(HostIn(authority))
  }

  /** Discovery's check of a port, with its loop from the left, which stays below 100000 and so does not wrap. */
  method CheckDiscoveryPort(port: string) returns (ok: bool)
    ensures ok <==> IsDiscoveryPort(port)
  {
    if port == "" || |port| > 5 || exists i :: 0 <= i < |port| && !IsDigit(port[i]) { return false; }
    var portValue: nat := 0;
    assert port[0..] == port;
    PowersAscend(0, 5);
    for i := 0 to |port|
      invariant Folded(portValue, port[i..]) == Folded(0, port)
      invariant portValue < Pow10(i) <= 100000
    {
      assert port[i..][1..] == port[i + 1..];
      PowersAscend(i + 1, 5);
      portValue := portValue * 10 + DigitValue(port[i]);
    }
    ok := portValue != 0 && portValue <= 65535;
  }

  /** The transport's check of a port; its loop stays below 100000 too. */
  method CheckTransportPort(port: string) returns (ok: bool)
    ensures ok <==> IsTransportPort(port)
  {
    if port == "" || |port| > 5 || exists i :: 0 <= i < |port| && !IsDigit(port[i]) { return false; }
    var value: nat := 0;
    PowersAscend(0, 5);
    for i := 0 to |port|
      invariant value == Value(port[..i])
      invariant value < Pow10(i) <= 100000
    {
      assert port[..i + 1][..i] == port[..i];
      PowersAscend(i + 1, 5);
      value := value * 10 + DigitValue(port[i]);
    }
    assert port[..|port|] == port;
    ok := value != 0 && value <= 65535;
  }

  lemma {:induction false} PowersAscend(j: nat, k: nat)
    requires j <= k
    ensures Pow10(j) <= Pow10(k) && Pow10(5) == 100000
  {
    if j < k {
      PowersAscend(j, k - 1);
    }
  }

  method CheckTransportHost(uri: string, remoteIpv4: string) returns (matches: bool)
    ensures matches <==> TransportHostMatches(uri, remoteIpv4)
  {
    hide IsIpv4, Split, AddressOf, IsDiscoveryPort;
    if SchemeLength(uri) == 0 { return false; }
    var authority := Authority(uri);
    if authority == "" || '@' in authority || authority[0] == '[' { return false; }
    if ':' in authority {
      var portFits := CheckDiscoveryPort(authority[IndexOf(authority, ':') + 1..]);
      if !portFits { return false; }
    }
    var ok, address := ParseIpv4(HostIn(authority));
    if !ok { return false; }
    var remoteOk, remoteAddress := ParseIpv4(remoteIpv4);
    matches := remoteOk && address == remoteAddress;
  }

  method CheckTransportUri(uri: string) returns (safe: bool)
    ensures safe <==> IsSafeTransportUri(uri)
  {
    hide IsIpv4, Split, AddressOf, IsTransportPort;
    var scheme := SchemeLength(uri);
    if scheme == 0 || EndBefore(uri, "?#", scheme) < |uri| { return false; }
    var authority := uri[scheme..EndBefore(uri, "/", scheme)];
    if authority == "" || '@' in authority || authority[0] == '[' { return false; }
    var literal := IsIpv4Literal(HostIn(authority));
    if !literal { return false; }
    safe := true;
    if ':' in authority {
      safe := CheckTransportPort(authority[IndexOf(authority, ':') + 1..]);
    }
  }

  lemma SameAuthority(uri: string)
    requires NoQuery(uri)
    ensures EndBefore(uri, "?#", SchemeLength(uri)) == |uri|
    ensures Authority(uri) == uri[SchemeLength(uri)..EndBefore(uri, "/", SchemeLength(uri))]
  {
    hide SchemeLength;
    var from := SchemeLength(uri);
    SchemeFits(uri);
    EndBeforeIs(uri, "?#", from, |uri|);
    EndBeforeIs(uri, "/?#", from, EndBefore(uri, "/", from));
  }

  lemma SchemeFits(uri: string)
    ensures SchemeLength(uri) <= |uri|
  {
  }

  /** The two checks agree: a URI is safe for the transport exactly if it has no query and matches its own host. */
  lemma SafeIffMatchesOwnHost(uri: string)
    ensures IsSafeTransportUri(uri)
            <==> NoQuery(uri) && TransportHostMatches(uri, HostIn(Authority(uri)))
  {
    hide SchemeLength, IsIpv4, DiscoveryAuthority, TransportAuthority, HostIn, Authority, Split, AddressOf;
    SchemeFits(uri);
    if NoQuery(uri) {
      SameAuthority(uri);
      AuthoritiesAgree(Authority(uri));
    } else if SchemeLength(uri) > 0 && EndBefore(uri, "?#", SchemeLength(uri)) == |uri| {
      assert forall i :: SchemeLength(uri) <= i < |uri| ==> uri[i] !in "?#";
    }
  }

  /** What discovery binds to a remote host passes the transport's check exactly if it has no query, and both then mean
      the remote address. */
  lemma BoundIsSafeIffNoQuery(uri: string, remoteIpv4: string)
    requires TransportHostMatches(uri, remoteIpv4)
    ensures IsSafeTransportUri(uri) <==> NoQuery(uri)
    ensures AddressOf(Split(HostIn(Authority(uri)), '.')) == AddressOf(Split(remoteIpv4, '.'))
  {
    hide SchemeLength, IsIpv4, DiscoveryAuthority, TransportAuthority, HostIn, Authority, Split, AddressOf;
    SafeIffMatchesOwnHost(uri);
  }

  /** A query right behind the host: discovery binds the URI, the transport refuses it. */
  lemma QueryIsBoundButUnsafe(address: U32, query: string)
    ensures var host := PrintIpv4(address);
            TransportHostMatches("http://" + host + "?" + query, host)
            && !IsSafeTransportUri("http://" + host + "?" + query)
  {
    var host := PrintIpv4(address);
    var uri := "http://" + host + "?" + query;
    PrintedAddressIsRead(address);
    PrintedIsPlain(address);
    hide IsIpv4, Split, AddressOf, PrintIpv4;
    assert uri[..7] == "http://";
    forall i | 7 <= i < 7 + |host| ensures uri[i] !in "/?#" {
      assert uri[i] == host[i - 7];
      assert host[i - 7] in host;
    }
    assert host[0] in host;
    assert DiscoveryAuthority(host) && HostIn(host) == host;
    EndBeforeIs(uri, "/?#", 7, 7 + |host|);
    assert Authority(uri) == host;
    assert uri[7 + |host|] == '?';
  }

  lemma PrintedIsPlain(address: U32)
    ensures var host := PrintIpv4(address); host != "" && forall c :: c in host ==> IsDigit(c) || c == '.'
  {
    var a, b, c, d := address / 0x100_0000, address / 0x1_0000 % 0x100, address / 0x100 % 0x100, address % 0x100;
    JoinOfDigits([Dec(a), Dec(b), Dec(c), Dec(d)]);
  }

  lemma {:induction false} JoinOfDigits(parts: seq<string>)
    requires parts != [] && forall p :: p in parts ==> p != "" && AllDigits(p)
    ensures Join(parts, '.') != "" && forall c :: c in Join(parts, '.') ==> IsDigit(c) || c == '.'
  {
    assert parts[0] in parts;
    assert forall p :: p in parts[1..] ==> p in parts;
    if |parts| > 1 {
      JoinOfDigits(parts[1..]);
    }
  }
}
