/** Which texts the two checks of a device's address accept, by how they are written. */
module UriLaws {
  import opened Text
  import opened Uri

  // -------------------------------------------------------------------- grammar

  /** One to three digits with a value up to 255. */
  predicate Octet(s: string) {
    1 <= |s| <= 3 && AllDigits(s) && Value(s) <= 255
  }

  /** Four of them with dots between, for an address. */
  predicate Dotted(s: string, a: string, b: string, c: string, d: string, address: int) {
    Octet(a) && Octet(b) && Octet(c) && Octet(d) && s == a + "." + b + "." + c + "." + d
    && address == Value(a) * 0x100_0000 + Value(b) * 0x1_0000 + Value(c) * 0x100 + Value(d)
  }

  ghost predicate Quad(s: string, address: int) {
    exists a, b, c, d :: Dotted(s, a, b, c, d, address)
  }

  /** A port behind a colon, or nothing. */
  ghost predicate PortPart(s: string) {
    s == "" || exists port :: s == ":" + port && 1 <= |port| <= 5 && AllDigits(port) && 1 <= Value(port) <= 65535
  }

  predicate Scheme(s: string) {
    s == "http://" || s == "https://"
  }

  // ------------------------------------------------------------------ addresses

  lemma {:induction false} JoinSplit(s: string, c: char)
    ensures Join(Split(s, c), c) == s
    decreases |s|
  {
    hide Split;
    if c !in s {
      SplitOfPlain(s, c);
    } else {
      var i := IndexOf(s, c);
      SplitStep(s, c, i);
      JoinSplit(s[i + 1..], c);
      assert Split(s, c)[1..] == Split(s[i + 1..], c);
      assert s == s[..i] + [c] + s[i + 1..];
    }
  }

  lemma FourJoined(a: string, b: string, c: string, d: string)
    ensures Join([a, b, c, d], '.') == a + "." + b + "." + c + "." + d
  {
    assert [a, b, c, d][1..] == [b, c, d] && [b, c, d][1..] == [c, d] && [c, d][1..] == [d];
    assert Join([d], '.') == d && Join([c, d], '.') == c + ['.'] + d;
    assert Join([b, c, d], '.') == b + ['.'] + (c + ['.'] + d);
    assert a + ['.'] + (b + ['.'] + (c + ['.'] + d)) == a + "." + b + "." + c + "." + d;
  }

  lemma OctetIs(s: string)
    ensures IsOctet(s) <==> Octet(s)
    ensures Octet(s) ==> '.' !in s && ':' !in s && '/' !in s && '?' !in s && '#' !in s && '@' !in s && '[' !in s
  {
    if Octet(s) {
      assert !IsDigit('.') && !IsDigit(':') && !IsDigit('/') && !IsDigit('?') && !IsDigit('#') && !IsDigit('@') && !IsDigit('[');
    }
  }

  /** The address that a text is accepted for. */
  function AddressIn(s: string): Option<nat> {
    if IsIpv4(s) then Some(AddressOf(Split(s, '.'))) else None
  }

  lemma DottedIsRead(s: string, a: string, b: string, c: string, d: string, address: int)
    requires Dotted(s, a, b, c, d, address)
    ensures AddressIn(s) == Some(address)
  {
    hide Octet, Split, AddressOf, Join, Value;
    OctetIs(a);
    OctetIs(b);
    OctetIs(c);
    OctetIs(d);
    FourJoined(a, b, c, d);
    SplitJoin([a, b, c, d], '.');
    AddressOfFour(a, b, c, d);
  }

  lemma ReadIsDotted(s: string)
    requires IsIpv4(s)
    ensures Quad(s, AddressOf(Split(s, '.')))
  {
    hide IsOctet, Octet, Split, AddressOf, Join;
    var parts := Split(s, '.');
    JoinSplit(s, '.');
    var a, b, c, d := parts[0], parts[1], parts[2], parts[3];
    assert parts == [a, b, c, d];
    FourJoined(a, b, c, d);
    AddressOfFour(a, b, c, d);
    OctetIs(a);
    OctetIs(b);
    OctetIs(c);
    OctetIs(d);
    assert Dotted(s, a, b, c, d, AddressOf(parts));
  }

  /** A text is accepted as an address exactly if it is four octets with dots between, and then it stands for theirs. */
  lemma AddressIff(s: string, address: int)
    ensures Quad(s, address) <==> AddressIn(s).Some? && AddressIn(s).value == address
  {
    hide Dotted, Split;
    if AddressIn(s).Some? {
      ReadIsDotted(s);
    }
    if a, b, c, d :| Dotted(s, a, b, c, d, address) {
      DottedIsRead(s, a, b, c, d, address);
    }
  }

  lemma DottedIsPlain(s: string, a: string, b: string, c: string, d: string, address: int)
    requires Dotted(s, a, b, c, d, address)
    ensures s != "" && ':' !in s && '/' !in s && '?' !in s && '#' !in s && '@' !in s && s[0] != '['
  {
    hide Value;
    OctetIs(a);
    OctetIs(b);
    OctetIs(c);
    OctetIs(d);
    hide Octet;
    assert |a| > 0 by { OctetNotEmpty(a); }
    assert a[0] in a && s[0] == a[0];
  }

  lemma OctetNotEmpty(s: string)
    requires Octet(s)
    ensures |s| > 0
  {
  }

  lemma QuadIsPlain(s: string, address: int)
    requires Quad(s, address)
    ensures s != "" && ':' !in s && '/' !in s && '?' !in s && '#' !in s && '@' !in s && s[0] != '['
  {
    hide Dotted;
    var a, b, c, d :| Dotted(s, a, b, c, d, address);
    DottedIsPlain(s, a, b, c, d, address);
  }

  // ------------------------------------------------------------------ authority

  lemma PortIs(port: string)
    ensures IsTransportPort(port) <==> 1 <= |port| <= 5 && AllDigits(port) && 1 <= Value(port) <= 65535
    ensures IsTransportPort(port) ==> '/' !in port && '?' !in port && '#' !in port && '@' !in port
  {
    assert !IsDigit('/') && !IsDigit('?') && !IsDigit('#') && !IsDigit('@');
  }

  /** A host with a port or none. */
  ghost predicate HostAndPort(authority: string, address: int) {
    exists host, part :: authority == host + part && Quad(host, address) && PortPart(part)
  }

  lemma TakenIsHostAndPort(authority: string)
    requires TransportAuthority(authority) && AddressIn(HostIn(authority)).Some?
    ensures HostAndPort(authority, AddressIn(HostIn(authority)).value)
  {
    hide AddressIn, Quad, IsTransportPort;
    var host := HostIn(authority);
    AddressIff(host, AddressIn(host).value);
    if ':' in authority {
      var i := IndexOf(authority, ':');
      var port := authority[i + 1..];
      PortIs(port);
      assert authority == host + (":" + port);
      assert PortPart(":" + port);
    } else {
      assert authority == host + "";
      assert PortPart("");
    }
  }

  lemma HostAndPortIsTaken(authority: string, host: string, part: string, address: int)
    requires authority == host + part && Quad(host, address) && PortPart(part)
    ensures TransportAuthority(authority) && HostIn(authority) == host
  {
    hide Quad, IsTransportPort;
    QuadIsPlain(host, address);
    if part != "" {
      var port :| part == ":" + port && 1 <= |port| <= 5 && AllDigits(port) && 1 <= Value(port) <= 65535;
      PortIs(port);
      assert authority[|host|] == ':' && ':' !in authority[..|host|];
      IndexOfIs(authority, ':', |host|);
      assert authority[|host| + 1..] == port && authority[..|host|] == host;
      assert '@' !in part;
    } else {
      assert authority == host;
    }
  }

  lemma AuthorityIff(authority: string, address: int)
    ensures HostAndPort(authority, address)
            <==> TransportAuthority(authority) && AddressIn(HostIn(authority)).Some? && AddressIn(HostIn(authority)).value == address
  {
    hide AddressIn, Quad, PortPart, TransportAuthority, HostIn;
    if TransportAuthority(authority) && AddressIn(HostIn(authority)).Some? {
      TakenIsHostAndPort(authority);
    }
    if host, part :| authority == host + part && Quad(host, address) && PortPart(part) {
      HostAndPortIsTaken(authority, host, part, address);
      AddressIff(host, address);
    }
  }

  lemma HostAndPortIsPlain(authority: string, address: int)
    requires HostAndPort(authority, address)
    ensures authority != "" && '/' !in authority && '?' !in authority && '#' !in authority
  {
    hide Quad, IsTransportPort;
    var host, part :| authority == host + part && Quad(host, address) && PortPart(part);
    QuadIsPlain(host, address);
    if part != "" {
      var port :| part == ":" + port && 1 <= |port| <= 5 && AllDigits(port) && 1 <= Value(port) <= 65535;
      PortIs(port);
    }
  }

  // ----------------------------------------------------------------- whole texts

  lemma SchemeIs(uri: string)
    ensures SchemeLength(uri) > 0 <==> exists scheme :: Scheme(scheme) && StartsWith(uri, scheme)
    ensures SchemeLength(uri) > 0 ==> Scheme(uri[..SchemeLength(uri)])
  {
    if StartsWith(uri, "http://") {
      assert Scheme("http://");
    }
    if StartsWith(uri, "https://") {
      assert Scheme("https://");
    }
  }

  lemma SchemeStarts(scheme: string, rest: string)
    requires Scheme(scheme)
    ensures SchemeLength(scheme + rest) == |scheme| > 0 && (scheme + rest)[|scheme|..] == rest
  {
    var uri := scheme + rest;
    assert uri[..|scheme|] == scheme;
    if scheme == "https://" {
      assert uri[..7][4] == 's';
    }
  }

  lemma StopsWhere(uri: string, stops: string, from: nat, middle: string, rest: string)
    requires from <= |uri| && uri[from..] == middle + rest
    requires (forall c :: c in middle ==> c !in stops) && (rest == "" || rest[0] in stops)
    ensures EndBefore(uri, stops, from) == from + |middle| && uri[from..from + |middle|] == middle
  {
    var end := from + |middle|;
    assert forall i :: from <= i < end ==> uri[i] == uri[from..][i - from];
    assert uri[from..][..|middle|] == middle;
    if end < |uri| {
      assert uri[end] == uri[from..][|middle|];
    }
    EndBeforeIs(uri, stops, from, end);
  }

  /** One of two schemes, an address, a port or none, and the rest. */
  ghost predicate Written(uri: string, scheme: string, authority: string, rest: string, address: int) {
    uri == scheme + authority + rest && Scheme(scheme) && HostAndPort(authority, address)
  }

  predicate PathOnly(rest: string) {
    (rest == "" || rest[0] == '/') && '?' !in rest && '#' !in rest
  }

  lemma TransportTakes(uri: string, scheme: string, authority: string, path: string, address: int)
    requires Written(uri, scheme, authority, path, address) && PathOnly(path)
    ensures IsSafeTransportUri(uri)
  {
    hide AddressIn, TransportAuthority, HostAndPort, SchemeLength, HostIn;
    hide EndBefore, Scheme, IsIpv4;
    AuthorityStands(uri, scheme, authority, path, address);
    HostAndPortIsPlain(authority, address);
    AuthorityIff(authority, address);
    AddressInIs(HostIn(authority));
    assert forall c :: c in authority + path ==> c !in "?#";
    assert uri[|scheme|..] == (authority + path) + "";
    StopsWhere(uri, "?#", |scheme|, authority + path, "");
  }

  lemma AuthorityStands(uri: string, scheme: string, authority: string, path: string, address: int)
    requires Written(uri, scheme, authority, path, address) && (path == "" || path[0] == '/')
    ensures SchemeLength(uri) == |scheme| > 0 && uri[|scheme|..] == authority + path
    ensures EndBefore(uri, "/", |scheme|) == |scheme| + |authority| && uri[|scheme|..|scheme| + |authority|] == authority
  {
    hide HostAndPort, SchemeLength, EndBefore, Scheme;
    SchemeStarts(scheme, authority + path);
    assert uri == scheme + (authority + path);
    HostAndPortIsPlain(authority, address);
    StopsWhere(uri, "/", |scheme|, authority, path);
  }

  lemma AddressInIs(s: string)
    ensures IsIpv4(s) <==> AddressIn(s).Some?
  {
  }

  lemma TakenIsWritten(uri: string) returns (scheme: string, authority: string, path: string, address: int)
    requires IsSafeTransportUri(uri)
    ensures Written(uri, scheme, authority, path, address) && PathOnly(path)
  {
    hide AddressIn, IsIpv4, TransportAuthority, HostAndPort, SchemeLength, HostIn;
    var from := SchemeLength(uri);
    SchemeIs(uri);
    SchemeFits(uri);
    var end := EndBefore(uri, "/", from);
    scheme, authority, path := uri[..from], uri[from..end], uri[end..];
    AddressInIs(HostIn(authority));
    address := AddressIn(HostIn(authority)).value;
    AuthorityIff(authority, address);
    assert uri == scheme + authority + path;
    assert forall i :: from <= i < |uri| ==> uri[i] !in "?#";
  }

  /** The transport takes exactly: one of two schemes, an address, a port or none, and a path or nothing, without a query or a
      fragment. */
  lemma TransportTakesIff(uri: string)
    ensures IsSafeTransportUri(uri)
            <==> exists scheme, authority, path, address :: Written(uri, scheme, authority, path, address) && PathOnly(path)
  {
    hide IsSafeTransportUri, Written, PathOnly;
    if IsSafeTransportUri(uri) {
      var scheme, authority, path, address := TakenIsWritten(uri);
    }
    if scheme, authority, path, address :| Written(uri, scheme, authority, path, address) && PathOnly(path) {
      TransportTakes(uri, scheme, authority, path, address);
    }
  }

  predicate StartsRest(rest: string) {
    rest == "" || rest[0] == '/' || rest[0] == '?' || rest[0] == '#'
  }

  lemma MatchesIs(uri: string, remoteIpv4: string)
    ensures TransportHostMatches(uri, remoteIpv4)
            <==> SchemeLength(uri) > 0 && DiscoveryAuthority(Authority(uri)) && AddressIn(HostIn(Authority(uri))).Some?
                 && AddressIn(HostIn(Authority(uri))) == AddressIn(remoteIpv4)
  {
    hide SchemeLength, IsIpv4, DiscoveryAuthority, HostIn, Authority, Split, AddressOf;
  }

  lemma DiscoveryBinds(uri: string, remoteIpv4: string, scheme: string, authority: string, rest: string, address: int)
    requires Written(uri, scheme, authority, rest, address) && StartsRest(rest) && Quad(remoteIpv4, address)
    ensures TransportHostMatches(uri, remoteIpv4)
  {
    hide AddressIn, TransportAuthority, DiscoveryAuthority, HostAndPort, SchemeLength, HostIn, Quad, TransportHostMatches;
    SchemeStarts(scheme, authority + rest);
    assert uri == scheme + (authority + rest);
    HostAndPortIsPlain(authority, address);
    AuthoritiesAgree(authority);
    AuthorityIff(authority, address);
    AddressIff(remoteIpv4, address);
    assert forall c :: c in authority ==> c !in "/?#";
    StopsWhere(uri, "/?#", |scheme|, authority, rest);
    MatchesIs(uri, remoteIpv4);
  }

  lemma BoundIsWritten(uri: string, remoteIpv4: string)
    returns (scheme: string, authority: string, rest: string, address: int)
    requires TransportHostMatches(uri, remoteIpv4)
    ensures Written(uri, scheme, authority, rest, address) && StartsRest(rest) && Quad(remoteIpv4, address)
  {
    hide AddressIn, TransportAuthority, DiscoveryAuthority, HostAndPort, SchemeLength, HostIn, Quad, TransportHostMatches;
    MatchesIs(uri, remoteIpv4);
    var from := SchemeLength(uri);
    SchemeIs(uri);
    SchemeFits(uri);
    var end := EndBefore(uri, "/?#", from);
    scheme, authority, rest := uri[..from], uri[from..end], uri[end..];
    address := AddressIn(remoteIpv4).value;
    AuthoritiesAgree(authority);
    AuthorityIff(authority, address);
    AddressIff(remoteIpv4, address);
    assert uri == scheme + authority + rest;
    assert rest == "" || rest[0] in "/?#";
  }

  /** Discovery binds exactly: one of two schemes, an address, a port or none, and anything that starts with a slash, a question
      mark or a number sign; and the same address on the other side. */
  lemma DiscoveryBindsIff(uri: string, remoteIpv4: string)
    ensures TransportHostMatches(uri, remoteIpv4)
            <==> exists scheme, authority, rest, address ::
                   Written(uri, scheme, authority, rest, address) && StartsRest(rest) && Quad(remoteIpv4, address)
  {
    hide TransportHostMatches, Written, StartsRest, Quad;
    if TransportHostMatches(uri, remoteIpv4) {
      var scheme, authority, rest, address := BoundIsWritten(uri, remoteIpv4);
    }
    if scheme, authority, rest, address :|
      Written(uri, scheme, authority, rest, address) && StartsRest(rest) && Quad(remoteIpv4, address)
    {
      DiscoveryBinds(uri, remoteIpv4, scheme, authority, rest, address);
    }
  }
}
