/**
 * pkg/runner/target.go: turning one user-supplied "addr:port" or
 * "host:port" string into a scan target.
 */
module Target {
  import opened Wrappers
  import opened Text
  import opened Strconv
  import opened Netip
  import opened Net

  /** plugins.Target: the address to probe and, when DNS was used, the host name it came from. */
  datatype Target = Target(address: AddrPort, host: string)

  /** The three error messages parseTarget can produce. */
  datatype TargetError =
    | InvalidTarget(input: string)
    | InvalidPort(port: string)
    | ResolveFailed(host: string, reason: string)

  /**
   * The outside world as the parser sees it: IPv6 text parsing (netip) and
   * DNS resolution (net.LookupIP).
   */
  datatype NetLib = NetLib(parseIPv6: string -> Option<IPv6Bytes>, lookupIP: string -> LookupResult)

  /**
   * parseTarget: a literal address-port pair is taken as it is, with no
   * host name; otherwise the string is split into host and port, the port
   * must be a 16-bit decimal, the host is resolved and its first address is
   * paired with the port.
   */
  function ParseTarget(lib: NetLib, input: string): (r: Result<Target, TargetError>)
    // a literal address-port pair is the target itself, and is not looked up
    ensures ParseAddrPort(lib.parseIPv6, input).Some? ==> r == Ok(Target(ParseAddrPort(lib.parseIPv6, input).value, ""))
    // an error names the stage that refused the input
    ensures r.Err? && r.error.InvalidPort? ==>
      SplitHostPort(input).Some? && r.error.port == SplitHostPort(input).value.port && ParseUint16(r.error.port).None?
    ensures r.Err? && r.error.ResolveFailed? ==>
      SplitHostPort(input).Some? && r.error.host == SplitHostPort(input).value.host
      && lib.lookupIP(r.error.host) == LookupFailed(r.error.reason)
    ensures r.Err? && r.error.InvalidTarget? ==> r.error.input == input
    ensures r.Err? && r.error.InvalidTarget? ==>
      || SplitHostPort(input).None?
      || (lib.lookupIP(SplitHostPort(input).value.host).Found? &&
          AddrFromSlice(lib.lookupIP(SplitHostPort(input).value.host).first).None?)
    // every target holds a well-formed address
    ensures r.Ok? ==> r.value.address.ip.Is4() || r.value.address.ip.Is6()
  {
    match ParseAddrPort(lib.parseIPv6, input)
    case Some(ap) => Ok(Target(ap, ""))
    case None =>
      match SplitHostPort(input)
      case None => Err(InvalidTarget(input))
      case Some(hp) =>
        match ParseUint16(hp.port)
        case None => Err(InvalidPort(hp.port))
        case Some(port) =>
          match lib.lookupIP(hp.host)
          case LookupFailed(why) => Err(ResolveFailed(hp.host, why))
          case Found(first, _) =>
            match AddrFromSlice(first)
            case None => Err(InvalidTarget(input))
            case Some(ip) => Ok(Target(AddrPort(ip, port), hp.host))
  }

  /**
   * DNS is consulted last: if replacing the resolver changes the outcome,
   * the input was not a literal, it did split into host and port, and the
   * port was valid. In particular a literal, an unsplittable string and a
   * bad port never reach the resolver.
   */
  lemma {:induction false} LookupOnlyAfterValidPort(lib: NetLib, other: string -> LookupResult, input: string)
    ensures ParseTarget(lib, input) != ParseTarget(lib.(lookupIP := other), input) ==>
      && ParseAddrPort(lib.parseIPv6, input).None?
      && SplitHostPort(input).Some?
      && ParseUint16(SplitHostPort(input).value.port).Some?
  {
  }

  /**
   * A target found through DNS: its host is the host part of the input,
   * its port is the decimal value of the port part (at most 65535) and its
   * address is the first address the resolver returned.
   */
  lemma {:induction false} ResolvedTarget(lib: NetLib, input: string)
    requires ParseTarget(lib, input).Ok? && ParseAddrPort(lib.parseIPv6, input).None?
    ensures var t := ParseTarget(lib, input).value;
      exists portText ::
        && (input == t.host + ":" + portText || input == "[" + t.host + "]:" + portText)
        && portText != "" && AllDigits(portText) && DecimalValue(portText) == t.address.port
        && lib.lookupIP(t.host).Found? && t.address.ip.bytes == lib.lookupIP(t.host).first
    // the host and port are the ones net.SplitHostPort cuts out of the input
    ensures var t := ParseTarget(lib, input).value;
      && SplitHostPort(input).Some? && t.host == SplitHostPort(input).value.host
      && ParseUint16(SplitHostPort(input).value.port) == Some(t.address.port)
  {
    var hp := SplitHostPort(input).value;
    SplitHostPortShape(input);
    assert input == hp.host + ":" + hp.port || input == "[" + hp.host + "]:" + hp.port;
  }

  /**
   * Input that net.SplitHostPort refuses (no colon, a colon inside an
   * unbracketed host as in "::1:8080", a stray or missing bracket) is an
   * invalid target unless it carries an IPv6 zone: without a '%',
   * netip.ParseAddrPort refuses it as well, so it is not a literal either.
   * The one way such input still becomes a target is as a zoned literal
   * (see ZonedBracketLiteral).
   */
  lemma {:induction false} UnsplittableRefused(lib: NetLib, input: string)
    requires RejectsBrackets(lib.parseIPv6)
    requires SplitHostPort(input).None?
    ensures '%' !in input ==> ParseTarget(lib, input) == Err(InvalidTarget(input))
    ensures ParseTarget(lib, input).Ok? ==>
      '%' in input && ParseTarget(lib, input) == Ok(Target(ParseAddrPort(lib.parseIPv6, input).value, ""))
  {
    if ParseAddrPort(lib.parseIPv6, input).Some? {
      LiteralSplits(lib.parseIPv6, input);
    }
  }

  /**
   * An unbracketed host holding a colon, as in "::1:8080", has too many
   * colons for net.SplitHostPort and lacks the brackets netip requires
   * around IPv6: it is refused, whatever the IPv6 parser.
   */
  lemma {:induction false} TooManyColonsRefused(lib: NetLib, h: string, port: string)
    requires ':' in h && h[0] != '[' && ':' !in port && port != ""
    ensures SplitHostPort(h + ":" + port).None?
    ensures ParseTarget(lib, h + ":" + port) == Err(InvalidTarget(h + ":" + port))
  {
    var s := h + ":" + port;
    assert s == h + [':'] + port;
    LastIndexOfAfter(h, ':', port);
    assert s[..|h|] == h && s[0] == h[0];
    SplitAddrPortPlain(h, port);
    if ParseAddr(lib.parseIPv6, h).Some? {
      ParseAddrFromKinds(lib.parseIPv6, h, 0);
      if ParseIPv4(h).Some? {
        IPv4TextChars(h);
      }
    }
  }

  /** The instance "::1:8080". */
  lemma {:induction false} TooManyColonsExample(lib: NetLib)
    ensures ParseTarget(lib, "::1:8080") == Err(InvalidTarget("::1:8080"))
  {
    assert "::1"[0] == ':';
    TooManyColonsRefused(lib, "::1", "8080");
    assert "::1" + ":" + "8080" == "::1:8080";
  }

  /**
   * A zone may hold any text, brackets included, so with an IPv6 parser
   * that reads "a%]" (Go's does, for any address text a) the input
   * "[a%]]:port" is a literal address-port pair, although net.SplitHostPort
   * refuses it: the host's first ']' is not the one before the last colon.
   */
  lemma {:induction false} ZonedBracketLiteral(lib: NetLib, a: string, p: uint16)
    requires ':' in a && '.' !in a && '%' !in a && '[' !in a && ']' !in a
    requires lib.parseIPv6(a + "%]").Some?
    ensures var s := "[" + (a + "%]") + "]:" + Itoa(p);
      && SplitHostPort(s).None?
      && ParseTarget(lib, s) == Ok(Target(AddrPort(Addr(lib.parseIPv6(a + "%]").value), p), ""))
  {
    var z, port := a + "%]", Itoa(p);
    PortRoundTrip(p);
    DigitsExclude(port, ':');
    assert z[|a| + 1] == ']';
    InnerBracketUnsplit(z, port);
    BracketedAddrSplit(z, port);
    var k := IndexOf(a, ':');
    forall j | 0 <= j < k
      ensures z[j] != '.' && z[j] != ':' && z[j] != '%'
    {
      assert z[j] == a[..k][j];
    }
    ParseAddrFromFindsColon(lib.parseIPv6, z, 0, k);
  }

  /** In "[z]:port" with a colon-free port, the last colon is the one after the closing bracket. */
  lemma {:induction false} BracketedLastColon(z: string, port: string)
    requires ':' !in port
    ensures LastIndexOf("[" + z + "]:" + port, ':') == |z| + 2
  {
    assert "[" + z + "]:" + port == ("[" + z + "]") + [':'] + port;
    LastIndexOfAfter("[" + z + "]", ':', port);
  }

  /** netip's splitAddrPort strips the outer brackets of "[z]:port", whatever z holds. */
  lemma {:induction false} BracketedAddrSplit(z: string, port: string)
    requires ':' !in port && port != ""
    ensures SplitAddrPort("[" + z + "]:" + port) == Some(AddrPortText(z, port, true))
  {
    var s := "[" + z + "]:" + port;
    BracketedLastColon(z, port);
    var ip := s[..|z| + 2];
    assert ip == "[" + z + "]" && s[|z| + 3..] == port;
    assert ip[1..|ip| - 1] == z;
  }

  /**
   * net.SplitHostPort refuses "[z]:port" when z holds a ']': the first ']'
   * is not the one before the last colon.
   */
  lemma {:induction false} InnerBracketUnsplit(z: string, port: string)
    requires ']' in z && ':' !in port
    ensures SplitHostPort("[" + z + "]:" + port).None?
  {
    BracketedLastColon(z, port);
    FirstInnerBracket(z, port);
    EarlyBracketUnsplit("[" + z + "]:" + port);
  }

  /** The first ']' of "[z]:port" is z's first ']' when z holds one. */
  lemma {:induction false} FirstInnerBracket(z: string, port: string)
    requires ']' in z
    ensures IndexOf("[" + z + "]:" + port, ']') == IndexOf(z, ']') + 1
  {
    var s, e := "[" + z + "]:" + port, IndexOf(z, ']');
    assert s == ("[" + z[..e]) + [']'] + (z[e + 1..] + "]:" + port);
    IndexOfBefore("[" + z[..e], ']', z[e + 1..] + "]:" + port);
  }

  /** A bracketed host whose first ']' does not stand right before the last colon is refused. */
  lemma {:induction false} EarlyBracketUnsplit(s: string)
    requires s != [] && s[0] == '[' && IndexOf(s, ']') + 1 != LastIndexOf(s, ':')
    ensures SplitHostPort(s).None?
  {
  }

  /**
   * Every literal address-port pair without an IPv6 zone is also split by
   * net.SplitHostPort: a literal that does not split carries a '%'.
   */
  lemma {:induction false} LiteralSplits(parseIPv6: string -> Option<IPv6Bytes>, input: string)
    requires RejectsBrackets(parseIPv6)
    requires ParseAddrPort(parseIPv6, input).Some?
    ensures SplitHostPort(input).None? ==> '%' in input
  {
    var t := SplitAddrPort(input).value;
    var a := ParseAddrPort(parseIPv6, input).value.ip;
    assert ParseAddrFrom(parseIPv6, t.ip, 0) == Some(a);
    SplitAddrPortShape(input);
    DigitsExclude(t.port, '[');
    DigitsExclude(t.port, ']');
    ParseAddrFromKinds(parseIPv6, t.ip, 0);
    if t.bracketed {
      // an IPv6 address: its text came from the IPv6 parser, so without a zone it has no bracket
      assert a.Is6() && parseIPv6(t.ip).Some?;
      if '%' !in input {
        assert '%' !in t.ip by {
          assert input == "[" + t.ip + "]:" + t.port;
          assert forall k :: 0 <= k < |t.ip| ==> t.ip[k] == input[k + 1];
        }
        SplitHostPortBracketed(t.ip, t.port);
      }
    } else {
      // an IPv4 address: its text is a dotted quad, so it has no colon or bracket
      assert a.Is4() && ParseIPv4(t.ip) == Some(a);
      IPv4TextChars(t.ip);
      SplitHostPortPlain(t.ip, t.port);
    }
  }

  /**
   * Past the split, each later stage refuses with its own error: a port
   * that is not a 16-bit decimal is an invalid port (it is not a literal
   * either, as netip reads the same port text); for input that is not a
   * literal, a failed lookup is a resolution failure and a first answer
   * that is neither 4 nor 16 bytes is an invalid target.
   */
  lemma {:induction false} LaterRefusals(lib: NetLib, input: string)
    ensures SplitHostPort(input).Some? && ParseUint16(SplitHostPort(input).value.port).None? ==>
      ParseTarget(lib, input) == Err(InvalidPort(SplitHostPort(input).value.port))
    ensures var hp := SplitHostPort(input);
      ParseAddrPort(lib.parseIPv6, input).None? && hp.Some? && ParseUint16(hp.value.port).Some? ==>
        && (lib.lookupIP(hp.value.host).LookupFailed? ==>
              ParseTarget(lib, input) == Err(ResolveFailed(hp.value.host, lib.lookupIP(hp.value.host).reason)))
        && (lib.lookupIP(hp.value.host).Found? && AddrFromSlice(lib.lookupIP(hp.value.host).first).None? ==>
              ParseTarget(lib, input) == Err(InvalidTarget(input)))
  {
    if SplitHostPort(input).Some? && SplitAddrPort(input).Some? {
      // both splits cut at the last colon, so they agree on the port text
      var i := LastIndexOf(input, ':');
      assert SplitHostPort(input).value.port == input[i + 1..];
      assert SplitAddrPort(input).value.port == input[i + 1..];
    }
  }

  /** Every dotted-quad "a.b.c.d:port" is a literal target, whatever the resolver would say. */
  lemma {:induction false} LiteralIPv4Target(lib: NetLib, b: seq<byte>, p: uint16)
    requires |b| == 4
    ensures ParseTarget(lib, FormatIPv4(b) + ":" + Itoa(p)) == Ok(Target(AddrPort(Addr(b), p), ""))
  {
    ParseIPv4Literal(lib.parseIPv6, b, p);
  }

  /**
   * A host name that is not a dotted quad and holds no colon or bracket,
   * with a port in range, is resolved: the target pairs the first resolved
   * address with the port and remembers the host name.
   */
  lemma {:induction false} HostnameTarget(lib: NetLib, host: string, p: uint16)
    requires ':' !in host && '[' !in host && ']' !in host && host != ""
    requires ParseIPv4(host).None?
    requires lib.lookupIP(host).Found? && |lib.lookupIP(host).first| in {4, 16}
    ensures ParseTarget(lib, host + ":" + Itoa(p)) == Ok(Target(AddrPort(Addr(lib.lookupIP(host).first), p), host))
  {
    var portText := Itoa(p);
    var s := host + ":" + portText;
    DigitsExclude(portText, ':');
    DigitsExclude(portText, '[');
    DigitsExclude(portText, ']');
    SplitHostPortPlain(host, portText);
    LastIndexOfAfter(host, ':', portText);
    assert s[..|host|] == host && s[|host| + 1..] == portText;
    assert host[0] != '[';
    assert SplitAddrPort(s) == Some(AddrPortText(host, portText, false));
    ParseAddrWithoutColon(lib.parseIPv6, host, 0);
    PortRoundTrip(p);
    assert ParseAddrPort(lib.parseIPv6, s).None?;
    assert SplitHostPort(s) == Some(HostPort(host, portText));
    assert ParseUint16(portText) == Some(p);
  }

  /** Text without a colon is never IPv6: ParseAddr reads it as a dotted quad or not at all. */
  lemma {:induction false} ParseAddrWithoutColon(parseIPv6: string -> Option<IPv6Bytes>, s: string, i: nat)
    requires i <= |s| && ':' !in s
    ensures ParseAddrFrom(parseIPv6, s, i).Some? ==> ParseAddrFrom(parseIPv6, s, i) == ParseIPv4(s)
    decreases |s| - i
  {
    if i < |s| && s[i] != '.' && s[i] != '%' {
      ParseAddrWithoutColon(parseIPv6, s, i + 1);
    }
  }
}
