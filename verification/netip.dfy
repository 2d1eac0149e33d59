/**
 * The parts of Go's `net/netip` package that the target parser relies on:
 * an address is its bytes (4 for IPv4, 16 for IPv6), an address-port pair
 * adds a 16-bit port. Dotted-quad IPv4 text is parsed here; IPv6 text is
 * parsed by a function the caller supplies (see `ParseAddr`).
 */
module Netip {
  import opened Wrappers
  import opened Text
  import opened Strconv

  type byte = x: int | 0 <= x < 256

  /** What an IPv6 text parser produces: exactly sixteen bytes. */
  type IPv6Bytes = b: seq<byte> | |b| == 16 witness seq(16, k => 0)

  datatype Addr = Addr(bytes: seq<byte>)
  {
    predicate Is4() { |bytes| == 4 }
    predicate Is6() { |bytes| == 16 }
  }

  datatype AddrPort = AddrPort(ip: Addr, port: uint16)

  /** netip.AddrFromSlice: a 4-byte slice is IPv4, a 16-byte slice IPv6, any other length is refused. */
  function AddrFromSlice(b: seq<byte>): (r: Option<Addr>)
    ensures r.Some? <==> |b| == 4 || |b| == 16
    ensures r.Some? ==> r.value.bytes == b && (r.value.Is4() || r.value.Is6())
  {
    if |b| == 4 || |b| == 16 then Some(Addr(b)) else None
  }

  /** One dotted-quad field: digits only, no leading zero, at most 255. */
  predicate IsOctet(t: string)
  {
    t != "" && AllDigits(t) && (|t| > 1 ==> t[0] != '0') && DecimalValue(t) <= 255
  }

  /**
   * IPv4 text: exactly four dot-separated octets. An empty field, a fifth
   * field, a leading zero, a value above 255 or any other character is refused.
   */
  function ParseIPv4(s: string): (r: Option<Addr>)
    ensures r.Some? ==> r.value.Is4()
  {
    var f := Split(s, '.');
    if |f| == 4 && IsOctet(f[0]) && IsOctet(f[1]) && IsOctet(f[2]) && IsOctet(f[3]) then
      Some(Addr([DecimalValue(f[0]), DecimalValue(f[1]), DecimalValue(f[2]), DecimalValue(f[3])]))
    else None
  }

  /** Dotted-quad rendering of four bytes. */
  function FormatIPv4(b: seq<byte>): string
    requires |b| == 4
  {
    Join([Itoa(b[0]), Itoa(b[1]), Itoa(b[2]), Itoa(b[3])], '.')
  }

  lemma {:induction false} OctetOfByte(x: byte)
    ensures IsOctet(Itoa(x)) && DecimalValue(Itoa(x)) == x
    ensures '.' !in Itoa(x) && ':' !in Itoa(x) && '%' !in Itoa(x)
  {
    DigitsExclude(Itoa(x), '.');
    DigitsExclude(Itoa(x), ':');
    DigitsExclude(Itoa(x), '%');
  }

  /** Parsing the dotted-quad rendering of four bytes gives back those bytes. */
  lemma {:induction false} ParseFormatIPv4(b: seq<byte>)
    requires |b| == 4
    ensures ParseIPv4(FormatIPv4(b)) == Some(Addr(b))
    ensures ':' !in FormatIPv4(b) && '%' !in FormatIPv4(b) && '.' in FormatIPv4(b)
    ensures FormatIPv4(b) != "" && IsDigit(FormatIPv4(b)[0])
  {
    OctetOfByte(b[0]); OctetOfByte(b[1]); OctetOfByte(b[2]); OctetOfByte(b[3]);
    var parts := [Itoa(b[0]), Itoa(b[1]), Itoa(b[2]), Itoa(b[3])];
    ParseJoinedOctets(parts);
    assert [DecimalValue(parts[0]), DecimalValue(parts[1]), DecimalValue(parts[2]), DecimalValue(parts[3])] == b;
    JoinedOctetsChars(parts);
  }

  /** Four octets joined by dots parse as the address of their values. */
  lemma {:induction false} ParseJoinedOctets(parts: seq<string>)
    requires |parts| == 4 && IsOctet(parts[0]) && IsOctet(parts[1]) && IsOctet(parts[2]) && IsOctet(parts[3])
    requires forall k :: 0 <= k < 4 ==> '.' !in parts[k]
    ensures ParseIPv4(Join(parts, '.')) ==
      Some(Addr([DecimalValue(parts[0]), DecimalValue(parts[1]), DecimalValue(parts[2]), DecimalValue(parts[3])]))
  {
    SplitJoin(parts, '.');
  }

  /** Four octets joined by dots: digits and dots only, starting with a digit. */
  lemma {:induction false} JoinedOctetsChars(parts: seq<string>)
    requires |parts| == 4 && forall k :: 0 <= k < 4 ==> IsOctet(parts[k])
    ensures var s := Join(parts, '.');
      ':' !in s && '%' !in s && '.' in s && s != "" && IsDigit(s[0])
  {
    forall k | 0 <= k < 4
      ensures ':' !in parts[k] && '%' !in parts[k]
    {
      DigitsExclude(parts[k], ':');
      DigitsExclude(parts[k], '%');
    }
    JoinExcludes(parts, '.', ':');
    JoinExcludes(parts, '.', '%');
    JoinStartsWithFirst(parts, '.');
    var s := Join(parts, '.');
    assert parts == [parts[0]] + parts[1..];
    JoinCons(parts[0], parts[1..], '.');
    assert s[|parts[0]|] == '.';
    assert s[0] == parts[0][0];
  }

  /**
   * netip.ParseAddr: the first '.', ':' or '%' decides. A '.' first means
   * IPv4, a ':' first means IPv6 (given to `parseIPv6`), a '%' first or none
   * of the three is refused.
   */
  function ParseAddr(parseIPv6: string -> Option<IPv6Bytes>, s: string): (r: Option<Addr>)
    ensures r.Some? ==> r.value.Is4() || r.value.Is6()
  {
    ParseAddrFrom(parseIPv6, s, 0)
  }

  function ParseAddrFrom(parseIPv6: string -> Option<IPv6Bytes>, s: string, i: nat): (r: Option<Addr>)
    requires i <= |s|
    ensures r.Some? ==> r.value.Is4() || r.value.Is6()
    decreases |s| - i
  {
    if i == |s| then None
    else if s[i] == '.' then ParseIPv4(s)
    else if s[i] == ':' then
      (match parseIPv6(s)
       case Some(b) => Some(Addr(b))
       case None => None)
    else if s[i] == '%' then None
    else ParseAddrFrom(parseIPv6, s, i + 1)
  }

  /** The pieces netip's splitAddrPort cuts an "ip:port" string into. */
  datatype AddrPortText = AddrPortText(ip: string, port: string, bracketed: bool)

  /**
   * splitAddrPort: cut at the LAST colon; both sides must be non-empty; an
   * address starting with '[' must end with ']' and loses both brackets.
   */
  function SplitAddrPort(s: string): (r: Option<AddrPortText>)
    ensures r.Some? ==> ':' !in r.value.port && r.value.port != ""
  {
    var i := LastIndexOf(s, ':');
    if i < 0 then None
    else
      var ip, port := s[..i], s[i + 1..];
      if ip == "" || port == "" then None
      else if ip[0] == '[' then
        if |ip| < 2 || ip[|ip| - 1] != ']' then None
        else Some(AddrPortText(ip[1..|ip| - 1], port, true))
      else Some(AddrPortText(ip, port, false))
  }

  /**
   * netip.ParseAddrPort: split, parse the port as a 16-bit decimal, parse
   * the address; square brackets are required around an IPv6 address and
   * refused around an IPv4 one.
   */
  function ParseAddrPort(parseIPv6: string -> Option<IPv6Bytes>, s: string): (r: Option<AddrPort>)
    ensures r.Some? ==> SplitAddrPort(s).Some?
    ensures r.Some? ==> ParseUint16(SplitAddrPort(s).value.port) == Some(r.value.port)
    ensures r.Some? ==> (r.value.ip.Is6() <==> SplitAddrPort(s).value.bracketed)
    ensures r.Some? ==> ParseAddr(parseIPv6, SplitAddrPort(s).value.ip) == Some(r.value.ip)
  {
    match SplitAddrPort(s)
    case None => None
    case Some(t) =>
      match ParseUint16(t.port)
      case None => None
      case Some(port) =>
        match ParseAddr(parseIPv6, t.ip)
        case None => None
        case Some(ip) =>
          if t.bracketed && ip.Is4() then None
          else if !t.bracketed && ip.Is6() then None
          else Some(AddrPort(ip, port))
  }

  /**
   * The IPv6 address grammar netip.ParseAddr reads before any zone (hex
   * groups, colons and an embedded dotted quad) has no square brackets, so
   * a zone-free text holding one is never an IPv6 address. The zone after
   * '%' is any non-empty text, brackets included.
   */
  ghost predicate RejectsBrackets(parseIPv6: string -> Option<IPv6Bytes>)
  {
    forall t :: parseIPv6(t).Some? && '%' !in t ==> '[' !in t && ']' !in t
  }

  /** A character that is not the separator and is in none of the pieces Split cuts a text into is not in the text. */
  lemma {:induction false} SplitExcludes(s: string, sep: char, c: char)
    requires c != sep
    requires forall p :: p in Split(s, sep) ==> c !in p
    ensures c !in s
    decreases |s|
  {
    var i := IndexOf(s, sep);
    if i < 0 {
      assert s in Split(s, sep);
    } else {
      var head, rest := s[..i], s[i + 1..];
      assert Split(s, sep) == [head] + Split(rest, sep);
      assert head in Split(s, sep) && c !in head;
      SplitExcludes(rest, sep, c);
      forall j | 0 <= j < |s|
        ensures s[j] != c
      {
        if j < i {
          assert s[j] == head[j];
        } else if i < j {
          assert s[j] == rest[j - i - 1];
        }
      }
    }
  }

  /** Dotted-quad text is digits and dots only: no colon, bracket or '%'. */
  lemma {:induction false} IPv4TextChars(s: string)
    requires ParseIPv4(s).Some?
    ensures ':' !in s && '[' !in s && ']' !in s && '%' !in s
  {
    var f := Split(s, '.');
    forall c | c in {':', '[', ']', '%'}
      ensures c !in s
    {
      forall p | p in f
        ensures c !in p
      {
        DigitsExclude(p, c);
      }
      SplitExcludes(s, '.', c);
    }
  }

  /** ParseAddr answers with the dotted-quad reading of the text or with the IPv6 parser's answer. */
  lemma {:induction false} ParseAddrFromKinds(parseIPv6: string -> Option<IPv6Bytes>, s: string, i: nat)
    requires i <= |s| && ParseAddrFrom(parseIPv6, s, i).Some?
    ensures || ParseAddrFrom(parseIPv6, s, i) == ParseIPv4(s)
            || (parseIPv6(s).Some? && ParseAddrFrom(parseIPv6, s, i) == Some(Addr(parseIPv6(s).value)))
    decreases |s| - i
  {
    if s[i] != '.' && s[i] != ':' {
      ParseAddrFromKinds(parseIPv6, s, i + 1);
    }
  }

  /** What splitAddrPort cuts off can be put back together. */
  lemma {:induction false} SplitAddrPortShape(s: string)
    requires SplitAddrPort(s).Some?
    ensures var t := SplitAddrPort(s).value;
      s == if t.bracketed then "[" + t.ip + "]:" + t.port else t.ip + ":" + t.port
  {
    var i := LastIndexOf(s, ':');
    var ip := s[..i];
    assert s == ip + [':'] + s[i + 1..];
    if ip[0] == '[' {
      assert ip == "[" + ip[1..|ip| - 1] + "]";
      assert s == "[" + ip[1..|ip| - 1] + "]:" + s[i + 1..];
    }
  }

  /** "a.b.c.d:port" in canonical decimal form is always a literal address-port pair, whatever the IPv6 parser does. */
  lemma {:induction false} ParseIPv4Literal(parseIPv6: string -> Option<IPv6Bytes>, b: seq<byte>, p: uint16)
    requires |b| == 4
    ensures ParseAddrPort(parseIPv6, FormatIPv4(b) + ":" + Itoa(p)) == Some(AddrPort(Addr(b), p))
  {
    var ipText, portText := FormatIPv4(b), Itoa(p);
    ParseFormatIPv4(b);
    PortRoundTrip(p);
    DigitsExclude(portText, ':');
    assert ipText[0] != '[';
    SplitAddrPortPlain(ipText, portText);
    assert '.' in ipText[0..] by { assert ipText[0..] == ipText; }
    ParseAddrFromFindsDot(parseIPv6, ipText, 0);
  }

  /** An unbracketed address text and a colon-free port are split back apart from "ip:port". */
  lemma {:induction false} SplitAddrPortPlain(ip: string, port: string)
    requires ip != "" && ip[0] != '[' && port != "" && ':' !in port
    ensures SplitAddrPort(ip + ":" + port) == Some(AddrPortText(ip, port, false))
  {
    var s := ip + ":" + port;
    assert s == ip + [':'] + port;
    LastIndexOfAfter(ip, ':', port);
    assert s[..|ip|] == ip && s[|ip| + 1..] == port;
  }

  /** When a ':' comes before any '.' or '%', ParseAddr hands the whole text to the IPv6 parser. */
  lemma {:induction false} ParseAddrFromFindsColon(parseIPv6: string -> Option<IPv6Bytes>, s: string, i: nat, k: nat)
    requires i <= k < |s| && s[k] == ':'
    requires forall j :: i <= j < k ==> s[j] != '.' && s[j] != ':' && s[j] != '%'
    ensures parseIPv6(s).Some? ==> ParseAddrFrom(parseIPv6, s, i) == Some(Addr(parseIPv6(s).value))
    decreases k - i
  {
    if i < k {
      ParseAddrFromFindsColon(parseIPv6, s, i + 1, k);
    }
  }

  /** With no ':' or '%' in the text and a '.' somewhere, ParseAddr reads it as IPv4. */
  lemma {:induction false} ParseAddrFromFindsDot(parseIPv6: string -> Option<IPv6Bytes>, s: string, i: nat)
    requires i <= |s| && ':' !in s && '%' !in s && '.' in s[i..]
    ensures ParseAddrFrom(parseIPv6, s, i) == ParseIPv4(s)
    decreases |s| - i
  {
    if s[i] != '.' {
      assert s[i..] == [s[i]] + s[i + 1..];
      ParseAddrFromFindsDot(parseIPv6, s, i + 1);
    }
  }
}
