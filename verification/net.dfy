/**
 * The parts of Go's `net` package that the target parser relies on:
 * `SplitHostPort` and the answer of a DNS lookup (`LookupIP`), which the
 * model receives from its caller.
 */
module Net {
  import opened Wrappers
  import opened Text
  import opened Netip

  /**
   * What net.LookupIP answers: either the resolved addresses (never none:
   * Go reports an empty answer as an error) or a failure.
   */
  datatype LookupResult = Found(first: seq<byte>, rest: seq<seq<byte>>) | LookupFailed(reason: string)

  datatype HostPort = HostPort(host: string, port: string)

  /** No '[' or ']' at position `j` or later of `s`, resp. `k` or later. */
  predicate NoStrayBrackets(s: string, j: nat, k: nat)
    requires j <= |s| && k <= |s|
  {
    '[' !in s[j..] && ']' !in s[k..]
  }

  /**
   * net.SplitHostPort: the port is whatever follows the LAST colon. A host
   * starting with '[' must close with ']' right before that colon (its
   * brackets are dropped, and it may contain colons); otherwise the host
   * must not contain a colon. A '[' after the first character or a ']'
   * after the closing bracket is refused. The port may be empty.
   */
  function SplitHostPort(s: string): (r: Option<HostPort>)
    ensures r.Some? ==> ':' !in r.value.port && '[' !in r.value.port && ']' !in r.value.port
  {
    var i := LastIndexOf(s, ':');
    if i < 0 then None
    else if s[0] == '[' then
      var end := IndexOf(s, ']');
      if end < 0 || end + 1 != i then None
      else if NoStrayBrackets(s, 1, end + 1) then
        assert s[i + 1..] == s[end + 1..][1..];
        Some(HostPort(s[1..end], s[i + 1..]))
      else None
    else
      var host := s[..i];
      if ':' in host then None
      else if NoStrayBrackets(s, 0, 0) then
        assert s[i + 1..] == s[i..][1..];
        Some(HostPort(host, s[i + 1..]))
      else None
  }

  /** A host and a port without colons or brackets are split back apart from "host:port". */
  lemma {:induction false} SplitHostPortPlain(host: string, port: string)
    requires ':' !in host && '[' !in host && ']' !in host
    requires ':' !in port && '[' !in port && ']' !in port
    ensures SplitHostPort(host + ":" + port) == Some(HostPort(host, port))
  {
    var s := host + ":" + port;
    LastIndexOfAfter(host, ':', port);
    assert s[..|host|] == host && s[|host| + 1..] == port;
    assert s[0] != '[' by {
      if |host| > 0 { assert s[0] == host[0]; }
    }
    assert '[' !in s && ']' !in s;
    assert s[0..] == s;
  }

  /** Any host without brackets (colons allowed) is split back apart from "[host]:port". */
  lemma {:induction false} SplitHostPortBracketed(host: string, port: string)
    requires '[' !in host && ']' !in host
    requires ':' !in port && '[' !in port && ']' !in port
    ensures SplitHostPort("[" + host + "]:" + port) == Some(HostPort(host, port))
  {
    var s := "[" + host + "]:" + port;
    BracketedIndices(host, port);
    BracketedSlices(host, port);
    SplitHostPortBracketCase(s, |host| + 2, |host| + 1);
  }

  /** In "[host]:port" the last colon follows the first closing bracket. */
  lemma {:induction false} BracketedIndices(host: string, port: string)
    requires '[' !in host && ']' !in host && ':' !in port
    ensures var s := "[" + host + "]:" + port;
      LastIndexOf(s, ':') == |host| + 2 && IndexOf(s, ']') == |host| + 1
  {
    var s := "[" + host + "]:" + port;
    assert s == ("[" + host + "]") + [':'] + port;
    LastIndexOfAfter("[" + host + "]", ':', port);
    assert s == ("[" + host) + [']'] + (":" + port);
    assert ']' !in "[" + host;
    IndexOfBefore("[" + host, ']', ":" + port);
  }

  /** The pieces of "[host]:port", and no stray bracket in it. */
  lemma {:induction false} BracketedSlices(host: string, port: string)
    requires '[' !in host && ']' !in host && '[' !in port && ']' !in port
    ensures var s, end := "[" + host + "]:" + port, |host| + 1;
      && |s| == |host| + 3 + |port| && s[0] == '['
      && s[1..end] == host && s[end + 2..] == port && NoStrayBrackets(s, 1, end + 1)
  {
    var s, end := "[" + host + "]:" + port, |host| + 1;
    assert s[1..] == host + "]:" + port;
    assert s[end + 1..] == ":" + port;
    assert s[1..][..|host|] == host;
  }

  /** The bracketed branch of SplitHostPort, once its tests are known to pass. */
  lemma {:induction false} SplitHostPortBracketCase(s: string, i: nat, end: nat)
    requires i < |s| && s[0] == '[' && end + 1 == i
    requires LastIndexOf(s, ':') == i && IndexOf(s, ']') == end
    requires NoStrayBrackets(s, 1, end + 1)
    ensures SplitHostPort(s) == Some(HostPort(s[1..end], s[i + 1..]))
  {
  }

  /** What SplitHostPort cuts off can be put back together. */
  lemma {:induction false} SplitHostPortShape(s: string)
    requires SplitHostPort(s).Some?
    ensures var hp := SplitHostPort(s).value;
      s == hp.host + ":" + hp.port || s == "[" + hp.host + "]:" + hp.port
  {
    var i := LastIndexOf(s, ':');
    if s[0] == '[' {
      var end := IndexOf(s, ']');
      BracketedShape(s, i, end);
    } else {
      assert SplitHostPort(s).value == HostPort(s[..i], s[i + 1..]);
      assert s == s[..i] + [s[i]] + s[i + 1..];
    }
  }

  lemma {:induction false} BracketedShape(s: string, i: nat, end: nat)
    requires 0 < end && end + 1 == i < |s| && s[0] == '[' && s[end] == ']' && s[i] == ':'
    ensures s == "[" + s[1..end] + "]:" + s[i + 1..]
  {
    assert s == [s[0]] + s[1..end] + [s[end], s[i]] + s[i + 1..];
  }
}
