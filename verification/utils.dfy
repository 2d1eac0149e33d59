/**
 * pkg/runner/utils.go: the overwrite check on the output file and the
 * default "priority" port list built from the plugin registry.
 */
module Utils {
  import opened Wrappers
  import opened Text
  import opened Strconv

  /** What os.Stat said about the output path. */
  datatype StatResult = Exists | NotExist | StatFailed(reason: string)

  datatype CheckError = OutputFileExists(path: string) | CheckFailed(path: string, reason: string)

  /** The answer to "Overwrite? (Y/n)", trimmed and lower-cased, is empty, "y" or "yes". */
  predicate Affirmative(answer: string)
  {
    var a := ToLower(TrimSpace(answer));
    a == "" || a == "y" || a == "yes"
  }

  /**
   * checkOutputFile. `isTerminal` says whether standard input is a terminal
   * and `answer` is the word the operator typed; it is only read when the
   * path exists and standard input is a terminal.
   */
  function CheckOutputFile(path: string, stat: StatResult, isTerminal: bool, answer: string): (r: Option<CheckError>)
    ensures stat == NotExist ==> r == None
    ensures stat.StatFailed? ==> r == Some(CheckFailed(path, stat.reason))
    ensures stat == Exists && !isTerminal ==> r == Some(OutputFileExists(path))
    ensures stat == Exists && isTerminal ==> (r == None <==> Affirmative(answer))
    ensures r.Some? && r.value.OutputFileExists? ==> stat == Exists
  {
    match stat
    case NotExist => None
    case StatFailed(why) => Some(CheckFailed(path, why))
    case Exists =>
      if isTerminal && Affirmative(answer) then None else Some(OutputFileExists(path))
  }

  /** The accepted answers, spelled out: nothing, or "y" / "yes" in any mix of cases, padded with white space. */
  lemma {:induction false} AffirmativeSpellings(answer: string)
    ensures Affirmative(answer) <==>
      var t := TrimSpace(answer);
      || t == ""
      || (|t| == 1 && t[0] in "yY")
      || (|t| == 3 && t[0] in "yY" && t[1] in "eE" && t[2] in "sS")
  {
    var t := TrimSpace(answer);
    var a := ToLower(t);
    if |t| == 1 {
      assert a == "y" <==> a[0] == 'y';
    } else if |t| == 3 {
      assert a == "yes" <==> a[0] == 'y' && a[1] == 'e' && a[2] == 's';
    }
  }

  /** Without a terminal the operator's answer plays no part: an existing file is always refused. */
  lemma {:induction false} NoPromptWithoutTerminal(path: string, stat: StatResult, a1: string, a2: string)
    ensures CheckOutputFile(path, stat, false, a1) == CheckOutputFile(path, stat, false, a2)
    ensures stat == Exists ==> CheckOutputFile(path, stat, false, a1).Some?
  {
  }

  // ---------------------------------------------------------------------
  // Priority ports

  /** plugins.Protocol: the three classes the catalog asks about, and any other key the registry may hold. */
  datatype Protocol = UDP | TCP | TCPTLS | OtherProtocol(name: string)

  /** A registered plugin, reduced to its PortPriority predicate. */
  datatype Plugin = Plugin(name: string, portPriority: uint16 -> bool)

  /** plugins.Plugins: the plugins registered under each protocol. */
  type Registry = map<Protocol, seq<Plugin>>

  /** The protocol classes isPriorityPort walks, in order. */
  const CatalogProtocols: seq<Protocol> := [UDP, TCP, TCPTLS]

  /** Go's uint16(port): the port modulo 2^16. */
  function ToUint16(port: int): (p: uint16)
    ensures 0 <= port <= MaxUint16 ==> p == port
  {
    port % 65536
  }

  /** Some plugin registered under `proto` claims `port`. */
  ghost predicate ClaimedUnder(reg: Registry, proto: Protocol, port: uint16)
  {
    proto in reg && exists k :: 0 <= k < |reg[proto]| && reg[proto][k].portPriority(port)
  }

  /** Some plugin under UDP, TCP or TCPTLS claims the port (taken modulo 2^16). */
  ghost predicate IsPriority(reg: Registry, port: int)
  {
    exists i :: 0 <= i < |CatalogProtocols| && ClaimedUnder(reg, CatalogProtocols[i], ToUint16(port))
  }

  /**
   * isPriorityPort: walk UDP, TCP and TCPTLS in that order and each one's
   * plugins in registration order; the first plugin that claims the port
   * answers true.
   */
  method IsPriorityPort(reg: Registry, port: int) returns (b: bool)
    ensures b <==> IsPriority(reg, port)
  {
    var p := ToUint16(port);
    var i := 0;
    while i < |CatalogProtocols|
      invariant 0 <= i <= |CatalogProtocols|
      invariant forall m :: 0 <= m < i ==> !ClaimedUnder(reg, CatalogProtocols[m], p)
    {
      var proto := CatalogProtocols[i];
      if proto in reg {
        var plugins := reg[proto];
        var j := 0;
        while j < |plugins|
          invariant 0 <= j <= |plugins|
          invariant forall k :: 0 <= k < j ==> !plugins[k].portPriority(p)
        {
          if plugins[j].portPriority(p) {
            return true;
          }
          j := j + 1;
        }
      }
      i := i + 1;
    }
    return false;
  }

  /** Plugins registered under a protocol other than the three are never asked. */
  lemma {:induction false} OtherProtocolsIgnored(reg: Registry, name: string, plugins: seq<Plugin>, port: int)
    ensures IsPriority(reg[OtherProtocol(name) := plugins], port) <==> IsPriority(reg, port)
  {
    var reg' := reg[OtherProtocol(name) := plugins];
    forall i | 0 <= i < |CatalogProtocols|
      ensures ClaimedUnder(reg', CatalogProtocols[i], ToUint16(port)) <==> ClaimedUnder(reg, CatalogProtocols[i], ToUint16(port))
    {
      var proto := CatalogProtocols[i];
      assert proto != OtherProtocol(name);
      assert proto in reg' <==> proto in reg;
      if proto in reg {
        assert reg'[proto] == reg[proto];
      }
    }
  }

  /** The priority ports among 1..n, ascending. */
  ghost function PriorityPorts(reg: Registry, n: nat): seq<int>
  {
    if n == 0 then []
    else PriorityPorts(reg, n - 1) + (if IsPriority(reg, n) then [n] else [])
  }

  predicate StrictlyAscending(ports: seq<int>)
  {
    forall i, j :: 0 <= i < j < |ports| ==> ports[i] < ports[j]
  }

  /** The list is strictly ascending (so it has no duplicates) and stays within 1..n. */
  lemma {:induction false} PriorityPortsAscending(reg: Registry, n: nat)
    ensures StrictlyAscending(PriorityPorts(reg, n))
    ensures forall k :: 0 <= k < |PriorityPorts(reg, n)| ==> 1 <= PriorityPorts(reg, n)[k] <= n
  {
    if n > 0 {
      PriorityPortsAscending(reg, n - 1);
    }
  }

  /** A port is listed exactly when it lies in 1..n and some plugin claims it. */
  lemma {:induction false} PriorityPortsMembers(reg: Registry, n: nat, p: int)
    ensures p in PriorityPorts(reg, n) <==> 1 <= p <= n && IsPriority(reg, p)
  {
    if n > 0 {
      PriorityPortsMembers(reg, n - 1, p);
    }
  }

  /**
   * The decimal renderings of a list of ports, one per port: the text of a
   * 16-bit port is non-empty, holds no comma and parses back to the port.
   */
  function Decimals(ports: seq<int>): (d: seq<string>)
    ensures |d| == |ports|
    ensures forall k :: 0 <= k < |ports| && 0 <= ports[k] <= MaxUint16 ==>
      d[k] != "" && ',' !in d[k] && ParseUint16(d[k]) == Some(ports[k])
  {
    var d := seq(|ports|, k requires 0 <= k < |ports| => Itoa(ports[k]));
    assert forall k :: 0 <= k < |ports| && 0 <= ports[k] <= MaxUint16 ==>
      d[k] != "" && ',' !in d[k] && ParseUint16(d[k]) == Some(ports[k]) by {
      forall k | 0 <= k < |ports| && 0 <= ports[k] <= MaxUint16
        ensures d[k] != "" && ',' !in d[k] && ParseUint16(d[k]) == Some(ports[k])
      {
        PortRoundTrip(ports[k]);
        DigitsExclude(d[k], ',');
      }
    }
    d
  }

  /**
   * DefaultPortRange: count from 1 to 65535, collect the decimal text of
   * every priority port, and comma-join the lot.
   */
  method DefaultPortRange(reg: Registry) returns (s: string)
    ensures s == Join(Decimals(PriorityPorts(reg, MaxUint16)), ',')
  {
    var priorityPorts: seq<string> := [];
    var port := 1;
    while port <= MaxUint16
      invariant 1 <= port <= MaxUint16 + 1
      invariant priorityPorts == Decimals(PriorityPorts(reg, port - 1))
    {
      var b := IsPriorityPort(reg, port);
      if b {
        priorityPorts := priorityPorts + [Itoa(port)];
      }
      port := port + 1;
    }
    s := Join(priorityPorts, ',');
  }

  /**
   * Reading a port list back from its comma-joined form: the empty list is
   * the empty string, and otherwise splitting on ',' and parsing each piece
   * as a 16-bit decimal gives back every port, in order.
   */
  lemma {:induction false} PortListRoundTrip(ports: seq<int>)
    requires forall k :: 0 <= k < |ports| ==> 0 <= ports[k] <= MaxUint16
    ensures ports == [] <==> Join(Decimals(ports), ',') == ""
    ensures ports != [] ==>
      var pieces := Split(Join(Decimals(ports), ','), ',');
      |pieces| == |ports| && forall k :: 0 <= k < |ports| ==> ParseUint16(pieces[k]) == Some(ports[k])
  {
    var d := Decimals(ports);
    if ports != [] {
      SplitJoin(d, ',');
      JoinStartsWithFirst(d, ',');
    }
  }

  /** The default port range, read back, lists exactly the priority ports, ascending. */
  lemma {:induction false} DefaultPortRangeReadsBack(reg: Registry)
    ensures var ports := PriorityPorts(reg, MaxUint16);
      var s := Join(Decimals(ports), ',');
      && (s == "" <==> forall p :: 1 <= p <= MaxUint16 ==> !IsPriority(reg, p))
      && (s != "" ==>
           var pieces := Split(s, ',');
           && |pieces| == |ports|
           && (forall k :: 0 <= k < |ports| ==> ParseUint16(pieces[k]) == Some(ports[k]))
           && (forall i, j :: 0 <= i < j < |pieces| ==> ParseUint16(pieces[i]).value < ParseUint16(pieces[j]).value)
           && (forall p :: p in ports <==> 1 <= p <= MaxUint16 && IsPriority(reg, p)))
  {
    var ports := PriorityPorts(reg, MaxUint16);
    PriorityPortsAscending(reg, MaxUint16);
    PortListRoundTrip(ports);
    forall p
      ensures p in ports <==> 1 <= p <= MaxUint16 && IsPriority(reg, p)
    {
      PriorityPortsMembers(reg, MaxUint16, p);
    }
    if ports != [] {
      assert ports[0] in ports;
    }
  }
}
