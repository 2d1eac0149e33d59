/**
 * pkg/runner/cmd.go: the command's state, building the scan configuration,
 * collecting and resolving the targets, and the parse / scan / report run.
 */
module Cli {
  import opened Wrappers
  import opened Text
  import opened Strconv
  import opened Netip
  import opened Target
  import opened Utils
  import opened Reporting

  const MinInt64: int := -0x8000_0000_0000_0000
  const MaxInt64: int := 0x7FFF_FFFF_FFFF_FFFF

  type int64 = x: int | MinInt64 <= x <= MaxInt64

  /** Two's-complement wrap-around of Go's int64 arithmetic. */
  function WrapInt64(x: int): (r: int64)
    ensures MinInt64 <= x <= MaxInt64 ==> r == x
    ensures (r - x) % 0x1_0000_0000_0000_0000 == 0
  {
    (x - MinInt64) % 0x1_0000_0000_0000_0000 + MinInt64
  }

  const NanosPerMilli: int := 1_000_000

  /** time.Duration(timeout) * time.Millisecond: nanoseconds, as an int64 that wraps. */
  function TimeoutNanos(timeout: int64): int64
  {
    WrapInt64(timeout * NanosPerMilli)
  }

  /**
   * Any timeout of up to about 292 years in milliseconds, either sign, is
   * converted exactly; the flag's default, 2000 ms, is two seconds.
   */
  lemma {:induction false} TimeoutExact(timeout: int64)
    requires -9_223_372_036_854 <= timeout <= 9_223_372_036_854
    ensures TimeoutNanos(timeout) == timeout * 1_000_000
    ensures TimeoutNanos(2000) == 2_000_000_000
  {
  }

  /** scan.Config, the fields this front end sets. */
  datatype ScanConfig = ScanConfig(defaultTimeout: int64, fastMode: bool, udp: bool, verbose: bool)

  /** A line reader over a file or standard input: the lines it yields, then its error if any. */
  datatype Stream = Stream(lines: seq<string>, readError: Option<string>)

  /** What os.Open did with the input file. */
  datatype OpenResult = Opened(stream: Stream) | OpenFailed(reason: string)

  /** The errors that end a run. */
  datatype CliError =
    | OpenError(reason: string)
    | ReadError(reason: string)
    | OutputCheck(check: CheckError)
    | ScanFailed(reason: string)
    | ReportFailed(report: ReportError)

  /** The scan engine (scan.ScanTargets), outside this model: targets and configuration in, services or an error out. */
  type Scanner = (seq<Target>, ScanConfig) -> Result<seq<Service>, string>

  // ---------------------------------------------------------------------
  // The target list

  /** parseTarget with the outside world fixed. */
  function Parser(lib: NetLib): string -> Result<Target, TargetError>
  {
    s => ParseTarget(lib, s)
  }

  /** The results of the strings that parse, in order. */
  function Kept<T, E>(parse: string -> Result<T, E>, raws: seq<string>): seq<T>
  {
    if raws == [] then []
    else
      var rest := Kept(parse, raws[..|raws| - 1]);
      match parse(raws[|raws| - 1])
      case Ok(t) => rest + [t]
      case Err(_) => rest
  }

  /** The errors of the strings that do not parse, in order. */
  function Dropped<T, E>(parse: string -> Result<T, E>, raws: seq<string>): seq<E>
  {
    if raws == [] then []
    else
      var rest := Dropped(parse, raws[..|raws| - 1]);
      match parse(raws[|raws| - 1])
      case Ok(_) => rest
      case Err(e) => rest + [e]
  }

  /** The positions of the strings that parse, in order. */
  function KeptIndices<T, E>(parse: string -> Result<T, E>, raws: seq<string>): seq<nat>
  {
    if raws == [] then []
    else
      var rest := KeptIndices(parse, raws[..|raws| - 1]);
      if parse(raws[|raws| - 1]).Ok? then rest + [|raws| - 1] else rest
  }

  /** The targets of the strings that parse, in order. */
  function ResolveTargets(lib: NetLib, raws: seq<string>): seq<Target>
  {
    Kept(Parser(lib), raws)
  }

  /** The errors of the strings that do not parse, in order. */
  function ResolveErrors(lib: NetLib, raws: seq<string>): seq<TargetError>
  {
    Dropped(Parser(lib), raws)
  }

  /** The kept results are the parser's results at strictly increasing positions, in order. */
  lemma {:induction false} KeptIsSubsequence<T, E>(parse: string -> Result<T, E>, raws: seq<string>)
    ensures var idx, ts := KeptIndices(parse, raws), Kept(parse, raws);
      && |idx| == |ts|
      && (forall a, b :: 0 <= a < b < |idx| ==> idx[a] < idx[b])
      && (forall k :: 0 <= k < |idx| ==> idx[k] < |raws| && parse(raws[idx[k]]) == Ok(ts[k]))
  {
    if raws != [] {
      var init := raws[..|raws| - 1];
      KeptIsSubsequence(parse, init);
      var idx0 := KeptIndices(parse, init);
      assert forall k :: 0 <= k < |idx0| ==> raws[idx0[k]] == init[idx0[k]];
    }
  }

  /** A position is kept exactly when its string parses: nothing that parses is dropped. */
  lemma {:induction false} KeptIndicesMembers<T, E>(parse: string -> Result<T, E>, raws: seq<string>)
    ensures forall i :: 0 <= i < |raws| ==> (i in KeptIndices(parse, raws) <==> parse(raws[i]).Ok?)
  {
    if raws != [] {
      var init := raws[..|raws| - 1];
      KeptIndicesMembers(parse, init);
      KeptIsSubsequence(parse, init);
      var idx0 := KeptIndices(parse, init);
      assert |init| !in idx0;
      forall i | 0 <= i < |init|
        ensures i in KeptIndices(parse, raws) <==> parse(raws[i]).Ok?
      {
        assert init[i] == raws[i];
      }
    }
  }

  /**
   * The resolved list is exactly the subsequence of the inputs that parse:
   * ParseTarget of the inputs at strictly increasing positions, where a
   * position is among them exactly when its string parses.
   */
  lemma {:induction false} ResolveTargetsIsFilter(lib: NetLib, raws: seq<string>)
    ensures var idx, ts := KeptIndices(Parser(lib), raws), ResolveTargets(lib, raws);
      && |idx| == |ts|
      && (forall a, b :: 0 <= a < b < |idx| ==> idx[a] < idx[b])
      && (forall k :: 0 <= k < |idx| ==> idx[k] < |raws| && ParseTarget(lib, raws[idx[k]]) == Ok(ts[k]))
      && (forall i :: 0 <= i < |raws| ==> (i in idx <==> ParseTarget(lib, raws[i]).Ok?))
  {
    KeptIsSubsequence(Parser(lib), raws);
    KeptIndicesMembers(Parser(lib), raws);
  }

  /** Every input yields either a target or an error, so the list is never longer than the input. */
  lemma {:induction false} KeptCounts<T, E>(parse: string -> Result<T, E>, raws: seq<string>)
    ensures |Kept(parse, raws)| + |Dropped(parse, raws)| == |raws|
  {
    if raws != [] {
      KeptCounts(parse, raws[..|raws| - 1]);
    }
  }

  /** Resolving a concatenation resolves each part on its own: one entry never affects another. */
  lemma {:induction false} KeptAppend<T, E>(parse: string -> Result<T, E>, xs: seq<string>, ys: seq<string>)
    ensures Kept(parse, xs + ys) == Kept(parse, xs) + Kept(parse, ys)
    decreases |ys|
  {
    if ys == [] {
      assert xs + ys == xs;
    } else {
      var init := ys[..|ys| - 1];
      assert (xs + ys)[..|xs + ys| - 1] == xs + init;
      assert (xs + ys)[|xs + ys| - 1] == ys[|ys| - 1];
      KeptAppend(parse, xs, init);
    }
  }

  /** A string that fails to parse is dropped and the rest of the batch is resolved as if it were absent. */
  lemma {:induction false} BadEntryDropped(lib: NetLib, xs: seq<string>, bad: string, ys: seq<string>)
    requires ParseTarget(lib, bad).Err?
    ensures ResolveTargets(lib, xs + [bad] + ys) == ResolveTargets(lib, xs + ys)
    ensures |ResolveTargets(lib, xs + [bad] + ys)| + |ResolveErrors(lib, xs + [bad] + ys)| == |xs| + 1 + |ys|
  {
    var parse := Parser(lib);
    KeptAppend(parse, xs + [bad], ys);
    KeptAppend(parse, xs, [bad]);
    KeptAppend(parse, xs, ys);
    assert [bad][..0] == [];
    KeptCounts(parse, xs + [bad] + ys);
  }

  /** A string with no colon names no port, and is refused as it stands. */
  lemma {:induction false} NoColonRefused(lib: NetLib, input: string)
    requires ':' !in input
    ensures ParseTarget(lib, input) == Err(InvalidTarget(input))
  {
    assert LastIndexOf(input, ':') < 0;
  }

  /** A batch of three resolves entry by entry: good, bad, good gives the two results and the one error. */
  lemma {:induction false} KeptThree<T, E>(parse: string -> Result<T, E>, x: string, y: string, z: string)
    requires parse(x).Ok? && parse(y).Err? && parse(z).Ok?
    ensures Kept(parse, [x, y, z]) == [parse(x).value, parse(z).value]
    ensures Dropped(parse, [x, y, z]) == [parse(y).error]
  {
    assert [x, y, z][..2] == [x, y] && [x, y][..1] == [x] && [x][..0] == [];
    assert Kept(parse, [x]) == [parse(x).value] && Dropped(parse, [x]) == [];
    assert Kept(parse, [x, y]) == [parse(x).value] && Dropped(parse, [x, y]) == [parse(y).error];
  }

  /** The decimal texts the example batch uses. */
  lemma {:induction false} ExampleDecimals()
    ensures Itoa(0) == "0" && Itoa(1) == "1" && Itoa(2) == "2" && Itoa(10) == "10"
    ensures Itoa(22) == "22" && Itoa(443) == "443"
  {
    assert NatDigits(1) == "1" && NatDigits(2) == "2" && NatDigits(4) == "4";
    assert NatDigits(44) == "44";
  }

  /** The dotted-quad text of 10.0.0.`d`, for a one-digit last byte. */
  lemma {:induction false} TenDotQuad(d: byte)
    requires d < 10
    ensures FormatIPv4([10, 0, 0, d]) == "10.0.0." + [DigitChar(d)]
  {
    ExampleDecimals();
    assert Itoa(d) == [DigitChar(d)];
    JoinCons("10", ["0", "0", [DigitChar(d)]], '.');
    JoinCons("0", ["0", [DigitChar(d)]], '.');
    JoinCons("0", [[DigitChar(d)]], '.');
  }

  /** The two literal targets of the example batch, spelled out. */
  lemma {:induction false} LiteralTexts()
    ensures FormatIPv4([10, 0, 0, 1]) + ":" + Itoa(22) == "10.0.0.1:22"
    ensures FormatIPv4([10, 0, 0, 2]) + ":" + Itoa(443) == "10.0.0.2:443"
  {
    ExampleDecimals();
    TenDotQuad(1);
    TenDotQuad(2);
  }

  /**
   * A batch of two literal targets around a string with no port: the two
   * literals ("10.0.0.1:22" and "10.0.0.2:443", by LiteralTexts) are kept,
   * in order and without host names, and the bad entry yields the one error.
   */
  lemma {:induction false} MixedBatch(lib: NetLib)
    ensures var first, second := FormatIPv4([10, 0, 0, 1]) + ":" + Itoa(22), FormatIPv4([10, 0, 0, 2]) + ":" + Itoa(443);
      var raws := [first, "badtarget", second];
      && ResolveTargets(lib, raws) == [Target(AddrPort(Addr([10, 0, 0, 1]), 22), ""), Target(AddrPort(Addr([10, 0, 0, 2]), 443), "")]
      && ResolveErrors(lib, raws) == [InvalidTarget("badtarget")]
  {
    var first, second := FormatIPv4([10, 0, 0, 1]) + ":" + Itoa(22), FormatIPv4([10, 0, 0, 2]) + ":" + Itoa(443);
    LiteralIPv4Target(lib, [10, 0, 0, 1], 22);
    LiteralIPv4Target(lib, [10, 0, 0, 2], 443);
    NoColonRefused(lib, "badtarget");
    KeptThree(Parser(lib), first, "badtarget", second);
  }

  /** One more string: its result or its error joins the end of the matching list. */
  lemma {:induction false} KeptSnoc<T, E>(parse: string -> Result<T, E>, raws: seq<string>, x: string)
    ensures Kept(parse, raws + [x]) == Kept(parse, raws) + (if parse(x).Ok? then [parse(x).value] else [])
    ensures Dropped(parse, raws + [x]) == Dropped(parse, raws) + (if parse(x).Err? then [parse(x).error] else [])
  {
    assert (raws + [x])[..|raws|] == raws;
  }

  /**
   * The loop of parseTargets: parse each string in order, keep the results
   * of those that parse and, when `verbose`, collect the others' errors.
   */
  method ResolveEach<T, E>(parse: string -> Result<T, E>, raws: seq<string>, verbose: bool)
    returns (ts: seq<T>, logged: seq<E>)
    ensures ts == Kept(parse, raws)
    ensures logged == if verbose then Dropped(parse, raws) else []
  {
    ts, logged := [], [];
    var i := 0;
    while i < |raws|
      invariant 0 <= i <= |raws|
      invariant ts == Kept(parse, raws[..i])
      invariant logged == if verbose then Dropped(parse, raws[..i]) else []
    {
      KeptSnoc(parse, raws[..i], raws[i]);
      assert raws[..i + 1] == raws[..i] + [raws[i]];
      match parse(raws[i]) {
        case Err(e) =>
          if verbose {
            logged := logged + [e];
          }
        case Ok(t) =>
          ts := ts + [t];
      }
      i := i + 1;
    }
    assert raws[..i] == raws;
  }

  // ---------------------------------------------------------------------
  // Reading the target list

  /** The input stream parseTargets reads: the named file, or standard input when none is named. */
  function InputSource(inputFile: string, open: string -> OpenResult, stdin: Stream): Result<Stream, string>
  {
    if inputFile == "" then Ok(stdin)
    else match open(inputFile)
      case Opened(s) => Ok(s)
      case OpenFailed(why) => Err(why)
  }

  /** The lines appended to an empty target list: all lines the stream yielded, even when it then failed. */
  function LinesRead(inputFile: string, open: string -> OpenResult, stdin: Stream): seq<string>
  {
    match InputSource(inputFile, open, stdin)
    case Ok(s) => s.lines
    case Err(_) => []
  }

  /** The error, if any, of the reading stage: none when targets were given on the command line. */
  function InputError(targets: seq<string>, inputFile: string, open: string -> OpenResult, stdin: Stream): (e: Option<CliError>)
    ensures targets != [] ==> e == None
    ensures e.Some? ==> e.value.OpenError? || e.value.ReadError?
  {
    if targets != [] then None
    else match InputSource(inputFile, open, stdin)
      case Err(why) => Some(OpenError(why))
      case Ok(s) => if s.readError.Some? then Some(ReadError(s.readError.value)) else None
  }

  /** The command's state: its flags and the scan configuration built from them. */
  class Cli {
    var inputFile: string
    var targets: seq<string>
    var timeout: int64
    var outputFile: string
    var outputJSON: bool
    var outputCSV: bool
    var scancfg: ScanConfig

    /** The flag values as the command line set them (the flag wiring itself is not modelled). */
    constructor (inputFile: string, targets: seq<string>, timeout: int64, outputFile: string,
                 outputJSON: bool, outputCSV: bool, fastMode: bool, udp: bool, verbose: bool)
      ensures this.inputFile == inputFile && this.targets == targets && this.timeout == timeout
      ensures this.outputFile == outputFile && this.outputJSON == outputJSON && this.outputCSV == outputCSV
      ensures scancfg == ScanConfig(0, fastMode, udp, verbose)
    {
      this.inputFile, this.targets, this.timeout := inputFile, targets, timeout;
      this.outputFile, this.outputJSON, this.outputCSV := outputFile, outputJSON, outputCSV;
      scancfg := ScanConfig(0, fastMode, udp, verbose);
    }

    /**
     * initScanConfig: set the per-probe timeout from the millisecond flag,
     * then, only when an output file is named, run the overwrite check and
     * return its error unchanged.
     */
    method InitScanConfig(stat: StatResult, isTerminal: bool, answer: string) returns (err: Option<CliError>)
      modifies this`scancfg
      ensures scancfg == old(scancfg).(defaultTimeout := TimeoutNanos(timeout))
      ensures outputFile == "" ==> err == None
      ensures outputFile != "" ==> err == match CheckOutputFile(outputFile, stat, isTerminal, answer)
        case None => None
        case Some(e) => Some(OutputCheck(e))
    {
      scancfg := scancfg.(defaultTimeout := TimeoutNanos(timeout));
      if outputFile != "" {
        var e := CheckOutputFile(outputFile, stat, isTerminal, answer);
        if e.Some? {
          return Some(OutputCheck(e.value));
        }
      }
      return None;
    }

    /**
     * parseTargets: with no targets given, append every line of the input
     * file (or of standard input) to the target list, and fail if the file
     * cannot be opened or the reader reports an error. Then parse each
     * target in order, keep those that parse and, in verbose mode, report
     * the others' errors; a bad target never fails the batch.
     */
    method ParseTargets(lib: NetLib, open: string -> OpenResult, stdin: Stream)
      returns (ts: seq<Target>, err: Option<CliError>, logged: seq<TargetError>)
      modifies this`targets
      ensures old(targets) != [] ==> targets == old(targets)
      ensures old(targets) == [] ==> targets == LinesRead(inputFile, open, stdin)
      ensures err == InputError(old(targets), inputFile, open, stdin)
      ensures err.Some? ==> ts == [] && logged == []
      ensures err.None? ==> ts == ResolveTargets(lib, targets)
      ensures err.None? ==> logged == if scancfg.verbose then ResolveErrors(lib, targets) else []
    {
      if |targets| == 0 {
        var src: Stream;
        if inputFile != "" {
          match open(inputFile)
          case OpenFailed(why) =>
            return [], Some(OpenError(why)), [];
          case Opened(s) =>
            src := s;
        } else {
          src := stdin;
        }
        var n := 0;
        while n < |src.lines|
          invariant 0 <= n <= |src.lines|
          invariant targets == src.lines[..n]
        {
          targets := targets + [src.lines[n]];
          n := n + 1;
        }
        assert src.lines[..n] == src.lines;
        if src.readError.Some? {
          return [], Some(ReadError(src.readError.value)), [];
        }
      }
      ts, logged := ResolveEach(Parser(lib), targets, scancfg.verbose);
      return ts, None, logged;
    }

    /**
     * scanTargets: resolve the targets, scan them, report the services.
     * Each stage runs only if the one before succeeded, and the first
     * failing stage's error is the result; nothing is written to either
     * sink unless both parsing and scanning succeeded.
     */
    method ScanTargets(lib: NetLib, open: string -> OpenResult, stdin: Stream, scan: Scanner,
                       createError: Option<string>, stdout: Sink, file: Sink)
      returns (err: Option<CliError>, logged: seq<TargetError>)
      requires stdout != file
      modifies this`targets, stdout, file
      ensures old(targets) != [] ==> targets == old(targets)
      ensures old(targets) == [] ==> targets == LinesRead(inputFile, open, stdin)
      ensures InputError(old(targets), inputFile, open, stdin).Some? ==> logged == []
      ensures InputError(old(targets), inputFile, open, stdin).None? ==>
        logged == if scancfg.verbose then ResolveErrors(lib, targets) else []
      ensures var readErr := InputError(old(targets), inputFile, open, stdin);
        var found := scan(ResolveTargets(lib, targets), scancfg);
        && (readErr.Some? ==> err == readErr && unchanged(stdout) && unchanged(file))
        && (readErr.None? && found.Err? ==>
              err == Some(ScanFailed(found.error)) && unchanged(stdout) && unchanged(file))
        && (readErr.None? && found.Ok? ==>
              var f := SelectFormat(outputJSON, outputCSV);
              var recs := Rendered(f, found.value);
              && (outputFile != "" && createError.Some? ==>
                    err == Some(ReportFailed(CreateFailed(createError.value))) && unchanged(stdout) && unchanged(file))
              && (outputFile != "" && createError.None? ==>
                    var m := RoomOf(false, old(file.attempts), file.refuses, |recs|);
                    && file.records == Delivered(f, recs, false, old(file.attempts), file.refuses)
                    && file.closed && unchanged(stdout)
                    && err == if WriteOutcome(f, |recs|, m).Some? then Some(ReportFailed(WriteFailed)) else None)
              && (outputFile == "" ==>
                    var m := RoomOf(old(stdout.closed), old(stdout.attempts), stdout.refuses, |recs|);
                    && stdout.records == old(stdout.records) + Delivered(f, recs, old(stdout.closed), old(stdout.attempts), stdout.refuses)
                    && unchanged(file)
                    && err == if WriteOutcome(f, |recs|, m).Some? then Some(ReportFailed(WriteFailed)) else None))
    {
      var ts, e, msgs := ParseTargets(lib, open, stdin);
      logged := msgs;
      if e.Some? {
        return e, logged;
      }
      var found := scan(ts, scancfg);
      if found.Err? {
        return Some(ScanFailed(found.error)), logged;
      }
      var r := Report(outputFile, outputJSON, outputCSV, found.value, createError, stdout, file);
      if r.Some? {
        return Some(ReportFailed(r.value)), logged;
      }
      return None, logged;
    }
  }
}
