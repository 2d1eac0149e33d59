/**
 * pkg/runner/report.go: writing the detected services to standard output
 * or to a file, as JSON lines, CSV or plain text.
 */
module Reporting {
  import opened Wrappers
  import opened Strconv
  import opened Netip

  /** plugins.Service, the fields the formatters use. */
  datatype Service = Service(host: string, ip: string, port: int, protocol: string, tls: bool, raw: seq<byte>)

  /**
   * One record on the output sink: a JSON object (its encoding by
   * encoding/json is not modelled), a CSV row as its list of fields (the
   * quoting by encoding/csv is not modelled), or a line printed by fmt.
   */
  datatype Record = JsonRecord(service: Service) | CsvRecord(fields: seq<string>) | TextRecord(service: Service)

  /** The three formatters, as a closed choice. */
  datatype Format = Json | Csv | Text

  datatype ReportError = CreateFailed(reason: string) | WriteFailed

  /** The switch in report: --json wins over --csv, and plain text is the default. */
  function SelectFormat(outputJSON: bool, outputCSV: bool): (f: Format)
    ensures f == Json <==> outputJSON
    ensures f == Csv <==> !outputJSON && outputCSV
    ensures f == Text <==> !outputJSON && !outputCSV
  {
    if outputJSON then Json else if outputCSV then Csv else Text
  }

  const CsvHeader: seq<string> := ["Host", "IP", "Port", "Protocol", "TLS", "Data"]

  /** Go's string(raw): every byte becomes one character of the same code. */
  function BytesAsText(raw: seq<byte>): string
  {
    seq(|raw|, k requires 0 <= k < |raw| => raw[k] as char)
  }

  /** The bytes a text of single-byte characters stands for; a text with a wider character stands for none. */
  function TextBytes(t: string): Option<seq<byte>>
  {
    if forall k :: 0 <= k < |t| ==> t[k] as int < 256 then
      Some(seq(|t|, k requires 0 <= k < |t| => t[k] as int))
    else None
  }

  /** The text of any bytes stands for exactly those bytes. */
  lemma {:induction false} BytesTextRoundTrip(raw: seq<byte>)
    ensures TextBytes(BytesAsText(raw)) == Some(raw)
  {
    var t := BytesAsText(raw);
    assert seq(|t|, k requires 0 <= k < |t| => t[k] as int) == raw;
  }

  /** csvFormatter.WriteService's row: host, IP, decimal port, protocol, "true"/"false", raw bytes as text. */
  function CsvRow(svc: Service): (row: seq<string>)
    ensures |row| == |CsvHeader|
  {
    [svc.host, svc.ip, Itoa(svc.port), svc.protocol, FormatBool(svc.tls), BytesAsText(svc.raw)]
  }

  /** Reading a CSV row back into a service: the inverse of `CsvRow`. */
  function ReadCsvRow(row: seq<string>): Option<Service>
  {
    if |row| != 6 then None
    else match (ReadInt(row[2]), ReadBool(row[4]), TextBytes(row[5]))
      case (Some(port), Some(tls), Some(raw)) => Some(Service(row[0], row[1], port, row[3], tls, raw))
      case _ => None
  }

  /** Every service's CSV row reads back as that same service. */
  lemma {:induction false} CsvRowRoundTrip(svc: Service)
    ensures ReadCsvRow(CsvRow(svc)) == Some(svc)
  {
    FormatRoundTrip(svc.port, svc.tls);
    BytesTextRoundTrip(svc.raw);
  }

  /** The record a formatter's WriteService puts on the sink for one service. */
  function ServiceRecord(f: Format, svc: Service): Record
  {
    match f
    case Json => JsonRecord(svc)
    case Csv => CsvRecord(CsvRow(svc))
    case Text => TextRecord(svc)
  }

  /** One record per service, in order. */
  function ServiceRecords(f: Format, services: seq<Service>): (recs: seq<Record>)
    ensures |recs| == |services|
    ensures forall k :: 0 <= k < |services| ==> recs[k] == ServiceRecord(f, services[k])
  {
    seq(|services|, k requires 0 <= k < |services| => ServiceRecord(f, services[k]))
  }

  /** Everything report means to write: the CSV header first in CSV mode, then the services. */
  function Rendered(f: Format, services: seq<Service>): seq<Record>
  {
    (if f == Csv then [CsvRecord(CsvHeader)] else []) + ServiceRecords(f, services)
  }

  /** Number of header records. */
  function HeaderCount(f: Format): nat
  {
    if f == Csv then 1 else 0
  }

  /** The record at position `k` among the services is that service's record, after the header. */
  lemma {:induction false} RenderedAt(f: Format, services: seq<Service>, k: nat)
    requires k < |services|
    ensures Rendered(f, services)[HeaderCount(f) + k] == ServiceRecord(f, services[k])
  {
    match f {
      case Csv =>
      case Json =>
      case Text =>
    }
  }

  /**
   * The shape of the output: one record per service in input order, after
   * the header in CSV mode.
   */
  lemma {:induction false} RenderedShape(f: Format, services: seq<Service>)
    ensures |Rendered(f, services)| == HeaderCount(f) + |services|
    ensures f == Csv ==> Rendered(f, services)[0] == CsvRecord(CsvHeader)
    ensures forall k :: HeaderCount(f) <= k < |Rendered(f, services)| ==>
      Rendered(f, services)[k] == ServiceRecord(f, services[k - HeaderCount(f)])
  {
    RenderedLength(f, services);
    forall k | HeaderCount(f) <= k < |Rendered(f, services)|
      ensures Rendered(f, services)[k] == ServiceRecord(f, services[k - HeaderCount(f)])
    {
      RenderedAt(f, services, k - HeaderCount(f));
    }
  }

  /** The output holds the header (in CSV mode) and one record per service. */
  lemma {:induction false} RenderedLength(f: Format, services: seq<Service>)
    ensures |Rendered(f, services)| == HeaderCount(f) + |services|
    ensures f == Csv ==> Rendered(f, services)[0] == CsvRecord(CsvHeader)
  {
    match f {
      case Csv =>
      case Json =>
      case Text =>
    }
  }

  /** In CSV mode every record on the output, the header included, has the header's width. */
  lemma {:induction false} CsvRecordsWidth(services: seq<Service>)
    ensures forall k :: 0 <= k < |Rendered(Csv, services)| ==>
      Rendered(Csv, services)[k].CsvRecord? && |Rendered(Csv, services)[k].fields| == |CsvHeader|
  {
    RenderedShape(Csv, services);
    forall k | 0 <= k < |Rendered(Csv, services)|
      ensures Rendered(Csv, services)[k].CsvRecord? && |Rendered(Csv, services)[k].fields| == |CsvHeader|
    {
      if k > 0 {
        assert Rendered(Csv, services)[1 + (k - 1)] == ServiceRecord(Csv, services[k - 1]);
      }
    }
  }

  /** With no services, CSV writes the header alone and JSON and text write nothing. */
  lemma {:induction false} EmptyReport(f: Format)
    ensures Rendered(f, []) == if f == Csv then [CsvRecord(CsvHeader)] else []
  {
  }

  // ---------------------------------------------------------------------
  // The output sink

  /**
   * Whether write attempt number `attempt` succeeds on a sink that refuses
   * the attempts numbered in `refuses` (a full disk, a broken pipe, a
   * failure that may or may not last); a closed sink refuses every write.
   */
  predicate Accepts(closed: bool, attempt: nat, refuses: iset<nat>)
  {
    !closed && attempt !in refuses
  }

  /** How many of the next `n` write attempts, from attempt number `attempts` on, succeed before the first refusal. */
  function RoomOf(closed: bool, attempts: nat, refuses: iset<nat>, n: nat): (m: nat)
    ensures m <= n
  {
    if n == 0 then 0
    else
      var m := RoomOf(closed, attempts, refuses, n - 1);
      if m == n - 1 && Accepts(closed, attempts + n - 1, refuses) then n else m
  }

  /**
   * Of `n` write attempts, the one `j` places after the first succeeds when
   * it comes before the room's end, and the one right at the end (if any)
   * is refused.
   */
  lemma {:induction false} RoomAt(closed: bool, attempts: nat, refuses: iset<nat>, n: nat, j: nat)
    requires j < n
    ensures j < RoomOf(closed, attempts, refuses, n) ==> Accepts(closed, attempts + j, refuses)
    ensures j == RoomOf(closed, attempts, refuses, n) ==> !Accepts(closed, attempts + j, refuses)
  {
    var m := RoomOf(closed, attempts, refuses, n - 1);
    if j < n - 1 {
      RoomAt(closed, attempts, refuses, n - 1, j);
    }
  }

  /**
   * The records of `recs` whose write attempts, numbered from `attempts`
   * on, are accepted, in order: what a writer that ignores refusals leaves
   * on the sink.
   */
  function Accepted(recs: seq<Record>, closed: bool, attempts: nat, refuses: iset<nat>): (kept: seq<Record>)
    ensures |kept| <= |recs|
  {
    if recs == [] then []
    else
      Accepted(recs[..|recs| - 1], closed, attempts, refuses)
        + (if Accepts(closed, attempts + |recs| - 1, refuses) then [recs[|recs| - 1]] else [])
  }

  /** One more record joins the accepted ones exactly when its attempt is accepted. */
  lemma {:induction false} AcceptedStep(recs: seq<Record>, closed: bool, attempts: nat, refuses: iset<nat>, i: nat)
    requires i < |recs|
    ensures Accepted(recs[..i + 1], closed, attempts, refuses)
      == Accepted(recs[..i], closed, attempts, refuses) + (if Accepts(closed, attempts + i, refuses) then [recs[i]] else [])
  {
    assert recs[..i + 1][..i] == recs[..i];
  }

  /**
   * A writer that ignores refusals has written the same records as one that
   * stops at the first refusal, up to that refusal.
   */
  lemma {:induction false} AcceptedPrefix(recs: seq<Record>, closed: bool, attempts: nat, refuses: iset<nat>)
    ensures var m := RoomOf(closed, attempts, refuses, |recs|);
      m <= |Accepted(recs, closed, attempts, refuses)| && Accepted(recs, closed, attempts, refuses)[..m] == recs[..m]
  {
    if recs != [] {
      var init := recs[..|recs| - 1];
      AcceptedPrefix(init, closed, attempts, refuses);
      var m0 := RoomOf(closed, attempts, refuses, |init|);
      var a0 := Accepted(init, closed, attempts, refuses);
      assert init[..m0] == recs[..m0];
      if m0 == |init| && Accepts(closed, attempts + |init|, refuses) {
        assert a0 == init;
      } else {
        assert Accepted(recs, closed, attempts, refuses)[..m0] == a0[..m0];
      }
    }
  }

  /** With no refusal among the attempts, every record is written, whether or not the writer heeds refusals. */
  lemma {:induction false} AllAccepted(recs: seq<Record>, closed: bool, attempts: nat, refuses: iset<nat>)
    requires forall j :: attempts <= j < attempts + |recs| ==> Accepts(closed, j, refuses)
    ensures RoomOf(closed, attempts, refuses, |recs|) == |recs|
    ensures Accepted(recs, closed, attempts, refuses) == recs
  {
    if recs != [] {
      var init := recs[..|recs| - 1];
      AllAccepted(init, closed, attempts, refuses);
      assert Accepts(closed, attempts + |init|, refuses);
      assert init + [recs[|recs| - 1]] == recs;
    }
  }

  /**
   * A file or standard output: the records written so far, the number of
   * write attempts, and whether it has been closed. The sink refuses the
   * attempts numbered in `refuses`; a closed sink refuses every write.
   */
  class Sink {
    var records: seq<Record>
    var attempts: nat
    var closed: bool
    const refuses: iset<nat>

    constructor (refuses: iset<nat>)
      ensures records == [] && attempts == 0 && !closed && this.refuses == refuses
    {
      records, attempts, closed := [], 0, false;
      this.refuses := refuses;
    }

    /** One write attempt; a refused write leaves the records as they were. */
    method Write(r: Record) returns (ok: bool)
      modifies this
      ensures ok == Accepts(old(closed), old(attempts), refuses)
      ensures records == if ok then old(records) + [r] else old(records)
      ensures attempts == old(attempts) + 1 && closed == old(closed)
    {
      ok := Accepts(closed, attempts, refuses);
      if ok {
        records := records + [r];
      }
      attempts := attempts + 1;
    }

    /** os.Create: the file is opened afresh and truncated. */
    method Create()
      modifies this
      ensures records == [] && !closed && attempts == old(attempts)
    {
      records, closed := [], false;
    }

    method Close()
      modifies this
      ensures closed && records == old(records) && attempts == old(attempts)
    {
      closed := true;
    }
  }

  /** The error a formatter run ends with when `m` of the records got through before the first refusal. */
  function WriteOutcome(f: Format, total: nat, m: nat): Option<ReportError>
  {
    if f != Text && m < total then Some(WriteFailed) else None
  }

  /**
   * What a formatter run leaves on the sink: JSON and CSV stop at the first
   * refusal, the text formatter carries on past refusals.
   */
  function Delivered(f: Format, recs: seq<Record>, closed: bool, attempts: nat, refuses: iset<nat>): seq<Record>
  {
    if f == Text then Accepted(recs, closed, attempts, refuses)
    else recs[..RoomOf(closed, attempts, refuses, |recs|)]
  }

  /**
   * What the first `j` write attempts of a formatter run leave on the sink,
   * as long as the run has not stopped: JSON and CSV have met no refusal
   * yet, so all `j` records; text, the accepted ones.
   */
  ghost function Written(f: Format, recs: seq<Record>, closed: bool, attempts: nat, refuses: iset<nat>, j: nat): seq<Record>
    requires j <= |recs|
  {
    if f == Text then Accepted(recs[..j], closed, attempts, refuses) else recs[..j]
  }

  /** Nothing is written before the first attempt. */
  lemma {:induction false} WrittenStart(f: Format, recs: seq<Record>, closed: bool, attempts: nat, refuses: iset<nat>)
    ensures Written(f, recs, closed, attempts, refuses, 0) == []
  {
    assert recs[..0] == [];
  }

  /** An attempt that goes through adds its record; with text, a refused one adds nothing. */
  lemma {:induction false} WrittenStep(f: Format, recs: seq<Record>, closed: bool, attempts: nat, refuses: iset<nat>, j: nat)
    requires j < |recs|
    ensures f == Text || Accepts(closed, attempts + j, refuses) ==>
      Written(f, recs, closed, attempts, refuses, j + 1)
        == Written(f, recs, closed, attempts, refuses, j) + (if Accepts(closed, attempts + j, refuses) then [recs[j]] else [])
  {
    if f == Text {
      AcceptedStep(recs, closed, attempts, refuses, j);
    } else {
      assert recs[..j + 1] == recs[..j] + [recs[j]];
    }
  }

  /** The sink's records before and after one more attempt, against the written prefix. */
  lemma {:induction false} Advance(f: Format, recs: seq<Record>, closed: bool, attempts: nat, refuses: iset<nat>, j: nat,
                                  base: seq<Record>, before: seq<Record>, after: seq<Record>)
    requires j < |recs|
    requires f == Text || Accepts(closed, attempts + j, refuses)
    requires before == base + Written(f, recs, closed, attempts, refuses, j)
    requires after == if Accepts(closed, attempts + j, refuses) then before + [recs[j]] else before
    ensures after == base + Written(f, recs, closed, attempts, refuses, j + 1)
  {
    WrittenStep(f, recs, closed, attempts, refuses, j);
  }

  /**
   * A run that stops at the first refusal (JSON, CSV) or gets to the end
   * (text) has delivered its records, ends with the formatter's outcome,
   * and has made one attempt past the last success only when it failed.
   */
  lemma {:induction false} WrittenDone(f: Format, recs: seq<Record>, closed: bool, attempts: nat, refuses: iset<nat>, j: nat,
                                       base: seq<Record>, records: seq<Record>, tried: nat, err: Option<ReportError>)
    requires j <= |recs|
    requires f == Text ==> j == |recs|
    requires f != Text ==> j == RoomOf(closed, attempts, refuses, |recs|)
    requires records == base + Written(f, recs, closed, attempts, refuses, j)
    requires err == (if j < |recs| then Some(WriteFailed) else None)
    requires tried == attempts + (if err.Some? then j + 1 else j)
    ensures var m := RoomOf(closed, attempts, refuses, |recs|);
      && records == base + Delivered(f, recs, closed, attempts, refuses)
      && err == WriteOutcome(f, |recs|, m)
      && tried == attempts + (if err.Some? then m + 1 else |recs|)
  {
    assert recs[..|recs|] == recs;
  }

  /**
   * The three formatters' WriteService: JSON and CSV return the sink's
   * error, the text formatter drops it (fmt.Fprintln's error is not checked).
   */
  method WriteService(f: Format, svc: Service, out: Sink) returns (err: Option<ReportError>)
    modifies out
    ensures out.records == if Accepts(old(out.closed), old(out.attempts), out.refuses)
      then old(out.records) + [ServiceRecord(f, svc)] else old(out.records)
    ensures out.attempts == old(out.attempts) + 1 && out.closed == old(out.closed)
    ensures err.Some? <==> f != Text && !Accepts(old(out.closed), old(out.attempts), out.refuses)
    ensures err.Some? ==> err == Some(WriteFailed)
  {
    var ok := out.Write(ServiceRecord(f, svc));
    err := if ok || f == Text then None else Some(WriteFailed);
  }

  /**
   * The formatter part of report: in CSV mode the header goes first and a
   * failure there ends the run; then one WriteService per service, in
   * order, stopping at the first error. What got through stays written.
   */
  method WriteServices(f: Format, services: seq<Service>, out: Sink) returns (err: Option<ReportError>)
    modifies out
    ensures var recs := Rendered(f, services);
      var m := RoomOf(old(out.closed), old(out.attempts), out.refuses, |recs|);
      && out.records == old(out.records) + Delivered(f, recs, old(out.closed), old(out.attempts), out.refuses)
      && err == WriteOutcome(f, |recs|, m)
      && out.attempts == old(out.attempts) + (if err.Some? then m + 1 else |recs|)
      && out.closed == old(out.closed)
  {
    RenderedLength(f, services);
    forall i | 0 <= i < |services|
      ensures Rendered(f, services)[HeaderCount(f) + i] == ServiceRecord(f, services[i])
    {
      RenderedAt(f, services, i);
    }
    err := WriteRecords(f, services, out, Rendered(f, services));
  }

  /**
   * The body of WriteServices, against any list `recs` laid out as
   * Rendered lays out the records: the header slot, then one record per
   * service.
   */
  method WriteRecords(f: Format, services: seq<Service>, out: Sink, ghost recs: seq<Record>) returns (err: Option<ReportError>)
    requires |recs| == HeaderCount(f) + |services|
    requires f == Csv ==> recs[0] == CsvRecord(CsvHeader)
    requires forall i :: 0 <= i < |services| ==> recs[HeaderCount(f) + i] == ServiceRecord(f, services[i])
    modifies out
    ensures var m := RoomOf(old(out.closed), old(out.attempts), out.refuses, |recs|);
      && out.records == old(out.records) + Delivered(f, recs, old(out.closed), old(out.attempts), out.refuses)
      && err == WriteOutcome(f, |recs|, m)
      && out.attempts == old(out.attempts) + (if err.Some? then m + 1 else |recs|)
      && out.closed == old(out.closed)
  {
    ghost var r := out.refuses;
    ghost var m := RoomOf(out.closed, out.attempts, r, |recs|);
    ghost var base, a0, c0 := out.records, out.attempts, out.closed;
    var h := HeaderCount(f);
    WrittenStart(f, recs, c0, a0, r);
    if f == Csv {
      RoomAt(c0, a0, r, |recs|, 0);
      var ok := out.Write(CsvRecord(CsvHeader));
      WrittenStep(f, recs, c0, a0, r, 0);
      if !ok {
        err := Some(WriteFailed);
        WrittenDone(f, recs, c0, a0, r, 0, base, out.records, out.attempts, err);
        return;
      }
    }
    var i := 0;
    while i < |services|
      invariant 0 <= i <= |services|
      invariant out.attempts == a0 + h + i && out.closed == c0
      invariant f != Text ==> h + i <= m
      invariant out.records == base + Written(f, recs, c0, a0, r, h + i)
    {
      RoomAt(c0, a0, r, |recs|, h + i);
      ghost var before := out.records;
      var e := WriteService(f, services[i], out);
      if e.Some? {
        WrittenDone(f, recs, c0, a0, r, h + i, base, out.records, out.attempts, e);
        return e;
      }
      Advance(f, recs, c0, a0, r, h + i, base, before, out.records);
      i := i + 1;
    }
    WrittenDone(f, recs, c0, a0, r, h + i, base, out.records, out.attempts, None);
    return None;
  }

  /**
   * report: with an output file, create it (an error ends the run before
   * anything is written) and close it on every path after that; otherwise
   * write to standard output. Only the chosen sink changes.
   */
  method Report(outputFile: string, outputJSON: bool, outputCSV: bool, services: seq<Service>,
                createError: Option<string>, stdout: Sink, file: Sink) returns (err: Option<ReportError>)
    requires stdout != file
    modifies stdout, file
    ensures var recs := Rendered(SelectFormat(outputJSON, outputCSV), services);
      && (outputFile != "" && createError.Some? ==>
            err == Some(CreateFailed(createError.value)) && unchanged(stdout) && unchanged(file))
      && (outputFile != "" && createError.None? ==>
            var m := RoomOf(false, old(file.attempts), file.refuses, |recs|);
            && file.records == Delivered(SelectFormat(outputJSON, outputCSV), recs, false, old(file.attempts), file.refuses)
            && file.closed
            && err == WriteOutcome(SelectFormat(outputJSON, outputCSV), |recs|, m)
            && unchanged(stdout))
      && (outputFile == "" ==>
            var m := RoomOf(old(stdout.closed), old(stdout.attempts), stdout.refuses, |recs|);
            && stdout.records == old(stdout.records) + Delivered(SelectFormat(outputJSON, outputCSV), recs, old(stdout.closed), old(stdout.attempts), stdout.refuses)
            && err == WriteOutcome(SelectFormat(outputJSON, outputCSV), |recs|, m)
            && unchanged(file))
  {
    var out: Sink;
    if outputFile != "" {
      if createError.Some? {
        return Some(CreateFailed(createError.value));
      }
      file.Create();
      out := file;
    } else {
      out := stdout;
    }
    err := WriteServices(SelectFormat(outputJSON, outputCSV), services, out);
    if outputFile != "" {
      file.Close();
    }
  }
}
