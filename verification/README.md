# fingerprintx runner, modelled in Dafny

fingerprintx is a service fingerprinting tool. Its `pkg/runner` package is the command-line front end. It:

- takes targets (`host:port` or `ip:port`) from the command line, a list file or standard input;
- turns each target into a network address, using DNS for host names;
- hands the targets to the scan engine;
- reports the services found as JSON lines, CSV or plain text, on standard output or in a file;
- before any of that, refuses to overwrite an existing output file unless the operator agrees at a terminal;
- derives the default "priority" port list from the plugin registry.

This project models that front end:

- **Target parsing** (`Target.ParseTarget`). A literal address-port pair is accepted as it stands. Otherwise the string is split into host and port, the port must be a 16-bit decimal, and the host is resolved; the target is the first resolved address with that port. The Go library pieces it relies on are written out as functions:
  - `netip.ParseAddrPort` and `netip.AddrFromSlice` (module `Netip`);
  - `net.SplitHostPort` (module `Net`);
  - `strconv.ParseUint(s, 10, 16)`, `Itoa` and `FormatBool` (module `Strconv`);
  - `strings.Split`, `Join`, `TrimSpace` and `ToLower` (module `Text`).
- **The command** (`Cli.Cli`, a class holding the flag values):
  - `InitScanConfig` converts the millisecond timeout into an `int64` nanosecond `Duration`, with Go's wrap-around, and runs the overwrite check.
  - `ParseTargets` reads the target list, keeping every parsable target in order and logging the others in verbose mode.
  - `ScanTargets` chains parsing, scanning and reporting, and stops at the first failing stage.
- **Utilities** (module `Utils`):
  - the overwrite check `CheckOutputFile`;
  - `IsPriorityPort`, which walks UDP, TCP and TCPTLS plugins;
  - `DefaultPortRange`, which lists the priority ports 1..65535 as comma-joined decimals.
- **Reporting** (module `Reporting`):
  - formatter selection (JSON wins over CSV, text is the default);
  - the CSV header and rows;
  - the write loop, which stops at the first error.

  Output goes to a `Sink` object. A sink records what was written. It refuses the write attempts whose numbers lie in a given set, which can describe a failure that lasts or one that passes, and it refuses every write once it is closed.

The outside world enters as parameters:

- DNS (`NetLib.lookupIP`);
- the IPv6 text parser (`NetLib.parseIPv6`);
- `os.Stat`'s answer, whether standard input is a terminal, and the operator's answer;
- the opened input stream or the open error;
- the scan engine (`Scanner`);
- the file-creation error;
- the two sinks.

The proved properties:

- **Target list.** The resolved list is exactly the subsequence of inputs that parse, in order. A bad entry never affects the others.
- **Parse stages.** DNS is consulted only after a valid port. A literal dotted-quad target parses to its own bytes and port. A plain host name parses to its first resolved address.
- **Round trips.** The default port list reads back as the ascending list of priority ports. CSV rows read back as their service.
- **Output.** It holds the header (in CSV mode) and then one record per service, in order, up to the first refused write. Only the chosen sink changes. The output file is closed after it was created.

## Model

| member | source | states |
|---|---|---|
| Target.ParseTarget | pkg/runner/target.go:26-54 | a literal address-port pair becomes the target with no host; each error names its stage (unsplittable input or unusable address, bad port text, failed lookup of the split host); every target's address is IPv4 or IPv6; the converse, that each failing stage produces its error, is stated by `Target.UnsplittableRefused` (for input without an IPv6 zone) and `Target.LaterRefusals` |
| Target.LookupOnlyAfterValidPort | pkg/runner/target.go:29-46 | the resolver can affect the result only for an input that is not a literal, splits into host and port, and has a valid 16-bit port |
| Target.ResolvedTarget | pkg/runner/target.go:35-53 | a target found through DNS comes from a successful `net.SplitHostPort`: its host is the split's host, its port is the split's port text read as a 16-bit decimal, and its address is the first resolved address; the input is "host:port" or "[host]:port" |
| Target.UnsplittableRefused | pkg/runner/target.go:29-38 | input that `net.SplitHostPort` refuses and that holds no '%' is an invalid-target error naming the input; if such input is a target at all, it holds a '%' and is the literal `netip.ParseAddrPort` reads (given an IPv6 parser whose zone-free texts hold no bracket) |
| Target.TooManyColonsRefused | pkg/runner/target.go:29-38 | "h:port" whose unbracketed host h holds a colon is refused by `net.SplitHostPort` and is an invalid target, whatever the IPv6 parser |
| Target.TooManyColonsExample | pkg/runner/target.go:29-38 | "::1:8080" (an unbracketed IPv6 address with a port) is an invalid target |
| Target.ZonedBracketLiteral | pkg/runner/target.go:29-38 | "[a%]]:port", an IPv6 address whose zone is "]", is refused by `net.SplitHostPort` yet is a literal target with no host when the IPv6 parser reads "a%]" |
| Target.BracketedAddrSplit | pkg/runner/target.go:29 | `netip`'s split of "[z]:port" strips the outer brackets, whatever z holds |
| Target.InnerBracketUnsplit | pkg/runner/target.go:35-38 | `net.SplitHostPort` refuses "[z]:port" when z holds a ']' |
| Target.EarlyBracketUnsplit | pkg/runner/target.go:35-38 | `net.SplitHostPort` refuses a bracketed host whose first ']' is not right before the last colon |
| Target.LiteralSplits | pkg/runner/target.go:29-35 | a literal that `netip.ParseAddrPort` accepts and `net.SplitHostPort` refuses holds a '%' (an IPv6 zone), given an IPv6 parser whose zone-free texts hold no bracket |
| Target.LaterRefusals | pkg/runner/target.go:39-50 | a split input whose port is not a 16-bit decimal is an invalid-port error naming the port text; for a non-literal input with a valid port, a failed lookup is a resolution error and a first answer of the wrong length is an invalid target |
| Target.LiteralIPv4Target | pkg/runner/target.go:29-33 | every "a.b.c.d:port" in canonical form parses to exactly those four bytes and that port, with no host and whatever the resolver says |
| Target.HostnameTarget | pkg/runner/target.go:35-53 | "host:port" with a colon-free, bracket-free, non-IPv4 host and a valid port resolves to the first looked-up address, the port and the host name |
| Target.ParseAddrWithoutColon | pkg/runner/target.go:29 | text without a colon parses as an address only as a dotted quad |
| Strconv.ParseUint16 | pkg/runner/target.go:39-42 | succeeds exactly on non-empty all-digit text whose decimal value is at most 65535, and then yields that value |
| Strconv.PortRoundTrip | pkg/runner/utils.go:70 | the decimal text of every port is all digits and parses back to the port |
| Strconv.FormatRoundTrip | pkg/runner/report.go:48-50 | Itoa of any integer and FormatBool of any boolean read back as that value |
| Strconv.NatDigits | pkg/runner/utils.go:70 | the decimal digits of n: non-empty, digits only, no leading zero, value n |
| Netip.AddrFromSlice | pkg/runner/target.go:47-50 | accepts exactly 4- and 16-byte slices, keeping the bytes |
| Netip.ParseIPv4 | pkg/runner/target.go:29 | a parsed dotted quad has four bytes |
| Netip.ParseFormatIPv4 | pkg/runner/target.go:29 | the dotted-quad text of four bytes parses back to them |
| Netip.ParseAddr | pkg/runner/target.go:29 | a parsed address is IPv4 or IPv6 |
| Netip.SplitAddrPort | pkg/runner/target.go:29 | the port part is non-empty and holds no colon |
| Netip.ParseAddrPort | pkg/runner/target.go:29-33 | success means the text split, its port text parsed to the port, its address text parsed to the address, and the address is IPv6 exactly when it was bracketed |
| Netip.SplitAddrPortShape | pkg/runner/target.go:29 | a successful split reassembles to the input: "[ip]:port" when bracketed, "ip:port" otherwise |
| Netip.ParseAddrFromKinds | pkg/runner/target.go:29 | a parsed address is either the dotted-quad reading of the text or the IPv6 parser's answer for it |
| Netip.IPv4TextChars | pkg/runner/target.go:29 | text that parses as a dotted quad holds no colon, square bracket or '%' |
| Netip.ParseAddrFromFindsColon | pkg/runner/target.go:29 | when a ':' comes before any '.' or '%', the address is the IPv6 parser's answer for the whole text |
| Netip.SplitExcludes | pkg/runner/target.go:29 | a character that is not the separator and is in none of the pieces of a split is not in the text |
| Netip.SplitAddrPortPlain | pkg/runner/target.go:29 | "ip:port" with an unbracketed address text and a colon-free port splits back into those two parts |
| Netip.ParseIPv4Literal | pkg/runner/target.go:29-33 | "a.b.c.d:port" in canonical form parses to those bytes and that port |
| Net.SplitHostPort | pkg/runner/target.go:35-38 | the port part holds no colon or bracket |
| Net.SplitHostPortPlain | pkg/runner/target.go:35-38 | "host:port" with colon-free, bracket-free parts splits back into exactly those parts |
| Net.SplitHostPortBracketed | pkg/runner/target.go:35-38 | "[host]:port" with a bracket-free host splits back into the host and port, colons in the host allowed |
| Net.SplitHostPortShape | pkg/runner/target.go:35-38 | whatever splits is the host and port joined by a colon, with or without brackets around the host |
| Text.SplitJoin | pkg/runner/utils.go:73 | joining separator-free pieces and splitting again gives the pieces back |
| Text.TrimSpace | pkg/runner/utils.go:43 | the result is a slice of the input with only white space cut on either side, and it neither starts nor ends with white space |
| Utils.CheckOutputFile | pkg/runner/utils.go:29-49 | a missing file passes; a failed stat is an error; an existing file fails without a terminal, and at a terminal passes exactly when the answer is affirmative |
| Utils.AffirmativeSpellings | pkg/runner/utils.go:43-46 | an answer is affirmative exactly when, trimmed, it is empty, "y" or "yes" in any case |
| Utils.NoPromptWithoutTerminal | pkg/runner/utils.go:37-48 | without a terminal the answer never matters and an existing file is always refused |
| Utils.ToUint16 | pkg/runner/utils.go:56 | ports in 0..65535 are unchanged by the uint16 conversion |
| Utils.IsPriorityPort | pkg/runner/utils.go:51-63 | true exactly when some plugin under UDP, TCP or TCPTLS claims the port taken modulo 2^16 |
| Utils.OtherProtocolsIgnored | pkg/runner/utils.go:52-54 | plugins registered under any other protocol never change the answer |
| Utils.PriorityPortsAscending | pkg/runner/utils.go:67-72 | the collected ports are strictly ascending and within 1..n |
| Utils.PriorityPortsMembers | pkg/runner/utils.go:67-72 | a port is collected exactly when it lies in 1..n and is a priority port |
| Utils.Decimals | pkg/runner/utils.go:70 | one text per port, in order; the text of a 16-bit port is non-empty, holds no comma and parses back to the port |
| Utils.DefaultPortRange | pkg/runner/utils.go:65-74 | the result is the comma-join of the decimal texts of the priority ports 1..65535, in ascending order |
| Utils.PortListRoundTrip | pkg/runner/utils.go:70-73 | a comma-joined port list is empty exactly for no ports, and otherwise splits and parses back to the ports in order |
| Utils.DefaultPortRangeReadsBack | pkg/runner/utils.go:65-74 | the default range is empty exactly when no port is a priority port; otherwise it reads back as strictly ascending ports, each a priority port, with none missing |
| Reporting.SelectFormat | pkg/runner/report.go:79-91 | JSON exactly when --json is set; CSV exactly when --csv is set without --json; text otherwise |
| Reporting.BytesTextRoundTrip | pkg/runner/report.go:51 | the text made from raw bytes reads back as exactly those bytes |
| Reporting.CsvRow | pkg/runner/report.go:44-54 | a row has as many fields as the header |
| Reporting.CsvRowRoundTrip | pkg/runner/report.go:44-54 | every service's row reads back as that service |
| Reporting.RenderedAt | pkg/runner/report.go:93-97 | the record after the header slot at position k is the k-th service's record |
| Reporting.RenderedLength | pkg/runner/report.go:82-97 | the output holds the header (CSV only) and one record per service, the header first |
| Reporting.RenderedShape | pkg/runner/report.go:82-97 | the output is the header (CSV only) followed by one record per service, in input order |
| Reporting.CsvRecordsWidth | pkg/runner/report.go:44-54 | in CSV mode every record, the header included, has the header's width |
| Reporting.EmptyReport | pkg/runner/report.go:82-98 | with no services, CSV writes the header alone and JSON and text write nothing |
| Reporting.RoomAt | pkg/runner/report.go:93-97 | of n upcoming writes, every one before the room's end succeeds and the one right at its end is refused |
| Reporting.AcceptedStep | pkg/runner/report.go:60-63 | one more record joins the accepted ones exactly when its write is accepted |
| Reporting.AcceptedPrefix | pkg/runner/report.go:60-63 | a writer that ignores refusals has written the same records as one that stops at the first refusal, up to that refusal |
| Reporting.AllAccepted | pkg/runner/report.go:93-97 | with no refusal among the attempts, every record is written by either kind of writer |
| Reporting.WrittenStep | pkg/runner/report.go:93-97 | an attempt that goes through adds its record to what the run has written; with text, a refused one adds nothing |
| Reporting.WrittenDone | pkg/runner/report.go:84-98 | a run that stops at the first refusal (JSON, CSV) or gets to the end (text) has delivered its records, with the formatter's outcome and attempt count |
| Reporting.Sink.Write | pkg/runner/report.go:53 | an accepted write appends its record, a refused one changes nothing but the attempt count |
| Reporting.Sink.Create | pkg/runner/report.go:68-72 | a created file is open and empty |
| Reporting.Sink.Close | pkg/runner/report.go:73 | closing keeps what was written |
| Reporting.WriteService | pkg/runner/report.go:32-63 | one record is offered; JSON and CSV return the sink's refusal as an error, text drops it |
| Reporting.WriteServices | pkg/runner/report.go:78-98 | with JSON or CSV the sink gains the rendered records up to the first refusal, and the error is a write failure exactly when a refusal came; with text every accepted record arrives, past any refusal, and there is no error |
| Reporting.WriteRecords | pkg/runner/report.go:82-97 | header write then one write per service, stopping at the first error: the sink gains exactly the records before the first refusal, and the attempt count stops one past it |
| Reporting.Report | pkg/runner/report.go:65-99 | a failed create writes nothing anywhere; otherwise only the chosen sink gains the records the formatter delivers, and the file is closed afterwards |
| Cli.WrapInt64 | pkg/runner/cmd.go:29 | in-range values are unchanged and any value is congruent to its wrap modulo 2^64 |
| Cli.TimeoutExact | pkg/runner/cmd.go:29 | timeouts up to about 292 years convert exactly; the default 2000 ms is 2·10^9 ns |
| Cli.InputError | pkg/runner/cmd.go:65-86 | targets on the command line never fail; otherwise only an open or read error fails |
| Cli.KeptIsSubsequence | pkg/runner/cmd.go:88-98 | the kept results are the parser's results at strictly increasing input positions |
| Cli.KeptIndicesMembers | pkg/runner/cmd.go:88-98 | a position is kept exactly when its string parses |
| Cli.ResolveTargetsIsFilter | pkg/runner/cmd.go:88-98 | the resolved targets are ParseTarget's successes, in input order, and no successful input is dropped |
| Cli.KeptCounts | pkg/runner/cmd.go:88-98 | targets plus errors are as many as the inputs |
| Cli.KeptSnoc | pkg/runner/cmd.go:89-98 | one more string adds its result to the kept list or its error to the dropped list, at the end |
| Cli.ResolveEach | pkg/runner/cmd.go:88-98 | the loop keeps every result that parses and, in verbose mode, collects every error, both in input order |
| Cli.KeptAppend | pkg/runner/cmd.go:88-98 | resolving a concatenation resolves each part on its own |
| Cli.BadEntryDropped | pkg/runner/cmd.go:88-98 | an unparsable entry leaves the rest of the batch resolved as if it were absent |
| Cli.NoColonRefused | pkg/runner/target.go:35-38 | a string with no colon is refused as an invalid target |
| Cli.KeptThree | pkg/runner/cmd.go:89-98 | a batch of good, bad, good entries keeps the two results in order and yields the one error |
| Cli.LiteralTexts | pkg/runner/cmd.go:88-99 | the example batch's built-up entries are the texts "10.0.0.1:22" and "10.0.0.2:443" |
| Cli.MixedBatch | pkg/runner/cmd.go:88-99 | two literal targets around "badtarget" give the two targets in order and the one error |
| Cli.Cli.constructor | pkg/runner/root.go:41-51 | the flag values are stored, with the scan configuration's fast, UDP and verbose flags |
| Cli.Cli.InitScanConfig | pkg/runner/cmd.go:28-35 | the timeout becomes the wrapped nanosecond Duration; with an output file named, the overwrite check's error is returned |
| Cli.Cli.ParseTargets | pkg/runner/cmd.go:64-100 | with no targets given, every line read is appended and an open or read error ends the call; otherwise the result is the resolved targets, and in verbose mode the parse errors, in order |
| Cli.Cli.ScanTargets | pkg/runner/cmd.go:49-62 | the target list is the given one or the lines read, and the scan gets its resolved targets; a read error ends the run with no output; then a scan error does; then a failed create or a refused JSON or CSV write is the run's error, and otherwise there is none; the sink gains what the formatter delivers; in verbose mode the parse errors are logged |

## Left out

- Flag parsing and command wiring in `pkg/runner/root.go` (cobra) are not modelled. The constructor takes the flag values as given. The mutual exclusion of `--json`/`--csv` and `--targets`/`--list` is enforced by cobra, not by this code. The model keeps the precedence of the `switch` instead.
- `Cli.Cli.InitScanConfig`: the root-privilege notice for UDP in verbose mode on Linux and macOS is not modelled (cmd.go:37-45). This covers the `user.Current` lookup and its error path. The error path depends on the operating system's user database.
- Messages written to standard error are not modelled: the overwrite prompt, "Reading targets from stdin", the parse errors, and the root-privilege notice. In verbose mode, `ParseTargets` returns the parse errors it would print as its `logged` output.
- `Cli.Cli.ParseTargets` reads the verbose flag from its own configuration. The code reads `rootCmd.scancfg.Verbose`, and `rootCmd` is the command object itself. Likewise `report` reads `rootCmd.outputFile`, `rootCmd.outputJSON` and `rootCmd.outputCSV` (report.go:67, 80, 82); `Cli.Cli.ScanTargets` passes the same fields of its own object to `Reporting.Report` as parameters.
- DNS resolution (`net.LookupIP`) is a parameter. It answers with at least one address or a failure, because Go reports an empty answer as an error.
- The IPv6 text grammar, including zones, is a parameter (`NetLib.parseIPv6`). Only the dispatch on the first `.`, `:` or `%` and the bracket rules of `netip.ParseAddrPort` are modelled. Dotted-quad IPv4 is modelled fully. The one property of the IPv6 grammar the proofs use is that a text without a zone (no '%') holds no square bracket (`Netip.RejectsBrackets`); `Target.UnsplittableRefused` and `Target.LiteralSplits` assume it of the parser they are given. A zone may hold any text, brackets included.
- ParseTarget (`Target.ParseTarget`): that input `net.SplitHostPort` refuses is an invalid target is proved only for input without a '%'. With an IPv6 zone that holds a ']', such input can still be a literal target, as in Go; `Target.ZonedBracketLiteral` exhibits it.
- An IPv6 zone is not kept: `Netip.Addr` is its bytes only, so "[fe80::1%eth0]:80" and "[fe80::1%eth1]:80" give the same target, where Go's `netip.Addr` keeps the zone.
- `Netip.SplitAddrPort` states only that the port is non-empty and colon-free. The shape of a successful split is stated separately by `Netip.SplitAddrPortShape`; that it refuses every other input is not stated.
- File access and the input reader are parameters: `os.Stat`, `os.Open`, `os.Create`, the lines a `bufio.Scanner` yields and its error. The scanner's token-size limit and line splitting are not modelled.
- `Utils.CheckOutputFile`: `fmt.Scanln`'s tokenisation is not modelled. `answer` is the text it stored.
- `Text.ToLower`: only ASCII letters are lowered. No non-ASCII letter lowers to `y`, `e` or `s`, so the affirmative check is unaffected.
- The scan engine (`scan.ScanTargets`) and the plugin registry's contents are parameters. A plugin is reduced to its `PortPriority` predicate.
- JSON encoding and CSV quoting are not modelled. A record on the sink is the service (JSON, text) or the list of CSV fields.
- `Reporting.WriteServices`: a refused CSV write is an error at that write. In the code, `csv.Writer` buffers and reports errors mostly at flush time, and the deferred `Flush`'s error is never checked. The model is therefore stricter than the code about when a CSV write error surfaces.
- Closing the output file is modelled; its error, which the deferred `Close` drops, is not.
- The text formatter drops `fmt.Fprintln`'s error, and the model follows the code. A text report therefore never fails on a write and carries on after a refused one, leaving a gap, while the JSON and CSV formatters stop at the first refusal.
- Strings are sequences of Unicode characters, while Go strings are byte strings. A target line that holds invalid UTF-8 cannot be represented. `BytesAsText` turns each raw byte into the character with that code, while Go's `string(svc.Raw)` holds the raw bytes themselves. The searches for `:`, `[`, `]`, `.`, `%`, `,` and the digits give the same results as Go's byte-level searches on valid UTF-8, because these are ASCII characters and no multi-byte UTF-8 sequence contains an ASCII byte.
- Concurrency is not modelled; the runner has none of its own.
