# Flower directives, modelled in Dafny

Flower is an extension of the blackfriday Markdown processor. It reads
*directives* out of the code blocks of a Markdown document and checks them
against the machine it runs on. A directive is one line beginning `flower:`:

* `flower: HOST offers SERVICE[:PORT]` says that HOST offers a service.
* `flower: LOCAL uses SERVICE[:PORT] [at] REMOTE` says that LOCAL uses a
  service on REMOTE.
* In the older parser, `flower: IP is ALIAS` names this machine.

Each directive is parsed into a command. The command is executed against
the network: is the host this machine, is the caller this machine, is the
port open? The commands are then reported as an HTML table or a text summary.

The project models two generations of this engine.

* **The `flower` package** (`flower/parser.go`, `flower/service_cmd.go`,
  `flower/interpreter.go`) is modelled in the modules `Directive`,
  `ServiceCmd` and `Interpreter`. The patterns of both parsers are defined in
  `Grammar`, and `Matching` proves what their matchers return.
  `DirectiveLines` works through the lines of the package's tests.
  * Parsing matches the line against the anchored `local_service` and
    `remote_service` patterns. The named groups are collected into a
    parameter map, and a service command is built from it.
  * Execution resolves the host and the caller against the interface
    addresses, then scans the port.
  * The interpreter keeps the executed commands in order and renders them as
    table rows.
* **The root parser** (`parser.go`) is modelled in the module `Legacy`, with
  its test line and an ambiguous line worked through in `LegacyLines`.
  * It collects `host_alias` and `host_service` commands from the lines of a
    code block.
  * It marks the aliases whose ip text equals an interface address as this
    machine, and dials the services of those aliases.
  * It shows the host name and the recorded errors.

Supporting modules:

* `Wrappers`: `Option`, `Result` and map lookup with a default.
* `Chars`: the RE2 character classes `\s`, `\w`, `\S`, `\d` and `[0-9\.\*]`,
  plus `strconv.Atoi` and `strconv.Itoa` on 64-bit ints.
* `Texts`: mapping over a sequence, and joining texts.

## How it is modelled

* **Regular expressions.**
  * Each pattern is a predicate on a *span*: the index at which each
    capture group starts and ends.
  * A line matches iff some span is valid. Go's RE2 reports the
    leftmost-first match. In these patterns every part is forced once the
    greedy leading token (host, local name or ip) is fixed, so the reported
    match is the valid span with the longest leading token.
  * Hand-written matchers are proved to return exactly that span
    (`Matching.MatchOffersIsLeftmostFirst`, `Matching.MatchUsesIsLeftmostFirst`,
    `Matching.MatchAliasExact`). They fail exactly when no span is valid.
* **Capture groups.**
  * `ReplaceAllString(line, "${name}")` on an anchored pattern yields the
    group's text, or `""` for a group that did not take part.
  * An unnamed group has the name `""`. Its template `"${}"` is malformed, so
    Go leaves it in place, and the model gives that key the value `"${}"`.
* **Map iteration order.** Both parsers range over a two-entry map of
  patterns, and Go leaves that order unspecified. It is therefore a parameter
  of the model: `MapOrder` and `LegacyOrder` for one line, and a function of
  the position for a sequence of chunks or lines. The order matters only for
  a line that both patterns fit (`Directive.ParseOrderMattersOnlyWhenAmbiguous`,
  `Legacy.LegacyOrderMattersOnlyWhenAmbiguous`). Such lines exist, and the
  model exhibits one for each parser (`DirectiveLines.AmbiguousLine`,
  `LegacyLines.LegacyAmbiguousLine`).
* **The network and the operating system are parameters.**
  * `ServiceCmd.Network` holds the interface addresses (already passed
    through `net.ParseCIDR`), `net.LookupIP` and the port scanner's
    `GetOpenedPort`.
  * The root parser takes the host name answer of `os.Hostname`, one
    `net.InterfaceAddrs` answer, and a `dial` function. The `dial` function
    gives the error of `net.Dial("tcp", address)`, or none.
* **Integers.** Go's `int` is taken as 64 bits. `Atoi` rejects values
  outside `[-2^63, 2^63-1]`.

Where the repository's prose description and its code differ, the model
follows the code:

* A directive naming an unknown service with no port gets port 0, from the
  zero value of the missing map entry.
* A failed name lookup during execution stores the error. It leaves the
  match and the result as they were, so the result `ERROR` is never assigned.
* The probe passes iff the scanner reports exactly one open port.
* `ServiceCommand.String` shows the service only when the service is
  *empty*.
* No port range check exists: any 64-bit port is accepted.
* In the root parser, the ip of a `host_alias` is compared with the text
  of each interface IP, so a `*` in it acts as no wildcard.
* A failed `os.Hostname` leaves the host name empty, not `"Unknown"`.

## Model

| member | source | states |
|---|---|---|
| `Chars.Atoi` | flower/parser.go:55-60 | the empty text is a syntax error; a digit string converts iff its value fits in 64 bits, to that value; every success is within the 64-bit range |
| `Chars.Itoa` | flower/service_cmd.go:123 | the decimal text is non-empty and starts with a minus sign iff the number is negative |
| `Chars.AtoiOfItoa` | flower/service_cmd.go:123 | every 64-bit number survives the round trip through its decimal text |
| `Grammar.KeywordAt` | flower/parser.go:22 | `\s*offers` (or `uses`, `is`) found from a position: the keyword follows only spaces |
| `Grammar.ServicePortAt` | flower/parser.go:22 | the greedy reading of `\s*(\w+)(:(\d+))?` is a valid service-and-port reading |
| `Grammar.ServicePortAtIs` | flower/parser.go:22 | when a space or the end follows, the service-and-port reading is forced |
| `Matching.OffersTailComplete` | flower/parser.go:22 | once the host is fixed, the rest of a valid offers match is determined |
| `Matching.OffersLead` | flower/parser.go:22 | the host of every valid offers match starts after the spaces after `flower:` and lies inside the first run of host characters |
| `Matching.MatchOffersSound` | flower/parser.go:22 | what the offers matcher returns is a valid match with the longest host |
| `Matching.MatchOffersComplete` | flower/parser.go:22 | whenever some offers match is valid, the matcher succeeds with a host at least as long |
| `Matching.MatchOffersIsLeftmostFirst` | flower/parser.go:22 | the offers matcher returns a span iff that span is the leftmost-first match (valid, longest host) |
| `Matching.MatchOffersFailsIffNoSpan` | flower/parser.go:22 | the offers pattern fails to match iff no span is valid |
| `Grammar.SepRemoteAt` | flower/parser.go:24 | `\s+(at)?\s+(\S+)\s*$` read from the port's end: a valid separator, then the remote as the last token |
| `Matching.SepRemoteAtIs` | flower/parser.go:24 | the separator and remote reading is forced |
| `Matching.UsesTailComplete` | flower/parser.go:24 | once the local name is fixed, the rest of a valid uses match is determined |
| `Matching.MatchUsesSound` | flower/parser.go:24 | what the uses matcher returns is a valid match with the longest local name |
| `Matching.MatchUsesComplete` | flower/parser.go:24 | whenever some uses match is valid, the matcher succeeds with a local name at least as long |
| `Matching.MatchUsesIsLeftmostFirst` | flower/parser.go:24 | the uses matcher returns a span iff that span is the leftmost-first match |
| `Matching.MatchUsesFailsIffNoSpan` | flower/parser.go:24 | the uses pattern fails to match iff no span is valid |
| `Matching.MatchOffersOfMaximalLead` | flower/parser.go:22 | a valid offers match whose host cannot be extended is the reported one |
| `Matching.MatchUsesOfMaximalLead` | flower/parser.go:24 | a valid uses match whose local name is followed by a space is the reported one |
| `Matching.NoOffersWithoutF` | flower/parser.go:22 | a line with no `f` after the prefix has no offers match |
| `Matching.NoUsesWithoutU` | flower/parser.go:24 | a line with no `u` after the prefix has no uses match |
| `Grammar.MatchAlias` | parser.go:216 | what the alias matcher returns is a valid `host_alias` match |
| `Matching.MatchAliasComplete` | parser.go:216 | every valid alias match is the one the matcher returns |
| `Matching.MatchAliasExact` | parser.go:216 | the alias pattern has at most one valid match, and the matcher returns it iff it is valid |
| `Directive.Tried` | flower/parser.go:30 | the two patterns are visited one after the other, each once |
| `Directive.PortText` | flower/parser.go:36-39 | the `port` parameter is empty iff the optional port group is absent, and digits otherwise |
| `Directive.PortOf` | flower/parser.go:55-60 | with no written port, a service in the well-known table gets its port from the table and any other service gets 0; a written digit port succeeds iff its decimal value fits in 64 bits, and then is that value; every success is a 64-bit number |
| `Directive.BuildCommand` | flower/parser.go:50-88 | a fresh command: for an offers directive the host is also the caller; for a uses directive the host is the remote and the caller the local name; a digit port builds iff it fits in 64 bits; no port gives the default |
| `Directive.Parse` | flower/parser.go:28-47 | a parsed command is unexecuted; a line without the `flower:` prefix gives none |
| `Directive.ParseOffersLine` | flower/parser.go:28-88 | an offers line (when the uses pattern does not take it first) gives the command for the reported host, with that host as the caller, or none when the port exceeds 64 bits |
| `Directive.ParseUsesLine` | flower/parser.go:28-88 | a uses line (when the offers pattern does not take it first) gives the command for the remote, called from the local name |
| `Directive.OffersCommand` | flower/parser.go:50-88 | the parameters of an offers match build the command of its host, called from that host, with the written or default port, or none when the port exceeds 64 bits |
| `Directive.UsesCommand` | flower/parser.go:50-88 | the parameters of a uses match build the command of its remote, called from its local name, or none when the port exceeds 64 bits |
| `Directive.ParseNeedsAMatch` | flower/parser.go:46 | a line that fits neither pattern gives no command |
| `Directive.ParseOrderMattersOnlyWhenAmbiguous` | flower/parser.go:30 | if the two visiting orders give different commands, the line fits both patterns |
| `Directive.CapturesAreTokens` | flower/parser.go:36-39 | every captured name is a non-empty run of its class, and the port is empty or digits |
| `Directive.ParsedFieldsAreTokens` | flower/parser.go:28-47 | the host, caller and service of a parsed command are non-empty tokens, with no spaces |
| `Directive.ParseOffersOnly` | flower/parser.go:22 | an offers line with no `u` gives its command whatever the visiting order |
| `Directive.ParseUsesOnly` | flower/parser.go:24 | a uses line with no `f` gives its command whatever the visiting order |
| `Matching.OffersSpanExcludesUses` | flower/parser.go:22-24 | an offers match whose service follows `offers` after one space and whose port ends the line leaves the uses pattern no match at all |
| `Matching.UsesSpanExcludesOffers` | flower/parser.go:22-24 | a uses match with a space after the local name and the word `at` before a remote that ends the line leaves the offers pattern no match at all |
| `DirectiveLines.OffersTextParses` | flower/parser.go:22-88 | a line `flower: HOST offers SERVICE[:PORT]` written from a host token, a service word and an optional digit port parses back to HOST offering SERVICE on that port (or the service's default), called from HOST, under either visiting order |
| `DirectiveLines.UsesTextParses` | flower/parser.go:24-88 | a line `flower: LOCAL uses SERVICE[:PORT] at REMOTE` written from its parts parses back to REMOTE offering SERVICE on that port (or the default), called from LOCAL, under either visiting order |
| `DirectiveLines.OffersDefaultPort` | flower/parser_test.go:8-9 | `flower: HOST1 offers http` is HOST1 offering http on port 80, called from HOST1 |
| `DirectiveLines.OffersWrittenPort` | flower/parser_test.go:11-12 | `flower: HOST1 offers http:8080` gives port 8080 |
| `DirectiveLines.OffersDottedHost` | flower/parser_test.go:14-15 | `flower: my.host.name offers http:8080` is my.host.name on port 8080, called from itself |
| `DirectiveLines.UsesDefaultPort` | flower/parser_test.go:19-20 | `flower: HOST1 uses http at HOST2` is HOST2's http on port 80, called from HOST1 |
| `DirectiveLines.UsesWrittenPort` | flower/parser_test.go:22-23 | `flower: HOST1 uses http:8080 at HOST2` is HOST2's http on port 8080, called from HOST1 |
| `DirectiveLines.UsesDottedNames` | flower/parser_test.go:25-26 | `flower: my.host.name uses http:8080 at my.remote.host` gives my.remote.host port 8080, called from my.host.name |
| `DirectiveLines.AmbiguousLine` | flower/parser.go:30 | `flower: xusesy  offersz` fits both patterns, and the visiting order decides which command results |
| `ServiceCmd.NewServiceCommand` | flower/service_cmd.go:47-56 | a new command carries its directive and is unexecuted: no match, no answer, no error |
| `ServiceCmd.AnyEqual` | flower/service_cmd.go:170-174 | true iff some resolved address equals the interface address |
| `ServiceCmd.ScanAddrs` | flower/service_cmd.go:165-176 | a failure is the error of some interface address |
| `ServiceCmd.HostIsLocalhost` | flower/service_cmd.go:155-177 | failing to list the interfaces or to resolve the name is that error, never false |
| `ServiceCmd.ScanAddrsFirstDecisive` | flower/service_cmd.go:165-176 | the answer is decided by the first interface address that fails to parse or equals a resolved address; with none it is false |
| `ServiceCmd.ScanAddrsAllParsed` | flower/service_cmd.go:165-176 | when every interface address parses, the scan is true iff some address equals a resolved one |
| `ServiceCmd.ScanAddrsFound` | flower/service_cmd.go:165-176 | when every interface address parses and one equals a resolved address, the scan is true |
| `ServiceCmd.ScanAddrsNotFound` | flower/service_cmd.go:165-176 | when every interface address parses and none equals a resolved address, the scan is false |
| `ServiceCmd.HostIsLocalhostIsAddressEquality` | flower/service_cmd.go:155-177 | a host is this machine iff one of its addresses equals (IPv4-in-IPv6 aware) an interface address |
| `ServiceCmd.Execute` | flower/service_cmd.go:82-116 | the directive never changes; a failed lookup stores its error and changes nothing else; the host matching takes precedence over the caller; an unmatched command is not probed; the probe passes iff exactly one port is open |
| `ServiceCmd.ExecuteOn` | flower/service_cmd.go:82-116 | against a network, a matched command passes iff the scan of the host's port finds exactly one open port |
| `ServiceCmd.ExecuteSettles` | flower/service_cmd.go:82-116 | executing a fresh command leaves a result iff it matched, never ERROR; a failed lookup leaves no answer |
| `ServiceCmd.HtmlClassDistinguishes` | flower/service_cmd.go:58-80 | two commands get the same CSS classes iff they agree on matched-or-not and on the result |
| `ServiceCmd.String` | flower/service_cmd.go:118-152 | the text starts with the host, the service only when it is empty, then `, port:` |
| `ServiceCmd.StringShowsCaller` | flower/service_cmd.go:123-126 | right after the port's digits the text shows `, caller:` and the caller iff the caller is non-empty |
| `ServiceCmd.StringShowsMatch` | flower/service_cmd.go:127-135 | two commands differing only in their match kind have different texts, so the text names the match kind |
| `ServiceCmd.StringShowsResult` | flower/service_cmd.go:136-149 | two commands differing only in their result have different texts, so the text names the result |
| `ServiceCmd.PortTrail` | flower/service_cmd.go:124-151 | what follows the port's digits starts with a comma |
| `ServiceCmd.StringShowsPort` | flower/service_cmd.go:118-152 | the port is read back from the text between `, port:` and the next comma |
| `ServiceCmd.StringHidesService` | flower/service_cmd.go:120-122 | a non-empty service never shows in the text |
| `Interpreter.NewInterpreter` | flower/interpreter.go:23-28 | a new interpreter holds no commands |
| `Interpreter.Unrun` | flower/interpreter.go:31-38 | an executed command's directive, as parsed |
| `Interpreter.EvaluateCode` | flower/interpreter.go:31-38 | a chunk with a directive appends and returns exactly the command that executing the parsed directive against the network gives, whose directive is the parsed one; any other chunk changes nothing; every held command stays settled |
| `Interpreter.ExecuteSettlesOn` | flower/interpreter.go:35 | an executed parsed command is settled |
| `Interpreter.EvaluateAll` | flower/interpreter.go:31-38 | evaluating chunks only appends, and keeps every held command settled |
| `Interpreter.EvaluateAllRecordsDirectives` | flower/interpreter.go:31-38 | the commands added are, one for one and in chunk order, the directives of the chunks, each executed once against the network |
| `Interpreter.RowPlacement` | flower/interpreter.go:42-55 | row `i` of the report is the row of command `i`, placed after the heading and the rows before it |
| `Interpreter.NewReportIsEmpty` | flower/interpreter.go:42-55 | a new interpreter reports the heading and the footer only |
| `Interpreter.ReportOfAppend` | flower/interpreter.go:47-53 | appending a command adds its row just before the footer |
| `Interpreter.EvaluateCodeAddsOneRow` | flower/interpreter.go:31-55 | evaluating a chunk adds one row, for its executed command, or leaves the report unchanged |
| `Legacy.NewParser` | parser.go:25-42 | a new parser has no commands or aliases; it has an error iff the host name could not be resolved, and then the name is empty |
| `Legacy.LegacyTried` | parser.go:226 | the two patterns are visited one after the other, each once |
| `Legacy.LegacyBuildCommand` | parser.go:253-278 | an alias always builds; a service builds iff its port converts; every built command is fresh |
| `Legacy.LegacyParse` | parser.go:225-244 | a parsed command is fresh; a line without the prefix gives none |
| `Legacy.LegacyParseAlias` | parser.go:225-244 | an alias line (unless the service pattern takes it first) gives its ip and alias |
| `Legacy.LegacyParseService` | parser.go:225-278 | a service line (unless the alias pattern takes it first) gives the reported host's service and port, or none when the port exceeds 64 bits |
| `Legacy.LegacyServiceCommand` | parser.go:253-278 | the parameters of a service match build a fresh service of its host with the written or default port, or none when the port exceeds 64 bits |
| `Legacy.LegacyOrderMattersOnlyWhenAmbiguous` | parser.go:226 | if the two visiting orders give different commands, the line fits both patterns |
| `LegacyLines.ParseAliasLine` | parser_test.go:8-12 | `flower: 192.168.255.199 is HOST1` is the alias HOST1 of 192.168.255.199, whatever the order |
| `LegacyLines.LegacyAmbiguousLine` | parser.go:214-219 | `flower: 1isoffersx` is the alias `offersx` or the service `x` of host `1is`, depending on the visiting order |
| `Legacy.LineEnd` | parser.go:48-49 | a line ends at the first newline |
| `Legacy.ScanLines` | parser.go:48-49 | no scanned line contains a newline |
| `Legacy.ScanLinesCons` | parser.go:48-49 | a line without newlines, ended by `\n` or `\r\n`, is scanned as the first line, followed by the lines of the rest |
| `Legacy.ScanLinesOfTerminated` | parser.go:48-49 | lines each ended by `\n`, or each by `\r\n`, are scanned back unchanged |
| `Legacy.LineCommandsAreFresh` | parser.go:49-56 | a block yields at most one command per line, each fresh |
| `Legacy.EvaluateCode` | parser.go:45-58 | the commands of the lines are appended in order, nothing else changes, and the text comes back without its line breaks |
| `Legacy.MatchInterfaces` | parser.go:90-98 | an alias is local iff some interface has its ip as text; the alias list grows by exactly the number of such interfaces, each time by that alias; the alias is mapped to that ip; every alias stays mapped |
| `Legacy.AliasesAfterMatch` | parser.go:95 | after matching one alias command, a name is an alias iff it was one before or it is that command's alias and it matched |
| `Legacy.ProcessHostAliasCommands` | parser.go:81-103 | each alias command whose ip is an interface address becomes local; a name is an alias iff it was or some such command declares it; aliases only grow; the address table becomes the alias table of the commands, so a new alias maps to the ip of the last command declaring it; every alias stays mapped; an unreadable interface list changes nothing |
| `Legacy.AliasTableKeys` | parser.go:81-103 | a name has an address after the alias commands iff it had one or some command declares it with an ip of this machine |
| `Legacy.AliasTableValue` | parser.go:96 | the address of a name is the ip of the last command declaring it with an ip of this machine, or the address it had when none does |
| `Legacy.CurrentHostIs` | parser.go:169-176 | true iff the host is one of the aliases |
| `Legacy.JoinHostPortSplits` | parser.go:180 | in the dialled address the last colon separates the port, and the host is recovered by dropping its brackets |
| `Legacy.LocalServiceMapped` | parser.go:180 | a service of an alias has an address to dial |
| `Legacy.ProcessHostServiceCommands` | parser.go:106-114 | each service of an alias becomes local, is available iff the dial of its alias's address succeeds, and keeps the dial's error; the failed dials' errors are appended in command order; nothing else changes |
| `Legacy.UnavailableServed` | parser.go:116-126 | among processed fresh commands, the unavailable local services are exactly the failed dials |
| `Legacy.TotalErrorsCountsFailedDialsTwice` | parser.go:116-126 | after processing fresh commands, every failed dial is counted twice, once as an unavailable service and once as an error |
| `Legacy.SummaryMarkup` | parser.go:61-78 | the alias commands are processed first (the address table becomes the alias table), then the services of the aliases are dialled; the errors shown are the parser's own followed by the failed dials' errors in command order; the markup is the host name followed by one line per error |
| `Legacy.ShowErrors` | parser.go:65-69 | the buffer holds the head, then `\n\rERROR: ` and each error, in order |
| `Legacy.ErrorPlacement` | parser.go:65-69 | error `i` appears after the host name and the lines of the errors before it |
| `Legacy.ErrorLinesEmptyIff` | parser.go:65-69 | the markup shows error lines iff some error was recorded |
| `Legacy.UnresolvedHostnameShown` | parser.go:37-40 | a parser whose host name was not resolved shows an empty name, then that failure as its first error line |

Definitions without a row of their own, each characterised by the members
named after it:

* `Wrappers.GetOr` (flower/parser.go:56): by `Directive.PortOf`, whose
  contract states the port of a missing entry.
* `Grammar.MatchOffers` and `Grammar.MatchUses` (flower/parser.go:22-24): by
  `Matching.MatchOffersIsLeftmostFirst` and `Matching.MatchUsesIsLeftmostFirst`.
* `Directive.Captures` (flower/parser.go:36-39): by `Directive.CapturesAreTokens`,
  `Directive.ParseOffersLine` and `Directive.ParseUsesLine`.
* `Directive.OffersParams` and `Directive.UsesParams` (flower/parser.go:36-39):
  by `Directive.OffersCommand` and `Directive.UsesCommand`.
* `DirectiveLines.OffersText` and `DirectiveLines.UsesText`: by
  `DirectiveLines.OffersTextParses` and `DirectiveLines.UsesTextParses`.
* `ServiceCmd.HtmlClass` (flower/service_cmd.go:58-80): by
  `ServiceCmd.HtmlClassDistinguishes`.
* `Interpreter.SummaryReport` (flower/interpreter.go:42-55): by
  `Interpreter.RowPlacement`, `Interpreter.NewReportIsEmpty` and
  `Interpreter.ReportOfAppend`.
* `Legacy.LegacyCaptures` and `Legacy.AliasParams` (parser.go:228-231): by
  `Legacy.LegacyParseAlias`, `Legacy.LegacyParseService` and
  `Legacy.LegacyServiceCommand`.
* `Legacy.AliasTable` (parser.go:81-103): by `Legacy.AliasTableKeys` and
  `Legacy.AliasTableValue`.
* `Legacy.JoinHostPort` and `Legacy.DialAddress` (parser.go:180): by
  `Legacy.JoinHostPortSplits` and `Legacy.LocalServiceMapped`.
* `Legacy.ServedLocal` and `Legacy.DialErrors` (parser.go:106-114): by
  `Legacy.ProcessHostServiceCommands` and `Legacy.UnavailableServed`.
* `Legacy.TotalErrors` (parser.go:116-126): by
  `Legacy.TotalErrorsCountsFailedDialsTwice`.

## Left out

* `renderer.go`, `flower.go` and `flower_parser.go` are not part of this
  model. They hook the interpreter into blackfriday's rendering of code
  blocks. `flower/command.go` only declares the command interface.
* `PrintSummary` (parser.go:129-167) and the debug prints of `Parse` and
  `ServiceRunning` write to standard output and change no state. They are
  not modelled. The `log` field of the root parser is not used and is left
  out.
* The answers of the network and the operating system are inputs, as
  described above.
  * `Legacy.ProcessHostAliasCommands` takes one answer of `net.InterfaceAddrs`
    for all alias commands, while the Go code asks again for each command.
  * `Legacy.ProcessHostServiceCommands` models `net.Dial` as a function of
    the address, so two dials of the same address give the same answer.
  * `ServiceCmd.Network` gives the interface addresses already parsed by
    `net.ParseCIDR`, one result per address.
  * `ServiceCmd.ExecuteOn` answers the host's and the caller's
    `HostIsLocalhost` calls, and with them both `net.InterfaceAddrs` calls
    and both `net.LookupIP` calls, from one `Network` value. The Go code asks
    the system each time, and the answers may differ between the calls.
  * `Interpreter.EvaluateAll` executes every chunk's command against the same
    `Network` value, so all chunks see one snapshot of the interfaces, the
    name lookups and the open ports.
* The `net.IPNet` stored for an alias is reduced to the text of its IP,
  which is the only part the code reads.
* `bufio.Scanner`'s limit of 64 KiB per line is not modelled. With a longer
  line the Go scanner stops early, but `Legacy.ScanLines` splits the whole
  text.
* `Legacy.ProcessHostServiceCommands`: requires every alias to have an
  address. `Legacy.NewParser` establishes this and
  `Legacy.ProcessHostAliasCommands` keeps it. The nil dereference that the
  Go code would hit otherwise is not modelled.
* `Legacy.SummaryMarkup`: requires every alias to have an address, for the
  same reason.
* The directive error path of the root parser's `Parse` (parser.go:236-238)
  is never taken, because `BuildCommand` never returns an error. The model
  shows this as a parse that leaves the error list alone.
* `parser_test.go` calls a `ParsedCommand` type that the root parser no
  longer has. The line it uses is modelled by `LegacyLines.ParseAliasLine` on
  today's types.
* The tests in `flower/service_cmd_test.go` depend on the live network, so
  they have no counterpart here. `ServiceCmd.HostIsLocalhost` states what
  they check, for any network.
