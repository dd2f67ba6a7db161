/** The interpreter of flower/interpreter.go: it parses each chunk of
    Markdown code it is given, executes the directives it finds, keeps them
    in order, and reports them as an HTML table. */
module Interpreter {
  import opened Wrappers
  import opened ServiceCmd
  import opened Directive
  import opened Texts

  datatype StandardInterpreter = StandardInterpreter(commands: seq<ServiceCommand>)

  /** Every command the interpreter holds is settled: it has a result iff it
      matched, and never ERROR.  Being settled does not say that a command
      was executed (a fresh command is settled too); EvaluateCode's contract
      says which execution produced each command. */
  predicate Ledger(it: StandardInterpreter) {
    forall i :: 0 <= i < |it.commands| ==> Settled(it.commands[i])
  }

  function NewInterpreter(): (it: StandardInterpreter)
    ensures it.commands == [] && Ledger(it)
  {
    StandardInterpreter([])
  }

  /** The command as parsed, before it was executed. */
  function Unrun(c: ServiceCommand): (d: ServiceCommand)
    ensures Unexecuted(d) && SameDirective(d, c)
  {
    NewServiceCommand(c.host, c.service, c.port, c.caller)
  }

  /** EvaluateCode: a chunk that parses is executed against `net` and appended;
      any other chunk leaves the interpreter as it was.  The command is returned. */
  function EvaluateCode(it: StandardInterpreter, code: string, order: MapOrder, net: Network)
    : (r: (StandardInterpreter, Option<ServiceCommand>))
    ensures Parse(code, order).None? <==> r.1.None?
    ensures r.1.None? ==> r.0 == it
    ensures r.1.Some? ==> r.0.commands == it.commands + [r.1.value]
    ensures r.1.Some? ==> Unrun(r.1.value) == Parse(code, order).value
    ensures r.1.Some? ==> r.1.value == ExecuteOn(Parse(code, order).value, net)
    ensures Ledger(it) ==> Ledger(r.0)
  {
    match Parse(code, order)
    case None => (it, None)
    case Some(c) =>
      ExecuteSettlesOn(c, net);
      var done := ExecuteOn(c, net);
      (StandardInterpreter(it.commands + [done]), Some(done))
  }

  lemma ExecuteSettlesOn(c: ServiceCommand, net: Network)
    requires Unexecuted(c)
    ensures Settled(ExecuteOn(c, net))
  {
    ExecuteSettles(c, HostIsLocalhost(net, c.host), HostIsLocalhost(net, c.caller),
                   net.openedPorts(c.host, c.port, c.port));
  }

  /** The directives of a sequence of chunks, in order: what Parse finds in
      each chunk that has one. */
  function Directives(chunks: seq<string>, order: nat -> MapOrder): seq<ServiceCommand>
    decreases |chunks|
  {
    if |chunks| == 0 then []
    else
      var last := |chunks| - 1;
      Directives(chunks[..last], order)
        + (match Parse(chunks[last], order(last)) case Some(c) => [c] case None => [])
  }

  /** Evaluates the chunks in order; the table order of chunk `i` is `order(i)`. */
  function EvaluateAll(it: StandardInterpreter, chunks: seq<string>, order: nat -> MapOrder, net: Network)
    : (r: StandardInterpreter)
    ensures |it.commands| <= |r.commands| && r.commands[..|it.commands|] == it.commands
    ensures Ledger(it) ==> Ledger(r)
    decreases |chunks|
  {
    if |chunks| == 0 then it
    else
      var last := |chunks| - 1;
      EvaluateCode(EvaluateAll(it, chunks[..last], order, net), chunks[last], order(last), net).0
  }

  /** The interpreter records exactly the directives of the chunks, in the
      order the chunks came, each executed once. */
  lemma {:induction false} EvaluateAllRecordsDirectives(it: StandardInterpreter, chunks: seq<string>,
                                                       order: nat -> MapOrder, net: Network)
    ensures var added := EvaluateAll(it, chunks, order, net).commands[|it.commands|..];
            |added| == |Directives(chunks, order)| &&
            forall i :: 0 <= i < |added| ==>
              Unrun(added[i]) == Directives(chunks, order)[i] &&
              added[i] == ExecuteOn(Directives(chunks, order)[i], net)
    decreases |chunks|
  {
    if |chunks| > 0 {
      var last := |chunks| - 1;
      EvaluateAllRecordsDirectives(it, chunks[..last], order, net);
      var before := EvaluateAll(it, chunks[..last], order, net);
      var step := EvaluateCode(before, chunks[last], order(last), net);
      var tail := if step.1.Some? then [step.1.value] else [];
      assert step.0.commands == before.commands + tail;
      SliceOfAppend(before.commands, tail, |it.commands|);
      DirectivesSnoc(chunks, order);
      RecordedStep(before.commands[|it.commands|..], Directives(chunks[..last], order),
                   step.0.commands[|it.commands|..], Directives(chunks, order),
                   Parse(chunks[last], order(last)), step.1, net);
    }
  }

  lemma SliceOfAppend<T>(a: seq<T>, b: seq<T>, n: nat)
    requires n <= |a|
    ensures (a + b)[n..] == a[n..] + b
  {
  }

  lemma DirectivesSnoc(chunks: seq<string>, order: nat -> MapOrder)
    requires |chunks| > 0
    ensures var last := |chunks| - 1;
            var parsed := Parse(chunks[last], order(last));
            Directives(chunks, order) == Directives(chunks[..last], order) + (if parsed.Some? then [parsed.value] else [])
  {
  }

  /** The commands `added` are the directives `ds`, one for one, each
      executed against `net`. */
  predicate Recorded(added: seq<ServiceCommand>, ds: seq<ServiceCommand>, net: Network) {
    |added| == |ds| &&
    forall i :: 0 <= i < |added| ==> Unrun(added[i]) == ds[i] && added[i] == ExecuteOn(ds[i], net)
  }

  /** One more chunk adds its executed command and its directive, or neither. */
  lemma RecordedStep(added: seq<ServiceCommand>, ds: seq<ServiceCommand>,
                     added': seq<ServiceCommand>, ds': seq<ServiceCommand>,
                     parsed: Option<ServiceCommand>, done: Option<ServiceCommand>, net: Network)
    requires Recorded(added, ds, net)
    requires parsed.None? <==> done.None?
    requires done.Some? ==> Unrun(done.value) == parsed.value && done.value == ExecuteOn(parsed.value, net)
    requires added' == added + (if done.Some? then [done.value] else [])
    requires ds' == ds + (if parsed.Some? then [parsed.value] else [])
    ensures Recorded(added', ds', net)
  {
  }

  // ---------------------------------------------------------------------
  // SummaryReport
  // ---------------------------------------------------------------------

  /** The two heading rows, each printed with a trailing newline. */
  const ReportHead: string := "<table><tr><th>Flower Summary</th></tr>\n<tr><th>Rules</th></tr>\n"
  const ReportFoot: string := "</table>\n"

  /** One command's row; Fprintln puts a space between its three operands. */
  function Row(c: ServiceCommand): string {
    "<tr><td> " + String(c) + " </tr></td>\n"
  }

  /** The rows of the commands, in ledger order. */
  function RowTexts(cs: seq<ServiceCommand>): seq<string> {
    MapSeq(Row, cs)
  }

  function SummaryReport(it: StandardInterpreter): string {
    ReportHead + Join(RowTexts(it.commands)) + ReportFoot
  }

  /** Row `i` of the report, `RowTexts(commands)[i]` (which is the row of
      command `i`), sits at a fixed place: after the head and the rows before it. */
  lemma RowPlacement(it: StandardInterpreter, i: nat)
    requires i < |it.commands|
    ensures var texts := RowTexts(it.commands);
            var at := |ReportHead| + |Join(texts[..i])|;
            at + |texts[i]| <= |SummaryReport(it)| && SummaryReport(it)[at..at + |texts[i]|] == texts[i]
  {
    JoinPlacement(ReportHead, RowTexts(it.commands), ReportFoot, i);
  }

  /** A new interpreter reports an empty table. */
  lemma NewReportIsEmpty()
    ensures SummaryReport(NewInterpreter()) == ReportHead + ReportFoot
  {
  }

  /** Appending a command to the ledger adds its row just before the footer. */
  lemma ReportOfAppend(it: StandardInterpreter, c: ServiceCommand)
    ensures SummaryReport(StandardInterpreter(it.commands + [c]))
         == ReportHead + Join(RowTexts(it.commands)) + Row(c) + ReportFoot
  {
    RowTextsSnoc(it.commands, c);
    FramedSnoc(ReportHead, RowTexts(it.commands), Row(c), ReportFoot);
  }

  lemma RowTextsSnoc(cs: seq<ServiceCommand>, c: ServiceCommand)
    ensures RowTexts(cs + [c]) == RowTexts(cs) + [Row(c)]
  {
    MapSeqSnoc(Row, cs, c);
  }

  /** Evaluating a chunk adds exactly one row, for the executed command, just
      before the footer; a chunk without a directive changes nothing. */
  lemma EvaluateCodeAddsOneRow(it: StandardInterpreter, code: string, order: MapOrder, net: Network)
    ensures var (next, c) := EvaluateCode(it, code, order, net);
            if c.Some?
            then SummaryReport(next) == ReportHead + Join(RowTexts(it.commands)) + Row(c.value) + ReportFoot
            else SummaryReport(next) == SummaryReport(it)
  {
    var (next, c) := EvaluateCode(it, code, order, net);
    if c.Some? {
      ReportOfAppend(it, c.value);
    }
  }
}
