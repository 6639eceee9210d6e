/** The JSONL sink that reads Claude's stream: lines are cut out of whatever
    chunks the pipe delivers, and tool calls are paired with their results. */
module OutputSink {
  import opened Wrappers

  // ---------------------------------------------------------------- lines

  /** `split(/\r?\n/)`. */
  function Fields(s: string): (r: seq<string>)
    ensures |r| >= 1
    decreases |s|
  {
    if s == "" then [""]
    else if s[0] == '\n' then [""] + Fields(s[1..])
    else if s[0] == '\r' && |s| >= 2 && s[1] == '\n' then [""] + Fields(s[2..])
    else
      Prepend(s[0], Fields(s[1..]))
  }

  /** The same fields, the first of them one character longer. */
  function Prepend(c: char, fields: seq<string>): (r: seq<string>)
    requires fields != []
    ensures |r| == |fields|
  {
    [[c] + fields[0]] + fields[1..]
  }

  function Init<T>(s: seq<T>): seq<T> requires s != [] { s[..|s| - 1] }

  function Last<T>(s: seq<T>): T requires s != [] { s[|s| - 1] }

  lemma {:induction false} OneFieldIsWhole(s: string)
    requires |Fields(s)| == 1
    ensures Fields(s) == [s]
  {
    if s != "" {
      OneFieldIsWhole(s[1..]);
      assert [s[0]] + s[1..] == s;
    }
  }

  /** Text that arrives later only continues the last field.  A carriage return
      at the end of a chunk waits there for its line feed. */
  lemma {:induction false} FieldsOfMore(a: string, b: string)
    ensures Fields(a + b) == Continued(Fields(a), b)
    decreases |a|
  {
    if |Fields(a)| == 1 {
      OneFieldIsWhole(a);
    } else if a[0] == '\n' {
      assert (a + b)[1..] == a[1..] + b;
      FieldsOfMore(a[1..], b);
      ContinuedAfter("", Fields(a[1..]), b);
    } else if a[0] == '\r' && |a| >= 2 && a[1] == '\n' {
      assert (a + b)[2..] == a[2..] + b;
      FieldsOfMore(a[2..], b);
      ContinuedAfter("", Fields(a[2..]), b);
    } else {
      FieldsOfMoreText(a, b);
      FieldsOfMore(a[1..], b);
      PrependContinued(a[0], Fields(a[1..]), b);
    }
  }

  function Continued(fields: seq<string>, b: string): seq<string>
    requires fields != []
  {
    Init(fields) + Fields(Last(fields) + b)
  }

  lemma ContinuedAfter(first: string, fields: seq<string>, b: string)
    requires fields != []
    ensures Continued([first] + fields, b) == [first] + Continued(fields, b)
  {
    assert Init([first] + fields) == [first] + Init(fields);
  }

  lemma PrependContinued(c: char, fields: seq<string>, b: string)
    requires |fields| > 1
    ensures Prepend(c, Continued(fields, b)) == Continued(Prepend(c, fields), b)
  {
    assert Init(Prepend(c, fields)) == Prepend(c, Init(fields));
  }

  lemma FieldsOfMoreText(a: string, b: string)
    requires |Fields(a)| > 1 && a[0] != '\n' && (a[0] == '\r' ==> |a| < 2 || a[1] != '\n')
    ensures Fields(a) == Prepend(a[0], Fields(a[1..]))
    ensures Fields(a + b) == Prepend(a[0], Fields(a[1..] + b))
  {
    assert |a| >= 2;
    assert (a + b)[1] == a[1] && (a + b)[1..] == a[1..] + b;
  }

  /** One line that a program can print and its end: LF, or CR LF. */
  datatype Printed = Printed(line: string, crlf: bool) {
    predicate Ok() { '\n' !in line && (line == "" || line[|line| - 1] != '\r') }
    function Text(): string { line + if crlf then "\r\n" else "\n" }
  }

  function PrintAll(lines: seq<Printed>): string {
    if lines == [] then "" else lines[0].Text() + PrintAll(lines[1..])
  }

  function LinesOf(lines: seq<Printed>): seq<string> {
    if lines == [] then [] else [lines[0].line] + LinesOf(lines[1..])
  }

  lemma {:induction false} FirstField(p: Printed, rest: string)
    requires p.Ok()
    ensures Fields(p.Text() + rest) == [p.line] + Fields(rest)
    decreases |p.line|
  {
    var s := p.Text() + rest;
    if p.line == "" {
      assert s[if p.crlf then 2 else 1..] == rest;
    } else {
      var shorter := Printed(p.line[1..], p.crlf);
      FirstField(shorter, rest);
      assert s[1..] == shorter.Text() + rest;
      assert s[0] == '\r' ==> s[1] != '\n' by {
        if |p.line| >= 2 { assert s[1] == p.line[1]; }
      }
      assert [p.line[0]] + p.line[1..] == p.line;
    }
  }

  /** Printed lines come back, whichever way each was ended, and text after them
      stands alone. */
  lemma {:induction false} PrintedLinesComeBack(lines: seq<Printed>, rest: string)
    requires forall i :: 0 <= i < |lines| ==> lines[i].Ok()
    ensures Fields(PrintAll(lines) + rest) == LinesOf(lines) + Fields(rest)
  {
    if lines == [] {
      assert "" + rest == rest;
    } else {
      PrintedLinesComeBack(lines[1..], rest);
      FirstField(lines[0], PrintAll(lines[1..]) + rest);
      assert PrintAll(lines) + rest == lines[0].Text() + (PrintAll(lines[1..]) + rest);
    }
  }

  // ------------------------------------------------------------- events

  /** The parts of a message that matter for tools; ids may be missing (""). */
  datatype Part =
    | ToolUse(id: string, tool: Tool)
    | ToolResult(id: string, failed: bool, output: string)

  datatype Tool = Tool(name: string, input: string)

  datatype Kind = Assistant | User | Other

  /** What one line holds: an event, or text that is not one. */
  datatype Decoded =
    | Event(kind: Kind, usage: Option<string>, text: string, failure: Option<string>, parts: seq<Part>)
    | Diagnostic

  datatype Signal =
    | Usage(metrics: string)
    | Emit(content: string)
    | Failure(message: string)
    | Report(id: string, tool: Tool, failed: bool, output: string)

  /** JSON decoding, cleaning (`TerminalText.StripTerminalControls`) and the
      rendering of a tool call are parameters. */
  datatype Reader = Reader(decode: string -> Decoded, clean: string -> string, render: (Tool, bool, string) -> string)

  type Tools = map<string, Tool>

  datatype View = View(tools: Tools, log: seq<Signal>)

  predicate Space(c: char) {
    ('\t' <= c <= '\r') || c == ' ' || c == '\U{A0}' || c == '\U{1680}' || '\U{2000}' <= c <= '\U{200A}'
    || c == '\U{2028}' || c == '\U{2029}' || c == '\U{202F}' || c == '\U{205F}' || c == '\U{3000}' || c == '\U{FEFF}'
  }

  predicate Blank(line: string) { forall i :: 0 <= i < |line| ==> Space(line[i]) }

  /** `emitEvent` drops empty content. */
  function Emitted(content: string): seq<Signal> { if content == "" then [] else [Emit(content)] }

  function Reported(r: Reader, id: string, tool: Tool, failed: bool, output: string): seq<Signal> {
    [Report(id, tool, failed, output)] + (if tool.name == "send_output" then [] else Emitted(r.render(tool, failed, output)))
  }

  // ---------------------------------------------- what the parts should do

  /** A part that the sink looks at: uses in assistant events, results in user
      events, both with an id. */
  predicate Counts(kind: Kind, p: Part) {
    p.id != "" && ((kind.Assistant? && p.ToolUse?) || (kind.User? && p.ToolResult?))
  }

  function Relevant(kind: Kind, parts: seq<Part>): seq<Part> {
    if parts == [] then []
    else Relevant(kind, Init(parts)) + if Counts(kind, Last(parts)) then [Last(parts)] else []
  }

  /** The tool call that is open for an id after these parts: the latest one, if no
      result has come since. */
  function Open(parts: seq<Part>, id: string): Option<Tool> {
    if parts == [] then None
    else if Last(parts).id == id then (if Last(parts).ToolUse? then Some(Last(parts).tool) else None)
    else Open(Init(parts), id)
  }

  /** A result is reported when a call is open for it, and with that call. */
  function Signals(r: Reader, parts: seq<Part>): seq<Signal> {
    if parts == [] then []
    else
      Signals(r, Init(parts)) + Answer(r, Init(parts), Last(parts))
  }

  function Answer(r: Reader, before: seq<Part>, p: Part): seq<Signal> {
    if p.ToolUse? then []
    else match Open(before, p.id)
      case None => []
      case Some(tool) => Reported(r, p.id, tool, p.failed, p.output)
  }

  function Uses(parts: seq<Part>, id: string): nat {
    if parts == [] then 0
    else Uses(Init(parts), id) + if Last(parts).ToolUse? && Last(parts).id == id then 1 else 0
  }

  function Reports(log: seq<Signal>, id: string): nat {
    if log == [] then 0
    else Reports(Init(log), id) + if Last(log).Report? && Last(log).id == id then 1 else 0
  }

  lemma {:induction false} ReportsAppend(a: seq<Signal>, b: seq<Signal>, id: string)
    ensures Reports(a + b, id) == Reports(a, id) + Reports(b, id)
  {
    if b == [] {
      assert a + b == a;
    } else {
      assert Init(a + b) == a + Init(b);
      ReportsAppend(a, Init(b), id);
    }
  }

  /** Every start of a tool is reported at most once, and an open one not yet. */
  lemma {:induction false} ReportedOncePerStart(r: Reader, parts: seq<Part>, id: string)
    ensures Reports(Signals(r, parts), id) + (if Open(parts, id).Some? then 1 else 0) <= Uses(parts, id)
  {
    if parts != [] {
      var p, before := Last(parts), Init(parts);
      ReportedOncePerStart(r, before, id);
      ReportsAppend(Signals(r, before), Answer(r, before, p), id);
      ReportsOfAnswer(r, before, p, id);
    }
  }

  lemma ReportsOfAnswer(r: Reader, before: seq<Part>, p: Part, id: string)
    ensures Reports(Answer(r, before, p), id)
            == if p.ToolResult? && p.id == id && Open(before, id).Some? then 1 else 0
  {
    if p.ToolResult? && Open(before, p.id).Some? {
      var head := [Report(p.id, Open(before, p.id).value, p.failed, p.output)];
      var tail := Answer(r, before, p)[1..];
      assert Answer(r, before, p) == head + tail;
      ReportsAppend(head, tail, id);
      NoReports(tail, id);
      assert Init(head) == [];
    }
  }

  // ------------------------------------------------- one line after another

  /** The tool parts of the lines read so far, in order. */
  function AllParts(r: Reader, lines: seq<string>): seq<Part> {
    if lines == [] then []
    else AllParts(r, Init(lines)) + PartsOf(r, Last(lines))
  }

  function PartsOf(r: Reader, line: string): seq<Part> {
    if Blank(line) then []
    else match r.decode(line)
      case Diagnostic => []
      case Event(kind, _, _, _, parts) => Relevant(kind, parts)
  }

  /** What a line says before its tool parts are looked at. */
  function Preamble(r: Reader, line: string): seq<Signal> {
    if Blank(line) then []
    else match r.decode(line)
      case Diagnostic => Emitted(r.clean(line + "\n"))
      case Event(_, usage, text, failure, _) =>
        (if usage.Some? then [Usage(usage.value)] else [])
        + Emitted(r.clean(text))
        + (if failure.Some? then [Failure(failure.value)] else [])
  }

  /** What `more` adds after `before`. */
  function SignalsAfter(r: Reader, before: seq<Part>, more: seq<Part>): seq<Signal> {
    if more == [] then []
    else
      SignalsAfter(r, before, Init(more)) + Answer(r, before + Init(more), Last(more))
  }

  /** Everything the sink says about these lines. */
  function LogOf(r: Reader, lines: seq<string>): seq<Signal> {
    if lines == [] then []
    else
      var line, before := Last(lines), Init(lines);
      LogOf(r, before) + Preamble(r, line) + SignalsAfter(r, AllParts(r, before), PartsOf(r, line))
  }

  /** What counts as white space, by code point. */
  lemma SpaceIff(c: char)
    ensures Space(c) <==>
              || 9 <= c as int <= 13 || 8192 <= c as int <= 8202
              || c as int in {32, 160, 5760, 8232, 8233, 8239, 8287, 12288, 65279}
  {}

  /** A line's tool parts: those with an id, uses in what the assistant says and results in
      what the user side answers, in their order. */
  ghost predicate PartOf(r: Reader, line: string, p: Part) {
    && !(forall i :: 0 <= i < |line| ==> Space(line[i]))
    && r.decode(line).Event? && p in r.decode(line).parts && p.id != ""
    && match r.decode(line).kind
       case Assistant => p.ToolUse?
       case User => p.ToolResult?
       case Other => false
  }

  lemma PartsIff(r: Reader, line: string, p: Part)
    ensures p in PartsOf(r, line) <==> PartOf(r, line, p)
  {
    if r.decode(line).Event? { RelevantIff(r.decode(line).kind, r.decode(line).parts, p); }
  }

  lemma {:induction false} RelevantIff(kind: Kind, parts: seq<Part>, p: Part)
    ensures p in Relevant(kind, parts) <==>
              p in parts && p.id != "" && (if p.ToolUse? then kind.Assistant? else kind.User?)
  {
    if parts != [] {
      RelevantIff(kind, Init(parts), p);
      assert parts == Init(parts) + [Last(parts)];
    }
  }

  lemma {:induction false} RelevantInOrder(kind: Kind, a: seq<Part>, b: seq<Part>)
    ensures Relevant(kind, a + b) == Relevant(kind, a) + Relevant(kind, b)
  {
    if b == [] {
      assert a + b == a;
    } else {
      assert Init(a + b) == a + Init(b) && Last(a + b) == Last(b);
      RelevantInOrder(kind, a, Init(b));
    }
  }

  /** Nothing empty is emitted. */
  lemma {:induction false} NothingEmpty(r: Reader, lines: seq<string>, i: nat)
    requires i < |LogOf(r, lines)|
    ensures LogOf(r, lines)[i] != Emit("")
  {
    if lines != [] {
      var line, before := Last(lines), Init(lines);
      if i < |LogOf(r, before)| {
        NothingEmpty(r, before, i);
      } else if i >= |LogOf(r, before) + Preamble(r, line)| {
        NothingEmptyAfter(r, AllParts(r, before), PartsOf(r, line), i - |LogOf(r, before) + Preamble(r, line)|);
      }
    }
  }

  lemma {:induction false} NothingEmptyAfter(r: Reader, before: seq<Part>, more: seq<Part>, i: nat)
    requires i < |SignalsAfter(r, before, more)|
    ensures SignalsAfter(r, before, more)[i] != Emit("")
  {
    if more != [] && i < |SignalsAfter(r, before, Init(more))| { NothingEmptyAfter(r, before, Init(more), i); }
  }

  /** Text that is no event is emitted with its line end, once cleaned. */
  lemma DiagnosticSays(r: Reader, lines: seq<string>, line: string)
    requires !Blank(line) && r.decode(line).Diagnostic? && r.clean(line + "\n") != ""
    ensures LogOf(r, lines + [line]) == LogOf(r, lines) + [Emit(r.clean(line + "\n"))]
  {
    assert Init(lines + [line]) == lines;
  }

  /** A result for an open call is reported with that call, and rendered for everything but
      `send_output`, which is output already. */
  lemma ResultSays(r: Reader, before: seq<Part>, id: string, failed: bool, output: string, tool: Tool)
    requires Open(before, id) == Some(tool)
    ensures var said := SignalsAfter(r, before, [ToolResult(id, failed, output)]);
            var rendered := r.render(tool, failed, output);
            said == [Report(id, tool, failed, output)] + if tool.name != "send_output" && rendered != "" then [Emit(rendered)] else []
  {
    var more := [ToolResult(id, failed, output)];
    assert Init(more) == [] && before + [] == before;
    assert SignalsAfter(r, before, []) == [];
  }

  lemma Associates<T>(a: seq<T>, b: seq<T>, c: seq<T>)
    ensures (a + b) + c == a + (b + c)
  {}

  lemma {:induction false} SignalsOfMore(r: Reader, before: seq<Part>, more: seq<Part>)
    ensures Signals(r, before + more) == Signals(r, before) + SignalsAfter(r, before, more)
  {
    if more == [] {
      assert before + more == before;
    } else {
      SignalsOfMore(r, before, Init(more));
      assert Init(before + more) == before + Init(more);
      assert Last(before + more) == Last(more);
      Associates(Signals(r, before), SignalsAfter(r, before, Init(more)), Answer(r, before + Init(more), Last(more)));
    }
  }

  lemma {:induction false} SameReports(r: Reader, lines: seq<string>, id: string)
    ensures Reports(LogOf(r, lines), id) == Reports(Signals(r, AllParts(r, lines)), id)
  {
    if lines != [] {
      SameReports(r, Init(lines), id);
      LogStep(r, Init(lines), Last(lines), lines);
      LineReports(r, LogOf(r, Init(lines)), Preamble(r, Last(lines)), AllParts(r, Init(lines)), PartsOf(r, Last(lines)), id);
    }
  }

  lemma LogStep(r: Reader, before: seq<string>, line: string, lines: seq<string>)
    requires lines != [] && before == Init(lines) && line == Last(lines)
    ensures LogOf(r, lines) == LogOf(r, before) + Preamble(r, line) + SignalsAfter(r, AllParts(r, before), PartsOf(r, line))
    ensures AllParts(r, lines) == AllParts(r, before) + PartsOf(r, line)
    ensures forall s | s in Preamble(r, line) :: !s.Report?
  {}

  lemma LineReports(r: Reader, log: seq<Signal>, preamble: seq<Signal>, parts: seq<Part>, more: seq<Part>, id: string)
    requires forall s | s in preamble :: !s.Report?
    ensures Reports(log + preamble + SignalsAfter(r, parts, more), id) - Reports(log, id)
            == Reports(Signals(r, parts + more), id) - Reports(Signals(r, parts), id)
  {
    var said := SignalsAfter(r, parts, more);
    SignalsOfMore(r, parts, more);
    ReportsAppend(Signals(r, parts), said, id);
    ReportsAppend(log + preamble, said, id);
    ReportsAppend(log, preamble, id);
    NoReports(preamble, id);
  }

  lemma {:induction false} NoReports(log: seq<Signal>, id: string)
    requires forall s | s in log :: !s.Report?
    ensures Reports(log, id) == 0
  {
    if log != [] { NoReports(Init(log), id); }
  }

  /** Over the whole stream: reports of an id never outnumber its starts. */
  lemma StreamReportsOncePerStart(r: Reader, lines: seq<string>, id: string)
    ensures Reports(LogOf(r, lines), id) <= Uses(AllParts(r, lines), id)
  {
    SameReports(r, lines, id);
    ReportedOncePerStart(r, AllParts(r, lines), id);
  }

  /** A blank line, and so the empty end of a stream, says nothing. */
  lemma BlankSaysNothing(r: Reader, lines: seq<string>, line: string)
    requires Blank(line)
    ensures LogOf(r, lines + [line]) == LogOf(r, lines) && AllParts(r, lines + [line]) == AllParts(r, lines)
  {
    assert Init(lines + [line]) == lines;
  }

  // ------------------------------------------------------------- the sink

  /** The map of started tools mirrors the parts read. */
  ghost predicate Mirrors(tools: Tools, parts: seq<Part>) {
    forall id :: (id in tools <==> Open(parts, id).Some?) && (id in tools ==> tools[id] == Open(parts, id).value)
  }

  lemma MirrorsStart()
    ensures Mirrors(map[], [])
  {}

  lemma MirrorsUse(tools: Tools, parts: seq<Part>, p: Part, after: Tools)
    requires Mirrors(tools, parts) && p.ToolUse? && after == tools[p.id := p.tool]
    ensures Mirrors(after, parts + [p])
  {
    assert Init(parts + [p]) == parts;
  }

  lemma MirrorsResult(tools: Tools, parts: seq<Part>, p: Part, after: Tools)
    requires Mirrors(tools, parts) && p.ToolResult? && after == tools - {p.id}
    ensures Mirrors(after, parts + [p])
  {
    assert Init(parts + [p]) == parts;
  }

  class Sink {
    const reader: Reader
    var pending: string
    var pendingTools: Tools
    var log: seq<Signal>
    /** The lines consumed so far. */
    ghost var lines: seq<string>

    ghost predicate Valid() reads this {
      && |Fields(pending)| == 1
      && log == LogOf(reader, lines)
      && Mirrors(pendingTools, AllParts(reader, lines))
    }

    constructor (reader: Reader)
      ensures Valid() && this.reader == reader && pending == "" && lines == []
    {
      this.reader := reader;
      pending, pendingTools, log, lines := "", map[], [], [];
      new;
      MirrorsStart();
    }

    /** One tool part of the event being read. */
    method ConsumePart(p: Part, ghost before: seq<Part>)
      requires Mirrors(pendingTools, before) && p.id != ""
      modifies this`pendingTools, this`log
      ensures Mirrors(pendingTools, before + [p])
      ensures log == old(log) + Answer(reader, before, p)
    {
      if p.ToolUse? {
        MirrorsUse(pendingTools, before, p, pendingTools[p.id := p.tool]);
        pendingTools := pendingTools[p.id := p.tool];
      } else if p.id in pendingTools {
        var started := pendingTools[p.id];
        MirrorsResult(pendingTools, before, p, pendingTools - {p.id});
        pendingTools := pendingTools - {p.id};
        log := log + Reported(reader, p.id, started, p.failed, p.output);
      } else {
        MirrorsResult(pendingTools, before, p, pendingTools - {p.id});
        assert pendingTools - {p.id} == pendingTools;
      }
    }

    method ConsumeParts(kind: Kind, parts: seq<Part>, ghost before: seq<Part>)
      requires Mirrors(pendingTools, before)
      modifies this`pendingTools, this`log
      ensures Mirrors(pendingTools, before + Relevant(kind, parts))
      ensures log == old(log) + SignalsAfter(reader, before, Relevant(kind, parts))
    {
      ghost var done := [];
      assert before + [] == before;
      for i := 0 to |parts|
        invariant done == Relevant(kind, parts[..i])
        invariant Mirrors(pendingTools, before + done)
        invariant log == old(log) + SignalsAfter(reader, before, done)
      {
        assert Init(parts[..i + 1]) == parts[..i];
        if Counts(kind, parts[i]) {
          ConsumePart(parts[i], before + done);
          Associates(before, done, [parts[i]]);
          Associates(old(log), SignalsAfter(reader, before, done), Answer(reader, before + done, parts[i]));
          done := done + [parts[i]];
          assert Init(done) == Relevant(kind, parts[..i]);
        }
      }
      assert parts[..|parts|] == parts;
    }

    method ConsumeLine(line: string)
      requires Valid()
      modifies this`pendingTools, this`log, this`lines
      ensures Valid() && lines == old(lines) + [line]
    {
      ghost var before := AllParts(reader, lines);
      assert Init(lines + [line]) == lines;
      if !Blank(line) {
        log := log + Preamble(reader, line);
        var event := reader.decode(line);
        if event.Event? { ConsumeParts(event.kind, event.parts, before); }
      }
      lines := lines + [line];
      assert before + [] == before;
    }

    method ConsumeLines(complete: seq<string>)
      requires Valid()
      modifies this`pendingTools, this`log, this`lines
      ensures Valid() && lines == old(lines) + complete
    {
      assert lines + complete[..0] == lines;
      for i := 0 to |complete|
        invariant Valid() && lines == old(lines) + complete[..i]
      {
        ConsumeLine(complete[i]);
        OneMore(old(lines), complete, i);
      }
      assert complete[..|complete|] == complete;
    }

    /** Complete lines are consumed, the rest waits. */
    method Write(chunk: string)
      requires Valid()
      modifies this
      ensures Valid()
      ensures lines == old(lines) + Init(Fields(old(pending) + chunk))
      ensures pending == Last(Fields(old(pending) + chunk))
    {
      var fields := Fields(pending + chunk);
      FieldsAreWhole(pending + chunk);
      pending := Last(fields);
      ConsumeLines(Init(fields));
    }

    /** What waits is the last line. */
    method Flush()
      requires Valid()
      modifies this
      ensures Valid() && pending == "" && lines == old(lines) + if old(pending) == "" then [] else [old(pending)]
    {
      if pending != "" { ConsumeLine(pending); }
      pending := "";
    }
  }

  lemma OneMore<T>(base: seq<T>, s: seq<T>, i: nat)
    requires i < |s|
    ensures base + s[..i] + [s[i]] == base + s[..i + 1]
  {}

  lemma {:induction false} FieldsAreWhole(s: string)
    ensures |Fields(Last(Fields(s)))| == 1
    decreases |s|
  {
    if |Fields(s)| == 1 {
      OneFieldIsWhole(s);
    } else if s[0] == '\r' && s[1] == '\n' {
      FieldsAreWhole(s[2..]);
    } else {
      FieldsAreWhole(s[1..]);
    }
  }

  function Joined(chunks: seq<string>): string {
    if chunks == [] then "" else Joined(Init(chunks)) + Last(chunks)
  }

  lemma WriteStep(lines: seq<string>, pending: string, whole: string, chunk: string)
    requires lines + [pending] == Fields(whole)
    ensures var fields := Fields(pending + chunk);
            lines + Init(fields) + [Last(fields)] == Fields(whole + chunk)
  {
    FieldsOfMore(whole, chunk);
    assert Init(lines + [pending]) == lines;
    Glue(lines, Fields(pending + chunk));
  }

  lemma Glue<T>(a: seq<T>, b: seq<T>)
    requires b != []
    ensures a + Init(b) + [Last(b)] == a + b
  {}

  lemma JoinedStep(chunks: seq<string>, i: nat)
    requires i < |chunks|
    ensures Joined(chunks[..i + 1]) == Joined(chunks[..i]) + chunks[i]
  {
    assert Init(chunks[..i + 1]) == chunks[..i];
  }

  /** However a stream is cut into chunks, the sink consumes the lines of the whole
      stream, and what it says is a function of those lines. */
  method Stream(reader: Reader, chunks: seq<string>) returns (sink: Sink)
    ensures sink.lines == Fields(Joined(chunks)) || sink.lines + [""] == Fields(Joined(chunks))
    ensures sink.log == LogOf(reader, Fields(Joined(chunks)))
    ensures Mirrors(sink.pendingTools, AllParts(reader, Fields(Joined(chunks))))
  {
    sink := new Sink(reader);
    for i := 0 to |chunks|
      invariant fresh(sink) && sink.Valid() && sink.reader == reader
      invariant sink.lines + [sink.pending] == Fields(Joined(chunks[..i]))
    {
      WriteStep(sink.lines, sink.pending, Joined(chunks[..i]), chunks[i]);
      JoinedStep(chunks, i);
      sink.Write(chunks[i]);
    }
    assert chunks[..|chunks|] == chunks;
    ghost var lines := sink.lines;
    if sink.pending == "" { BlankSaysNothing(reader, lines, ""); }
    sink.Flush();
  }

  /** Two cuts of the same stream are told apart by nothing the sink says. */
  method SameStreamSameLog(reader: Reader, first: seq<string>, second: seq<string>) returns (a: seq<Signal>, b: seq<Signal>)
    requires Joined(first) == Joined(second)
    ensures a == b == LogOf(reader, Fields(Joined(first)))
  {
    var left := Stream(reader, first);
    var right := Stream(reader, second);
    a, b := left.log, right.log;
  }
}
