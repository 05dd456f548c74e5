/** The MCP server's transport (src/mcp-server.ts): newline-delimited JSON-RPC over text that arrives
    in arbitrary chunks, requests answered as their jobs finish, and the drain at the end. */
module RpcFraming {
  import opened Common

  // ---------------------------------------------------------------- lines

  predicate Blank(line: string) {
    forall k | 0 <= k < |line| :: IsSpace(line[k])
  }

  /** `line.replace(/\r$/, "")` */
  function Chomp(line: string): string {
    if line != "" && line[|line| - 1] == '\r' then line[..|line| - 1] else line
  }

  /** What is dispatched of a list of lines: the nonblank ones, without a final carriage return. */
  function Kept(lines: seq<string>): seq<string> {
    if lines == [] then []
    else KeptLine(lines[0]) + Kept(lines[1..])
  }

  function KeptLine(line: string): seq<string> {
    if Blank(line) then [] else [Chomp(line)]
  }

  function Complete(text: string): seq<string> {
    var parts := Split(text, '\n');
    parts[..|parts| - 1]
  }

  function Unfinished(text: string): string {
    var parts := Split(text, '\n');
    parts[|parts| - 1]
  }

  /** What a stream of text dispatches by its end, an unterminated last line included. */
  function Framed(text: string): seq<string> {
    Kept(Split(text, '\n'))
  }

  lemma {:induction false} KeptConcat(a: seq<string>, b: seq<string>)
    ensures Kept(a + b) == Kept(a) + Kept(b)
  {
    hide KeptLine;
    if a == [] {
      assert a + b == b;
    } else {
      KeptConcat(a[1..], b);
      assert (a + b)[0] == a[0] && (a + b)[1..] == a[1..] + b;
      Regroup(KeptLine(a[0]), Kept(a[1..]), Kept(b));
    }
  }

  /** A newline ends the first line. */
  lemma FirstLine(text: string, k: nat)
    requires k < |text| && IndexOf(text, '\n') == k
    ensures Complete(text) == [text[..k]] + Complete(text[k + 1..])
    ensures Unfinished(text) == Unfinished(text[k + 1..])
  {
    SplitHead(text, k);
    SplitSome(text[k + 1..]);
    hide Split;
  }

  lemma SplitHead(text: string, k: nat)
    requires k < |text| && IndexOf(text, '\n') == k
    ensures Split(text, '\n') == [text[..k]] + Split(text[k + 1..], '\n')
  {
    hide IndexOf;
  }

  /** The line a newline ends is dispatched, if it is not blank. */
  lemma LineTaken(text: string, k: nat)
    requires k < |text| && IndexOf(text, '\n') == k
    ensures var line := Chomp(text[..k]);
      Kept(Complete(text)) == (if Blank(line) then [] else [line]) + Kept(Complete(text[k + 1..]))
    ensures Unfinished(text) == Unfinished(text[k + 1..])
  {
    FirstLine(text, k);
    hide Complete, Unfinished;
    KeptConcat([text[..k]], Complete(text[k + 1..]));
    ChompBlank(text[..k]);
    KeptOne(text[..k]);
    hide Kept, Chomp, Blank;
  }

  lemma SplitSome(text: string)
    ensures Split(text, '\n') != []
  {
  }

  /** Text that arrives later continues the unfinished line. */
  lemma {:induction false} TextContinues(a: string, b: string)
    ensures Complete(a + b) == Complete(a) + Complete(Unfinished(a) + b)
    ensures Unfinished(a + b) == Unfinished(Unfinished(a) + b)
    decreases |a|
  {
    var k := IndexOf(a, '\n');
    if k == |a| {
      assert Complete(a) == [] && Unfinished(a) == a;
    } else {
      TextContinues(a[k + 1..], b);
      FirstLine(a, k);
      IndexOfUnique(a + b, '\n', k);
      FirstLine(a + b, k);
      assert (a + b)[..k] == a[..k] && (a + b)[k + 1..] == a[k + 1..] + b;
    }
  }

  lemma ChunkArrives(text: string, chunk: string)
    ensures Kept(Complete(text + chunk)) == Kept(Complete(text)) + Kept(Complete(Unfinished(text) + chunk))
    ensures Unfinished(text + chunk) == Unfinished(Unfinished(text) + chunk)
  {
    TextContinues(text, chunk);
    KeptConcat(Complete(text), Complete(Unfinished(text) + chunk));
  }

  lemma FramedIs(text: string)
    ensures Framed(text) == Kept(Complete(text)) + Kept([Unfinished(text)])
  {
    KeptConcat(Complete(text), [Unfinished(text)]);
    assert Split(text, '\n') == Complete(text) + [Unfinished(text)];
  }

  /** What a client writes: each message on a line of its own, ended by a newline alone or after a
      carriage return. */
  datatype Line = Line(text: string, carriage: bool)

  function Typed(ls: seq<Line>): string {
    if ls == [] then ""
    else ls[0].text + (if ls[0].carriage then "\r\n" else "\n") + Typed(ls[1..])
  }

  /** The texts that hold more than white space. */
  ghost function Texts(ls: seq<Line>): seq<string> {
    if ls == [] then []
    else (if exists c :: c in ls[0].text && !IsSpace(c) then [ls[0].text] else []) + Texts(ls[1..])
  }

  predicate Plain(l: Line) {
    '\n' !in l.text && (!l.carriage ==> l.text == "" || l.text[|l.text| - 1] != '\r')
  }

  /** Whichever way a client ends its lines, and whether or not it ends the last one, exactly its
      messages are dispatched, as they were written. */
  lemma {:induction false} LinesBack(ls: seq<Line>, last: string)
    requires forall k | 0 <= k < |ls| :: Plain(ls[k])
    requires Plain(Line(last, false))
    ensures Framed(Typed(ls) + last) == Texts(ls + [Line(last, false)])
  {
    hide Split, Chomp, Blank, Plain;
    if ls == [] {
      assert Typed(ls) + last == last && ls + [Line(last, false)] == [Line(last, false)];
      assert Texts([Line(last, false)][1..]) == [];
      OneLine(Line(last, false));
    } else {
      var end := ls[0].text + if ls[0].carriage then "\r" else "";
      var rest := Typed(ls[1..]) + last;
      assert Typed(ls) + last == end + ['\n'] + rest;
      assert '\n' !in end by { assert Plain(ls[0]); PlainEnd(ls[0]); }
      SplitFirst(end, rest, '\n');
      LinesBack(ls[1..], last);
      LineBack(ls[0]);
      assert (ls + [Line(last, false)])[0] == ls[0] && (ls + [Line(last, false)])[1..] == ls[1..] + [Line(last, false)];
    }
  }

  lemma PlainEnd(l: Line)
    requires Plain(l)
    ensures '\n' !in l.text + if l.carriage then "\r" else ""
  {
  }

  lemma LineBack(l: Line)
    requires Plain(l)
    ensures KeptLine(l.text + if l.carriage then "\r" else "") == if exists c :: c in l.text && !IsSpace(c) then [l.text] else []
  {
    var end := l.text + if l.carriage then "\r" else "";
    assert Chomp(end) == l.text;
    ChompBlank(end);
  }

  lemma OneLine(l: Line)
    requires Plain(l) && !l.carriage
    ensures Framed(l.text) == if exists c :: c in l.text && !IsSpace(c) then [l.text] else []
  {
    assert Split(l.text, '\n') == [l.text] by { IndexOfUnique(l.text, '\n', |l.text|); }
    assert l.text + "" == l.text;
    LineBack(l);
    hide KeptLine;
    assert Kept([l.text]) == KeptLine(l.text) + Kept([l.text][1..]);
  }

  lemma ChompBlank(line: string)
    ensures Blank(Chomp(line)) <==> Blank(line)
  {
    if line != "" && line[|line| - 1] == '\r' {
      assert line == Chomp(line) + ['\r'];
    }
  }

  // ---------------------------------------------------------------- messages

  datatype Id = Text(s: string) | Number(n: real)

  /** A decoded message, as far as the server looks at it: `id` is there only as a text or a number;
      of the parameters, the protocol version asked for, if it is a text, the tool's name, `""` when it
      is no text, and its arguments. */
  datatype Message = NotAnObject
    | Message(id: Option<Id>, method_: Option<string>, isResponse: bool, version: Option<string>, tool: string, arguments: string)

  /** What validating against a schema comes to; a refinement's own code may throw. */
  datatype Verdict = Fine | Refused(text: string) | Raised

  /** A registered tool, as far as calling it is concerned: what its schema says of arguments. */
  datatype Tool = Tool(check: string -> Verdict)

  type Tools = map<string, Tool>

  /** The message of an error that was thrown; it need not be a text, nor anything JSON can write. */
  datatype Said = Said(text: string, writable: bool)

  /** What running a handler comes to: it throws, something with a message or not, or returns. */
  datatype Run = Threw(said: Option<Said>) | Gave(result: Given)

  /** What a handler returns: nothing (`undefined` or `null`), or a result. `structured` is there when it
      has structured content, and is what the tool's output schema says of it; `writable` says whether
      the result can be written as JSON. */
  datatype Given = Nothing | Given(isError: bool, structured: Option<Verdict>, writable: bool, body: string)

  /** What is sent back from a tool call: an error text, what is wrong with the arguments, or the
      handler's result. */
  datatype Sent = ErrorText(said: Said) | BadArguments(text: string) | AsGiven(given: Given)

  /** An error text of the server's own. */
  function Own(text: string): Sent {
    ErrorText(Said(text, true))
  }

  datatype Payload = Initialized(version: string) | Pong | Listing | ToolResult(sent: Sent)
  datatype Response = Result(id: Option<Id>, payload: Payload) | Error(id: Option<Id>, code: int)

  const PARSE_ERROR := -32700
  const INVALID_REQUEST := -32600
  const METHOD_NOT_FOUND := -32601
  const SUPPORTED_VERSIONS := ["2025-11-25", "2025-06-18", "2025-03-26", "2024-11-05"]

  /** `#initialize`: the version asked for if it is supported, else the newest. */
  function Negotiated(asked: Option<string>): string {
    if asked.Some? && asked.value in SUPPORTED_VERSIONS then asked.value else SUPPORTED_VERSIONS[0]
  }

  /** What the server says of a result itself; the number is JSON-RPC's "invalid params". */
  function Complaint(text: string): Sent {
    Own("MCP error -32602: " + text)
  }

  /** `#checkOutput`; reading a property of nothing throws. */
  function CheckOutput(tool: string, given: Given): Option<Sent> {
    if given.Nothing? then None
    else if given.isError then Some(AsGiven(given))
    else match given.structured
      case None => Some(Complaint("Output validation error: Tool " + tool + " has an output schema but no structured content was provided"))
      case Some(Fine) => Some(AsGiven(given))
      case Some(Refused(text)) => Some(Complaint("Output validation error: Invalid structured content for tool " + tool + ": " + text))
      case Some(Raised) => None
  }

  /** `#call`; `None` when it throws. */
  function CallTool(tools: Tools, m: Message, run: Run): Option<Sent>
    requires m.Message?
  {
    if m.tool !in tools then Some(Complaint("Tool " + m.tool + " not found"))
    else match tools[m.tool].check(m.arguments)
      case Refused(text) => Some(BadArguments(text))
      case Raised => None
      case Fine =>
        match run
        case Threw(said) => if said.None? then None else Some(ErrorText(said.value))
        case Gave(given) => CheckOutput(m.tool, given)
  }

  /** What `handle` comes to: nothing to say, a rejection, or a response. */
  datatype Handled = Silent | Rejected | Answer(response: Response)

  function Handle(tools: Tools, m: Message, run: Run): Handled {
    if m.NotAnObject? then Answer(Error(None, INVALID_REQUEST))
    else if m.method_.None? then if m.isResponse then Silent else Answer(Error(m.id, INVALID_REQUEST))
    else if m.id.None? then Silent
    else if m.method_.value == "initialize" then Answer(Result(m.id, Initialized(Negotiated(m.version))))
    else if m.method_.value == "ping" then Answer(Result(m.id, Pong))
    else if m.method_.value == "tools/list" then Answer(Result(m.id, Listing))
    else if m.method_.value == "tools/call" then
      var sent := CallTool(tools, m, run);
      if sent.None? then Rejected else Answer(Result(m.id, ToolResult(sent.value)))
    else Answer(Error(m.id, METHOD_NOT_FOUND))
  }

  /** Can the response be written as JSON? Only what comes from a handler may fail to. */
  predicate Writable(r: Response) {
    r.Result? && r.payload.ToolResult? ==>
      match r.payload.sent
      case ErrorText(said) => said.writable
      case BadArguments(_) => true
      case AsGiven(given) => given.Given? ==> given.writable
  }

  /** What is written for a message: a rejection is only logged, and so is a failure to write. */
  function Replies(tools: Tools, m: Message, run: Run): seq<Response> {
    var h := Handle(tools, m, run);
    if h.Answer? && Writable(h.response) then [h.response] else []
  }

  predicate IsRequest(m: Message) {
    m.Message? && m.method_.Some? && m.id.Some?
  }

  predicate IsNotification(m: Message) {
    m.Message? && m.method_.Some? && m.id.None?
  }

  /** The call of a known tool comes to nothing that can be sent: validating its arguments throws, or
      they are fine and so does what the handler comes to. */
  predicate Unanswered(tools: Tools, m: Message, run: Run) {
    && IsRequest(m) && m.method_.value == "tools/call" && m.tool in tools
    && (tools[m.tool].check(m.arguments).Raised? || (tools[m.tool].check(m.arguments).Fine? && Unspeakable(run)))
  }

  /** A handler threw something without a message, or with one that cannot be written; returned
      nothing; its structured content was validated and that threw; or its result is passed on and
      cannot be written. */
  predicate Unspeakable(run: Run) {
    match run
    case Threw(said) => said.None? || !said.value.writable
    case Gave(Nothing) => true
    case Gave(Given(isError, structured, writable, _)) =>
      (!isError && structured == Some(Raised)) || (!writable && (isError || structured == Some(Fine)))
  }

  /** Sections 4.1 and 5 of the JSON-RPC 2.0 specification: a notification is never answered; a request
      is, once and with its own id, except when a tool's call came to nothing that can be sent. */
  lemma RepliesExactly(tools: Tools, m: Message, run: Run)
    ensures IsNotification(m) ==> Replies(tools, m, run) == []
    ensures IsRequest(m) ==> |Replies(tools, m, run)| == if Unanswered(tools, m, run) then 0 else 1
    ensures forall r | r in Replies(tools, m, run) :: r.id == if m.Message? then m.id else None
  {
    if IsRequest(m) && m.method_.value == "tools/call" {
      CallExactly(tools, m, run);
    }
  }

  lemma CallExactly(tools: Tools, m: Message, run: Run)
    requires IsRequest(m) && m.method_.value == "tools/call"
    ensures var sent := CallTool(tools, m, run);
      Unanswered(tools, m, run) <==> sent.None? || !Writable(Result(m.id, ToolResult(sent.value)))
  {
    hide CheckOutput, Complaint;
    if run.Gave? {
      OutputWritable(m.tool, run.result);
    }
    if m.tool !in tools {
      assert CallTool(tools, m, run) == Some(Complaint("Tool " + m.tool + " not found"));
    }
    ComplaintWritable("Tool " + m.tool + " not found");
  }

  /** What the server checks of a result can be written unless it passes on one that cannot. */
  lemma OutputWritable(tool: string, given: Given)
    ensures var sent := CheckOutput(tool, given);
      && (sent.None? <==> given.Nothing? || (!given.isError && given.structured == Some(Raised)))
      && (sent.Some? ==>
           (if given.isError || given.structured == Some(Fine) then sent.value == AsGiven(given)
            else sent.value.ErrorText? && sent.value.said.writable))
  {
    hide Complaint;
    if given.Given? && !given.isError && given.structured != Some(Raised) && given.structured != Some(Fine) {
      ComplaintWritable("Output validation error: Tool " + tool + " has an output schema but no structured content was provided");
      if given.structured.Some? {
        ComplaintWritable("Output validation error: Invalid structured content for tool " + tool + ": " + given.structured.value.text);
      }
    }
  }

  lemma ComplaintWritable(text: string)
    ensures Complaint(text).ErrorText? && Complaint(text).said.writable
  {
  }

  /** Which reply each message gets, a tool's call aside: errors for what is no request and for methods
      that are not there, nothing for what is not to be answered, and the four methods' results. */
  lemma ReplyIs(tools: Tools, m: Message, run: Run)
    requires !(IsRequest(m) && m.method_ == Some("tools/call"))
    ensures m == NotAnObject ==> Replies(tools, m, run) == [Error(None, -32600)]
    ensures m.Message? && m.method_ == None ==> Replies(tools, m, run) == if m.isResponse then [] else [Error(m.id, -32600)]
    ensures IsNotification(m) ==> Replies(tools, m, run) == []
    ensures IsRequest(m) ==> exists reply :: Replies(tools, m, run) == [reply] && match m.method_.value
      case "initialize" => reply.Result? && reply.id == m.id && reply.payload.Initialized? && Offered(m.version, reply.payload.version)
      case "ping" => reply == Result(m.id, Pong)
      case "tools/list" => reply == Result(m.id, Listing)
      case _ => reply == Error(m.id, -32601)
  {
    if IsRequest(m) {
      assert Replies(tools, m, run) == [Handle(tools, m, run).response];
    }
  }

  /** The version a client is offered: its own if the server knows it, else the newest it knows. */
  predicate Offered(asked: Option<string>, version: string) {
    && version in {"2025-11-25", "2025-06-18", "2025-03-26", "2024-11-05"}
    && (if asked.Some? && asked.value in {"2025-11-25", "2025-06-18", "2025-03-26", "2024-11-05"} then version == asked.value
        else version == "2025-11-25")
  }

  /** Which result the call of a tool gets: a complaint about a tool that is not there, about arguments
      its schema refuses, or about content that is missing or refused; else what the handler threw or
      returned. */
  lemma CallReplyIs(tools: Tools, m: Message, run: Run)
    requires IsRequest(m) && m.method_ == Some("tools/call")
    ensures Unanswered(tools, m, run) ==> Replies(tools, m, run) == []
    ensures !Unanswered(tools, m, run) ==>
      exists sent :: Replies(tools, m, run) == [Result(m.id, ToolResult(sent))] && SentFor(tools, m, run, sent)
  {
    hide CallTool, Writable, Unanswered, SentFor;
    CallExactly(tools, m, run);
    if !Unanswered(tools, m, run) {
      var sent := CallTool(tools, m, run).value;
      assert Replies(tools, m, run) == [Result(m.id, ToolResult(sent))];
      CallSends(tools, m, run);
    }
  }

  lemma CallSends(tools: Tools, m: Message, run: Run)
    requires m.Message?
    ensures var sent := CallTool(tools, m, run); sent.Some? ==> SentFor(tools, m, run, sent.value)
  {
    hide SentOf;
    if run.Gave? && run.result.Given? {
      OutputSends(m.tool, run.result);
    }
    hide CheckOutput;
  }

  lemma OutputSends(tool: string, given: Given)
    requires given.Given?
    ensures var sent := CheckOutput(tool, given); sent.Some? ==> SentOf(tool, given, sent.value)
  {
  }

  ghost predicate SentFor(tools: Tools, m: Message, run: Run, sent: Sent)
    requires m.Message?
  {
    && (m.tool !in tools ==> sent == ErrorText(Said("MCP error -32602: " + ("Tool " + m.tool + " not found"), true)))
    && (m.tool in tools ==>
         var verdict := tools[m.tool].check(m.arguments);
         && (verdict.Refused? ==> sent == BadArguments(verdict.text))
         && (verdict == Fine ==>
              && (run.Threw? && run.said.Some? ==> sent == ErrorText(run.said.value))
              && (run.Gave? && run.result.Given? ==> SentOf(m.tool, run.result, sent))))
  }

  ghost predicate SentOf(tool: string, given: Given, sent: Sent)
    requires given.Given?
  {
    && (given.isError || given.structured == Some(Fine) ==> sent == AsGiven(given))
    && (!given.isError && given.structured == None ==>
         sent == ErrorText(Said("MCP error -32602: " + ("Output validation error: Tool " + tool
                                + " has an output schema but no structured content was provided"), true)))
    && (!given.isError && given.structured.Some? && given.structured.value.Refused? ==>
         sent == ErrorText(Said("MCP error -32602: " + ("Output validation error: Invalid structured content for tool " + tool
                                + ": " + given.structured.value.text), true)))
  }

  // ---------------------------------------------------------------- jobs

  datatype Phase = Running | Written(run: Run) | Done(run: Run)

  /** A dispatched line: answered on the spot when it is no JSON, or a job of its own. */
  datatype Job = BadJson | Job(message: Message, phase: Phase)

  type Output = seq<(nat, Response)>

  /** The responses to the `k`-th dispatched line. */
  function ResponsesTo(output: Output, k: nat): seq<Response>
    decreases |output|
  {
    if output == [] then []
    else
      var last := output[|output| - 1];
      ResponsesTo(output[..|output| - 1], k) + if last.0 == k then [last.1] else []
  }

  /** What the `k`-th line is answered with, so far. */
  function Due(tools: Tools, job: Job): seq<Response> {
    match job
    case BadJson => [Error(None, PARSE_ERROR)]
    case Job(m, Running) => []
    case Job(m, phase) => Replies(tools, m, phase.run)
  }

  /** What a client may expect of a line that has been dealt with. */
  ghost predicate Answered(tools: Tools, job: Job, responses: seq<Response>) {
    match job
    case BadJson => responses == [Error(None, -32700)]
    case Job(m, phase) =>
      && phase.Done?
      && (forall r | r in responses :: r.id == if m.Message? then m.id else None)
      && (IsNotification(m) ==> responses == [])
      && (IsRequest(m) ==> |responses| == if Unanswered(tools, m, phase.run) then 0 else 1)
  }

  lemma DueAnswers(tools: Tools, job: Job)
    requires job.Job? ==> job.phase.Done?
    ensures Answered(tools, job, Due(tools, job))
  {
    hide Replies, Unanswered;
    if job.Job? { RepliesExactly(tools, job.message, job.phase.run); }
  }

  lemma ResponsesOne(output: Output, j: nat, r: Response, k: nat)
    ensures ResponsesTo(output + [(j, r)], k) == ResponsesTo(output, k) + if j == k then [r] else []
  {
    assert (output + [(j, r)])[..|output|] == output;
  }

  lemma {:induction false} ResponsesNone(output: Output, k: nat)
    requires forall j | 0 <= j < |output| :: output[j].0 != k
    ensures ResponsesTo(output, k) == []
    decreases |output|
  {
    if output != [] {
      ResponsesNone(output[..|output| - 1], k);
    }
  }

  /** The jobs are those of the dispatched lines, and each is answered with what is due. */
  predicate Match(parse: string -> Option<Message>, tools: Tools, lines: seq<string>, jobs: seq<Job>, output: Output) {
    && |lines| == |jobs|
    && (forall k | 0 <= k < |jobs| :: Decoded(parse, lines[k], jobs[k]))
    && (forall k | 0 <= k < |jobs| :: ResponsesTo(output, k) == Due(tools, jobs[k]))
    && (forall j | 0 <= j < |output| :: output[j].0 < |jobs|)
  }

  predicate Decoded(parse: string -> Option<Message>, line: string, job: Job) {
    if parse(line).None? then job == BadJson else job.Job? && job.message == parse(line).value
  }

  /** The set of jobs in flight is what it says, and the end waits for all of them. */
  predicate Tracking(jobs: seq<Job>, inFlight: set<nat>, awaited: Option<set<nat>>) {
    && (forall k | k in inFlight :: k < |jobs|)
    && (forall k | 0 <= k < |jobs| :: k in inFlight <==> jobs[k].Job? && !jobs[k].phase.Done?)
    && (awaited.Some? ==> inFlight <= awaited.value)
  }

  lemma MatchNew(parse: string -> Option<Message>, tools: Tools, lines: seq<string>, jobs: seq<Job>, output: Output, line: string, job: Job)
    requires Match(parse, tools, lines, jobs, output) && Decoded(parse, line, job) && (job.Job? ==> job.phase == Running)
    ensures Match(parse, tools, lines + [line], jobs + [job], output + if job.BadJson? then [(|jobs|, Error(None, PARSE_ERROR))] else [])
  {
    var k := |jobs|;
    ResponsesNone(output, k);
    forall j | 0 <= j <= k
      ensures ResponsesTo(output + [(k, Error(None, PARSE_ERROR))], j) == ResponsesTo(output, j) + if j == k then [Error(None, PARSE_ERROR)] else []
    {
      ResponsesOne(output, k, Error(None, PARSE_ERROR), j);
    }
    assert output + [] == output;
  }

  function Entries(k: nat, responses: seq<Response>): (r: Output)
    ensures |r| == |responses|
  {
    seq(|responses|, j requires 0 <= j < |responses| => (k, responses[j]))
  }

  lemma MatchWrite(parse: string -> Option<Message>, tools: Tools, lines: seq<string>, jobs: seq<Job>, output: Output, k: nat, run: Run)
    requires Match(parse, tools, lines, jobs, output) && k < |jobs| && jobs[k].Job? && jobs[k].phase == Running
    ensures Match(parse, tools, lines, jobs[k := Job(jobs[k].message, Written(run))], output + Entries(k, Replies(tools, jobs[k].message, run)))
  {
    hide Replies, ResponsesTo;
    var rs := Replies(tools, jobs[k].message, run);
    RepliesShort(tools, jobs[k].message, run);
    if rs == [] {
      assert output + Entries(k, rs) == output;
    } else {
      assert Entries(k, rs) == [(k, rs[0])] && rs == [rs[0]];
      var after := jobs[k := Job(jobs[k].message, Written(run))];
      forall j | 0 <= j < |jobs|
        ensures ResponsesTo(output + [(k, rs[0])], j) == Due(tools, after[j])
      {
        ResponsesOne(output, k, rs[0], j);
        assert ResponsesTo(output, j) == Due(tools, jobs[j]);
        assert j == k ==> [] + [rs[0]] == rs;
        assert ResponsesTo(output, j) + [] == ResponsesTo(output, j);
      }
    }
  }

  lemma RepliesShort(tools: Tools, m: Message, run: Run)
    ensures |Replies(tools, m, run)| <= 1
  {
    hide Handle, Writable;
  }

  lemma MatchFinish(parse: string -> Option<Message>, tools: Tools, lines: seq<string>, jobs: seq<Job>, output: Output, k: nat)
    requires Match(parse, tools, lines, jobs, output) && k < |jobs| && jobs[k].Job? && jobs[k].phase.Written?
    ensures Match(parse, tools, lines, jobs[k := Job(jobs[k].message, Done(jobs[k].phase.run))], output)
  {
  }

  // ---------------------------------------------------------------- the code's own form

  class Listener {
    const parse: string -> Option<Message>
    const tools: Tools
    var buffer: string
    var jobs: seq<Job>
    var inFlight: set<nat>
    var output: Output
    var awaited: Option<set<nat>> // the jobs waited for once the input has ended
    ghost var received: string
    ghost var lines: seq<string>

    ghost predicate Valid()
      reads this
    {
      && Match(parse, tools, lines, jobs, output) && Tracking(jobs, inFlight, awaited)
      && (if awaited.None? then lines == Kept(Complete(received)) && buffer == Unfinished(received) else lines == Framed(received))
    }

    constructor (parse: string -> Option<Message>, tools: Tools)
      ensures Valid() && received == "" && awaited.None? && this.parse == parse && this.tools == tools
    {
      this.parse, this.tools := parse, tools;
      buffer, jobs, inFlight, output, awaited, received, lines := "", [], {}, [], None, "", [];
    }

    method Dispatch(line: string)
      requires Match(parse, tools, lines, jobs, output) && Tracking(jobs, inFlight, awaited) && awaited.None?
      modifies this`jobs, this`inFlight, this`output, this`lines
      ensures Match(parse, tools, lines, jobs, output) && Tracking(jobs, inFlight, awaited) && lines == old(lines) + [line]
    {
      var message := parse(line);
      MatchNew(parse, tools, lines, jobs, output, line, if message.None? then BadJson else Job(message.value, Running));
      assert output + [] == output;
      hide Match;
      if message.None? {
        output := output + [(|jobs|, Error(None, PARSE_ERROR))];
        jobs := jobs + [BadJson];
      } else {
        inFlight := inFlight + {|jobs|};
        jobs := jobs + [Job(message.value, Running)];
      }
      lines := lines + [line];
    }

    /** A `data` event: dispatch each line the chunk completes. */
    method Data(chunk: string)
      requires Valid() && awaited.None?
      modifies this
      ensures Valid() && awaited.None? && received == old(received) + chunk
    {
      ChunkArrives(received, chunk);
      hide Kept, Complete, Unfinished, Match, Tracking;
      received := received + chunk;
      buffer := buffer + chunk;
      var newline := IndexOf(buffer, '\n');
      while newline < |buffer|
        invariant newline == IndexOf(buffer, '\n') && awaited.None? && received == old(received) + chunk
        invariant Valid1()
        decreases |buffer|
      {
        TakeLine(newline);
        newline := IndexOf(buffer, '\n');
      }
      NoNewline(buffer);
      assert lines + [] == lines;
    }

    /** While the buffer is worked off: what is dispatched and what is left make up the text received. */
    ghost predicate Valid1()
      reads this
    {
      && Match(parse, tools, lines, jobs, output) && Tracking(jobs, inFlight, awaited)
      && Kept(Complete(received)) == lines + Kept(Complete(buffer)) && Unfinished(received) == Unfinished(buffer)
    }

    method TakeLine(newline: nat)
      requires Valid1() && awaited.None? && newline < |buffer| && newline == IndexOf(buffer, '\n')
      modifies this`buffer, this`jobs, this`inFlight, this`output, this`lines
      ensures Valid1() && buffer == old(buffer)[newline + 1..]
    {
      LineTaken(buffer, newline);
      hide Kept, Complete, Unfinished, Chomp, Blank, Match, Tracking;
      var line := Chomp(buffer[..newline]);
      buffer := buffer[newline + 1..];
      ghost var rest := Kept(Complete(buffer));
      if !Blank(line) {
        Regroup(lines, [line], rest);
        Dispatch(line);
      } else {
        assert [] + rest == rest;
      }
    }

    /** The `end` event: dispatch the unterminated rest, then wait for every job in flight. */
    method End()
      requires Valid() && awaited.None?
      modifies this
      ensures Valid() && awaited.Some? && received == old(received) && buffer == ""
    {
      FramedIs(received);
      KeptOne(buffer);
      if !Blank(buffer) { Dispatch(Chomp(buffer)); }
      buffer := "";
      awaited := Some(inFlight);
    }

    /** A message is handled and its response written; how a tool's handler ran is the handler's affair. */
    method Write(k: nat, run: Run)
      requires Valid() && k < |jobs| && jobs[k].Job? && jobs[k].phase == Running
      modifies this`jobs, this`output
      ensures Valid() && jobs == old(jobs)[k := Job(old(jobs)[k].message, Written(run))]
      ensures output == old(output) + Entries(k, Replies(tools, old(jobs)[k].message, run))
    {
      MatchWrite(parse, tools, lines, jobs, output, k, run);
      hide Match, Handle, Writable;
      var handled := Handle(tools, jobs[k].message, run);
      if handled.Answer? && Writable(handled.response) {
        assert Entries(k, Replies(tools, jobs[k].message, run)) == [(k, handled.response)];
        output := output + [(k, handled.response)];
      } else {
        assert output + Entries(k, Replies(tools, jobs[k].message, run)) == output;
      }
      jobs := jobs[k := Job(jobs[k].message, Written(run))];
    }

    /** The `finally` of a job. */
    method Finish(k: nat)
      requires Valid() && k < |jobs| && jobs[k].Job? && jobs[k].phase.Written?
      modifies this`jobs, this`inFlight
      ensures Valid() && jobs == old(jobs)[k := Job(old(jobs)[k].message, Done(old(jobs)[k].phase.run))]
    {
      MatchFinish(parse, tools, lines, jobs, output, k);
      hide Match;
      jobs := jobs[k := Job(jobs[k].message, Done(jobs[k].phase.run))];
      inFlight := inFlight - {k};
    }

    /** Has `listen` resolved? Then every line of the whole text was dispatched and every job is over:
        each request has been answered exactly once, with its id, unless its tool's call came to nothing
        that can be sent, and no notification has been answered. */
    method Resolved() returns (over: bool)
      requires Valid()
      ensures over ==> lines == Framed(received) && |jobs| == |lines|
      ensures over ==> forall k | 0 <= k < |jobs| :: Decoded(parse, lines[k], jobs[k]) && Answered(tools, jobs[k], ResponsesTo(output, k))
      ensures over ==> forall j | 0 <= j < |output| :: output[j].0 < |jobs|
      ensures awaited.Some? ==> (over <==> inFlight == {})
    {
      over := awaited.Some? && awaited.value * inFlight == {};
      if awaited.Some? { assert awaited.value * inFlight == inFlight; }
      if over {
        forall k | 0 <= k < |jobs|
          ensures Answered(tools, jobs[k], ResponsesTo(output, k))
        {
          assert k !in inFlight;
          DueAnswers(tools, jobs[k]);
        }
      }
    }
  }

  lemma KeptOne(line: string)
    ensures Kept([line]) == if Blank(line) then [] else [Chomp(line)]
  {
  }

  lemma NoNewline(text: string)
    requires IndexOf(text, '\n') == |text|
    ensures Kept(Complete(text)) == [] && Unfinished(text) == text
  {
  }

  function Whole(chunks: seq<string>): string
    decreases |chunks|
  {
    if chunks == [] then "" else Whole(chunks[..|chunks| - 1]) + chunks[|chunks| - 1]
  }

  /** However the text is cut into chunks, the same lines are dispatched: those of the whole text. */
  method Listen(parse: string -> Option<Message>, tools: Tools, chunks: seq<string>) returns (jobs: seq<Job>)
    ensures |jobs| == |Framed(Whole(chunks))|
    ensures forall k | 0 <= k < |jobs| ::
      var message := parse(Framed(Whole(chunks))[k]);
      if message.None? then jobs[k] == BadJson else jobs[k].Job? && jobs[k].message == message.value
  {
    var server := new Listener(parse, tools);
    for i := 0 to |chunks|
      invariant server.Valid() && server.awaited.None? && server.parse == parse && server.received == Whole(chunks[..i])
    {
      assert chunks[..i + 1][..i] == chunks[..i];
      server.Data(chunks[i]);
    }
    assert chunks[..|chunks|] == chunks;
    server.End();
    jobs := server.jobs;
  }
}
