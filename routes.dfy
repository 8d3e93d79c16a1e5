/** The server's request handling: the status each project and file route
    answers with, given what validation and the store did, and the execute
    route, which splits the command line on spaces, runs it and replies
    with everything the process wrote. */
module Routes {
  import opened Options
  import opened Text
  import opened Schema
  import opened Seqs

  /** A response: a status code and the kind of JSON body sent. */
  datatype Body =
    | Message(text: string)
    | Payload
    | NoContent
    | ExecReply(stdout: string, stderr: string, exitCode: Option<int>)
    | ExecFailure(message: string, error: string)

  datatype Response = Response(status: int, body: Body)

  /** The outcome of parsing a request body against its schema. */
  datatype Validation<T> = Valid(value: T) | Invalid(message: string)

  // ---------------------------------------------------------------------
  // Project and file routes
  // ---------------------------------------------------------------------

  datatype Route =
    | ListProjects | GetProject | CreateProject | DeleteProject
    | ListFiles | GetFile | CreateFile | UpdateFile | DeleteFile

  /** What the store call did: returned a record, a list or true; returned
      undefined or false; or threw. */
  datatype StoreResult = Found | Missing | StoreFailed

  /** The routes that parse a request body before touching the store. */
  predicate ValidatesBody(route: Route) {
    route == CreateProject || route == CreateFile || route == UpdateFile
  }

  /** The routes that answer 404 when the store finds nothing. */
  predicate ChecksPresence(route: Route) {
    route == GetProject || route == DeleteProject || route == GetFile || route == UpdateFile || route == DeleteFile
  }

  predicate IsCreate(route: Route) {
    route == CreateProject || route == CreateFile
  }

  predicate IsDelete(route: Route) {
    route == DeleteProject || route == DeleteFile
  }

  predicate IsProjectRoute(route: Route) {
    route.ListProjects? || route.GetProject? || route.CreateProject? || route.DeleteProject?
  }

  /** The message of a route's catch-all 500: "Failed to", then what the
      route was doing. */
  function FailureMessage(route: Route): (m: string)
    ensures |m| > 10 && m[..10] == "Failed to "
  {
    match route
    case ListProjects => "Failed to fetch projects"
    case GetProject => "Failed to fetch project"
    case CreateProject => "Failed to create project"
    case DeleteProject => "Failed to delete project"
    case ListFiles => "Failed to fetch files"
    case GetFile => "Failed to fetch file"
    case CreateFile => "Failed to create file"
    case UpdateFile => "Failed to update file"
    case DeleteFile => "Failed to delete file"
  }

  /** A route's response: a body failing validation gets 400 with the
      validation message whatever the store would have done; a store that
      throws gets 500; a missing record gets 404 where the route checks
      for one; otherwise creates answer 201, deletes 204 with no body and
      the rest 200 with the payload.  `validation` is read only by the
      routes that validate a body. */
  function Handle(route: Route, validation: Validation<()>, store: StoreResult): (r: Response)
    ensures r.status in {200, 201, 204, 400, 404, 500}
    ensures r.status == 400 <==> ValidatesBody(route) && validation.Invalid?
    ensures r.status == 400 ==> r.body == Message(validation.message)
    ensures r.status == 500 <==> !(ValidatesBody(route) && validation.Invalid?) && store == StoreFailed
    ensures r.status == 500 ==> r.body == Message(FailureMessage(route))
    ensures r.status == 404 <==> !(ValidatesBody(route) && validation.Invalid?) && ChecksPresence(route) && store == Missing
    ensures r.status == 201 <==> !(ValidatesBody(route) && validation.Invalid?) && IsCreate(route) && store != StoreFailed
    ensures r.status == 204 <==> IsDelete(route) && store == Found
    ensures r.status == 204 ==> r.body == NoContent
    ensures r.status == 404 ==> r.body == Message(if IsProjectRoute(route) then "Project not found" else "File not found")
    ensures r.status in {200, 201} ==> r.body == Payload
  {
    if ValidatesBody(route) && validation.Invalid? then Response(400, Message(validation.message))
    else if store == StoreFailed then Response(500, Message(FailureMessage(route)))
    else if ChecksPresence(route) && store == Missing then
      Response(404, Message(if IsProjectRoute(route) then "Project not found" else "File not found"))
    else if IsCreate(route) then Response(201, Payload)
    else if IsDelete(route) then
      assert store == Found;
      Response(204, NoContent)
    else Response(200, Payload)
  }

  /** An invalid body never reaches the store: the response does not
      depend on what the store would have done. */
  lemma InvalidBodyNeverReachesStore(route: Route, message: string, s1: StoreResult, s2: StoreResult)
    requires ValidatesBody(route)
    ensures Handle(route, Invalid(message), s1) == Handle(route, Invalid(message), s2)
  {
  }

  /** A route that reads no body answers the same whatever validation
      would have said. */
  lemma BodylessRoutesIgnoreValidation(route: Route, v1: Validation<()>, v2: Validation<()>, store: StoreResult)
    requires !ValidatesBody(route)
    ensures Handle(route, v1, store) == Handle(route, v2, store)
  {
  }

  // ---------------------------------------------------------------------
  // The execute route: splitting and the working directory
  // ---------------------------------------------------------------------

  /** `command.split(" ")`: the program is the first part, the arguments
      the rest; no part contains a space, and joining them with single
      spaces gives the command back. */
  function SplitCommand(command: string): (r: (string, seq<string>))
    ensures ' ' !in r.0
    ensures forall i :: 0 <= i < |r.1| ==> ' ' !in r.1[i]
    ensures Join([r.0] + r.1, ' ') == command
  {
    var parts := Split(command, ' ');
    SplitThenJoin(command, ' ');
    assert parts == [parts[0]] + parts[1..];
    (parts[0], parts[1..])
  }

  /** Splitting inverts joining space-free words with single spaces. */
  lemma SplitCommandOfJoin(program: string, args: seq<string>)
    requires ' ' !in program
    requires forall i :: 0 <= i < |args| ==> ' ' !in args[i]
    ensures SplitCommand(Join([program] + args, ' ')) == (program, args)
  {
    var parts := [program] + args;
    forall i | 0 <= i < |parts| ensures ' ' !in parts[i] {
      if i > 0 {
        assert parts[i] == args[i - 1];
      }
    }
    JoinThenSplit(parts, ' ');
    assert parts[1..] == args;
  }

  /** A doubled space yields an empty argument. */
  lemma DoubledSpaceGivesEmptyArgument(program: string, arg: string)
    requires ' ' !in program && ' ' !in arg
    ensures SplitCommand(program + "  " + arg) == (program, ["", arg])
  {
    assert program + "  " + arg == program + [' '] + ([' '] + arg);
    SplitAround(program, [' '] + arg, ' ');
    assert [' '] + arg == [] + [' '] + arg;
    SplitAround([], arg, ' ');
    JoinThenSplit([program], ' ');
    JoinThenSplit([arg], ' ');
    assert Split(program, ' ') == [program] && Split(arg, ' ') == [arg];
    assert Split([' '] + arg, ' ') == [[]] + [arg];
    var parts := Split(program + "  " + arg, ' ');
    assert parts == [program, [], arg];
    assert parts[1..] == ["", arg];
  }

  /** A leading space makes the program empty. */
  lemma LeadingSpaceGivesEmptyProgram(command: string)
    ensures SplitCommand(" " + command).0 == ""
  {
    assert " " + command == [] + [' '] + command;
    SplitAround([], command, ' ');
    var parts := Split(" " + command, ' ');
    assert parts == [[]] + Split(command, ' ');
    assert parts[0] == "";
  }

  /** `cwd || "/tmp"`. */
  function EffectiveCwd(cwd: Option<string>): (dir: string)
    ensures dir != ""
    ensures cwd.None? || cwd == Some("") <==> dir == "/tmp" && cwd != Some("/tmp")
    ensures cwd.Some? && cwd.value != "" ==> dir == cwd.value
  {
    if cwd.None? || cwd.value == "" then "/tmp" else cwd.value
  }

  /** The process the execute route starts. */
  datatype Launch = Launch(program: string, args: seq<string>, cwd: string)

  /** The launch for a valid body. */
  function LaunchFor(body: CommandExecution): (l: Launch)
    ensures Join([l.program] + l.args, ' ') == body.command
    ensures l.cwd == EffectiveCwd(body.cwd)
  {
    var (program, args) := SplitCommand(body.command);
    Launch(program, args, EffectiveCwd(body.cwd))
  }

  // ---------------------------------------------------------------------
  // The execute route: collecting output
  // ---------------------------------------------------------------------

  /** What the started process reports, in arrival order. */
  datatype ProcessEvent =
    | StdoutData(text: string)
    | StderrData(text: string)
    | Closed(code: Option<int>)
    | LaunchError(message: string)

  predicate IsTerminal(e: ProcessEvent) {
    e.Closed? || e.LaunchError?
  }

  /** The text a chunk adds to stdout (`toStdout`) or stderr. */
  function ChunkText(e: ProcessEvent, toStdout: bool): string {
    match e
    case StdoutData(t) => if toStdout then t else ""
    case StderrData(t) => if toStdout then "" else t
    case _ => ""
  }

  /** One stream's chunks, concatenated in arrival order. */
  function Collected(events: seq<ProcessEvent>, toStdout: bool): string
    decreases |events|
  {
    if events == [] then ""
    else Collected(events[..|events| - 1], toStdout) + ChunkText(events[|events| - 1], toStdout)
  }

  /** Collection distributes over concatenation, so each stream's text
      keeps the order in which its chunks arrived. */
  lemma {:induction false} CollectedConcat(a: seq<ProcessEvent>, b: seq<ProcessEvent>, toStdout: bool)
    ensures Collected(a + b, toStdout) == Collected(a, toStdout) + Collected(b, toStdout)
    decreases |b|
  {
    if b == [] {
      assert a + b == a;
    } else {
      var b', last := b[..|b| - 1], b[|b| - 1];
      assert b == b' + [last];
      assert a + b == (a + b') + [last];
      CollectedConcat(a, b', toStdout);
      CollectedSnoc(a + b', last, toStdout);
      CollectedSnoc(b', last, toStdout);
      AppendAssociative(Collected(a, toStdout), Collected(b', toStdout), ChunkText(last, toStdout));
    }
  }

  /** One more event adds its chunk at the end. */
  lemma CollectedSnoc(events: seq<ProcessEvent>, e: ProcessEvent, toStdout: bool)
    ensures Collected(events + [e], toStdout) == Collected(events, toStdout) + ChunkText(e, toStdout)
  {
    assert (events + [e])[..|events|] == events;
  }

  /** The reply a terminal event sends, given the events before it: a
      close answers 200 with the output so far and its code, a launch
      error 500 with its message, and a chunk nothing. */
  function TerminalReply(before: seq<ProcessEvent>, e: ProcessEvent): (r: Option<Response>)
    ensures r.Some? <==> IsTerminal(e)
    ensures e.Closed? ==> r == Some(Response(200, ExecReply(Collected(before, true), Collected(before, false), e.code)))
    ensures e.LaunchError? ==> r == Some(Response(500, ExecFailure("Execution failed", e.message)))
  {
    match e
    case Closed(code) => Some(Response(200, ExecReply(Collected(before, true), Collected(before, false), code)))
    case LaunchError(message) => Some(Response(500, ExecFailure("Execution failed", message)))
    case _ => None
  }

  /** The reply after these events, by arrival: the first close or launch
      error answers, and nothing later changes that. */
  function ReplyOf(events: seq<ProcessEvent>): Option<Response>
    decreases |events|
  {
    if events == [] then None
    else
      var before := events[..|events| - 1];
      var earlier := ReplyOf(before);
      if earlier.Some? then earlier else TerminalReply(before, events[|events| - 1])
  }

  /** The index of the first close or launch error, or |events|. */
  function FirstTerminal(events: seq<ProcessEvent>): (k: nat)
    ensures k <= |events|
    ensures k < |events| ==> IsTerminal(events[k])
    ensures forall j :: 0 <= j < k ==> !IsTerminal(events[j])
  {
    if events == [] then 0
    else if IsTerminal(events[0]) then 0
    else 1 + FirstTerminal(events[1..])
  }

  /** The reply is the one of the first terminal event, built from the
      chunks that arrived before it; without a terminal event there is no
      reply. */
  lemma {:induction false} ReplyIsFirstTerminal(events: seq<ProcessEvent>)
    ensures var k := FirstTerminal(events);
            ReplyOf(events) == if k < |events| then TerminalReply(events[..k], events[k]) else None
    decreases |events|
  {
    if events != [] {
      var before := events[..|events| - 1];
      ReplyIsFirstTerminal(before);
      var k := FirstTerminal(before);
      var n := FirstTerminal(events);
      if k < |before| {
        assert events[k] == before[k];
        forall j | 0 <= j < k ensures !IsTerminal(events[j]) {
          assert events[j] == before[j];
        }
        FirstTerminalIs(events, k);
        assert before[..k] == events[..k];
      } else {
        forall j | 0 <= j < |before| ensures !IsTerminal(events[j]) {
          assert events[j] == before[j];
        }
        if IsTerminal(events[|events| - 1]) {
          FirstTerminalIs(events, |before|);
          assert before == events[..|before|];
        } else {
          FirstTerminalIs(events, |events|);
        }
      }
    }
  }

  /** The first terminal event is the one with no terminal event before it. */
  lemma FirstTerminalIs(events: seq<ProcessEvent>, k: nat)
    requires k <= |events|
    requires k < |events| ==> IsTerminal(events[k])
    requires forall j :: 0 <= j < k ==> !IsTerminal(events[j])
    ensures FirstTerminal(events) == k
  {
  }

  /** Once a reply is sent, later events do not change it. */
  lemma {:induction false} FirstReplyWins(a: seq<ProcessEvent>, b: seq<ProcessEvent>)
    requires ReplyOf(a).Some?
    ensures ReplyOf(a + b) == ReplyOf(a)
    decreases |b|
  {
    if b == [] {
      assert a + b == a;
    } else {
      var b' := b[..|b| - 1];
      assert (a + b)[..|a + b| - 1] == a + b';
      FirstReplyWins(a, b');
    }
  }

  /** The execute route.  An invalid body gets 400 and starts nothing.
      Otherwise the command is split and started in its working directory
      (`spawnThrows` says whether starting it threw at once, which gets the
      catch-all 500); then stdout and stderr chunks are appended in arrival
      order, and the first close replies 200 with both texts and the exit
      code, the first launch error 500.  `response` is None while neither
      has arrived. */
  method Execute(validation: Validation<CommandExecution>, spawnThrows: bool, events: seq<ProcessEvent>)
    returns (launch: Option<Launch>, response: Option<Response>)
    ensures validation.Invalid? ==> launch.None? && response == Some(Response(400, Message(validation.message)))
    ensures validation.Valid? ==> launch == Some(LaunchFor(validation.value))
    ensures validation.Valid? && spawnThrows ==> response == Some(Response(500, Message("Failed to execute command")))
    ensures validation.Valid? && !spawnThrows ==> response == ReplyOf(events)
  {
    if validation.Invalid? {
      return None, Some(Response(400, Message(validation.message)));
    }
    var (program, args) := SplitCommand(validation.value.command);
    var cwd := if validation.value.cwd.None? || validation.value.cwd.value == "" then "/tmp" else validation.value.cwd.value;
    launch := Some(Launch(program, args, cwd));
    if spawnThrows {
      return launch, Some(Response(500, Message("Failed to execute command")));
    }
    var stdout := "";
    var stderr := "";
    response := None;
    var i := 0;
    while i < |events|
      invariant 0 <= i <= |events|
      invariant stdout == Collected(events[..i], true)
      invariant stderr == Collected(events[..i], false)
      invariant response == ReplyOf(events[..i])
    {
      var e := events[i];
      assert events[..i + 1][..i] == events[..i];
      match e {
        case StdoutData(text) =>
          stdout := stdout + text;
        case StderrData(text) =>
          stderr := stderr + text;
        case Closed(code) =>
          if response.None? {
            response := Some(Response(200, ExecReply(stdout, stderr, code)));
          }
        case LaunchError(message) =>
          if response.None? {
            response := Some(Response(500, ExecFailure("Execution failed", message)));
          }
      }
      i := i + 1;
    }
    assert events[..i] == events;
  }
}
