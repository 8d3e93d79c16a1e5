/** The header's Run button: the active file's language decides the
    command line that is sent to the execute endpoint, or the notice shown
    instead. */
module RunButton {
  import opened Options
  import opened Schema
  import opened Text
  import Routes

  /** What pressing Run leads to. */
  datatype RunPlan =
    | NoActiveFile
    | Execute(request: CommandExecution)
    | HtmlPreview
    | Unsupported(message: string)

  /** The command line that runs a file of a supported language. */
  function RunCommand(language: string, name: string): (command: Option<string>)
    ensures command.Some? <==> language in {"javascript", "typescript", "python"}
  {
    match language
    case "javascript" => Some("node " + name)
    case "typescript" => Some("ts-node " + name)
    case "python" => Some("python " + name)
    case _ => None
  }

  /** The description of the "Unsupported language" notice; the column is
      nullable, and an absent language prints as "null". */
  function UnsupportedMessage(language: Option<string>): string {
    "Running " + language.GetOr("null") + " files is not supported yet"
  }

  /** handleRun's decision: nothing without an active file; javascript,
      typescript and python files run with node, ts-node and python in
      /tmp; html gets a preview notice; anything else, a missing language
      included, is reported unsupported. */
  function PlanRun(active: Option<Entry>): (plan: RunPlan)
    ensures active.None? <==> plan == NoActiveFile
    ensures plan.Execute? <==> active.Some? && active.value.language.Some?
                               && RunCommand(active.value.language.value, active.value.name).Some?
    ensures plan.Execute? ==> plan.request.cwd == Some("/tmp")
                              && plan.request.command == RunCommand(active.value.language.value, active.value.name).value
    ensures plan == HtmlPreview <==> active.Some? && active.value.language == Some("html")
    ensures plan.Unsupported? ==> plan.message == UnsupportedMessage(active.value.language)
  {
    match active
    case None => NoActiveFile
    case Some(file) =>
      match file.language
      case None => Unsupported(UnsupportedMessage(None))
      case Some(language) =>
        match RunCommand(language, file.name)
        case Some(command) => Execute(CommandExecution(command, Some("/tmp")))
        case None =>
          if language == "html" then HtmlPreview else Unsupported(UnsupportedMessage(file.language))
  }

  /** The command line names the interpreter, then the file name after a
      single space, so the execute endpoint's split on spaces sees the
      interpreter as the program. */
  lemma RunCommandShape(language: string, name: string)
    requires RunCommand(language, name).Some?
    ensures var command := RunCommand(language, name).value;
            exists program :: program in {"node", "ts-node", "python"} && command == program + " " + name
  {
    var program := match language case "javascript" => "node" case "typescript" => "ts-node" case _ => "python";
    assert RunCommand(language, name).value == program + " " + name;
  }

  /** For a file name without spaces, the execute route starts the
      interpreter with the file name as its only argument, in /tmp. */
  lemma RunLaunchesInterpreter(file: Entry)
    requires ' ' !in file.name
    requires PlanRun(Some(file)).Execute?
    ensures var launch := Routes.LaunchFor(PlanRun(Some(file)).request);
            launch.program in {"node", "ts-node", "python"} && launch.args == [file.name] && launch.cwd == "/tmp"
  {
    var language := file.language.value;
    RunCommandShape(language, file.name);
    var program :| program in {"node", "ts-node", "python"} && RunCommand(language, file.name).value == program + " " + file.name;
    assert ' ' !in program;
    assert Join([program] + [file.name], ' ') == program + " " + file.name;
    Routes.SplitCommandOfJoin(program, [file.name]);
  }

  /** A file name with a space reaches the interpreter as two arguments. */
  lemma NameWithSpaceIsSplit(file: Entry, first: string, second: string)
    requires ' ' !in first && ' ' !in second
    requires file.name == first + " " + second && file.language == Some("python")
    ensures Routes.LaunchFor(PlanRun(Some(file)).request) == Routes.Launch("python", [first, second], "/tmp")
  {
    var parts := ["python"] + [first, second];
    assert parts[1..] == [first, second] && [first, second][1..] == [second];
    assert Join([first, second], ' ') == first + " " + second;
    assert Join(parts, ' ') == "python" + " " + (first + " " + second);
    assert "python " + file.name == Join(parts, ' ');
    Routes.SplitCommandOfJoin("python", [first, second]);
    assert RunCommand("python", file.name) == Some("python " + file.name);
    assert PlanRun(Some(file)).request == CommandExecution("python " + file.name, Some("/tmp"));
    assert Routes.EffectiveCwd(Some("/tmp")) == "/tmp";
  }

  /** Only the language decides: two files with the same language and name
      plan the same run whatever their content. */
  lemma PlanIgnoresContent(file: Entry, content: string)
    ensures PlanRun(Some(file)) == PlanRun(Some(file.(content := content)))
  {
  }

  /** The toast a finished execution request shows. */
  datatype Notice = Notice(title: string, description: string, destructive: bool)

  /** The notice for a plan that sends nothing, and for the outcome of a
      sent request (`failure` is the error's message, or None when the
      thrown value was not an Error). */
  function PlanNotice(plan: RunPlan, succeeded: bool, failure: Option<string>): (n: Notice)
    ensures plan.Execute? && succeeded ==> !n.destructive
    ensures plan.Execute? && !succeeded ==> n.destructive && n.description == failure.GetOr("An unknown error occurred")
    ensures plan == HtmlPreview <==> n.title == "HTML file"
    ensures plan == HtmlPreview ==> !n.destructive
    ensures plan.NoActiveFile? || plan.Unsupported? ==> n.destructive
    ensures plan.NoActiveFile? ==> n.title == "No active file"
    ensures plan.Unsupported? ==> n.title == "Unsupported language" && n.description == plan.message
  {
    match plan
    case NoActiveFile => Notice("No active file", "Please open a file to run", true)
    case HtmlPreview => Notice("HTML file", "HTML files can be previewed in the browser", false)
    case Unsupported(message) => Notice("Unsupported language", message, true)
    case Execute(_) =>
      if succeeded then Notice("Execution complete", "Check the terminal for results", false)
      else Notice("Execution failed", failure.GetOr("An unknown error occurred"), true)
  }

  class Header {
    var isRunning: bool

    constructor()
      ensures !isRunning
    {
      isRunning := false;
    }

    /** handleRun, with the request's outcome given: the plan is PlanRun's,
        and the running flag is false again on every path.  The button is
        disabled while a run is in progress. */
    method Run(active: Option<Entry>, succeeded: bool, failure: Option<string>) returns (plan: RunPlan, notice: Notice)
      requires !isRunning
      modifies this
      ensures plan == PlanRun(active)
      ensures notice == PlanNotice(plan, succeeded, failure)
      ensures !isRunning
    {
      if active.None? {
        plan := NoActiveFile;
        notice := PlanNotice(plan, succeeded, failure);
        return;
      }
      isRunning := true;
      plan := PlanRun(active);
      notice := PlanNotice(plan, succeeded, failure);
      isRunning := false;
    }
  }
}
