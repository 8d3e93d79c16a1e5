/** The terminal panel: submitting a command, the lines its result adds,
    and recalling earlier commands with the arrow keys. */
module ConsoleSession {
  import opened Options
  import opened Text
  import opened ConsoleHistory
  import opened Schema
  import opened Seqs

  // ---------------------------------------------------------------------
  // What a result adds to the scrollback
  // ---------------------------------------------------------------------

  /** The reply of the execute endpoint; the exit code is absent when the
      process was ended by a signal (`null`). */
  datatype ExecResult = ExecResult(stdout: string, stderr: string, exitCode: Option<int>)

  /** The outcome of the request: a reply, or a failure with the error's
      message when the thrown value was an Error. */
  datatype ExecOutcome = Completed(result: ExecResult) | RequestFailed(message: Option<string>)

  /** "Process exited with code N", with "null" for an absent code. */
  function ExitMessage(code: Option<int>): string {
    "Process exited with code " + (match code case None => "null" case Some(n) => IntToString(n))
  }

  /** The lines a reply adds: Output iff stdout is non-empty, then Error
      iff stderr is non-empty, then the exit message iff the code is not
      0. */
  function ResultLines(r: ExecResult): (lines: seq<Line>)
    ensures |lines| <= 3
    ensures lines == [] <==> r.stdout == [] && r.stderr == [] && r.exitCode == Some(0)
    ensures |lines| == (if r.stdout != [] then 1 else 0) + (if r.stderr != [] then 1 else 0)
                       + (if r.exitCode != Some(0) then 1 else 0)
    ensures r.stdout != [] <==> |lines| > 0 && lines[0] == Line(Output, r.stdout)
    ensures r.stderr != [] ==> lines[if r.stdout != [] then 1 else 0] == Line(Error, r.stderr)
    ensures forall i :: 0 < i < |lines| ==> lines[i].kind == Error
    ensures r.exitCode != Some(0) ==> lines[|lines| - 1] == Line(Error, ExitMessage(r.exitCode))
  {
    (if r.stdout != [] then [Line(Output, r.stdout)] else [])
    + (if r.stderr != [] then [Line(Error, r.stderr)] else [])
    + (if r.exitCode != Some(0) then [Line(Error, ExitMessage(r.exitCode))] else [])
  }

  /** The lines an outcome adds: a failed request adds exactly one Error
      line carrying the failure message. */
  function OutcomeLines(o: ExecOutcome): (lines: seq<Line>)
    ensures o.RequestFailed? ==> lines == [Line(Error, o.message.GetOr("Command execution failed"))]
    ensures o.Completed? ==> lines == ResultLines(o.result)
  {
    match o
    case Completed(r) => ResultLines(r)
    case RequestFailed(m) => [Line(Error, m.GetOr("Command execution failed"))]
  }

  /** Exit messages of different codes differ. */
  lemma ExitMessageInjective(a: Option<int>, b: Option<int>)
    requires ExitMessage(a) == ExitMessage(b)
    ensures a == b
  {
    var prefix := "Process exited with code ";
    var sa := match a case None => "null" case Some(n) => IntToString(n);
    var sb := match b case None => "null" case Some(n) => IntToString(n);
    assert ExitMessage(a)[|prefix|..] == sa && ExitMessage(b)[|prefix|..] == sb;
    assert sa[0] == 'n' <==> a.None?;
    assert sb[0] == 'n' <==> b.None?;
    if a.Some? && b.Some? {
      IntToStringInjective(a.value, b.value);
    }
  }

  /** `clear` and `cls`, surrounded by any whitespace. */
  predicate IsClearCommand(input: string) {
    Trim(input) == "clear" || Trim(input) == "cls"
  }

  // ---------------------------------------------------------------------
  // Recall with ArrowUp / ArrowDown
  // ---------------------------------------------------------------------

  /** The recall index and the input after a key. */
  datatype Recall = Recall(index: int, input: string)

  /** The range the recall index keeps to: -1 at the prompt, otherwise a
      position counted back from the most recent command. */
  predicate IndexInRange(commands: seq<string>, index: int) {
    -1 <= index <= |commands| - 1
  }

  /** ArrowUp: one command further back, if there is one. */
  function RecallUp(commands: seq<string>, index: int, input: string): (r: Recall)
    requires IndexInRange(commands, index)
    ensures IndexInRange(commands, r.index)
    ensures index < |commands| - 1 ==> r == Recall(index + 1, commands[|commands| - 1 - (index + 1)])
    ensures index == |commands| - 1 ==> r == Recall(index, input)
  {
    if |commands| > 0 && index < |commands| - 1 then
      var newIndex := index + 1;
      Recall(newIndex, commands[|commands| - 1 - newIndex])
    else Recall(index, input)
  }

  /** ArrowDown: one command forward, or back to an empty prompt from the
      most recent command; nothing at the prompt. */
  function RecallDown(commands: seq<string>, index: int, input: string): (r: Recall)
    requires IndexInRange(commands, index)
    ensures IndexInRange(commands, r.index)
    ensures index > 0 ==> r == Recall(index - 1, commands[|commands| - 1 - (index - 1)])
    ensures index == 0 ==> r == Recall(-1, "")
    ensures index == -1 ==> r == Recall(index, input)
  {
    if index > 0 then
      var newIndex := index - 1;
      Recall(newIndex, commands[|commands| - 1 - newIndex])
    else if index == 0 then Recall(-1, "")
    else Recall(index, input)
  }

  /** ArrowDown undoes ArrowUp: the index returns, and the input shows the
      command at that index again, or the empty prompt. */
  lemma DownUndoesUp(commands: seq<string>, index: int, input: string)
    requires IndexInRange(commands, index) && index < |commands| - 1
    ensures var up := RecallUp(commands, index, input);
            RecallDown(commands, up.index, up.input)
              == Recall(index, if index == -1 then "" else commands[|commands| - 1 - index])
  {
  }

  /** `k` presses of ArrowUp from the prompt. */
  function UpTimes(commands: seq<string>, k: nat, input: string): (r: Recall)
    ensures IndexInRange(commands, r.index)
  {
    if k == 0 then Recall(-1, input)
    else
      var before := UpTimes(commands, k - 1, input);
      RecallUp(commands, before.index, before.input)
  }

  /** Pressing ArrowUp `k` times from the prompt shows the k-th most
      recent command; further presses stay on the oldest one. */
  lemma {:induction false} UpTimesRecallsKthMostRecent(commands: seq<string>, k: nat, input: string)
    requires 0 < k
    ensures var r := UpTimes(commands, k, input);
            if k <= |commands| then r == Recall(k - 1, commands[|commands| - k])
            else r == Recall(|commands| - 1, if commands == [] then input else commands[0])
  {
    if k > 1 {
      UpTimesRecallsKthMostRecent(commands, k - 1, input);
    }
  }

  // ---------------------------------------------------------------------
  // The panel
  // ---------------------------------------------------------------------

  datatype Key = Enter | ArrowUp | ArrowDown | OtherKey

  /** Enter submits only a non-blank input while no command runs. */
  predicate Accepts(key: Key, input: string, executing: bool) {
    key == Enter && !IsBlank(input) && !executing
  }

  class Console {
    const history: History
    var input: string
    var executing: bool

    ghost predicate Valid()
      reads this, history
    {
      history.Valid() && IndexInRange(history.commands, history.index)
    }

    constructor()
      ensures Valid() && fresh(history)
      ensures history.lines == [] && history.commands == [] && history.index == -1
      ensures input == "" && !executing
    {
      history := new History();
      input := "";
      executing := false;
    }

    /** handleCommand for one key.  An accepted submit first adds the
        Command line with the raw input (so it is remembered even when it
        is `clear`); `clear`/`cls` then empties the scrollback and sends
        nothing; any other command is sent with cwd "/tmp" and the panel
        waits for `Complete`.  ArrowUp and ArrowDown recall, and only reach
        the panel while no command runs, since the input is disabled then;
        anything else, Enter included when not accepted, changes nothing. */
    method KeyDown(key: Key) returns (request: Option<CommandExecution>)
      requires Valid()
      requires !executing || key !in {ArrowUp, ArrowDown}
      modifies this, history
      ensures Valid()
      ensures Accepts(key, old(input), old(executing)) ==>
                history.commands == Recorded(old(history.commands), old(input)) && history.index == -1
      ensures Accepts(key, old(input), old(executing)) && IsClearCommand(old(input)) ==>
                history.lines == [] && input == "" && !executing && request.None?
      ensures Accepts(key, old(input), old(executing)) && !IsClearCommand(old(input)) ==>
                history.lines == old(history.lines) + [Line(Command, old(input))]
                && input == old(input) && executing && request == Some(CommandExecution(old(input), Some("/tmp")))
      ensures key == ArrowUp ==>
                Recall(history.index, input) == RecallUp(old(history.commands), old(history.index), old(input))
      ensures key == ArrowDown ==>
                Recall(history.index, input) == RecallDown(old(history.commands), old(history.index), old(input))
      ensures !Accepts(key, old(input), old(executing)) ==>
                request.None? && executing == old(executing)
                && history.lines == old(history.lines) && history.commands == old(history.commands)
      ensures !Accepts(key, old(input), old(executing)) && key !in {ArrowUp, ArrowDown} ==>
                input == old(input) && history.index == old(history.index)
    {
      request := None;
      var accepted := SubmitAccepted(key, input, executing);
      if accepted {
        executing := true;
        history.AddToHistory(Line(Command, input));
        var clear := ClearRequested(input);
        if clear {
          history.ClearHistory();
          input := "";
          executing := false;
          return;
        }
        request := Some(CommandExecution(input, Some("/tmp")));
      } else if key == ArrowUp {
        RecallOlder();
      } else if key == ArrowDown {
        var r := RecallDown(history.commands, history.index, input);
        history.SetIndex(r.index);
        input := r.input;
      }
    }

    /** The `finally` of a submit, with what the request produced: the
        outcome's lines are appended, the input is cleared and the panel is
        ready for the next command. */
    method Complete(outcome: ExecOutcome)
      requires Valid() && executing
      modifies this, history
      ensures Valid()
      ensures history.lines == old(history.lines) + OutcomeLines(outcome)
      ensures history.commands == old(history.commands) && history.index == old(history.index)
      ensures input == "" && !executing
    {
      var added := OutcomeLines(outcome);
      var i := 0;
      while i < |added|
        invariant 0 <= i <= |added|
        invariant Valid()
        invariant history.lines == old(history.lines) + added[..i]
        invariant history.commands == old(history.commands) && history.index == old(history.index)
      {
        history.AddToHistory(added[i]);
        assert added[..i + 1] == added[..i] + [added[i]];
        AppendAssociative(old(history.lines), added[..i], [added[i]]);
        i := i + 1;
      }
      assert added[..i] == added;
      input := "";
      executing := false;
    }

    /** The ArrowUp button: the same step as the ArrowUp key. */
    method RecallOlder()
      requires Valid()
      modifies this, history
      ensures Valid()
      ensures Recall(history.index, input) == RecallUp(old(history.commands), old(history.index), old(input))
      ensures history.lines == old(history.lines) && history.commands == old(history.commands)
      ensures executing == old(executing)
    {
      var r := RecallUp(history.commands, history.index, input);
      history.SetIndex(r.index);
      input := r.input;
    }

    /** The trash button: the scrollback is emptied. */
    method ClearButton()
      requires Valid()
      modifies history
      ensures Valid()
      ensures history.lines == [] && history.commands == old(history.commands) && history.index == old(history.index)
    {
      history.ClearHistory();
    }
  }

  /** `e.key === "Enter" && command.trim() && !isExecuting`. */
  method SubmitAccepted(key: Key, input: string, executing: bool) returns (accepted: bool)
    ensures accepted == Accepts(key, input, executing)
  {
    accepted := key == Enter && Trim(input) != [] && !executing;
  }

  /** `command.trim() === "clear" || command.trim() === "cls"`. */
  method ClearRequested(input: string) returns (clear: bool)
    ensures clear == IsClearCommand(input)
  {
    var t := Trim(input);
    clear := t == "clear" || t == "cls";
  }
}
