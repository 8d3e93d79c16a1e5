/** The terminal's scrollback and its command history: every line is
    appended to the scrollback, and every command is remembered for recall
    unless it repeats the one remembered last. */
module ConsoleHistory {

  datatype LineKind = Command | Output | Error

  /** One scrollback line. */
  datatype Line = Line(kind: LineKind, content: string)

  /** No command is remembered twice in a row. */
  predicate NoAdjacentDuplicates(commands: seq<string>) {
    forall i :: 0 <= i < |commands| - 1 ==> commands[i] != commands[i + 1]
  }

  /** The command history after a command is submitted: the text is
      appended unless it equals the last remembered command. */
  function Recorded(commands: seq<string>, text: string): (r: seq<string>)
    ensures |r| > 0 && r[|r| - 1] == text
    ensures r == commands <==> commands != [] && commands[|commands| - 1] == text
    ensures r != commands ==> r == commands + [text]
    ensures NoAdjacentDuplicates(commands) ==> NoAdjacentDuplicates(r)
  {
    if |commands| > 0 && commands[|commands| - 1] == text then commands
    else
      var r := commands + [text];
      assert r != commands by { assert |r| != |commands|; }
      r
  }

  /** Submitting the same command twice in a row remembers it once. */
  lemma RecordedTwice(commands: seq<string>, text: string)
    ensures Recorded(Recorded(commands, text), text) == Recorded(commands, text)
  {
  }

  /** A repeat that is not adjacent is remembered again. */
  lemma NonAdjacentRepeatKept(a: string, b: string)
    requires a != b
    ensures Recorded(Recorded(Recorded([], a), b), a) == [a, b, a]
  {
  }

  /** useTerminal's state. */
  class History {
    var lines: seq<Line>
    var commands: seq<string>
    var index: int

    ghost predicate Valid()
      reads this
    {
      NoAdjacentDuplicates(commands)
    }

    /** Empty scrollback, empty command history, index -1. */
    constructor()
      ensures Valid()
      ensures lines == [] && commands == [] && index == -1
    {
      lines := [];
      commands := [];
      index := -1;
    }

    /** addToHistory: the line is appended to the scrollback; a Command
        line is also remembered and resets the recall index to -1, while
        Output and Error lines leave both alone. */
    method AddToHistory(entry: Line)
      requires Valid()
      modifies this
      ensures Valid()
      ensures lines == old(lines) + [entry]
      ensures entry.kind == Command ==> commands == Recorded(old(commands), entry.content) && index == -1
      ensures entry.kind != Command ==> commands == old(commands) && index == old(index)
    {
      lines := lines + [entry];
      if entry.kind == Command {
        commands := Recorded(commands, entry.content);
        index := -1;
      }
    }

    /** clearHistory: the scrollback only is emptied. */
    method ClearHistory()
      requires Valid()
      modifies this
      ensures Valid()
      ensures lines == [] && commands == old(commands) && index == old(index)
    {
      lines := [];
    }

    /** setCurrentCommandIndex. */
    method SetIndex(i: int)
      requires Valid()
      modifies this
      ensures Valid()
      ensures index == i && lines == old(lines) && commands == old(commands)
    {
      index := i;
    }
  }
}
