/** The file record the workspace works on: one row of the `files` table
    (id, project, name, path, content, type, optional language).  The
    creation and update timestamps are not part of this model. */
module Schema {
  import opened Options

  /** The `type` column is free text; the code only ever compares it with
      "file" and "directory". */
  datatype EntryType = File | Directory | Other(tag: string)

  /** The text stored in the `type` column. */
  function TypeText(t: EntryType): string {
    match t
    case File => "file"
    case Directory => "directory"
    case Other(tag) => tag
  }

  /** Reads the `type` column. */
  function TypeFromText(text: string): (t: EntryType)
    ensures TypeText(t) == text
    ensures t == File <==> text == "file"
    ensures t == Directory <==> text == "directory"
  {
    if text == "file" then File
    else if text == "directory" then Directory
    else Other(text)
  }

  /** A type as reading the column can give it: an Other tag is never
      "file" or "directory". */
  predicate WellFormedType(t: EntryType) {
    t.Other? ==> t.tag != "file" && t.tag != "directory"
  }

  /** Reading the column always gives a well-formed type, and writing a
      well-formed type and reading it back gives that type. */
  lemma TypeTextRoundTrip(t: EntryType, text: string)
    ensures WellFormedType(TypeFromText(text))
    ensures WellFormedType(t) ==> TypeFromText(TypeText(t)) == t
  {
  }

  /** A file or directory record; `content` is "" when the column is
      empty, and `language` is absent for directories. */
  datatype Entry = Entry(
    id: int,
    projectId: int,
    name: string,
    path: string,
    content: string,
    kind: EntryType,
    language: Option<string>)

  /** A cursor position as the editing surface reports it. */
  datatype Position = Position(lineNumber: int, column: int)

  /** The body of an execute request: the command line and an optional
      working directory. */
  datatype CommandExecution = CommandExecution(command: string, cwd: Option<string>)
}
