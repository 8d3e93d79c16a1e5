/** The open-tab session of the editor: the ordered list of open files,
    which may hold each id once, the active file, and the cursor position. */
module FileSession {
  import opened Options
  import opened Schema

  // ---------------------------------------------------------------------
  // The list operations, as functions of the old list
  // ---------------------------------------------------------------------

  /** Some open entry has this id (`openFiles.some(f => f.id === id)`). */
  predicate HasId(files: seq<Entry>, id: int) {
    exists i :: 0 <= i < |files| && files[i].id == id
  }

  /** No two open entries share an id. */
  predicate UniqueIds(files: seq<Entry>) {
    forall i, j :: 0 <= i < j < |files| ==> files[i].id != files[j].id
  }

  /** The open list after openFile: the entry is appended only when its id
      is not open yet, and the tabs already open keep their order. */
  function Opened(files: seq<Entry>, file: Entry): (r: seq<Entry>)
    ensures HasId(r, file.id)
    ensures |files| <= |r| && r[..|files|] == files
    ensures HasId(files, file.id) ==> r == files
    ensures !HasId(files, file.id) ==> r == files + [file]
  {
    if HasId(files, file.id) then files
    else
      assert (files + [file])[|files|] == file;
      files + [file]
  }

  /** Opening keeps the ids unique. */
  lemma OpenedKeepsIdsUnique(files: seq<Entry>, file: Entry)
    requires UniqueIds(files)
    ensures UniqueIds(Opened(files, file))
  {
  }

  /** `files.filter(f => f.id !== id)`. */
  function WithoutId(files: seq<Entry>, id: int): (r: seq<Entry>)
    ensures !HasId(r, id)
    ensures |r| <= |files|
    ensures forall f :: f in r ==> f in files
  {
    if files == [] then []
    else
      var rest := WithoutId(files[1..], id);
      if files[0].id == id then rest
      else
        assert forall f :: f in [files[0]] + rest ==> f in files;
        [files[0]] + rest
  }

  /** Closing an id keeps every copy of every other entry, and no copy of
      an entry with that id. */
  lemma {:induction false} WithoutIdMultiplicity(files: seq<Entry>, id: int, e: Entry)
    ensures multiset(WithoutId(files, id))[e] == if e.id == id then 0 else multiset(files)[e]
  {
    if files != [] {
      WithoutIdMultiplicity(files[1..], id, e);
      assert files == [files[0]] + files[1..];
    }
  }

  /** Closing distributes over concatenation: the remaining tabs keep
      their relative order. */
  lemma {:induction false} WithoutIdConcat(a: seq<Entry>, b: seq<Entry>, id: int)
    ensures WithoutId(a + b, id) == WithoutId(a, id) + WithoutId(b, id)
  {
    if a == [] {
      assert a + b == b;
    } else {
      assert (a + b)[0] == a[0] && (a + b)[1..] == a[1..] + b;
      WithoutIdConcat(a[1..], b, id);
    }
  }

  /** Closing an id no tab has changes nothing. */
  lemma {:induction false} WithoutAbsentId(files: seq<Entry>, id: int)
    requires !HasId(files, id)
    ensures WithoutId(files, id) == files
  {
    if files != [] {
      assert files[0].id != id;
      assert !HasId(files[1..], id) by {
        forall i | 0 <= i < |files[1..]| ensures files[1..][i].id != id {
          assert files[1..][i] == files[i + 1];
        }
      }
      WithoutAbsentId(files[1..], id);
      assert files == [files[0]] + files[1..];
    }
  }

  /** Closing keeps the ids unique. */
  lemma {:induction false} WithoutIdKeepsIdsUnique(files: seq<Entry>, id: int)
    requires UniqueIds(files)
    ensures UniqueIds(WithoutId(files, id))
  {
    if files != [] {
      var tail := files[1..];
      assert UniqueIds(tail) by {
        forall i, j | 0 <= i < j < |tail| ensures tail[i].id != tail[j].id {
          assert tail[i] == files[i + 1] && tail[j] == files[j + 1];
        }
      }
      WithoutIdKeepsIdsUnique(tail, id);
      var rest := WithoutId(tail, id);
      if files[0].id != id {
        forall j | 0 <= j < |rest| ensures rest[j].id != files[0].id {
          assert rest[j] in tail;
          var k :| 0 <= k < |tail| && tail[k] == rest[j];
          assert files[k + 1] == rest[j];
        }
        var r := [files[0]] + rest;
        forall i, j | 0 <= i < j < |r| ensures r[i].id != r[j].id {
          if i > 0 {
            assert r[i] == rest[i - 1] && r[j] == rest[j - 1];
          } else {
            assert r[j] == rest[j - 1];
          }
        }
      }
    }
  }

  /** The active file after closing `id`: the last remaining tab, or none,
      when the active file was the one closed; otherwise unchanged. */
  function ActiveAfterClose(active: Option<Entry>, files: seq<Entry>, id: int): (r: Option<Entry>)
    ensures r.Some? ==> r.value.id != id || r == active
    ensures active.Some? && active.value.id == id ==>
              (r.None? <==> WithoutId(files, id) == []) && (r.Some? ==> r.value in WithoutId(files, id))
    ensures active.Some? && active.value.id == id && r.Some? ==>
              exists k :: 0 <= k < |files| && files[k] == r.value && files[k].id != id
                          && forall j :: k < j < |files| ==> files[j].id == id
    ensures (active.None? || active.value.id != id) ==> r == active
  {
    if active.Some? && active.value.id == id then
      var remaining := WithoutId(files, id);
      if |remaining| > 0 then
        LastRemaining(files, id);
        Some(remaining[|remaining| - 1])
      else None
    else active
  }

  /** The last tab left after closing `id` is the tab of another id after
      which every tab has that id. */
  lemma {:induction false} LastRemaining(files: seq<Entry>, id: int)
    requires WithoutId(files, id) != []
    ensures var remaining := WithoutId(files, id);
            exists k :: 0 <= k < |files| && files[k] == remaining[|remaining| - 1] && files[k].id != id
                        && forall j :: k < j < |files| ==> files[j].id == id
  {
    var tail := files[1..];
    var rest := WithoutId(tail, id);
    if rest != [] {
      LastRemaining(tail, id);
      var k :| 0 <= k < |tail| && tail[k] == rest[|rest| - 1] && tail[k].id != id
               && forall j :: k < j < |tail| ==> tail[j].id == id;
      assert files[k + 1] == tail[k];
      forall j | k + 1 < j < |files| ensures files[j].id == id {
        assert files[j] == tail[j - 1];
      }
    } else {
      assert files[0].id != id;
      forall j | 0 < j < |files| ensures files[j].id == id {
        assert files[j] == tail[j - 1];
        NoneRemaining(tail, id, j - 1);
      }
    }
  }

  /** When closing `id` leaves nothing, every tab had that id. */
  lemma NoneRemaining(files: seq<Entry>, id: int, j: int)
    requires WithoutId(files, id) == [] && 0 <= j < |files|
    ensures files[j].id == id
  {
    WithoutIdMultiplicity(files, id, files[j]);
    assert files[j] in multiset(files);
  }

  /** The open list after updateFileContent: only the content of entries
      with that id changes; length, order and every other field stay. */
  function WithContent(files: seq<Entry>, id: int, content: string): (r: seq<Entry>)
    ensures |r| == |files|
    ensures forall i :: 0 <= i < |r| ==> r[i] == files[i].(content := r[i].content)
    ensures forall i :: 0 <= i < |r| ==> r[i].content == if files[i].id == id then content else files[i].content
  {
    seq(|files|, i requires 0 <= i < |files| => if files[i].id == id then files[i].(content := content) else files[i])
  }

  /** The active copy after an update: its content changes iff its id
      matches. */
  function ActiveAfterUpdate(active: Option<Entry>, id: int, content: string): (r: Option<Entry>)
    ensures r.Some? <==> active.Some?
    ensures r.Some? ==> r.value == active.value.(content := r.value.content)
    ensures r.Some? ==> r.value.content == if active.value.id == id then content else active.value.content
  {
    if active.Some? && active.value.id == id then Some(active.value.(content := content)) else active
  }

  /** The later of two updates of the same id wins. */
  lemma UpdateTwice(files: seq<Entry>, id: int, c1: string, c2: string)
    ensures WithContent(WithContent(files, id, c1), id, c2) == WithContent(files, id, c2)
  {
  }

  /** Opening a file that was not open and closing it again gives back
      the tabs there were. */
  lemma OpenThenClose(files: seq<Entry>, file: Entry)
    requires !HasId(files, file.id)
    ensures WithoutId(Opened(files, file), file.id) == files
  {
    WithoutIdConcat(files, [file], file.id);
    WithoutAbsentId(files, file.id);
  }

  /** With tabs A, B, C open and B active, closing B makes C active. */
  lemma CloseMiddleActivatesLast(a: Entry, b: Entry, c: Entry)
    requires a.id != b.id && b.id != c.id
    ensures ActiveAfterClose(Some(b), [a, b, c], b.id) == Some(c)
    ensures WithoutId([a, b, c], b.id) == [a, c]
  {
    assert [a, b, c][1..] == [b, c];
    assert [b, c][1..] == [c];
    assert [c][1..] == [];
    assert WithoutId([c], b.id) == [c];
    assert WithoutId([b, c], b.id) == [c];
    assert WithoutId([a, b, c], b.id) == [a] + [c];
  }

  // ---------------------------------------------------------------------
  // The session
  // ---------------------------------------------------------------------

  /** Why an update was not saved, if it was not. */
  datatype SaveOutcome = Saved | SaveFailed

  class Session {
    var openFiles: seq<Entry>
    var activeFile: Option<Entry>
    var position: Position

    /** Open ids are unique, no folder is open, the active file's id is
        that of an open tab, and there is an active file whenever a tab is
        open. */
    ghost predicate Valid()
      reads this
    {
      && UniqueIds(openFiles)
      && (forall i :: 0 <= i < |openFiles| ==> openFiles[i].kind != Directory)
      && (activeFile.Some? ==> HasId(openFiles, activeFile.value.id) && activeFile.value.kind != Directory)
      && (activeFile.None? ==> openFiles == [])
    }

    /** No tabs, no active file, the cursor at line 1, column 1. */
    constructor()
      ensures Valid()
      ensures openFiles == [] && activeFile == None && position == Position(1, 1)
    {
      openFiles := [];
      activeFile := None;
      position := Position(1, 1);
    }

    /** openFile: a folder changes nothing; otherwise the file is appended
        when its id is not open, and the argument itself becomes active,
        even when an older copy of it is the one in the tab list. */
    method OpenFile(file: Entry)
      requires Valid()
      modifies this
      ensures Valid()
      ensures file.kind == Directory ==> openFiles == old(openFiles) && activeFile == old(activeFile)
      ensures file.kind != Directory ==> openFiles == Opened(old(openFiles), file) && activeFile == Some(file)
      ensures position == old(position)
    {
      if file.kind == Directory {
        return;
      }
      var isOpen := HasId(openFiles, file.id);
      OpenedKeepsIdsUnique(openFiles, file);
      if !isOpen {
        openFiles := openFiles + [file];
      }
      activeFile := Some(file);
    }

    /** closeFile: every tab with the id goes; if the active file had it,
        the last remaining tab becomes active, or none. */
    method CloseFile(id: int)
      requires Valid()
      modifies this
      ensures Valid()
      ensures openFiles == WithoutId(old(openFiles), id)
      ensures activeFile == ActiveAfterClose(old(activeFile), old(openFiles), id)
      ensures position == old(position)
    {
      var remaining := WithoutId(openFiles, id);
      WithoutIdKeepsIdsUnique(openFiles, id);
      forall i | 0 <= i < |remaining| ensures remaining[i].kind != Directory {
        assert remaining[i] in openFiles;
      }
      if activeFile.Some? && activeFile.value.id == id {
        activeFile := if |remaining| > 0 then Some(remaining[|remaining| - 1]) else None;
      } else if activeFile.Some? {
        var k :| 0 <= k < |openFiles| && openFiles[k].id == activeFile.value.id;
        WithoutIdMultiplicity(openFiles, id, openFiles[k]);
        assert openFiles[k] in multiset(remaining);
        var m :| 0 <= m < |remaining| && remaining[m] == openFiles[k];
      }
      openFiles := remaining;
    }

    /** updateFileContent: the new content goes into every tab with the id
        and into the active copy when its id matches, before the save is
        attempted; a failed save (`saved` false) is only reported and the
        edit is kept. */
    method UpdateFileContent(id: int, content: string, saved: bool) returns (outcome: SaveOutcome)
      requires Valid()
      modifies this
      ensures Valid()
      ensures openFiles == WithContent(old(openFiles), id, content)
      ensures activeFile == ActiveAfterUpdate(old(activeFile), id, content)
      ensures position == old(position)
      ensures outcome == if saved then Saved else SaveFailed
    {
      var updated := WithContent(openFiles, id, content);
      if activeFile.Some? {
        var k :| 0 <= k < |openFiles| && openFiles[k].id == activeFile.value.id;
        assert updated[k].id == activeFile.value.id;
      }
      openFiles := updated;
      activeFile := ActiveAfterUpdate(activeFile, id, content);
      outcome := if saved then Saved else SaveFailed;
    }

    /** setPosition: the cursor moves; nothing else changes. */
    method SetPosition(p: Position)
      requires Valid()
      modifies this
      ensures Valid()
      ensures position == p && openFiles == old(openFiles) && activeFile == old(activeFile)
    {
      position := p;
    }
  }
}
