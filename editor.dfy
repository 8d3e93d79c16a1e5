/** The editor page: it wires the explorer, the tabs, the AI fix and the
    two drag handles to the open-tab session and the panel sizes, and opens
    the project's first file whenever nothing is active. */
module EditorPage {
  import opened Options
  import opened Text
  import opened Schema
  import opened FileSession
  import opened PanelSizes
  import opened DragHandle

  // ---------------------------------------------------------------------
  // The project id
  // ---------------------------------------------------------------------

  /** `parseInt(projectId || "1", 10)`: an absent or empty route parameter
      reads as "1". */
  function ProjectId(param: Option<string>): Option<int> {
    ParseInt(if param.None? || param.value == "" then "1" else param.value)
  }

  /** Without a route parameter the page shows project 1. */
  lemma ProjectIdDefaultsToOne(param: Option<string>)
    requires param.None? || param == Some("")
    ensures ProjectId(param) == Some(1)
  {
    ParseIntOne();
    assert ProjectId(param) == ParseInt("1");
  }

  lemma ParseIntOne()
    ensures ParseInt("1") == Some(1)
  {
    ParseIntOfIntToString(1);
    assert IntToString(1) == "1";
  }

  /** A route built from a project's id leads back to that id. */
  lemma ProjectIdRoundTrip(n: int)
    ensures ProjectId(Some(IntToString(n))) == Some(n)
  {
    ParseIntOfIntToString(n);
  }

  // ---------------------------------------------------------------------
  // The first file, and the effect that opens it
  // ---------------------------------------------------------------------

  /** `files.find(file => file.type === "file")`, as an index: the first
      entry whose type is exactly "file", or |files| when there is none. */
  function FirstFileIndex(files: seq<Entry>): (k: nat)
    ensures k <= |files|
    ensures k < |files| ==> files[k].kind == File
    ensures forall j :: 0 <= j < k ==> files[j].kind != File
  {
    if files == [] then 0
    else if files[0].kind == File then 0
    else 1 + FirstFileIndex(files[1..])
  }

  /** The auto-open effect has nothing left to do: something is active, or
      the project has no file to open. */
  predicate Settled(files: seq<Entry>, active: Option<Entry>) {
    active.Some? || FirstFileIndex(files) == |files|
  }

  /** The open list and active file once the auto-open effect has run:
      with files loaded and nothing active, the first file is opened. */
  function Settle(files: seq<Entry>, openFiles: seq<Entry>, active: Option<Entry>): (r: (seq<Entry>, Option<Entry>))
    ensures Settled(files, r.1)
    ensures active.Some? || FirstFileIndex(files) == |files| ==> r == (openFiles, active)
  {
    if |files| > 0 && active.None? then
      var k := FirstFileIndex(files);
      if k < |files| then (Opened(openFiles, files[k]), Some(files[k])) else (openFiles, active)
    else (openFiles, active)
  }

  /** With nothing open, the effect opens exactly the first entry of type
      "file"; no entry before it has that type. */
  lemma SettleOpensFirstFile(files: seq<Entry>)
    requires exists i :: 0 <= i < |files| && files[i].kind == File
    ensures var r := Settle(files, [], None);
            exists k :: 0 <= k < |files| && r == ([files[k]], Some(files[k]))
              && files[k].kind == File && forall j :: 0 <= j < k ==> files[j].kind != File
  {
    var i :| 0 <= i < |files| && files[i].kind == File;
    var k := FirstFileIndex(files);
    assert k < |files|;
    assert !HasId([], files[k].id);
  }

  /** A project without any entry of type "file" never gets an active
      file from the effect. */
  lemma SettleWithoutFiles(files: seq<Entry>, openFiles: seq<Entry>)
    requires forall i :: 0 <= i < |files| ==> files[i].kind != File
    ensures Settle(files, openFiles, None) == (openFiles, None)
  {
  }

  /** Closing the only tab re-opens the project's first file: the effect
      runs again as soon as nothing is active. */
  lemma {:induction false} ClosingLastTabReopensFirstFile(files: seq<Entry>, only: Entry)
    requires FirstFileIndex(files) < |files|
    ensures var first := files[FirstFileIndex(files)];
            var afterClose := WithoutId([only], only.id);
            Settle(files, afterClose, ActiveAfterClose(Some(only), [only], only.id)) == ([first], Some(first))
  {
    var first := files[FirstFileIndex(files)];
    assert [only][1..] == [];
    assert WithoutId([only], only.id) == [];
    assert !HasId([], first.id);
  }

  // ---------------------------------------------------------------------
  // The page
  // ---------------------------------------------------------------------

  class Workspace {
    /** The project's entries, in store order. */
    const files: seq<Entry>
    const session: Session
    const panels: Panels
    const sidebarHandle: Handle
    const terminalHandle: Handle

    ghost predicate Valid()
      reads this, session, panels, sidebarHandle, terminalHandle
    {
      && session.Valid()
      && Settled(files, session.activeFile)
      && sidebarHandle != terminalHandle
      && sidebarHandle.direction == Horizontal && !sidebarHandle.fromBottom
      && terminalHandle.direction == Vertical && terminalHandle.fromBottom
    }

    /** The page once the project's files are loaded: default panel sizes,
        a horizontal handle for the sidebar, a bottom-anchored vertical one
        for the terminal, and the first file open when there is one. */
    constructor(files: seq<Entry>)
      ensures Valid()
      ensures this.files == files
      ensures (session.openFiles, session.activeFile) == Settle(files, [], None)
      ensures session.position == Position(1, 1)
      ensures panels.sidebarWidth == DefaultSidebarWidth && panels.terminalHeight == DefaultTerminalHeight
      ensures fresh(session) && fresh(panels) && fresh(sidebarHandle) && fresh(terminalHandle)
    {
      this.files := files;
      var s := new Session();
      var p := new Panels();
      session := s;
      panels := p;
      sidebarHandle := new Handle(Horizontal, p.sidebarWidth);
      terminalHandle := new Handle(Vertical, p.terminalHeight, true);
      new;
      RunOpenEffect();
    }

    /** The auto-open effect. */
    method RunOpenEffect()
      requires session.Valid()
      modifies session
      ensures session.Valid()
      ensures (session.openFiles, session.activeFile) == Settle(files, old(session.openFiles), old(session.activeFile))
      ensures session.position == old(session.position)
    {
      if |files| > 0 && session.activeFile.None? {
        var k := FirstFileIndex(files);
        if k < |files| {
          session.OpenFile(files[k]);
        }
      }
    }

    /** handleFileSelect: an explorer click opens the entry only when its
        type is exactly "file"; folders and other types change nothing. */
    method SelectFromExplorer(file: Entry)
      requires Valid()
      modifies session
      ensures Valid()
      ensures file.kind == File ==> session.openFiles == Opened(old(session.openFiles), file) && session.activeFile == Some(file)
      ensures file.kind != File ==> session.openFiles == old(session.openFiles) && session.activeFile == old(session.activeFile)
      ensures session.position == old(session.position)
    {
      if file.kind == File {
        session.OpenFile(file);
      }
    }

    /** A tab click: openFile, which focuses the tab without reordering. */
    method SelectTab(file: Entry)
      requires Valid()
      modifies session
      ensures Valid()
      ensures file.kind != Directory ==> session.openFiles == Opened(old(session.openFiles), file) && session.activeFile == Some(file)
      ensures file.kind == Directory ==> session.openFiles == old(session.openFiles) && session.activeFile == old(session.activeFile)
      ensures session.position == old(session.position)
    {
      session.OpenFile(file);
      RunOpenEffect();
    }

    /** A tab's close button: closeFile by id, after which the auto-open
        effect runs again if nothing is active. */
    method CloseTab(id: int)
      requires Valid()
      modifies session
      ensures Valid()
      ensures (session.openFiles, session.activeFile)
              == Settle(files, WithoutId(old(session.openFiles), id),
                        ActiveAfterClose(old(session.activeFile), old(session.openFiles), id))
      ensures session.position == old(session.position)
    {
      session.CloseFile(id);
      RunOpenEffect();
    }

    /** onApplyFix: the fixed code goes through updateFileContent with the
        active file's id; without an active file nothing happens. */
    method ApplyFix(fixedCode: string, saved: bool) returns (outcome: Option<SaveOutcome>)
      requires Valid()
      modifies session
      ensures Valid()
      ensures old(session.activeFile).None? ==>
                outcome.None? && session.openFiles == old(session.openFiles) && session.activeFile == old(session.activeFile)
      ensures old(session.activeFile).Some? ==>
                var id := old(session.activeFile).value.id;
                && outcome == Some(if saved then Saved else SaveFailed)
                && session.openFiles == WithContent(old(session.openFiles), id, fixedCode)
                && session.activeFile == Some(old(session.activeFile).value.(content := fixedCode))
      ensures session.position == old(session.position)
    {
      outcome := None;
      if session.activeFile.Some? {
        var o := session.UpdateFileContent(session.activeFile.value.id, fixedCode, saved);
        outcome := Some(o);
      }
    }

    /** Mousedown on the sidebar's handle. */
    method StartSidebarDrag(clientX: int, clientY: int)
      requires Valid()
      modifies sidebarHandle
      ensures Valid()
      ensures sidebarHandle.startPos == clientX && sidebarHandle.position == old(sidebarHandle.position)
    {
      sidebarHandle.MouseDown(clientX, clientY);
    }

    /** Mousedown on the terminal's handle. */
    method StartTerminalDrag(clientX: int, clientY: int)
      requires Valid()
      modifies terminalHandle
      ensures Valid()
      ensures terminalHandle.startPos == clientY && terminalHandle.position == old(terminalHandle.position)
    {
      terminalHandle.MouseDown(clientX, clientY);
    }

    /** A mousemove while dragging the sidebar: the width grows by the
        pointer's distance from the drag start, within bounds; the terminal
        keeps its height. */
    method DragSidebar(clientX: int, clientY: int)
      requires Valid()
      modifies panels, sidebarHandle
      ensures Valid()
      ensures panels.sidebarWidth
              == Clamp(old(panels.sidebarWidth) + (clientX - sidebarHandle.startPos), panels.minSidebarWidth, panels.maxSidebarWidth)
      ensures panels.terminalHeight == old(panels.terminalHeight)
      ensures sidebarHandle.startPos == old(sidebarHandle.startPos) && sidebarHandle.position == panels.sidebarWidth
    {
      var delta := sidebarHandle.MouseMove(clientX, clientY);
      panels.HandleSidebarResize(delta);
      sidebarHandle.SetPosition(panels.sidebarWidth);
    }

    /** A mousemove while dragging the terminal: the handle negates the
        pointer's distance and the handler subtracts it again, so the height
        grows by the pointer's own downward distance from the drag start. */
    method DragTerminal(clientX: int, clientY: int)
      requires Valid()
      modifies panels, terminalHandle
      ensures Valid()
      ensures panels.terminalHeight
              == Clamp(old(panels.terminalHeight) + (clientY - terminalHandle.startPos), panels.minTerminalHeight, panels.maxTerminalHeight)
      ensures panels.sidebarWidth == old(panels.sidebarWidth)
      ensures terminalHandle.startPos == old(terminalHandle.startPos) && terminalHandle.position == panels.terminalHeight
    {
      var delta := terminalHandle.MouseMove(clientX, clientY);
      panels.HandleTerminalResize(delta);
      terminalHandle.SetPosition(panels.terminalHeight);
    }
  }

  /** The terminal's handle and handler together: the two sign inversions
      cancel, so the height follows the pointer. */
  lemma TerminalDragFollowsPointer(height: int, start: int, clientX: int, clientY: int, lo: int, hi: int)
    ensures TerminalAfter(height, DragDelta(Vertical, true, start, clientX, clientY), lo, hi)
            == Clamp(height + (clientY - start), lo, hi)
  {
  }

  /** The deltas the sidebar's handle reports while the pointer visits
      the x positions `xs`, the drag having started at `start`. */
  function MoveDeltas(start: int, xs: seq<int>): (deltas: seq<int>)
    ensures |deltas| == |xs|
    ensures forall i :: 0 <= i < |xs| ==> xs[i] == start + deltas[i]
    decreases |xs|
  {
    if xs == [] then [] else [DragDelta(Horizontal, false, start, xs[0], 0)] + MoveDeltas(start, xs[1..])
  }

  /** A total of positive deltas, two or more, exceeds the last one. */
  lemma {:induction false} SumExceedsLast(deltas: seq<int>)
    requires |deltas| >= 2 && forall i :: 0 <= i < |deltas| ==> deltas[i] > 0
    ensures Sum(deltas) > deltas[|deltas| - 1]
    decreases |deltas|
  {
    var rest := deltas[1..];
    if |rest| >= 2 {
      SumExceedsLast(rest);
    } else {
      assert Sum(rest[1..]) == 0;
    }
    assert rest[|rest| - 1] == deltas[|deltas| - 1];
  }

  /** Each move's delta is measured from the drag start but added to the
      width the previous move left: a drag that moves right, with two or
      more moves and no bound reached, widens the sidebar by the total of
      the moves' distances from the start, more than the pointer moved
      (with the default sidebar, moves from 100 to 105 and then to 110
      widen it from 250 to 265). */
  lemma DragStepsCompound(width: int, start: int, xs: seq<int>, lo: int, hi: int)
    requires |xs| >= 2 && forall i :: 0 <= i < |xs| ==> xs[i] > start
    requires StaysInBounds(width, MoveDeltas(start, xs), lo, hi)
    ensures var after := SidebarAfterAll(width, MoveDeltas(start, xs), lo, hi);
            after == width + Sum(MoveDeltas(start, xs)) && after - width > xs[|xs| - 1] - start
  {
    var deltas := MoveDeltas(start, xs);
    SidebarAfterAllAdds(width, deltas, lo, hi);
    SumExceedsLast(deltas);
  }

  /** The evidently intended drag: every move sets the width to the size
      recorded at mousedown plus the move's delta, within bounds. */
  function DragFromStart(width: int, startSize: int, start: int, xs: seq<int>, lo: int, hi: int): (r: int)
    ensures xs == [] ==> r == width
    ensures xs != [] && lo <= hi ==> lo <= r <= hi
    decreases |xs|
  {
    if xs == [] then width
    else DragFromStart(SidebarAfter(startSize, DragDelta(Horizontal, false, start, xs[0], 0), lo, hi),
                       startSize, start, xs[1..], lo, hi)
  }

  /** Measured from the recorded start size, the width after a drag
      depends only on where the pointer ends: a 10 px drag widens the
      sidebar by 10 px, within bounds. */
  lemma {:induction false} DragFromStartFollowsPointer(width: int, startSize: int, start: int, xs: seq<int>, lo: int, hi: int)
    requires xs != []
    ensures DragFromStart(width, startSize, start, xs, lo, hi) == Clamp(startSize + (xs[|xs| - 1] - start), lo, hi)
    decreases |xs|
  {
    if |xs| > 1 {
      DragFromStartFollowsPointer(SidebarAfter(startSize, DragDelta(Horizontal, false, start, xs[0], 0), lo, hi),
                                  startSize, start, xs[1..], lo, hi);
      assert xs[1..][|xs| - 2] == xs[|xs| - 1];
    }
  }
}
