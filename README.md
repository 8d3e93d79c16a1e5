# Browser code workspace — verified model of its state engine

This project models, in Dafny, the logic of a browser coding workspace.
The workspace has:

- a file explorer that groups a project's flat list of path-tagged records into folders;
- tabs of open files with one active file;
- a terminal with a scrollback, a command history and arrow-key recall;
- two draggable panel borders;
- a status bar and a Run button;
- the server routes those parts talk to.

Each source file of the core becomes one Dafny module:

| module | file | models |
|---|---|---|
| `FileExplorer` | `file_explorer.dfy` | grouping by parent path, display order, the recursive tree rendering, folder toggling, item creation, the explorer's own extension table; the component's state is the class `Explorer` |
| `FileSession` | `use_files.dfy` | the open-tab list with unique ids, the active file, the cursor; the hook's state is the class `Session` |
| `EditorPage` | `editor.dfy` | the page that wires it all: the project id, explorer selection, the auto-open effect, tab clicks and closes, the AI fix, the two drags (class `Workspace`) |
| `ConsoleHistory` | `use_terminal.dfy` | scrollback and command history with adjacent-duplicate suppression (class `History`) |
| `ConsoleSession` | `terminal.dfy` | the submit/recall state machine and the lines a result adds (class `Console`) |
| `PanelSizes` | `use_resize.dfy` | clamped sidebar width and terminal height (class `Panels`) |
| `DragHandle` | `resize_handle.dfy` | drag start capture and the sign-adjusted, cumulative delta (class `Handle`) |
| `Languages` | `languages.dfy` | extension → language and language → icon |
| `StatusLine` | `status_bar.dfy` | the language label and the position label |
| `RunButton` | `app_header.dfy` | the Run button's language → command decision (class `Header`) |
| `Routes` | `routes.dfy` | status decisions of the project and file routes; the execute route's split, working directory and output collection |

Shared modules:

- `Options`: an `Option` type.
- `Seqs`: a sequence fact the proofs use.
- `Text`: the JavaScript string primitives the code relies on.
  - `trim`;
  - `split`/`join` on one character;
  - ASCII case mapping;
  - printing integers;
  - `parseInt` with radix 10.
- `Schema`: the file record and the execute body.

Modelling conventions:

- React state cells become class fields.
- Every setter becomes a method whose `ensures` gives the new state as a function of the old one.
- The properties are then proved about those functions.
- Asynchronous outcomes are method parameters. These include whether a save or a request succeeded, and the events a spawned process emits.

## Model

| member | source | states |
|---|---|---|
| Text.Trim | client/src/components/Terminal.tsx:43 | `trim()` is the text between a blank prefix and a blank suffix; it is empty exactly for an all-whitespace text, and otherwise neither starts nor ends with whitespace |
| Text.TrimSlice | client/src/components/Terminal.tsx:43 | trimming the start and then the end cuts a blank prefix and a blank suffix and keeps the slice between them |
| Text.TrimEmpty | client/src/components/Terminal.tsx:43 | trimming both ends leaves nothing exactly when the text is blank |
| Text.ToLower | client/src/lib/languages.ts:34 | `toLowerCase()` keeps the length; ToLowerChangesOnlyUpper, ToLowerIdempotent and ToLowerOfConcat state what it changes |
| Text.ToLowerChangesOnlyUpper | client/src/lib/languages.ts:87 | lower-casing changes a character exactly when it is an upper-case ASCII letter, and leaves no upper-case letter |
| Text.Join | client/src/components/FileExplorer.tsx:58 | `join(sep)` of the parts; SplitThenJoin and JoinThenSplit state that it inverts split |
| Text.IntToString | client/src/components/StatusBar.tsx:38 | an integer as a template literal prints it: at least one character, all digits or '-'; ParseIntOfIntToString and IntToStringInjective state that it can be read back and that different integers print differently |
| Text.Split | server/routes.ts:162 | `split` on one character yields at least one part and no part contains the separator |
| Text.SplitThenJoin | server/routes.ts:162-164 | joining the parts of a split with the separator gives the text back |
| Text.JoinThenSplit | client/src/components/FileExplorer.tsx:58-59 | splitting a join of separator-free parts gives the parts back |
| Text.SplitAround | client/src/components/FileExplorer.tsx:58 | a split at one separator is the split of the text before it followed by the split of the text after it |
| Text.SplitCons | client/src/components/FileExplorer.tsx:58 | a separator in front starts a new, empty first part; any other character joins the first part of the rest |
| Text.ToLowerIdempotent | client/src/lib/languages.ts:87 | lower-casing twice is lower-casing once |
| Text.ParseIntOfIntToString | client/src/pages/Editor.tsx:21 | `parseInt(String(n), 10)` is n for every integer |
| Text.IntToStringInjective | client/src/components/StatusBar.tsx:38 | different integers print differently |
| Text.DigitPrefixLength | client/src/pages/Editor.tsx:21 | the longest all-digit prefix, where `parseInt` stops reading |
| Text.ParseInt | client/src/pages/Editor.tsx:21 | `parseInt` is NaN (None) exactly when no digit follows the skipped whitespace and the optional sign |
| Schema.TypeFromText | shared/schema.ts:78 | reading the free-text `type` column: File iff "file", Directory iff "directory", and the text is kept |
| Schema.TypeTextRoundTrip | shared/schema.ts:78 | reading the column never gives an Other type spelled "file" or "directory", and writing a well-formed type and reading it back gives that type |
| FileExplorer.Segments | client/src/components/FileExplorer.tsx:58 | `split('/').filter(Boolean)`: the non-empty, slash-free segments |
| FileExplorer.ParentPathSegments | client/src/components/FileExplorer.tsx:58-59 | the grouping key: its segments are the path's segments without the last one, and it is "/" followed by them joined with "/" |
| FileExplorer.SegmentsAround | client/src/components/FileExplorer.tsx:58 | the segments of `a + "/" + b` are those of a then those of b |
| FileExplorer.DoubledSlashIgnored | client/src/components/FileExplorer.tsx:58 | a doubled slash gives the same segments as a single one |
| FileExplorer.CanonicalRoundTrip | client/src/components/FileExplorer.tsx:59 | a key built from segments splits back into exactly those segments |
| FileExplorer.ParentDepth | client/src/components/FileExplorer.tsx:59 | the key is one level shallower than the path, or the root for a path of depth 0 |
| FileExplorer.RootKey | client/src/components/FileExplorer.tsx:59 | the key is "/" iff the path has at most one non-empty segment |
| FileExplorer.Group | client/src/components/FileExplorer.tsx:61-65 | one key's group holds only entries with that parent key |
| FileExplorer.ParentPath | client/src/components/FileExplorer.tsx:58-59 | the grouping key of a path; ParentPathSegments, ParentDepth and RootKey state what it is |
| FileExplorer.TreeOf | client/src/components/FileExplorer.tsx:53-69 | the dictionary of groups, one entry pushed after another; TreeOfGroups, TreeOfWellKeyed and GroupMultiplicity state its contents |
| FileExplorer.BuildTree | client/src/components/FileExplorer.tsx:53-69 | the forEach/push loop builds exactly `TreeOf(files)` |
| FileExplorer.TreeOfGroups | client/src/components/FileExplorer.tsx:53-69 | the dictionary's keys are exactly the entries' parent keys, and each key holds exactly its group: the entries with that key, in input order |
| FileExplorer.TreeOfKeys | client/src/components/FileExplorer.tsx:53-69 | the dictionary has a key exactly for each parent path some entry has |
| FileExplorer.TreeOfGroupAt | client/src/components/FileExplorer.tsx:53-69 | each key of the dictionary holds that key's group, in input order |
| FileExplorer.KeysSnoc | client/src/components/FileExplorer.tsx:61-63 | one more entry adds exactly its parent key to the keys |
| FileExplorer.GroupSnoc | client/src/components/FileExplorer.tsx:65 | a group grows at its end, and only for entries of its key |
| FileExplorer.GroupOutsideKeys | client/src/components/FileExplorer.tsx:73 | a key no entry has gets the empty group |
| FileExplorer.GroupMultiplicity | client/src/components/FileExplorer.tsx:57-66 | every entry lands in its own key's group as often as it occurs in the input, and in no other group |
| FileExplorer.GroupConcat | client/src/components/FileExplorer.tsx:57-66 | grouping keeps input order: the group of a concatenation is the concatenation of the groups |
| FileExplorer.GroupSizesSum | client/src/components/FileExplorer.tsx:53-69 | the group sizes over all keys add up to the input length |
| FileExplorer.SumSizesSnoc | client/src/components/FileExplorer.tsx:65 | one more entry adds one to the size sum over keys naming its key once |
| FileExplorer.SumSizesEmpty | client/src/components/FileExplorer.tsx:54 | no entries, no group sizes |
| FileExplorer.OccursOnce | client/src/components/FileExplorer.tsx:54 | a key of a map occurs once in a duplicate-free key list |
| FileExplorer.OccursNot | client/src/components/FileExplorer.tsx:54 | a key that is not listed occurs zero times |
| FileExplorer.NonEmptyPartsKeepsNonEmpty | client/src/components/FileExplorer.tsx:58 | `filter(Boolean)` keeps a list of non-empty texts as it is |
| FileExplorer.NonEmptyPartsConcat | client/src/components/FileExplorer.tsx:58 | `filter(Boolean)` distributes over concatenation |
| FileExplorer.NonEmptyPartsCons | client/src/components/FileExplorer.tsx:58 | `filter(Boolean)` drops an empty first part and keeps any other |
| FileExplorer.NameLeReflexive | client/src/components/FileExplorer.tsx:80 | name order is reflexive |
| FileExplorer.NameLeTotal | client/src/components/FileExplorer.tsx:80 | any two names are ordered one way or the other |
| FileExplorer.NameLeAntisymmetric | client/src/components/FileExplorer.tsx:80 | names ordered both ways are equal |
| FileExplorer.NameLeTransitive | client/src/components/FileExplorer.tsx:80 | name order is transitive |
| FileExplorer.Compare | client/src/components/FileExplorer.tsx:76-81 | the corrected comparator; CompareAntisymmetric, CompareTransitive and DisplayOrder state the order it defines |
| FileExplorer.CompareAntisymmetric | client/src/components/FileExplorer.tsx:76-81 | the corrected comparator is antisymmetric |
| FileExplorer.CompareTransitive | client/src/components/FileExplorer.tsx:76-81 | the corrected comparator is transitive |
| FileExplorer.ComparatorAsWrittenInconsistent | client/src/components/FileExplorer.tsx:77-79 | as written, two non-directory entries of different types each compare greater than the other |
| FileExplorer.CompareAsWritten | client/src/components/FileExplorer.tsx:76-81 | the comparator as written; ComparatorAsWrittenInconsistent and ComparatorsAgreeOnFilesAndDirectories state where it fails and where it agrees with Compare |
| FileExplorer.ComparatorsAgreeOnFilesAndDirectories | client/src/components/FileExplorer.tsx:76-81 | on "file" and "directory" entries the written and the corrected comparator agree |
| FileExplorer.Insert | client/src/components/FileExplorer.tsx:76 | insertion adds exactly one copy of the entry |
| FileExplorer.InsertSorted | client/src/components/FileExplorer.tsx:76-81 | insertion into a sorted group keeps it sorted |
| FileExplorer.SortForDisplay | client/src/components/FileExplorer.tsx:76 | the display order is a permutation of the group |
| FileExplorer.SortForDisplaySorted | client/src/components/FileExplorer.tsx:76-81 | the display order is sorted by the comparator |
| FileExplorer.DisplayOrder | client/src/components/FileExplorer.tsx:76-81 | every directory precedes every non-directory, and entries of one rank are in name order |
| FileExplorer.TreeOfWellKeyed | client/src/components/FileExplorer.tsx:53-69 | every key of the tree is a canonical folder path and its group holds that folder's entries |
| FileExplorer.AllKeyedMember | client/src/components/FileExplorer.tsx:59-65 | every entry of a group filed under a key has that key as its parent path |
| FileExplorer.KeyedMember | client/src/components/FileExplorer.tsx:73 | an entry looked up under a folder of a built tree has that folder as its parent path |
| FileExplorer.KeyIsCanonical | client/src/components/FileExplorer.tsx:59 | every key of a built tree is already in the canonical "/"-joined form |
| FileExplorer.DescentExcludesOnlyRoot | client/src/components/FileExplorer.tsx:117 | within a well-keyed group, an entry is deeper than its parent exactly when its path is not "/" |
| FileExplorer.Render | client/src/components/FileExplorer.tsx:72-123 | renderFileTree with descent limited to deeper folders; RenderLevels, CollapsedShowsRootGroup and AsWrittenAgreesWhenFinished state its rows |
| FileExplorer.RenderItems | client/src/components/FileExplorer.tsx:86-120 | the rows of one sorted group and the nested groups of its expanded folders; ItemsLevels, CollapsedItems and ItemsAgreeWhenFinished state them |
| FileExplorer.RenderLevels | client/src/components/FileExplorer.tsx:72-123 | every rendered row is indented by the depth of its group's folder |
| FileExplorer.ItemsLevels | client/src/components/FileExplorer.tsx:85-120 | the same for the rows of a list of items and their nested groups |
| FileExplorer.LevelsMatchConcat | client/src/components/FileExplorer.tsx:85-120 | concatenated row lists keep the indentation property |
| FileExplorer.CollapsedShowsRootGroup | client/src/components/FileExplorer.tsx:86-87 | with every folder but the root collapsed (the root's own flag does not matter), only the root group is shown, one row per entry in display order at level 0 |
| FileExplorer.CollapsedItems | client/src/components/FileExplorer.tsx:117 | with every folder but the root collapsed, no item shows nested rows |
| FileExplorer.InitialView | client/src/components/FileExplorer.tsx:35-41 | a new explorer, with only the root expanded, shows exactly the root group in display order, every row at level 0 |
| FileExplorer.RowFor | client/src/components/FileExplorer.tsx:88-115 | one row: highlighted iff it is the active file; a chevron, pointing down iff the folder is expanded, and the folder icon exactly for folders; otherwise no chevron and the icon of the language, the empty language when there is none |
| FileExplorer.RenderAsWritten | client/src/components/FileExplorer.tsx:72-123 | renderFileTree as written (the descent into every folder, the root included), bounded by a call depth; it sorts with the corrected SortForDisplay, and ComparatorsAgreeOnFilesAndDirectories states that the written comparator agrees with it on files and directories; RootFolderNeverFinishes and AsWrittenAgreesWhenFinished state when it ends and what it gives |
| FileExplorer.RenderItemsAsWritten | client/src/components/FileExplorer.tsx:86-120 | one group as written, sorted with the corrected comparator (ComparatorsAgreeOnFilesAndDirectories states that the two agree on files and directories); ItemsStuckOn and ItemsAgreeWhenFinished state it |
| FileExplorer.RootFolderNeverFinishes | client/src/components/FileExplorer.tsx:36 | as written, an expanded directory entry whose path is "/" makes the rendering of "/" never finish |
| FileExplorer.ItemsStuckOn | client/src/components/FileExplorer.tsx:117 | an item list that descends into a non-finishing group does not finish either |
| FileExplorer.RootLoops | client/src/components/FileExplorer.tsx:117 | as written, descending into a folder no deeper than the current one cannot finish |
| FileExplorer.AsWrittenAgreesWhenFinished | client/src/components/FileExplorer.tsx:72-123 | whenever the written rendering finishes, it produces the corrected rendering |
| FileExplorer.ItemsAgreeWhenFinished | client/src/components/FileExplorer.tsx:85-120 | the same for a list of items |
| FileExplorer.NestedAgreesWhenFinished | client/src/components/FileExplorer.tsx:117 | the nested list under an expanded folder is the same in the as-written render as in the render that stops at cycles, and it is empty exactly when the render would loop back |
| FileExplorer.Toggled | client/src/components/FileExplorer.tsx:45-50 | toggling flips exactly one path's flag, an unset path counting as collapsed; every other path keeps its flag |
| FileExplorer.ToggleTwice | client/src/components/FileExplorer.tsx:45-50 | toggling twice restores the path's expanded state |
| FileExplorer.ExplorerTable | client/src/components/FileExplorer.tsx:181-201 | the explorer's switch gives a non-empty language, and anything but 'plaintext' only for a listed extension |
| FileExplorer.ExplorerLanguage | client/src/components/FileExplorer.tsx:178-179 | getLanguageFromFileName never gives the empty language |
| FileExplorer.ExplorerAgreesWithSharedTable | client/src/components/FileExplorer.tsx:181-201 | wherever the explorer's table names a language, the shared table names the same one |
| FileExplorer.JsxTablesDiffer | client/src/components/FileExplorer.tsx:200 | a `.jsx` name is plaintext for the explorer but javascript for the shared table |
| FileExplorer.NameWithoutDotIsItsOwnExtension | client/src/components/FileExplorer.tsx:179 | a name without '.' is looked up as its own extension |
| FileExplorer.NewItemPath | client/src/components/FileExplorer.tsx:138-140 | the new item's path ends with "/" and the name; outside the root it starts with the current folder's path, and at the root there is no second slash |
| FileExplorer.NewItemRequest | client/src/components/FileExplorer.tsx:137-147 | the body handleCreateItem posts; Explorer.CreateItem and CreatedItemGroupedInCurrentFolder state its use and where the item is grouped |
| FileExplorer.CreatedItemGroupedInCurrentFolder | client/src/components/FileExplorer.tsx:138-140 | an item created with a slash-free name is grouped under the folder it was created in |
| FileExplorer.Explorer.constructor | client/src/components/FileExplorer.tsx:35-41 | the root is expanded, the dialog is closed, the name is empty and the current path is "/" |
| FileExplorer.Explorer.View | client/src/components/FileExplorer.tsx:252 | the rendered rows of the root have levels matching their folders' depths; InitialView states what a new explorer shows |
| FileExplorer.Explorer.ToggleFolder | client/src/components/FileExplorer.tsx:45-50 | the expanded map becomes Toggled(old, path); nothing else changes |
| FileExplorer.Explorer.OpenCreateFile | client/src/components/FileExplorer.tsx:205-208 | the dialog opens for a file |
| FileExplorer.Explorer.OpenCreateFolder | client/src/components/FileExplorer.tsx:211-214 | the dialog opens for a folder |
| FileExplorer.Explorer.SetNewItemName | client/src/components/FileExplorer.tsx:268 | the name field takes the typed text |
| FileExplorer.Explorer.CloseDialog | client/src/components/FileExplorer.tsx:275 | the dialog closes; nothing else changes |
| FileExplorer.Explorer.CreateItem | client/src/components/FileExplorer.tsx:126-175 | no request iff the name is blank; otherwise the request has the project of the first entry, path "/"+name or current+"/"+name, empty content, and a language only for files; once accepted, a folder is marked expanded, the name is cleared and the dialog closes; a refused request changes nothing |
| FileSession.Opened | client/src/hooks/use-files.ts:22-26 | the entry is appended iff its id is not open; the open tabs keep their order |
| FileSession.OpenedKeepsIdsUnique | client/src/hooks/use-files.ts:22-26 | opening keeps open ids unique |
| FileSession.WithoutId | client/src/hooks/use-files.ts:33 | closing removes every entry with the id and keeps only entries that were open |
| FileSession.WithoutIdMultiplicity | client/src/hooks/use-files.ts:33 | closing keeps every copy of every other entry |
| FileSession.WithoutIdConcat | client/src/hooks/use-files.ts:33 | closing preserves the relative order of the remaining tabs |
| FileSession.WithoutAbsentId | client/src/hooks/use-files.ts:33 | closing an id that is not open changes nothing |
| FileSession.WithoutIdKeepsIdsUnique | client/src/hooks/use-files.ts:33 | closing keeps open ids unique |
| FileSession.ActiveAfterClose | client/src/hooks/use-files.ts:36-43 | closing the active file activates the tab at the last index whose id differs from the closed one (every later tab has that id), or none iff no tab remains; closing another file keeps the active one |
| FileSession.LastRemaining | client/src/hooks/use-files.ts:40-41 | the last tab left after closing an id is the tab of another id after which every tab has that id |
| FileSession.WithContent | client/src/hooks/use-files.ts:50-52 | only entries with the id get the new content; length, order and all other fields stay |
| FileSession.ActiveAfterUpdate | client/src/hooks/use-files.ts:55-57 | the active copy gets the content iff its id matches |
| FileSession.UpdateTwice | client/src/hooks/use-files.ts:50-52 | the later of two updates of one id wins |
| FileSession.OpenThenClose | client/src/hooks/use-files.ts:18-33 | opening a file that was not open and closing it gives back the tabs there were |
| FileSession.CloseMiddleActivatesLast | client/src/hooks/use-files.ts:36-43 | with tabs A, B, C and B active, closing B leaves A, C with C active |
| FileSession.Session.constructor | client/src/hooks/use-files.ts:12-14 | no open files, no active file, position (1, 1) |
| FileSession.Session.OpenFile | client/src/hooks/use-files.ts:18-29 | a directory changes nothing; otherwise the open list becomes Opened(old, file) and the argument itself becomes active |
| FileSession.Session.CloseFile | client/src/hooks/use-files.ts:32-44 | the open list becomes WithoutId(old, id) and the active file ActiveAfterClose(…) |
| FileSession.Session.UpdateFileContent | client/src/hooks/use-files.ts:47-70 | the content is updated optimistically as WithContent/ActiveAfterUpdate say, and a failed save only reports and never reverts |
| FileSession.Session.SetPosition | client/src/hooks/use-files.ts:14 | only the cursor moves |
| EditorPage.ProjectId | client/src/pages/Editor.tsx:20-21 | `parseInt(projectId \|\| "1", 10)`; ProjectIdDefaultsToOne and ProjectIdRoundTrip state its values |
| EditorPage.ProjectIdDefaultsToOne | client/src/pages/Editor.tsx:21 | an absent or empty route parameter gives project 1 |
| EditorPage.ParseIntOne | client/src/pages/Editor.tsx:21 | the default text "1" parses to the number 1 |
| EditorPage.ProjectIdRoundTrip | client/src/pages/Editor.tsx:21 | a route built from a project id leads back to that id |
| EditorPage.FirstFileIndex | client/src/pages/Editor.tsx:65 | `files.find(type === "file")`: the first entry of type "file", none before it having that type |
| EditorPage.Settle | client/src/pages/Editor.tsx:62-70 | after the effect something is active or there is no file to open; with an active file it changes nothing |
| EditorPage.SettleOpensFirstFile | client/src/pages/Editor.tsx:62-70 | with nothing open, the effect opens exactly the first entry of type "file" |
| EditorPage.SettleWithoutFiles | client/src/pages/Editor.tsx:66 | without any entry of type "file" the effect does nothing |
| EditorPage.ClosingLastTabReopensFirstFile | client/src/pages/Editor.tsx:62-70 | closing the only tab re-opens the project's first file |
| EditorPage.Workspace.constructor | client/src/pages/Editor.tsx:19-70 | default panel sizes, the two handles as wired, and the first file open when there is one |
| EditorPage.Workspace.RunOpenEffect | client/src/pages/Editor.tsx:62-70 | the session becomes Settle(files, old open list, old active file) |
| EditorPage.Workspace.SelectFromExplorer | client/src/pages/Editor.tsx:55-59 | only an entry of type exactly "file" is opened; anything else changes nothing |
| EditorPage.Workspace.SelectTab | client/src/pages/Editor.tsx:117 | a tab click is openFile: focus without reordering |
| EditorPage.Workspace.CloseTab | client/src/pages/Editor.tsx:118 | closeFile by id, then the auto-open effect |
| EditorPage.Workspace.ApplyFix | client/src/pages/Editor.tsx:137-145 | with an active file, the fix goes through updateFileContent with its id; without one, nothing happens |
| EditorPage.Workspace.StartSidebarDrag | client/src/pages/Editor.tsx:107-111 | mousedown records clientX as the sidebar drag start |
| EditorPage.Workspace.StartTerminalDrag | client/src/pages/Editor.tsx:153-158 | mousedown records clientY as the terminal drag start |
| EditorPage.Workspace.DragSidebar | client/src/pages/Editor.tsx:107-111 | the width becomes clamp(old + (x − start)); the terminal is untouched |
| EditorPage.Workspace.DragTerminal | client/src/pages/Editor.tsx:153-158 | the two inversions cancel: the height becomes clamp(old + (y − start)); the sidebar is untouched |
| EditorPage.TerminalDragFollowsPointer | client/src/pages/Editor.tsx:153-158 | handleTerminalResize applied to a bottom-anchored handle's delta adds the pointer's own distance |
| EditorPage.MoveDeltas | client/src/components/ResizeHandle.tsx:32-37 | one delta per pointer position, each the position's distance from the drag start |
| EditorPage.DragStepsCompound | client/src/components/ResizeHandle.tsx:32-39 | each move's delta is measured from the drag start but added to the current width, so two or more rightward moves within bounds widen the sidebar by the total of their distances from the start, more than the pointer moved |
| EditorPage.DragFromStart | client/src/components/ResizeHandle.tsx:17-22 | a drag measured from the size recorded at mousedown: with no move the width is unchanged, and after any move it lies within the bounds |
| EditorPage.DragFromStartFollowsPointer | client/src/components/ResizeHandle.tsx:17-22 | measured from the size recorded at mousedown, the width after a drag depends only on where the pointer ends |
| ConsoleHistory.Recorded | client/src/hooks/use-terminal.ts:19-25 | the text is appended iff it differs from the last remembered command; no two equal commands become adjacent |
| ConsoleHistory.RecordedTwice | client/src/hooks/use-terminal.ts:21-23 | submitting the same command twice in a row remembers it once |
| ConsoleHistory.NonAdjacentRepeatKept | client/src/hooks/use-terminal.ts:19-25 | a repeat that is not adjacent is remembered again |
| ConsoleHistory.History.constructor | client/src/hooks/use-terminal.ts:9-11 | empty scrollback, empty command history, index -1 |
| ConsoleHistory.History.AddToHistory | client/src/hooks/use-terminal.ts:14-28 | exactly one line is appended; a Command is also recorded and resets the index to -1; Output and Error leave history and index alone |
| ConsoleHistory.History.ClearHistory | client/src/hooks/use-terminal.ts:31-34 | only the scrollback is emptied |
| ConsoleHistory.History.SetIndex | client/src/hooks/use-terminal.ts:42 | only the recall index changes |
| ConsoleSession.ResultLines | client/src/components/Terminal.tsx:70-91 | one line per non-empty stream and one for a non-zero code: Output with stdout first, then Error with stderr right after it, then the exit message last; nothing at all iff both are empty and the code is 0 |
| ConsoleSession.OutcomeLines | client/src/components/Terminal.tsx:92-102 | a failed request adds exactly one Error line with its message |
| ConsoleSession.ExitMessage | client/src/components/Terminal.tsx:86-89 | "Process exited with code" and the code, or null; ExitMessageInjective states that the code can be read back |
| ConsoleSession.ExitMessageInjective | client/src/components/Terminal.tsx:86-89 | exit messages of different codes differ |
| ConsoleSession.RecallUp | client/src/components/Terminal.tsx:108-114 | below len−1 the index increments and the input shows history[len−1−index]; otherwise nothing changes; the index stays in −1..len−1 |
| ConsoleSession.RecallDown | client/src/components/Terminal.tsx:115-125 | above 0 the index decrements and the input shows history[len−1−index]; at 0 it returns to −1 with an empty input; at −1 nothing changes |
| ConsoleSession.DownUndoesUp | client/src/components/Terminal.tsx:108-125 | ArrowDown after ArrowUp restores the index and shows that entry again, or the empty prompt |
| ConsoleSession.UpTimesRecallsKthMostRecent | client/src/components/Terminal.tsx:108-114 | k ArrowUps from the prompt show the k-th most recent command; further presses stay on the oldest |
| ConsoleSession.SubmitAccepted | client/src/components/Terminal.tsx:43 | a submit is accepted only on Enter with a non-blank input and nothing executing |
| ConsoleSession.ClearRequested | client/src/components/Terminal.tsx:54 | `clear` and `cls` after trim |
| ConsoleSession.Console.constructor | client/src/components/Terminal.tsx:29-33 | empty history, empty input, nothing executing |
| ConsoleSession.Console.KeyDown | client/src/components/Terminal.tsx:42-126 | an accepted submit first adds a Command line with the raw input, which is recorded even for `clear`; `clear`/`cls` then empties the scrollback and sends nothing; any other command is sent with cwd "/tmp"; arrows recall, and are only delivered while nothing executes, since the input is disabled then (line 194); a rejected Enter or any other key changes nothing |
| ConsoleSession.Console.Complete | client/src/components/Terminal.tsx:67-107 | the outcome's lines are appended in order, the input is cleared and executing ends |
| ConsoleSession.Console.RecallOlder | client/src/components/Terminal.tsx:146-152 | the ArrowUp button does what the ArrowUp key does |
| ConsoleSession.Console.ClearButton | client/src/components/Terminal.tsx:140 | the trash button empties the scrollback only |
| PanelSizes.Clamp | client/src/hooks/use-resize.ts:18 | for min ≤ max the result lies in [min, max] and equals the value inside the range; above max it is max, below min it is min |
| PanelSizes.ClampIdempotent | client/src/hooks/use-resize.ts:18 | clamping a clamped size changes nothing |
| PanelSizes.ClampMonotone | client/src/hooks/use-resize.ts:18 | a larger request never gives a smaller size |
| PanelSizes.SidebarAfter | client/src/hooks/use-resize.ts:15-20 | the width after one step stays within its bounds and is the old width plus the delta when that is within them |
| PanelSizes.TerminalAfter | client/src/hooks/use-resize.ts:23-28 | the height after one step stays within its bounds and is the old height minus the delta when that is within them |
| PanelSizes.SidebarAfterAll | client/src/hooks/use-resize.ts:15-20 | any sequence of deltas keeps the width in bounds |
| PanelSizes.SidebarAfterAllAdds | client/src/hooks/use-resize.ts:15-20 | while no step meets a bound, the width grows by the deltas' total |
| PanelSizes.SidebarStaysAtBounds | client/src/hooks/use-resize.ts:18 | at a bound, a delta pushing outward leaves the width at that bound |
| PanelSizes.TerminalStaysAtBounds | client/src/hooks/use-resize.ts:26 | the same for the height, with the delta's sign inverted |
| PanelSizes.Panels.constructor | client/src/hooks/use-resize.ts:3-12 | defaults 250 and 200 with bounds [150, 500] and [100, 500], taken unclamped |
| PanelSizes.Panels.HandleSidebarResize | client/src/hooks/use-resize.ts:15-20 | width := clamp(width + delta); the terminal is untouched; in range stays in range |
| PanelSizes.Panels.HandleTerminalResize | client/src/hooks/use-resize.ts:23-28 | height := clamp(height − delta); the sidebar is untouched; in range stays in range |
| DragHandle.DragDelta | client/src/components/ResizeHandle.tsx:32-37 | the pointer's coordinate on the handle's axis is the start plus the delta, the delta negated for a bottom-anchored handle; movement across the axis is ignored |
| DragHandle.DeltasAreCumulative | client/src/components/ResizeHandle.tsx:33-34 | two moves' deltas differ by the pointer's own step: each is measured from the start |
| DragHandle.Handle.constructor | client/src/components/ResizeHandle.tsx:10-17 | start 0, start size the position; fromBottom false unless given |
| DragHandle.Handle.SetPosition | client/src/components/ResizeHandle.tsx:12 | a re-render passes the new size |
| DragHandle.Handle.MouseDown | client/src/components/ResizeHandle.tsx:19-22 | the start is clientX for horizontal, clientY for vertical; the start size is recorded |
| DragHandle.Handle.MouseMove | client/src/components/ResizeHandle.tsx:32-40 | the delta is DragDelta of the recorded start, independent of the start size and the position |
| Languages.Extension | client/src/lib/languages.ts:87 | the text after the last '.', lower-cased; a name without '.' is its own extension |
| Languages.JoinLastPartLength | client/src/lib/languages.ts:87 | the popped part is no longer than the name |
| Languages.TableLanguage | client/src/lib/languages.ts:89-125 | the own entries of extensionMap name only languages of the table |
| Languages.LanguageFromExtensionAsWritten | client/src/lib/languages.ts:86-128 | as written, the lookup yields an inherited object member for extensions such as "constructor" |
| Languages.ConstructorExtensionIsNotALanguage | client/src/lib/languages.ts:127 | as written, a file named `x.constructor` gets the inherited member, not a language |
| Languages.ConstructorExtension | client/src/lib/languages.ts:87 | the extension of `stem.constructor` is "constructor" |
| Languages.ExtensionAfterLastDot | client/src/lib/languages.ts:87 | the extension is the lower-cased text after the last '.', whatever precedes it |
| Languages.SplitLastPart | client/src/lib/languages.ts:87 | the last part of a split is the separator-free tail |
| Languages.LanguageFromExtension | client/src/lib/languages.ts:86-128 | a non-empty language: the table's entry for the extension, or 'plaintext' |
| Languages.AsWrittenAgreesOutsideInheritedNames | client/src/lib/languages.ts:127 | except for inherited member names, the written and the corrected lookup agree |
| Languages.LanguageIgnoresCase | client/src/lib/languages.ts:87 | the lookup is case-insensitive |
| Languages.ExtensionOfLowered | client/src/lib/languages.ts:87 | a lower-cased name has the same extension |
| Languages.JoinOfLowered | client/src/lib/languages.ts:87 | lower-casing commutes with joining on a caseless separator |
| Languages.LowerEach | client/src/lib/languages.ts:87 | lower-casing each part keeps the number of parts and lower-cases the i-th part into the i-th result |
| Languages.LowerKeepsNoDot | client/src/lib/languages.ts:87 | lower-casing never creates a dot, so the last dot of a file name is the same before and after |
| Languages.ToLowerOfConcat | client/src/lib/languages.ts:87 | lower-casing distributes over concatenation |
| Languages.ScriptAliasesCollapse | client/src/lib/languages.ts:90-93 | jsx → javascript and tsx → typescript |
| Languages.HeaderAliasesCollapse | client/src/lib/languages.ts:104-108 | h → c and hpp → cpp |
| Languages.ShellAndYamlAliasesCollapse | client/src/lib/languages.ts:119-122 | yml → yaml and sh, bash → shell |
| Languages.TableEntry | client/src/lib/languages.ts:89-127 | a name ending in a lower-case table extension gets that entry |
| Languages.FileIcon | client/src/lib/languages.ts:33-82 | the generic icon exactly for a language, compared lower-cased, outside the known set |
| Languages.FileIconIgnoresCase | client/src/lib/languages.ts:34 | the icon does not depend on case |
| Languages.TableLanguagesHaveIcons | client/src/lib/languages.ts:33-128 | every language the table yields, except plaintext, yaml and xml, has a specific icon |
| Languages.TableLanguageHasIcon | client/src/lib/languages.ts:33-128 | each table language except plaintext, yaml and xml is already lower-case and has its own icon |
| StatusLine.FormatLanguage | client/src/components/StatusBar.tsx:15-19 | "Plain Text" for the empty tag; otherwise same length, first character upper-cased, the rest verbatim |
| StatusLine.FormatLanguageIdempotent | client/src/components/StatusBar.tsx:15-19 | formatting twice is formatting once |
| StatusLine.PositionLabel | client/src/components/StatusBar.tsx:38 | "Ln l, Col c"; PositionLabelInjective states that the position can be read back |
| StatusLine.PositionLabelInjective | client/src/components/StatusBar.tsx:38 | "Ln l, Col c" determines the position |
| StatusLine.SplitAtComma | client/src/components/StatusBar.tsx:38 | comma-free numerals are recovered from the label |
| RunButton.RunCommand | client/src/components/AppHeader.tsx:34-43 | a command exists exactly for javascript, typescript and python |
| RunButton.UnsupportedMessage | client/src/components/AppHeader.tsx:54 | the notice text, with "null" for a file without a language; PlanRun states when it is shown |
| RunButton.PlanRun | client/src/components/AppHeader.tsx:20-65 | no active file gives no request; node, ts-node or python plus the name, always in cwd "/tmp"; html only a notice; any other language unsupported, a missing one named "null" in the notice |
| RunButton.RunCommandShape | client/src/components/AppHeader.tsx:34-43 | the command is the interpreter, one space, then the file name |
| RunButton.RunLaunchesInterpreter | client/src/components/AppHeader.tsx:62-65 | for a space-free name the arguments passed to spawn are the interpreter as program and the name as its only argument, in /tmp |
| RunButton.NameWithSpaceIsSplit | client/src/components/AppHeader.tsx:42 | for a file name with a space, the arguments passed to spawn hold the name as two arguments |
| RunButton.PlanIgnoresContent | client/src/components/AppHeader.tsx:34 | only language and name decide the plan |
| RunButton.PlanNotice | client/src/components/AppHeader.tsx:44-76 | the toast for each path: no active file gives the destructive "No active file" toast; an unsupported language the destructive "Unsupported language" toast whose description is the plan's message; the HTML preview a non-destructive toast; a failed request shows its message or "An unknown error occurred" |
| RunButton.Header.constructor | client/src/components/AppHeader.tsx:16 | not running |
| RunButton.Header.Run | client/src/components/AppHeader.tsx:20-80 | the plan is PlanRun's and the running flag is false again on every path |
| Routes.Handle | server/routes.ts:15-147 | 400 with the validation message iff a validating route gets an invalid body; 500 iff the store throws; 404 iff a checking route finds nothing, with "Project not found" on project routes and "File not found" on file routes; 201 for creates and 204 with no body for found deletes; 200 and 201 carry the payload |
| Routes.InvalidBodyNeverReachesStore | server/routes.ts:41-46 | with an invalid body the response does not depend on the store |
| Routes.BodylessRoutesIgnoreValidation | server/routes.ts:24-37 | routes without a body ignore validation |
| Routes.SplitCommand | server/routes.ts:162-164 | program and arguments are space-free, and joining them with single spaces gives the command back |
| Routes.SplitCommandOfJoin | server/routes.ts:162-164 | splitting inverts a join of space-free words |
| Routes.DoubledSpaceGivesEmptyArgument | server/routes.ts:162-164 | a doubled space yields an empty argument |
| Routes.LeadingSpaceGivesEmptyProgram | server/routes.ts:163 | a leading space makes the program empty |
| Routes.EffectiveCwd | server/routes.ts:168 | "/tmp" when cwd is absent or empty; a non-empty cwd is used as given |
| Routes.LaunchFor | server/routes.ts:159-170 | the launch joins back to the command and runs in the effective cwd |
| Routes.Collected | server/routes.ts:175-181 | one stream's text; CollectedConcat and CollectedSnoc state that it is its chunks in arrival order |
| Routes.CollectedConcat | server/routes.ts:175-181 | each stream's text is its chunks in arrival order |
| Routes.CollectedSnoc | server/routes.ts:175-181 | one more event appends exactly its chunk of that stream to the collected text |
| Routes.TerminalReply | server/routes.ts:183-197 | a reply exactly for a terminal event: a close answers 200 with each stream's output so far and the exit code, a launch error answers 500 "Execution failed" with its message |
| Routes.FailureMessage | server/routes.ts:20-145 | each route's catch-all 500 message starts with "Failed to " |
| Routes.ReplyOf | server/routes.ts:183-197 | the reply after some events; ReplyIsFirstTerminal and FirstReplyWins state which one it is |
| Routes.FirstTerminal | server/routes.ts:183-197 | the first close or launch error |
| Routes.ReplyIsFirstTerminal | server/routes.ts:172-197 | the reply is that of the first close (200 with both texts and the code) or launch error (500); none without either |
| Routes.FirstTerminalIs | server/routes.ts:183-197 | the first terminal event is at k exactly when none before k is terminal and the one at k (if any) is |
| Routes.FirstReplyWins | server/routes.ts:183-197 | later events never change a sent reply |
| Routes.Execute | server/routes.ts:150-201 | an invalid body gets 400 and starts nothing; a valid one starts LaunchFor(body); a start that throws gets 500; otherwise the reply is ReplyOf(events) |

## Left out

- Rendering, DOM work, toasts other than the Run button's notices (RunButton.PlanNotice), focus, auto-scroll and the `document` listener registration of the drag handles are not modelled.
- The login header, the home page, the Monaco editor binding and the AI assistant panel are not modelled. Only the AI panel's `onApplyFix` callback is kept.
- Asynchrony is not modelled. Every state update takes effect in call order.
  - A save or request outcome is a method parameter.
  - Out-of-order resolution of PUT requests is not modelled.
  - React batching, stale closures and the refetch after an item is created are not modelled.
- The store and the database are abstract. A route sees only what the store call did (`StoreResult`), and validation only its verdict (`Validation`). server/storage.ts is not part of this model.
- `spawn` is not modelled beyond its effect on the reply. The process is the arrival-ordered list of its events, and `spawnThrows` says whether starting it threw at once.
- `shell: true` (server/routes.ts:169) is not modelled. `Launch` is the argument list given to `spawn`; Node joins it back with spaces and runs the line through `/bin/sh -c`, so shell syntax in a file name (`a;ls`, `$(x).py`) is interpreted by the shell rather than reaching the interpreter as one argument.
- A reply attempted after the first one (a close after a launch error) is not modelled. The model keeps the first reply.
- `localeCompare` is modelled as code-point order.
- Case mapping is ASCII only.
- Pixel sizes and client coordinates are unbounded integers.
- The clock in the status bar is not modelled.
- Within one display rank, sorting is specified by order and permutation but not by stability. Entries with equal names may appear in either order.
- The inherited-member lookups on the explorer's `expandedFolders` object and on the grouping dictionary are not modelled. For a folder whose path is `constructor` or `__proto__`, `expandedFolders[path]` is an inherited, truthy member, so the folder counts as expanded; `[...(fileTree()[path] || [])]` then spreads that inherited member, which is not iterable, so the spread throws and the render crashes. Both objects are modelled as maps, so such a folder behaves like any other path.
- FileExplorer.Explorer: `currentPath` never changes from "/". The source has no call that sets it.
- FileExplorer.Explorer.CreateItem: the store's acceptance is the parameter `accepted`. The error toast's text is not modelled.
- FileExplorer.Explorer.View: it states the row levels. The row contents are stated by the lemmas about `Render`.
- RunButton.Header.Run: the button is disabled while a run is in progress, so the method requires `!isRunning`. The "disabled without an active file" state is not needed: that branch is modelled anyway.
- ConsoleSession.Console.Complete: it requires a command in flight. The source calls it only from a submitted command's `finally`.
- EditorPage.Workspace.DragSidebar and DragTerminal keep the page's behaviour as written, each move's delta added to the current size. The corrected drag, from the size recorded at mousedown, is stated only by DragFromStart and DragFromStartFollowsPointer.
- EditorPage.ProjectId: it has no `ensures`. Its behaviour is stated by ProjectIdDefaultsToOne and ProjectIdRoundTrip. `parseInt` of a malformed parameter gives None, which stands for NaN.

## Findings

| source | as written | input that shows it | evidently intended | confidence | as-written member | corrected member |
|---|---|---|---|---|---|---|
| client/src/components/FileExplorer.tsx:77-79 | entries of different types compare by `a.type === "directory" ? -1 : 1` only | a folder holding one entry of type "file" and one of type "image": each compares greater than the other, so the order depends on the sort algorithm | directories first, every other type ranked together, then by name | not executed | FileExplorer.ComparatorAsWrittenInconsistent | FileExplorer.SortForDisplay |
| client/src/components/FileExplorer.tsx:36 | the root is expanded by default and a directory is descended into by its own path | a directory entry whose path is "/": rendering "/" descends into "/" again and never finishes | descend only into folders deeper than the one being rendered | not executed | FileExplorer.RootFolderNeverFinishes | FileExplorer.Render |
| client/src/components/ResizeHandle.tsx:32-39 | every move reports its distance from the drag start, and useResize adds that to the current size; the size recorded at mousedown (`startSizeRef`) is never read | the default sidebar, a drag from x = 100 to 105 and then to 110: the width goes 250, 255, 265, so a 10 px drag widens it by 15 | the size recorded at mousedown plus the move's delta, so the border follows the pointer | not executed | EditorPage.DragStepsCompound | EditorPage.DragFromStartFollowsPointer |
| client/src/lib/languages.ts:127 | `extensionMap[ext] \|\| 'plaintext'` on a plain object literal | a file named `x.constructor`: the lookup returns the inherited `Object` constructor instead of a language | only the map's own entries count, so every other extension gives 'plaintext' | not executed | Languages.ConstructorExtensionIsNotALanguage | Languages.LanguageFromExtension |
