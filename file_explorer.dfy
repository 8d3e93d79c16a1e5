/** The file explorer: the flat file list grouped by parent folder, each
    group put in display order, the folders rendered recursively as the
    expanded/collapsed map allows, and the dialog that creates a new file
    or folder. */
module FileExplorer {
  import opened Options
  import opened Text
  import opened Schema
  import opened Seqs
  import opened Languages

  // ---------------------------------------------------------------------
  // Paths: non-empty segments and the parent-folder key
  // ---------------------------------------------------------------------

  /** `parts.filter(Boolean)`: the parts that are not the empty string. */
  function NonEmptyParts(parts: seq<string>): (r: seq<string>)
    ensures forall i :: 0 <= i < |r| ==> r[i] != [] && r[i] in parts
  {
    if parts == [] then []
    else if parts[0] == [] then NonEmptyParts(parts[1..])
    else [parts[0]] + NonEmptyParts(parts[1..])
  }

  /** The segments of a path: leading, trailing and doubled slashes give
      no segment. */
  function Segments(path: string): (segs: seq<string>)
    ensures forall i :: 0 <= i < |segs| ==> segs[i] != [] && '/' !in segs[i]
  {
    NonEmptyParts(Split(path, '/'))
  }

  /** The number of segments of a path; "/" has depth 0. */
  function Depth(path: string): nat {
    |Segments(path)|
  }

  /** Segments a canonical path is built from. */
  predicate ValidSegments(segs: seq<string>) {
    forall i :: 0 <= i < |segs| ==> segs[i] != [] && '/' !in segs[i]
  }

  /** The canonical spelling of a folder: "/" followed by its segments
      joined with "/". */
  function Canonical(segs: seq<string>): string {
    "/" + Join(segs, '/')
  }

  /** All segments but the last. */
  function DropLast(segs: seq<string>): seq<string> {
    if segs == [] then [] else segs[..|segs| - 1]
  }

  /** The key an entry is grouped under: "/" for a path of at most one
      segment, otherwise "/" and all but the last segment joined by "/".
      The key is the canonical spelling of the path's parent folder. */
  function ParentPath(path: string): string {
    Canonical(DropLast(Segments(path)))
  }

  /** The key's segments are the path's segments without the last one,
      and the key is the canonical spelling of them. */
  lemma ParentPathSegments(path: string)
    ensures Segments(ParentPath(path)) == DropLast(Segments(path))
    ensures ParentPath(path) == Canonical(Segments(ParentPath(path)))
  {
    CanonicalRoundTrip(DropLast(Segments(path)));
  }

  lemma {:induction false} NonEmptyPartsKeepsNonEmpty(parts: seq<string>)
    requires forall i :: 0 <= i < |parts| ==> parts[i] != []
    ensures NonEmptyParts(parts) == parts
  {
    if parts != [] {
      NonEmptyPartsKeepsNonEmpty(parts[1..]);
    }
  }

  lemma {:induction false} NonEmptyPartsConcat(a: seq<string>, b: seq<string>)
    ensures NonEmptyParts(a + b) == NonEmptyParts(a) + NonEmptyParts(b)
  {
    if a == [] {
      assert a + b == b;
    } else {
      var p, t := a[0], a[1..];
      assert a == [p] + t;
      assert a + b == [p] + (t + b);
      NonEmptyPartsConcat(t, b);
      NonEmptyPartsCons(p, t + b);
      NonEmptyPartsCons(p, t);
    }
  }

  /** One step of `filter(Boolean)`. */
  lemma NonEmptyPartsCons(p: string, t: seq<string>)
    ensures NonEmptyParts([p] + t) == if p == [] then NonEmptyParts(t) else [p] + NonEmptyParts(t)
  {
    assert ([p] + t)[0] == p && ([p] + t)[1..] == t;
  }

  /** The segments of `a + "/" + b` are those of `a` followed by those of
      `b`; so extra slashes anywhere change no key. */
  lemma SegmentsAround(a: string, b: string)
    ensures Segments(a + "/" + b) == Segments(a) + Segments(b)
  {
    SplitAround(a, b, '/');
    assert a + "/" + b == a + ['/'] + b;
    NonEmptyPartsConcat(Split(a, '/'), Split(b, '/'));
  }

  /** A doubled slash is read as one. */
  lemma DoubledSlashIgnored(a: string, b: string)
    ensures Segments(a + "//" + b) == Segments(a + "/" + b)
  {
    assert a + "//" + b == a + "/" + ("/" + b);
    SegmentsAround(a, "/" + b);
    assert "/" + b == [] + "/" + b;
    SegmentsAround([], b);
    assert Segments([]) == [] by {
      assert Split([], '/') == [[]];
    }
    SegmentsAround(a, b);
  }

  /** The canonical spelling of valid segments reads back as those
      segments. */
  lemma CanonicalRoundTrip(segs: seq<string>)
    requires ValidSegments(segs)
    ensures Segments(Canonical(segs)) == segs
  {
    if segs == [] {
      assert Canonical(segs) == "/";
      assert Split("/", '/') == [[]] + Split([], '/');
    } else {
      var parts := [[]] + segs;
      assert parts[1..] == segs;
      assert Join(parts, '/') == Canonical(segs);
      JoinThenSplit(parts, '/');
      NonEmptyPartsKeepsNonEmpty(segs);
    }
  }

  /** A key has one segment fewer than the path it is the key of, unless
      the path has none. */
  lemma ParentDepth(path: string)
    ensures Depth(ParentPath(path)) == if Depth(path) == 0 then 0 else Depth(path) - 1
  {
    ParentPathSegments(path);
  }

  /** The only key of depth 0 is "/"; every other key is the folder of a
      path with two or more segments. */
  lemma RootKey(path: string)
    ensures Depth(ParentPath(path)) == 0 <==> ParentPath(path) == "/"
    ensures ParentPath(path) == "/" <==> Depth(path) <= 1
  {
    var key := ParentPath(path);
    CanonicalRoundTrip([]);
    assert Canonical([]) == "/";
  }

  // ---------------------------------------------------------------------
  // fileTree: grouping by parent key
  // ---------------------------------------------------------------------

  /** The entries grouped under `key`, in input order. */
  function Group(files: seq<Entry>, key: string): (g: seq<Entry>)
    ensures forall i :: 0 <= i < |g| ==> ParentPath(g[i].path) == key
    ensures |g| <= |files|
  {
    if files == [] then []
    else
      var last := files[|files| - 1];
      Group(files[..|files| - 1], key) + (if ParentPath(last.path) == key then [last] else [])
  }

  /** The keys the grouping creates. */
  function Keys(files: seq<Entry>): set<string> {
    set i | 0 <= i < |files| :: ParentPath(files[i].path)
  }

  /** The dictionary after pushing one entry onto the group of its parent
      key, the group being created on first use. */
  function Pushed(tree: map<string, seq<Entry>>, file: Entry): map<string, seq<Entry>> {
    var k := ParentPath(file.path);
    tree[k := (if k in tree then tree[k] else []) + [file]]
  }

  /** The dictionary fileTree() returns: every entry pushed in turn. */
  function TreeOf(files: seq<Entry>): map<string, seq<Entry>> {
    if files == [] then map[] else Pushed(TreeOf(files[..|files| - 1]), files[|files| - 1])
  }

  /** fileTree(): each entry is pushed onto the group of its parent key,
      the group being created on first use. */
  method BuildTree(files: seq<Entry>) returns (tree: map<string, seq<Entry>>)
    ensures tree == TreeOf(files)
  {
    tree := map[];
    var i := 0;
    while i < |files|
      invariant 0 <= i <= |files|
      invariant tree == TreeOf(files[..i])
    {
      var file := files[i];
      var parent := ParentPath(file.path);
      var group := if parent in tree then tree[parent] else [];
      tree := tree[parent := group + [file]];
      TreeOfPrefix(files, i);
      i := i + 1;
    }
    assert files[..i] == files;
  }

  /** One more entry of the list pushes that entry onto the tree. */
  lemma TreeOfPrefix(files: seq<Entry>, i: nat)
    requires i < |files|
    ensures TreeOf(files[..i + 1]) == Pushed(TreeOf(files[..i]), files[i])
  {
    assert files[..i + 1][..i] == files[..i];
  }

  /** The tree holds exactly the parent keys of the entries, and under each
      key the entries with that key, in input order. */
  lemma TreeOfGroups(files: seq<Entry>)
    ensures TreeOf(files).Keys == Keys(files)
    ensures forall k :: k in TreeOf(files) ==> TreeOf(files)[k] == Group(files, k)
  {
    TreeOfKeys(files);
    forall k | k in TreeOf(files) ensures TreeOf(files)[k] == Group(files, k) {
      TreeOfGroupAt(files, k);
    }
  }

  lemma {:induction false} TreeOfKeys(files: seq<Entry>)
    ensures TreeOf(files).Keys == Keys(files)
  {
    if files != [] {
      var init, last := files[..|files| - 1], files[|files| - 1];
      assert files == init + [last];
      TreeOfKeys(init);
      KeysSnoc(init, last);
    }
  }

  lemma {:induction false} TreeOfGroupAt(files: seq<Entry>, k: string)
    ensures k in TreeOf(files) ==> TreeOf(files)[k] == Group(files, k)
  {
    if files != [] {
      var init, last := files[..|files| - 1], files[|files| - 1];
      assert files == init + [last];
      TreeOfGroupAt(init, k);
      GroupSnoc(init, last, k);
      if k == ParentPath(last.path) && k !in TreeOf(init) {
        TreeOfKeys(init);
        GroupOutsideKeys(init, k);
      }
    }
  }

  lemma KeysSnoc(files: seq<Entry>, file: Entry)
    ensures Keys(files + [file]) == Keys(files) + {ParentPath(file.path)}
  {
    var all := files + [file];
    forall x | x in Keys(all) ensures x in Keys(files) + {ParentPath(file.path)} {
      var i :| 0 <= i < |all| && ParentPath(all[i].path) == x;
      if i < |files| { assert all[i] == files[i]; }
    }
    forall x | x in Keys(files) ensures x in Keys(all) {
      var i :| 0 <= i < |files| && ParentPath(files[i].path) == x;
      assert all[i] == files[i];
    }
    assert all[|files|] == file;
  }

  lemma GroupSnoc(files: seq<Entry>, file: Entry, key: string)
    ensures Group(files + [file], key) == Group(files, key) + (if ParentPath(file.path) == key then [file] else [])
  {
    var all := files + [file];
    assert all[..|all| - 1] == files;
  }

  /** A key no entry has holds no entry. */
  lemma {:induction false} GroupOutsideKeys(files: seq<Entry>, key: string)
    requires key !in Keys(files)
    ensures Group(files, key) == []
  {
    if files != [] {
      var init := files[..|files| - 1];
      assert Keys(init) <= Keys(files) by {
        forall x | x in Keys(init) ensures x in Keys(files) {
          var i :| 0 <= i < |init| && ParentPath(init[i].path) == x;
          assert files[i] == init[i];
        }
      }
      assert ParentPath(files[|files| - 1].path) in Keys(files);
      GroupOutsideKeys(init, key);
    }
  }

  /** Every copy of an entry lands in the group of its own key and in no
      other group. */
  lemma {:induction false} GroupMultiplicity(files: seq<Entry>, key: string, e: Entry)
    ensures multiset(Group(files, key))[e]
            == if ParentPath(e.path) == key then multiset(files)[e] else 0
  {
    if files != [] {
      var init := files[..|files| - 1];
      var last := files[|files| - 1];
      assert files == init + [last];
      GroupMultiplicity(init, key, e);
    }
  }

  /** Grouping distributes over concatenation: within a group, entries
      keep their input order. */
  lemma {:induction false} GroupConcat(a: seq<Entry>, b: seq<Entry>, key: string)
    ensures Group(a + b, key) == Group(a, key) + Group(b, key)
  {
    if b == [] {
      assert a + b == a;
    } else {
      var init := b[..|b| - 1];
      var last := b[|b| - 1];
      assert (a + b)[..|a + b| - 1] == a + init;
      assert (a + b)[|a + b| - 1] == last;
      GroupConcat(a, init, key);
      AppendAssociative(Group(a, key), Group(init, key), if ParentPath(last.path) == key then [last] else []);
    }
  }

  /** The sum of the sizes of the groups named in `keys`. */
  function SumSizes(files: seq<Entry>, keys: seq<string>): nat {
    if keys == [] then 0 else |Group(files, keys[0])| + SumSizes(files, keys[1..])
  }

  /** How often `x` occurs in `keys`. */
  function Occurrences(keys: seq<string>, x: string): nat {
    if keys == [] then 0 else (if keys[0] == x then 1 else 0) + Occurrences(keys[1..], x)
  }

  predicate Distinct(keys: seq<string>) {
    forall i, j :: 0 <= i < j < |keys| ==> keys[i] != keys[j]
  }

  lemma {:induction false} OccursOnce(keys: seq<string>, x: string)
    requires Distinct(keys) && x in keys
    ensures Occurrences(keys, x) == 1
  {
    if keys[0] == x {
      OccursNot(keys[1..], x);
    } else {
      OccursOnce(keys[1..], x);
    }
  }

  lemma {:induction false} OccursNot(keys: seq<string>, x: string)
    requires x !in keys
    ensures Occurrences(keys, x) == 0
  {
    if keys != [] {
      OccursNot(keys[1..], x);
    }
  }

  lemma {:induction false} SumSizesSnoc(files: seq<Entry>, file: Entry, keys: seq<string>)
    ensures SumSizes(files + [file], keys) == SumSizes(files, keys) + Occurrences(keys, ParentPath(file.path))
  {
    if keys != [] {
      var all := files + [file];
      assert all[..|all| - 1] == files && all[|all| - 1] == file;
      SumSizesSnoc(files, file, keys[1..]);
    }
  }

  /** Over any list naming each key once, the group sizes add up to the
      number of entries: nothing is lost and nothing is counted twice. */
  lemma {:induction false} GroupSizesSum(files: seq<Entry>, keys: seq<string>)
    requires Distinct(keys)
    requires forall k :: k in Keys(files) ==> k in keys
    ensures SumSizes(files, keys) == |files|
  {
    if files == [] {
      SumSizesEmpty(keys);
    } else {
      var init := files[..|files| - 1];
      var last := files[|files| - 1];
      assert files == init + [last];
      forall k | k in Keys(init) ensures k in keys {
        var i :| 0 <= i < |init| && ParentPath(init[i].path) == k;
        assert files[i] == init[i];
      }
      GroupSizesSum(init, keys);
      SumSizesSnoc(init, last, keys);
      assert ParentPath(files[|files| - 1].path) in Keys(files);
      OccursOnce(keys, ParentPath(last.path));
    }
  }

  lemma {:induction false} SumSizesEmpty(keys: seq<string>)
    ensures SumSizes([], keys) == 0
  {
    if keys != [] {
      SumSizesEmpty(keys[1..]);
    }
  }

  // ---------------------------------------------------------------------
  // Display order of a group
  // ---------------------------------------------------------------------

  /** Code-point order on names, standing for `localeCompare`. */
  predicate NameLe(x: string, y: string) {
    x == [] || (y != [] && (x[0] < y[0] || (x[0] == y[0] && NameLe(x[1..], y[1..]))))
  }

  lemma {:induction false} NameLeReflexive(x: string)
    ensures NameLe(x, x)
  {
    if x != [] {
      NameLeReflexive(x[1..]);
    }
  }

  lemma {:induction false} NameLeTotal(x: string, y: string)
    ensures NameLe(x, y) || NameLe(y, x)
  {
    if x != [] && y != [] && x[0] == y[0] {
      NameLeTotal(x[1..], y[1..]);
    }
  }

  lemma {:induction false} NameLeAntisymmetric(x: string, y: string)
    requires NameLe(x, y) && NameLe(y, x)
    ensures x == y
  {
    if x != [] && y != [] {
      NameLeAntisymmetric(x[1..], y[1..]);
      assert x == [x[0]] + x[1..] && y == [y[0]] + y[1..];
    }
  }

  lemma {:induction false} NameLeTransitive(x: string, y: string, z: string)
    requires NameLe(x, y) && NameLe(y, z)
    ensures NameLe(x, z)
  {
    if x != [] && y != [] && z != [] && x[0] == y[0] && y[0] == z[0] {
      NameLeTransitive(x[1..], y[1..], z[1..]);
    }
  }

  /** Directories come first. */
  function Rank(e: Entry): nat {
    if e.kind == Directory then 0 else 1
  }

  /** The display comparator: directories before everything else, then
      names in code-point order. */
  function Compare(a: Entry, b: Entry): int {
    if Rank(a) != Rank(b) then Rank(a) - Rank(b)
    else if a.name == b.name then 0
    else if NameLe(a.name, b.name) then -1
    else 1
  }

  /** The comparator is antisymmetric: swapping the arguments flips the
      sign. */
  lemma CompareAntisymmetric(a: Entry, b: Entry)
    ensures Compare(a, b) == -Compare(b, a)
  {
    NameLeTotal(a.name, b.name);
    if NameLe(a.name, b.name) && NameLe(b.name, a.name) {
      NameLeAntisymmetric(a.name, b.name);
    }
  }

  /** The comparator is transitive. */
  lemma CompareTransitive(a: Entry, b: Entry, c: Entry)
    requires Compare(a, b) <= 0 && Compare(b, c) <= 0
    ensures Compare(a, c) <= 0
  {
    NameLeReflexive(a.name);
    NameLeReflexive(b.name);
    if Rank(a) == Rank(b) == Rank(c) {
      NameLeTransitive(a.name, b.name, c.name);
    }
  }

  /** The comparator as written: entries whose type texts differ are
      ordered "directory first" by asking only whether the first one is a
      directory. */
  function CompareAsWritten(a: Entry, b: Entry): int {
    if TypeText(a.kind) != TypeText(b.kind) then (if TypeText(a.kind) == "directory" then -1 else 1)
    else if a.name == b.name then 0
    else if NameLe(a.name, b.name) then -1
    else 1
  }

  /** Two non-directory entries of different types each compare greater
      than the other: the comparator as written is not consistent, and the
      order it produces is left to the sort algorithm. */
  lemma ComparatorAsWrittenInconsistent(a: Entry, b: Entry)
    requires TypeText(a.kind) != TypeText(b.kind)
    requires TypeText(a.kind) != "directory" && TypeText(b.kind) != "directory"
    ensures CompareAsWritten(a, b) > 0 && CompareAsWritten(b, a) > 0
  {
  }

  /** On the two types the application itself stores, the comparator as
      written and the corrected one agree. */
  lemma ComparatorsAgreeOnFilesAndDirectories(a: Entry, b: Entry)
    requires a.kind in {File, Directory} && b.kind in {File, Directory}
    ensures CompareAsWritten(a, b) == Compare(a, b)
  {
  }

  /** Every entry is ordered before or equal to every later one. */
  predicate Sorted(s: seq<Entry>) {
    forall i, j :: 0 <= i < j < |s| ==> Compare(s[i], s[j]) <= 0
  }

  /** Inserts `x` before the first entry it does not follow. */
  function Insert(x: Entry, s: seq<Entry>): (r: seq<Entry>)
    ensures multiset(r) == multiset(s) + multiset{x}
  {
    if s == [] || Compare(x, s[0]) <= 0 then [x] + s
    else
      assert s == [s[0]] + s[1..];
      [s[0]] + Insert(x, s[1..])
  }

  lemma {:induction false} InsertSorted(x: Entry, s: seq<Entry>)
    requires Sorted(s)
    ensures Sorted(Insert(x, s))
  {
    if s == [] {
    } else if Compare(x, s[0]) <= 0 {
      forall j | 0 <= j < |s| ensures Compare(x, s[j]) <= 0 {
        if j > 0 { CompareTransitive(x, s[0], s[j]); }
      }
      SortedCons(x, s);
    } else {
      SortedTail(s);
      InsertSorted(x, s[1..]);
      CompareAntisymmetric(x, s[0]);
      InsertBoundedBelow(s[0], x, s[1..]);
      SortedCons(s[0], Insert(x, s[1..]));
    }
  }

  /** The tail of a sorted list is sorted, and its head precedes it. */
  lemma SortedTail(s: seq<Entry>)
    requires Sorted(s) && s != []
    ensures Sorted(s[1..])
    ensures forall j :: 0 <= j < |s[1..]| ==> Compare(s[0], s[1..][j]) <= 0
  {
    var tail := s[1..];
    forall i, j | 0 <= i < j < |tail| ensures Compare(tail[i], tail[j]) <= 0 {
      assert tail[i] == s[i + 1] && tail[j] == s[j + 1];
    }
    forall j | 0 <= j < |tail| ensures Compare(s[0], tail[j]) <= 0 {
      assert tail[j] == s[j + 1];
    }
  }

  /** An entry that precedes `x` and every entry of `t` precedes every
      entry of the insertion. */
  lemma InsertBoundedBelow(h: Entry, x: Entry, t: seq<Entry>)
    requires Compare(h, x) <= 0
    requires forall j :: 0 <= j < |t| ==> Compare(h, t[j]) <= 0
    ensures forall j :: 0 <= j < |Insert(x, t)| ==> Compare(h, Insert(x, t)[j]) <= 0
  {
    var r := Insert(x, t);
    forall j | 0 <= j < |r| ensures Compare(h, r[j]) <= 0 {
      assert r[j] in multiset(r);
      if r[j] != x {
        assert r[j] in multiset(t);
        var k :| 0 <= k < |t| && t[k] == r[j];
      }
    }
  }

  /** An entry ordered before every entry of a sorted list may head it. */
  lemma SortedCons(h: Entry, t: seq<Entry>)
    requires Sorted(t)
    requires forall j :: 0 <= j < |t| ==> Compare(h, t[j]) <= 0
    ensures Sorted([h] + t)
  {
    var r := [h] + t;
    forall i, j | 0 <= i < j < |r| ensures Compare(r[i], r[j]) <= 0 {
      assert r[j] == t[j - 1];
      if i > 0 { assert r[i] == t[i - 1]; }
    }
  }

  /** `[...items].sort(comparator)` with the corrected comparator; a
      permutation of the group. */
  function SortForDisplay(s: seq<Entry>): (r: seq<Entry>)
    ensures multiset(r) == multiset(s)
  {
    if s == [] then []
    else
      assert s == [s[0]] + s[1..];
      Insert(s[0], SortForDisplay(s[1..]))
  }

  lemma {:induction false} SortForDisplaySorted(s: seq<Entry>)
    ensures Sorted(SortForDisplay(s))
  {
    if s != [] {
      SortForDisplaySorted(s[1..]);
      InsertSorted(s[0], SortForDisplay(s[1..]));
    }
  }

  /** In display order every directory precedes every other entry, and
      entries of the same rank are in name order. */
  lemma DisplayOrder(s: seq<Entry>, i: int, j: int)
    requires 0 <= i < j < |SortForDisplay(s)|
    ensures var r := SortForDisplay(s);
            (r[j].kind == Directory ==> r[i].kind == Directory)
            && (Rank(r[i]) == Rank(r[j]) ==> NameLe(r[i].name, r[j].name))
  {
    SortForDisplaySorted(s);
    var r := SortForDisplay(s);
    assert Compare(r[i], r[j]) <= 0;
    NameLeReflexive(r[i].name);
  }

  // ---------------------------------------------------------------------
  // renderFileTree
  // ---------------------------------------------------------------------

  /** What stands left of the icon: a chevron for a folder, pointing down
      when it is expanded, and a blank for a file. */
  datatype Marker = Chevron(down: bool) | Blank

  /** A folder icon, or the icon getFileIcon picks for the language. */
  datatype RowIcon = FolderIcon | LanguageIcon(icon: Icon)

  /** One rendered list item. */
  datatype Row = Row(entry: Entry, level: nat, active: bool, marker: Marker, icon: RowIcon)

  /** A path counts as expanded only when its flag is set and true. */
  predicate IsExpanded(expanded: map<string, bool>, path: string) {
    path in expanded && expanded[path]
  }

  /** `fileTree()[parent] || []`. */
  function GroupOf(tree: map<string, seq<Entry>>, parent: string): seq<Entry> {
    if parent in tree then tree[parent] else []
  }

  /** The row for one entry at one indentation level: highlighted iff it
      is the active file; a chevron, pointing down iff the folder is
      expanded, and the folder icon exactly for folders; otherwise a blank
      marker and the icon of the entry's language, the empty one if none. */
  function RowFor(e: Entry, level: nat, expanded: map<string, bool>, activeId: Option<int>): (row: Row)
    ensures row.entry == e && row.level == level
    ensures row.active <==> activeId.Some? && activeId.value == e.id
    ensures row.marker.Chevron? <==> e.kind == Directory
    ensures row.marker.Chevron? ==> (row.marker.down <==> e.path in expanded && expanded[e.path])
    ensures row.icon == FolderIcon <==> e.kind == Directory
    ensures row.icon.LanguageIcon? ==> row.icon.icon == FileIcon(if e.language.Some? then e.language.value else "")
  {
    var folder := e.kind == Directory;
    Row(e, level, activeId == Some(e.id),
        if folder then Chevron(IsExpanded(expanded, e.path)) else Blank,
        if folder then FolderIcon else LanguageIcon(FileIcon(e.language.GetOr(""))))
  }

  /** Keys deeper than `depth`: the measure that shrinks as the corrected
      render descends. */
  function Deeper(tree: map<string, seq<Entry>>, depth: nat): set<string> {
    set k | k in tree && Depth(k) > depth
  }

  /** The corrected descent rule: an expanded folder with a group of its
      own, one level deeper than the group being rendered. */
  predicate Descends(tree: map<string, seq<Entry>>, expanded: map<string, bool>, parent: string, e: Entry) {
    e.kind == Directory && IsExpanded(expanded, e.path) && e.path in tree && Depth(e.path) > Depth(parent)
  }

  /** renderFileTree(parent, level), corrected so that it always ends. */
  function Render(tree: map<string, seq<Entry>>, expanded: map<string, bool>, parent: string,
                  level: nat, activeId: Option<int>): seq<Row>
    decreases Deeper(tree, Depth(parent)), 1
  {
    RenderItems(tree, expanded, parent, SortForDisplay(GroupOf(tree, parent)), level, activeId)
  }

  function RenderItems(tree: map<string, seq<Entry>>, expanded: map<string, bool>, parent: string,
                       items: seq<Entry>, level: nat, activeId: Option<int>): seq<Row>
    decreases Deeper(tree, Depth(parent)), 0, |items|
  {
    if items == [] then []
    else
      var e := items[0];
      var nested :=
        if Descends(tree, expanded, parent, e) then
          assert e.path in Deeper(tree, Depth(parent)) - Deeper(tree, Depth(e.path));
          Render(tree, expanded, e.path, level + 1, activeId)
        else [];
      [RowFor(e, level, expanded, activeId)] + nested
      + RenderItems(tree, expanded, parent, items[1..], level, activeId)
  }

  /** Every entry of `g` is grouped under `k`. */
  predicate AllKeyed(g: seq<Entry>, k: string) {
    g == [] || (ParentPath(g[0].path) == k && AllKeyed(g[1..], k))
  }

  lemma {:induction false} AllKeyedMember(g: seq<Entry>, k: string, e: Entry)
    requires AllKeyed(g, k) && e in g
    ensures ParentPath(e.path) == k
  {
    if g[0] != e {
      AllKeyedMember(g[1..], k, e);
    }
  }

  lemma {:induction false} AllKeyedFromGroup(g: seq<Entry>, k: string)
    requires forall i :: 0 <= i < |g| ==> ParentPath(g[i].path) == k
    ensures AllKeyed(g, k)
  {
    if g != [] {
      AllKeyedFromGroup(g[1..], k);
    }
  }

  /** A tree every grouping produces: keys are canonical folder paths and
      each group holds entries of that folder. */
  predicate WellKeyed(tree: map<string, seq<Entry>>) {
    forall k {:trigger AllKeyed(tree[k], k)} :: k in tree ==> k == Canonical(Segments(k)) && AllKeyed(tree[k], k)
  }

  /** A tree the grouping can produce. */
  type KeyedTree = t: map<string, seq<Entry>> | WellKeyed(t) witness map[]

  lemma TreeOfWellKeyed(files: seq<Entry>)
    ensures WellKeyed(TreeOf(files))
  {
    var t := TreeOf(files);
    TreeOfGroups(files);
    forall k | k in t
      ensures k == Canonical(Segments(k)) && AllKeyed(t[k], k)
    {
      assert k in Keys(files);
      var i :| 0 <= i < |files| && ParentPath(files[i].path) == k;
      ParentPathSegments(files[i].path);
      AllKeyedFromGroup(Group(files, k), k);
    }
  }

  /** In a well-keyed tree every entry of a folder's group has that
      folder as its key. */
  lemma KeyedMember(tree: KeyedTree, parent: string, e: Entry)
    requires e in GroupOf(tree, parent)
    ensures ParentPath(e.path) == parent
  {
    AllKeyedMember(tree[parent], parent, e);
  }

  /** In a well-keyed tree every key is the canonical spelling of its
      folder. */
  lemma KeyIsCanonical(tree: KeyedTree, k: string)
    requires k in tree
    ensures k == Canonical(Segments(k))
  {
    assert AllKeyed(tree[k], k);
  }

  /** In a well-keyed tree a folder entry passes the corrected depth check
      exactly when its path is not "/". */
  lemma DescentExcludesOnlyRoot(parent: string, e: Entry)
    requires ParentPath(e.path) == parent
    requires e.path == Canonical(Segments(e.path))
    ensures Depth(e.path) > Depth(parent) <==> e.path != "/"
  {
    ParentDepth(e.path);
    assert Canonical([]) == "/";
  }

  /** Every row is indented by the depth of the folder that holds it. */
  predicate LevelsMatchDepth(rows: seq<Row>) {
    forall i :: 0 <= i < |rows| ==> rows[i].level == Depth(ParentPath(rows[i].entry.path))
  }

  lemma {:induction false} RenderLevels(tree: KeyedTree, expanded: map<string, bool>,
                                        parent: string, level: nat, activeId: Option<int>)
    requires level == Depth(parent)
    ensures LevelsMatchDepth(Render(tree, expanded, parent, level, activeId))
    decreases Deeper(tree, Depth(parent)), 1
  {
    var items := SortForDisplay(GroupOf(tree, parent));
    forall e | e in items ensures ParentPath(e.path) == parent {
      assert e in multiset(items);
      KeyedMember(tree, parent, e);
    }
    ItemsLevels(tree, expanded, parent, items, level, activeId);
  }

  lemma {:induction false} ItemsLevels(tree: KeyedTree, expanded: map<string, bool>,
                                       parent: string, items: seq<Entry>, level: nat, activeId: Option<int>)
    requires level == Depth(parent)
    requires forall e :: e in items ==> ParentPath(e.path) == parent
    ensures LevelsMatchDepth(RenderItems(tree, expanded, parent, items, level, activeId))
    decreases Deeper(tree, Depth(parent)), 0, |items|
  {
    if items != [] {
      var e := items[0];
      var head := [RowFor(e, level, expanded, activeId)];
      var rest := RenderItems(tree, expanded, parent, items[1..], level, activeId);
      ItemsLevels(tree, expanded, parent, items[1..], level, activeId);
      var nested: seq<Row> := [];
      if Descends(tree, expanded, parent, e) {
        assert e.path in Deeper(tree, Depth(parent)) - Deeper(tree, Depth(e.path));
        ParentDepth(e.path);
        RenderLevels(tree, expanded, e.path, level + 1, activeId);
        nested := Render(tree, expanded, e.path, level + 1, activeId);
      }
      assert RenderItems(tree, expanded, parent, items, level, activeId) == head + nested + rest;
      LevelsMatchConcat(head, nested, rest);
    }
  }

  lemma LevelsMatchConcat(a: seq<Row>, b: seq<Row>, c: seq<Row>)
    requires LevelsMatchDepth(a) && LevelsMatchDepth(b) && LevelsMatchDepth(c)
    ensures LevelsMatchDepth(a + b + c)
  {
    var all := a + b + c;
    forall i | 0 <= i < |all| ensures all[i].level == Depth(ParentPath(all[i].entry.path)) {
      if i < |a| {
        assert all[i] == a[i];
      } else if i < |a| + |b| {
        assert all[i] == b[i - |a|];
      } else {
        assert all[i] == c[i - |a| - |b|];
      }
    }
  }

  /** With every folder but the root collapsed only the root group is
      shown, one row per entry in display order: an entry whose path is
      "/" never descends, so the root's own flag does not matter. */
  lemma CollapsedShowsRootGroup(tree: map<string, seq<Entry>>, expanded: map<string, bool>, activeId: Option<int>)
    requires forall k :: k in expanded && k != "/" ==> !expanded[k]
    ensures var rows := Render(tree, expanded, "/", 0, activeId);
            var items := SortForDisplay(GroupOf(tree, "/"));
            |rows| == |items| && forall i :: 0 <= i < |rows| ==> rows[i].entry == items[i] && rows[i].level == 0
  {
    CollapsedItems(tree, expanded, "/", SortForDisplay(GroupOf(tree, "/")), activeId);
  }

  lemma {:induction false} CollapsedItems(tree: map<string, seq<Entry>>, expanded: map<string, bool>,
                                          parent: string, items: seq<Entry>, activeId: Option<int>)
    requires forall k :: k in expanded && k != "/" ==> !expanded[k]
    ensures var rows := RenderItems(tree, expanded, parent, items, 0, activeId);
            |rows| == |items| && forall i :: 0 <= i < |rows| ==> rows[i].entry == items[i] && rows[i].level == 0
  {
    if items != [] {
      CanonicalRoundTrip([]);
      assert Canonical([]) == "/";
      CollapsedItems(tree, expanded, parent, items[1..], activeId);
    }
  }

  /** renderFileTree as written, which descends into every expanded folder
      whatever its path.  Since the recursion need not end, the call depth
      is bounded by `fuel`; `None` means the bound was reached. */
  function RenderAsWritten(tree: map<string, seq<Entry>>, expanded: map<string, bool>, parent: string,
                           level: nat, activeId: Option<int>, fuel: nat): Option<seq<Row>>
    decreases fuel, 1
  {
    RenderItemsAsWritten(tree, expanded, SortForDisplay(GroupOf(tree, parent)), level, activeId, fuel)
  }

  function RenderItemsAsWritten(tree: map<string, seq<Entry>>, expanded: map<string, bool>,
                                items: seq<Entry>, level: nat, activeId: Option<int>, fuel: nat): Option<seq<Row>>
    decreases fuel, 0, |items|
  {
    if items == [] then Some([])
    else
      var e := items[0];
      var nested :=
        if e.kind == Directory && IsExpanded(expanded, e.path) then
          (if fuel == 0 then None else RenderAsWritten(tree, expanded, e.path, level + 1, activeId, fuel - 1))
        else Some([]);
      var rest := RenderItemsAsWritten(tree, expanded, items[1..], level, activeId, fuel);
      if nested.None? || rest.None? then None
      else Some([RowFor(e, level, expanded, activeId)] + nested.value + rest.value)
  }

  /** A folder entry whose path is "/" sits in the root group and, the
      root being expanded, renders the root group again: the render as
      written never finishes, whatever depth it is allowed. */
  lemma {:induction false} RootFolderNeverFinishes(tree: map<string, seq<Entry>>, expanded: map<string, bool>,
                                                   e: Entry, level: nat, activeId: Option<int>, fuel: nat)
    requires e in GroupOf(tree, "/") && e.kind == Directory && e.path == "/"
    requires IsExpanded(expanded, "/")
    ensures RenderAsWritten(tree, expanded, "/", level, activeId, fuel).None?
    decreases fuel
  {
    var items := SortForDisplay(GroupOf(tree, "/"));
    assert e in multiset(items);
    if fuel > 0 {
      RootFolderNeverFinishes(tree, expanded, e, level + 1, activeId, fuel - 1);
    }
    ItemsStuckOn(tree, expanded, e, items, level, activeId, fuel);
  }

  lemma {:induction false} ItemsStuckOn(tree: map<string, seq<Entry>>, expanded: map<string, bool>, e: Entry,
                                        items: seq<Entry>, level: nat, activeId: Option<int>, fuel: nat)
    requires e in items && e.kind == Directory && IsExpanded(expanded, e.path)
    requires fuel == 0 || RenderAsWritten(tree, expanded, e.path, level + 1, activeId, fuel - 1).None?
    ensures RenderItemsAsWritten(tree, expanded, items, level, activeId, fuel).None?
  {
    if items[0] != e {
      ItemsStuckOn(tree, expanded, e, items[1..], level, activeId, fuel);
    }
  }

  /** Whenever the render as written finishes, it shows exactly the rows
      of the corrected render: the correction only removes the endless
      descent into "/". */
  lemma {:induction false} AsWrittenAgreesWhenFinished(tree: KeyedTree, expanded: map<string, bool>,
                                                       parent: string, level: nat, activeId: Option<int>, fuel: nat)
    requires RenderAsWritten(tree, expanded, parent, level, activeId, fuel).Some?
    ensures RenderAsWritten(tree, expanded, parent, level, activeId, fuel).value
            == Render(tree, expanded, parent, level, activeId)
    decreases fuel, 1
  {
    var items := SortForDisplay(GroupOf(tree, parent));
    forall e | e in items ensures e in GroupOf(tree, parent) {
      assert e in multiset(items);
    }
    ItemsAgreeWhenFinished(tree, expanded, parent, items, level, activeId, fuel);
  }

  lemma {:induction false} ItemsAgreeWhenFinished(tree: KeyedTree, expanded: map<string, bool>,
                                                  parent: string, items: seq<Entry>, level: nat,
                                                  activeId: Option<int>, fuel: nat)
    requires forall e :: e in items ==> e in GroupOf(tree, parent)
    requires RenderItemsAsWritten(tree, expanded, items, level, activeId, fuel).Some?
    ensures RenderItemsAsWritten(tree, expanded, items, level, activeId, fuel).value
            == RenderItems(tree, expanded, parent, items, level, activeId)
    decreases fuel, 0, |items|
  {
    if items != [] {
      var e := items[0];
      ItemsAgreeWhenFinished(tree, expanded, parent, items[1..], level, activeId, fuel);
      if e.kind == Directory && IsExpanded(expanded, e.path) {
        assert fuel > 0;
        NestedAgreesWhenFinished(tree, expanded, parent, e, level, activeId, fuel);
      }
    }
  }

  /** The rows nested under one expanded folder entry agree too. */
  lemma {:induction false} NestedAgreesWhenFinished(tree: KeyedTree, expanded: map<string, bool>,
                                                    parent: string, e: Entry, level: nat,
                                                    activeId: Option<int>, fuel: nat)
    requires e in GroupOf(tree, parent)
    requires e.kind == Directory && IsExpanded(expanded, e.path) && fuel > 0
    requires RenderAsWritten(tree, expanded, e.path, level + 1, activeId, fuel - 1).Some?
    ensures Descends(tree, expanded, parent, e) ==>
              RenderAsWritten(tree, expanded, e.path, level + 1, activeId, fuel - 1).value
              == Render(tree, expanded, e.path, level + 1, activeId)
    ensures !Descends(tree, expanded, parent, e) ==>
              RenderAsWritten(tree, expanded, e.path, level + 1, activeId, fuel - 1).value == []
    decreases fuel, 0, 0
  {
    if e.path !in tree {
      assert SortForDisplay(GroupOf(tree, e.path)) == [];
    } else if Depth(e.path) > Depth(parent) {
      AsWrittenAgreesWhenFinished(tree, expanded, e.path, level + 1, activeId, fuel - 1);
    } else {
      RootLoops(tree, expanded, parent, e, level, activeId, fuel);
    }
  }

  /** The one folder entry the corrected render does not descend into is
      a "/" entry in the root group, on which the render as written never
      finishes. */
  lemma RootLoops(tree: KeyedTree, expanded: map<string, bool>, parent: string, e: Entry,
                  level: nat, activeId: Option<int>, fuel: nat)
    requires e in GroupOf(tree, parent) && fuel > 0
    requires e.kind == Directory && IsExpanded(expanded, e.path) && e.path in tree
    requires Depth(e.path) <= Depth(parent)
    ensures RenderAsWritten(tree, expanded, e.path, level + 1, activeId, fuel - 1).None?
  {
    KeyedMember(tree, parent, e);
    KeyIsCanonical(tree, e.path);
    DescentExcludesOnlyRoot(parent, e);
    RootKey(e.path);
    assert e.path == "/" && parent == "/";
    RootFolderNeverFinishes(tree, expanded, e, level + 1, activeId, fuel - 1);
  }

  // ---------------------------------------------------------------------
  // toggleFolder
  // ---------------------------------------------------------------------

  /** The map after toggling `path`: its flag flips, an unset flag
      counting as collapsed; every other path is untouched. */
  function Toggled(expanded: map<string, bool>, path: string): (r: map<string, bool>)
    ensures IsExpanded(r, path) == !IsExpanded(expanded, path)
    ensures forall q :: q != path ==> (q in r <==> q in expanded) && (q in r ==> r[q] == expanded[q])
  {
    expanded[path := !IsExpanded(expanded, path)]
  }

  /** Toggling twice restores the flag. */
  lemma ToggleTwice(expanded: map<string, bool>, path: string)
    ensures IsExpanded(Toggled(Toggled(expanded, path), path), path) == IsExpanded(expanded, path)
  {
  }

  // ---------------------------------------------------------------------
  // getLanguageFromFileName: the explorer's own table
  // ---------------------------------------------------------------------

  /** getLanguageFromFileName: the explorer's switch on the lower-cased
      extension. */
  function ExplorerLanguage(fileName: string): (lang: string)
    ensures lang != ""
  {
    ExplorerTable(Extension(fileName))
  }

  /** The explorer's switch. */
  function ExplorerTable(ext: string): (lang: string)
    ensures lang != ""
    ensures lang != "plaintext" ==> ext in ExplorerExtensions
  {
    match ext
    case "js" => "javascript"
    case "ts" => "typescript"
    case "html" => "html"
    case "css" => "css"
    case "json" => "json"
    case "md" => "markdown"
    case "py" => "python"
    case "java" => "java"
    case "c" => "c"
    case "cpp" => "cpp"
    case "cc" => "cpp"
    case "cs" => "csharp"
    case "php" => "php"
    case "rb" => "ruby"
    case "go" => "go"
    case "rs" => "rust"
    case "swift" => "swift"
    case "kt" => "kotlin"
    case "kts" => "kotlin"
    case "dart" => "dart"
    case _ => "plaintext"
  }

  /** The extensions the explorer's switch names. */
  const ExplorerExtensions: set<string> := {
    "js", "ts", "html", "css", "json", "md", "py", "java", "c", "cpp", "cc",
    "cs", "php", "rb", "go", "rs", "swift", "kt", "kts", "dart"
  }

  /** Wherever the explorer's table names a language, the shared table
      names the same one. */
  lemma ExplorerAgreesWithSharedTable(fileName: string)
    ensures ExplorerLanguage(fileName) != "plaintext"
            ==> ExplorerLanguage(fileName) == LanguageFromExtension(fileName)
  {
    forall ext | ext in ExplorerExtensions
      ensures TableLanguage(ext) == Some(ExplorerTable(ext))
    {
    }
  }

  /** The two tables differ: a ".jsx" file is plain text to the explorer
      and JavaScript to the shared table. */
  lemma JsxTablesDiffer(stem: string)
    ensures ExplorerLanguage(stem + ".jsx") == "plaintext"
    ensures LanguageFromExtension(stem + ".jsx") == "javascript"
  {
    TableEntry(stem, ".jsx", "jsx");
    ExtensionAfterLastDot(stem, "jsx");
    assert stem + ".jsx" == stem + "." + "jsx";
    assert ToLower("jsx") == "jsx";
  }

  /** A name without '.' is its own extension, so "Makefile" is plain
      text. */
  lemma NameWithoutDotIsItsOwnExtension(fileName: string)
    requires '.' !in fileName
    ensures ExplorerLanguage(fileName) == ExplorerLanguage("x." + fileName)
  {
    ExtensionAfterLastDot("x", fileName);
    assert "x." + fileName == "x" + "." + fileName;
  }

  // ---------------------------------------------------------------------
  // handleCreateItem
  // ---------------------------------------------------------------------

  /** The body of the POST that creates an item. */
  datatype CreateRequest = CreateRequest(
    projectId: Option<int>,
    name: string,
    path: string,
    content: string,
    kind: EntryType,
    language: Option<string>)

  /** The path of a new item in the current folder: the folder's path,
      without a second slash at the root, then "/" and the name. */
  function NewItemPath(currentPath: string, name: string): (path: string)
    ensures |path| > |name| && path[|path| - |name|..] == name && path[|path| - |name| - 1] == '/'
    ensures currentPath == "/" ==> |path| == |name| + 1
    ensures currentPath != "/" ==> |path| == |currentPath| + 1 + |name| && path[..|currentPath|] == currentPath
  {
    if currentPath == "/" then "/" + name else currentPath + "/" + name
  }

  /** The request handleCreateItem sends for a non-blank name.  The
      project is that of the first listed entry, if any. */
  function NewItemRequest(files: seq<Entry>, name: string, currentPath: string, folder: bool): CreateRequest {
    CreateRequest(
      if files == [] then None else Some(files[0].projectId),
      name,
      NewItemPath(currentPath, name),
      "",
      if folder then Directory else File,
      if folder then None else Some(ExplorerLanguage(name)))
  }

  /** An item created with a slash-free name is grouped under the folder
      it was created in. */
  lemma CreatedItemGroupedInCurrentFolder(currentSegs: seq<string>, name: string)
    requires ValidSegments(currentSegs)
    requires name != [] && '/' !in name
    ensures var current := Canonical(currentSegs);
            ParentPath(NewItemPath(current, name)) == current
  {
    var current := Canonical(currentSegs);
    JoinThenSplit([name], '/');
    NonEmptyPartsKeepsNonEmpty([name]);
    assert Segments(name) == [name];
    if currentSegs == [] {
      assert current == "/";
      assert NewItemPath(current, name) == [] + "/" + name;
      SegmentsAround([], name);
      assert Split([], '/') == [[]];
    } else {
      SegmentsAround(current, name);
      CanonicalRoundTrip(currentSegs);
      var segs := currentSegs + [name];
      assert segs[..|segs| - 1] == currentSegs;
    }
  }

  // ---------------------------------------------------------------------
  // The explorer's state
  // ---------------------------------------------------------------------

  class Explorer {
    var expanded: map<string, bool>
    var dialogOpen: bool
    var creatingFolder: bool
    var newItemName: string
    /** The folder new items go into; nothing ever changes it from "/". */
    var currentPath: string

    /** The root is expanded, the dialog closed, the name empty. */
    constructor()
      ensures expanded == map["/" := true]
      ensures !dialogOpen && !creatingFolder && newItemName == "" && currentPath == "/"
    {
      expanded := map["/" := true];
      dialogOpen := false;
      creatingFolder := false;
      newItemName := "";
      currentPath := "/";
    }

    /** The rows the explorer shows for the listed entries. */
    function View(files: seq<Entry>, activeId: Option<int>): (rows: seq<Row>)
      reads this
      ensures LevelsMatchDepth(rows)
    {
      TreeOfWellKeyed(files);
      CanonicalRoundTrip([]);
      assert Canonical([]) == "/";
      RenderLevels(TreeOf(files), expanded, "/", 0, activeId);
      Render(TreeOf(files), expanded, "/", 0, activeId)
    }

    method ToggleFolder(path: string)
      modifies this
      ensures expanded == Toggled(old(expanded), path)
      ensures dialogOpen == old(dialogOpen) && creatingFolder == old(creatingFolder)
      ensures newItemName == old(newItemName) && currentPath == old(currentPath)
    {
      expanded := expanded[path := !IsExpanded(expanded, path)];
    }

    method OpenCreateFile()
      modifies this
      ensures dialogOpen && !creatingFolder
      ensures expanded == old(expanded) && newItemName == old(newItemName) && currentPath == old(currentPath)
    {
      creatingFolder := false;
      dialogOpen := true;
    }

    method OpenCreateFolder()
      modifies this
      ensures dialogOpen && creatingFolder
      ensures expanded == old(expanded) && newItemName == old(newItemName) && currentPath == old(currentPath)
    {
      creatingFolder := true;
      dialogOpen := true;
    }

    /** The name field's change handler. */
    method SetNewItemName(name: string)
      modifies this
      ensures newItemName == name
      ensures expanded == old(expanded) && dialogOpen == old(dialogOpen)
      ensures creatingFolder == old(creatingFolder) && currentPath == old(currentPath)
    {
      newItemName := name;
    }

    /** Cancel, or the dialog closing itself. */
    method CloseDialog()
      modifies this
      ensures !dialogOpen
      ensures expanded == old(expanded) && newItemName == old(newItemName)
      ensures creatingFolder == old(creatingFolder) && currentPath == old(currentPath)
    {
      dialogOpen := false;
    }

    /** handleCreateItem: a blank name sends nothing and changes nothing;
        otherwise the request is sent and, when the store accepts it
        (`accepted`), a new folder is marked expanded, the name cleared and
        the dialog closed.  A refused request changes nothing. */
    method CreateItem(files: seq<Entry>, accepted: bool) returns (request: Option<CreateRequest>)
      modifies this
      ensures request.None? <==> IsBlank(old(newItemName))
      ensures request.Some? ==> request.value == NewItemRequest(files, old(newItemName), old(currentPath), old(creatingFolder))
      ensures request.Some? && accepted ==>
                expanded == (if old(creatingFolder) then old(expanded)[NewItemPath(old(currentPath), old(newItemName)) := true]
                             else old(expanded))
                && newItemName == "" && !dialogOpen
      ensures !(request.Some? && accepted) ==>
                expanded == old(expanded) && newItemName == old(newItemName) && dialogOpen == old(dialogOpen)
      ensures creatingFolder == old(creatingFolder) && currentPath == old(currentPath)
    {
      // `!newItemName.trim()`, which Trim's contract equates with IsBlank
      if IsBlank(newItemName) {
        request := None;
      } else {
        request := Some(NewItemRequest(files, newItemName, currentPath, creatingFolder));
        if accepted {
          if creatingFolder {
            expanded := expanded[NewItemPath(currentPath, newItemName) := true];
          }
          newItemName := "";
          dialogOpen := false;
        }
      }
    }
  }

  /** A new explorer, with only the root flagged, shows the root group in
      display order, every row at level 0. */
  lemma InitialView(x: Explorer, files: seq<Entry>, activeId: Option<int>)
    requires x.expanded == map["/" := true]
    ensures var rows := x.View(files, activeId);
            var items := SortForDisplay(GroupOf(TreeOf(files), "/"));
            |rows| == |items| && forall i :: 0 <= i < |rows| ==> rows[i].entry == items[i] && rows[i].level == 0
  {
    CollapsedShowsRootGroup(TreeOf(files), x.expanded, activeId);
  }
}
