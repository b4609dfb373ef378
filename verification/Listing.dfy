/** `list_directory`: the recursive walk with file, directory and pattern options. */
module Listing {
  import opened Basics

  const MAX_LIST_DEPTH := 5

  const EXCLUDED_DIRS := {".obsidian", ".trash", ".git", ".DS_Store"}

  /** What `iterdir` does: it yields the children, is denied (and skipped), or raises another error. */
  datatype Access = Readable | Denied | Failing

  /**
   * A tree as the walk sees it, children in the order they are visited. An entry is barred when
   * asking whether it is a directory raises. A file's stat can still fail; a directory's has just worked.
   */
  datatype Node =
    | File(name: string, statOk: bool)
    | Dir(name: string, access: Access, children: seq<Node>)
    | Barred(name: string)

  /** A result row: the path below the listed directory, so its length is the row's level. */
  datatype Row = Row(path: seq<string>, isDir: bool)

  /** `fnmatch` compares a name with a pattern, both lower-cased. */
  datatype Options = Options(includeFiles: bool, includeDirs: bool, pattern: Option<string>,
                             fnmatch: (string, string) -> bool)

  predicate Matches(o: Options, name: string) {
    o.pattern == None || o.pattern.value == "" || o.fnmatch(name, o.pattern.value)
  }

  /** The options ask for entries of this kind and name. */
  predicate Wanted(o: Options, isDir: bool, name: string) {
    (if isDir then o.includeDirs else o.includeFiles) && Matches(o, name)
  }

  /** No filtering. */
  function Everything(o: Options): Options {
    Options(true, true, None, o.fnmatch)
  }

  // ----- The rows a walk adds when nothing raises -----

  function WalkDir(dir: Node, path: seq<string>, depth: int, o: Options): seq<Row>
    requires dir.Dir?
    decreases dir, 0
  {
    if |path| + 1 > depth || !dir.access.Readable? then [] else WalkEntries(dir.children, path, depth, o)
  }

  function WalkEntries(entries: seq<Node>, path: seq<string>, depth: int, o: Options): seq<Row>
    decreases entries, 0
  {
    if |entries| == 0 then []
    else WalkEntry(entries[0], path, depth, o) + WalkEntries(entries[1..], path, depth, o)
  }

  function WalkEntry(entry: Node, path: seq<string>, depth: int, o: Options): seq<Row>
    decreases entry, 1
  {
    var below := path + [entry.name];
    if entry.name in EXCLUDED_DIRS || entry.Barred? then []
    else if entry.File? then
      if Wanted(o, false, entry.name) && entry.statOk then [Row(below, false)] else []
    else (if Wanted(o, true, entry.name) then [Row(below, true)] else []) + WalkDir(entry, below, depth, o)
  }

  // ----- Whether the walk raises; `left` counts the levels that may still be read -----

  predicate DirRaises(dir: Node, left: int)
    requires dir.Dir?
    decreases dir, 0
  {
    left >= 1 && (dir.access.Failing? || (dir.access.Readable? && EntriesRaise(dir.children, left - 1)))
  }

  predicate EntriesRaise(entries: seq<Node>, left: int)
    decreases entries, 0
  {
    |entries| > 0 && (EntryRaises(entries[0], left) || EntriesRaise(entries[1..], left))
  }

  predicate EntryRaises(entry: Node, left: int)
    decreases entry, 1
  {
    entry.name !in EXCLUDED_DIRS && (entry.Barred? || (entry.Dir? && DirRaises(entry, left)))
  }

  /** The walk, appending to one shared list. */
  class Walker {
    const depth: int
    const options: Options
    var results: seq<Row>

    constructor (depth: int, options: Options)
      ensures results == [] && this.depth == depth && this.options == options
    {
      this.depth, this.options, results := depth, options, [];
    }

    /** `_walk`; not ok means that an error was raised. */
    method Walk(dir: Node, path: seq<string>, currentDepth: nat) returns (ok: bool)
      requires dir.Dir? && currentDepth == |path| + 1
      modifies this
      ensures ok <==> !DirRaises(dir, depth - |path|)
      ensures ok ==> results == old(results) + WalkDir(dir, path, depth, options)
      decreases dir, 0
    {
      hide Wanted, EntryRaises, WalkEntry;
      if currentDepth > depth || dir.access.Denied? {
        return true;
      }
      if dir.access.Failing? {
        return false;
      }
      var entries := dir.children;
      for i := 0 to |entries|
        invariant EntriesRaise(entries, depth - |path| - 1) == EntriesRaise(entries[i..], depth - |path| - 1)
        invariant old(results) + WalkEntries(entries, path, depth, options)
               == results + WalkEntries(entries[i..], path, depth, options)
      {
        assert entries[i..][0] == entries[i] && entries[i..][1..] == entries[i + 1..];
        ghost var before := results;
        ghost var rest := WalkEntries(entries[i + 1..], path, depth, options);
        ghost var added := WalkEntry(entries[i], path, depth, options);
        assert before + (added + rest) == before + added + rest;
        var fine := Visit(entries[i], path, currentDepth);
        if !fine {
          return false;
        }
      }
      return true;
    }

    /** The loop body, for one entry. */
    method Visit(entry: Node, path: seq<string>, currentDepth: nat) returns (ok: bool)
      requires currentDepth == |path| + 1
      modifies this
      ensures ok <==> !EntryRaises(entry, depth - |path| - 1)
      ensures ok ==> results == old(results) + WalkEntry(entry, path, depth, options)
      decreases entry, 1
    {
      if entry.name in EXCLUDED_DIRS {
        return true;
      }
      if entry.Barred? {
        return false;
      }
      var isDir := entry.Dir?;
      var below := path + [entry.name];
      if isDir && !options.includeDirs {
        ok := Walk(entry, below, currentDepth + 1);
        return;
      }
      if !isDir && !options.includeFiles {
        return true;
      }
      if options.pattern.Some? && options.pattern.value != "" && !options.fnmatch(entry.name, options.pattern.value) {
        ok := true;
        if isDir {
          ok := Walk(entry, below, currentDepth + 1);
        }
        return;
      }
      if entry.File? && !entry.statOk {
        return true;
      }
      results := results + [Row(below, isDir)];
      ok := true;
      if isDir {
        ok := Walk(entry, below, currentDepth + 1);
      }
    }
  }

  datatype Outcome = Rows(rows: seq<Row>) | NotADirectory | Raised

  function Listed(root: Node, depth: int, o: Options): Outcome {
    var limit := Min(depth, MAX_LIST_DEPTH);
    match root
    case File(_, _) => NotADirectory
    case Barred(_) => Raised
    case Dir(_, _, _) => if DirRaises(root, limit) then Raised else Rows(WalkDir(root, [], limit, o))
  }

  /** `list_directory`. */
  method ListDirectory(root: Node, depth: int, o: Options) returns (outcome: Outcome)
    ensures outcome == Listed(root, depth, o)
  {
    if root.Barred? {
      return Raised;
    }
    if !root.Dir? {
      return NotADirectory;
    }
    var walker := new Walker(Min(depth, MAX_LIST_DEPTH), o);
    var ok := walker.Walk(root, [], 1);
    if !ok {
      return Raised;
    }
    outcome := Rows(walker.results);
    assert [] + WalkDir(root, [], Min(depth, MAX_LIST_DEPTH), o) == WalkDir(root, [], Min(depth, MAX_LIST_DEPTH), o);
  }

  // ----- Which rows, and when it raises, stated without the walk -----

  /** The path leads from `from` to `node`, through readable directories and past no excluded name. */
  predicate Reaches(from: Node, path: seq<string>, node: Node)
    decreases |path|, 1
  {
    if |path| == 0 then node == from
    else from.Dir? && from.access.Readable? && ReachesIn(from.children, path, node)
  }

  predicate ReachesIn(entries: seq<Node>, path: seq<string>, node: Node)
    requires |path| > 0
    decreases |path|, 0
  {
    path[0] !in {".obsidian", ".trash", ".git", ".DS_Store"} &&
    exists entry :: entry in entries && entry.name == path[0] && Reaches(entry, path[1..], node)
  }

  /** The options show the node, as this kind. */
  predicate Shows(node: Node, isDir: bool, o: Options) {
    && !node.Barred? && node.Dir? == isDir && Wanted(o, isDir, node.name)
    && (node.File? ==> node.statOk)
  }

  /**
   * What is shown, written out: a file that can be looked up, if files are asked for, or a directory,
   * if directories are; and one whose name fits the pattern, if there is one.
   */
  predicate ShownAs(node: Node, isDir: bool, o: Options) {
    && (|| (node.File? && !isDir && node.statOk && o.includeFiles)
        || (node.Dir? && isDir && o.includeDirs))
    && (o.pattern == None || o.pattern == Some("") || o.fnmatch(node.name, o.pattern.value))
  }

  lemma ShownAsAsked(o: Options)
    ensures forall node, isDir :: ShownAs(node, isDir, o) <==> Shows(node, isDir, o)
  {
  }

  ghost predicate Finds(from: Node, path: seq<string>, isDir: bool, o: Options) {
    exists node :: Reaches(from, path, node) && Shows(node, isDir, o)
  }

  ghost predicate FindsIn(entries: seq<Node>, path: seq<string>, isDir: bool, o: Options) {
    exists entry :: entry in entries && FindsBy(entry, path, isDir, o)
  }

  ghost predicate FindsBy(entry: Node, path: seq<string>, isDir: bool, o: Options) {
    |path| > 0 && entry.name == path[0] && entry.name !in EXCLUDED_DIRS && Finds(entry, path[1..], isDir, o)
  }

  lemma FindsHere(from: Node, isDir: bool, o: Options)
    ensures Finds(from, [], isDir, o) <==> Shows(from, isDir, o)
  {
    assert Reaches(from, [], from);
  }

  lemma FindsBelow(from: Node, path: seq<string>, isDir: bool, o: Options)
    requires |path| > 0
    ensures Finds(from, path, isDir, o)
       <==> from.Dir? && from.access.Readable? && FindsIn(from.children, path, isDir, o)
  {
    hide Shows;
    if Finds(from, path, isDir, o) {
      var node :| Reaches(from, path, node) && Shows(node, isDir, o);
      var entry := StepUp(from, path, node);
      assert FindsBy(entry, path, isDir, o);
    }
    if from.Dir? && from.access.Readable? && FindsIn(from.children, path, isDir, o) {
      var entry :| entry in from.children && FindsBy(entry, path, isDir, o);
      var node :| Reaches(entry, path[1..], node) && Shows(node, isDir, o);
      assert ReachesIn(from.children, path, node);
      assert Reaches(from, path, node);
    }
  }

  /** The row is at most `depth` deep, below `path`. */
  predicate Below(row: Row, path: seq<string>, depth: int) {
    |path| < |row.path| <= depth && row.path[..|path|] == path
  }

  lemma {:induction false} EntriesRowsIff(entries: seq<Node>, path: seq<string>, depth: int, o: Options, row: Row)
    requires |path| < depth
    ensures row in WalkEntries(entries, path, depth, o) <==>
      Below(row, path, depth) && FindsIn(entries, row.path[|path|..], row.isDir, o)
    decreases entries, 0
  {
    hide WalkEntry, FindsBy;
    if |entries| > 0 {
      EntryRowsIff(entries[0], path, depth, o, row);
      EntriesRowsIff(entries[1..], path, depth, o, row);
      assert forall entry :: entry in entries <==> entry == entries[0] || entry in entries[1..];
    }
  }

  lemma {:induction false} EntryRowsIff(entry: Node, path: seq<string>, depth: int, o: Options, row: Row)
    requires |path| < depth
    ensures row in WalkEntry(entry, path, depth, o) <==>
      Below(row, path, depth) && FindsBy(entry, row.path[|path|..], row.isDir, o)
    decreases entry, 1
  {
    hide WalkEntries, FindsIn, Finds, Matches;
    var below := path + [entry.name];
    if Below(row, path, depth) {
      var rest := row.path[|path|..];
      assert |rest| == 1 ==> row.path == path + [rest[0]] && rest[1..] == [];
      assert |rest| > 1 ==> row.path[..|below|] == path + [rest[0]] && row.path[|below|..] == rest[1..];
      FindsHere(entry, row.isDir, o);
      if |rest| > 1 {
        FindsBelow(entry, rest[1..], row.isDir, o);
      }
    }
    assert Below(row, below, depth) ==> row.path[..|path|] == row.path[..|below|][..|path|] == path
                                        && row.path[|path|] == row.path[..|below|][|path|] == entry.name;
    assert below[..|path|] == path;
    if entry.Dir? && |below| < depth {
      EntriesRowsIff(entry.children, below, depth, o, row);
    }
    var deeper := if entry.Dir? then WalkDir(entry, below, depth, o) else [];
    assert row in deeper <==> && entry.Dir? && entry.access.Readable? && Below(row, below, depth)
                              && FindsIn(entry.children, row.path[|below|..], row.isDir, o);
    assert row in [Row(below, entry.Dir?)] + deeper <==> row == Row(below, entry.Dir?) || row in deeper;
    assert [] + deeper == deeper;
  }

  /**
   * The listing holds exactly the rows at most min(depth, 5) deep whose path leads, through readable
   * directories and past no excluded name, to an entry the options show.
   */
  lemma ListedIff(root: Node, depth: int, o: Options, row: Row)
    requires Listed(root, depth, o).Rows?
    ensures row in Listed(root, depth, o).rows <==>
      0 < |row.path| <= Min(depth, 5) && exists node :: Reaches(root, row.path, node) && ShownAs(node, row.isDir, o)
  {
    hide FindsIn, DirRaises, Reaches;
    ShownAsAsked(o);
    var limit := Min(depth, MAX_LIST_DEPTH);
    if limit > 0 {
      EntriesRowsIff(root.children, [], limit, o, row);
      assert row.path[0..] == row.path;
      if |row.path| > 0 {
        FindsBelow(root, row.path, row.isDir, o);
      }
    }
  }

  // ----- The order of the rows -----

  /** In the tree's own order `p` comes before `q`: a directory before what it holds, siblings as visited. */
  predicate InOrder(entries: seq<Node>, p: seq<string>, q: seq<string>)
    decreases |p|, 1
  {
    |p| > 0 && |q| > 0 &&
    exists i, j :: 0 <= i <= j < |entries| && entries[i].name == p[0] && entries[j].name == q[0]
                   && (i < j || InOrderAt(entries[i], p, q))
  }

  predicate InOrderAt(entry: Node, p: seq<string>, q: seq<string>)
    requires |p| > 0
    decreases |p|, 0
  {
    |q| > 1 && (|p| == 1 || (entry.Dir? && InOrder(entry.children, p[1..], q[1..])))
  }

  lemma {:induction false} EntriesInOrder(entries: seq<Node>, path: seq<string>, depth: int, o: Options, a: nat, b: nat)
    requires |path| < depth && a < b < |WalkEntries(entries, path, depth, o)|
    ensures var rows := WalkEntries(entries, path, depth, o);
      && |path| < |rows[a].path| && |path| < |rows[b].path|
      && InOrder(entries, rows[a].path[|path|..], rows[b].path[|path|..])
    decreases entries, 0
  {
    hide WalkEntry, InOrderAt, Finds;
    var first, rest := WalkEntry(entries[0], path, depth, o), WalkEntries(entries[1..], path, depth, o);
    var rows := first + rest;
    if b < |first| {
      EntryInOrder(entries[0], path, depth, o, a, b);
    } else if a < |first| {
      EntryRowsIff(entries[0], path, depth, o, rows[a]);
      EntriesRowsIff(entries[1..], path, depth, o, rows[b]);
      assert rows[a] == first[a] && rows[b] == rest[b - |first|];
      assert entries[0].name == rows[a].path[|path|..][0];
      NamedEntry(entries, rows[b].path[|path|..], rows[b].isDir, o);
    } else {
      EntriesInOrder(entries[1..], path, depth, o, a - |first|, b - |first|);
      OrderBehind(entries, rows[a].path[|path|..], rows[b].path[|path|..]);
    }
  }

  lemma NamedEntry(entries: seq<Node>, path: seq<string>, isDir: bool, o: Options)
    requires |entries| > 0 && FindsIn(entries[1..], path, isDir, o)
    ensures |path| > 0 && exists j :: 0 < j < |entries| && entries[j].name == path[0]
  {
    hide Finds;
    var entry :| entry in entries[1..] && FindsBy(entry, path, isDir, o);
    var k :| 0 <= k < |entries[1..]| && entries[1..][k] == entry;
    assert entries[k + 1].name == path[0];
  }

  lemma OrderBehind(entries: seq<Node>, p: seq<string>, q: seq<string>)
    requires |entries| > 0 && InOrder(entries[1..], p, q)
    ensures InOrder(entries, p, q)
  {
    hide InOrderAt;
    var rest := entries[1..];
    var i, j :| 0 <= i <= j < |rest| && rest[i].name == p[0] && rest[j].name == q[0]
                && (i < j || InOrderAt(rest[i], p, q));
    assert rest[i] == entries[i + 1] && rest[j] == entries[j + 1];
  }

  lemma EntryRow(entry: Node, path: seq<string>, depth: int, o: Options, row: Row)
    requires |path| < depth && row in WalkEntry(entry, path, depth, o)
    ensures |path| < |row.path| && row.path[|path|] == entry.name
  {
    hide WalkEntry, Finds;
    EntryRowsIff(entry, path, depth, o, row);
  }

  lemma EntriesRow(entries: seq<Node>, path: seq<string>, depth: int, o: Options, row: Row)
    requires |path| < depth && row in WalkEntries(entries, path, depth, o)
    ensures |path| < |row.path|
  {
    hide WalkEntries, FindsIn;
    EntriesRowsIff(entries, path, depth, o, row);
  }

  /** An entry with more than one row is a directory: its own row, if shown, and then those below it. */
  lemma EntryShape(entry: Node, path: seq<string>, depth: int, o: Options) returns (own: nat)
    requires |WalkEntry(entry, path, depth, o)| > 1
    ensures var rows, below := WalkEntry(entry, path, depth, o), path + [entry.name];
      && entry.Dir? && |below| < depth && own <= 1 && (own == 1 ==> rows[0].path == below)
      && rows[own..] == WalkEntries(entry.children, below, depth, o)
  {
    hide WalkEntries, Wanted;
    own := if Wanted(o, true, entry.name) then 1 else 0;
  }

  lemma {:induction false} EntryInOrder(entry: Node, path: seq<string>, depth: int, o: Options, a: nat, b: nat)
    requires |path| < depth && a < b < |WalkEntry(entry, path, depth, o)|
    ensures var rows := WalkEntry(entry, path, depth, o);
      && |path| < |rows[a].path| && |path| < |rows[b].path|
      && rows[a].path[|path|] == rows[b].path[|path|] == entry.name
      && InOrderAt(entry, rows[a].path[|path|..], rows[b].path[|path|..])
    decreases entry, 1
  {
    hide WalkEntries, WalkEntry, InOrder;
    var rows := WalkEntry(entry, path, depth, o);
    EntryRow(entry, path, depth, o, rows[a]);
    EntryRow(entry, path, depth, o, rows[b]);
    var below := path + [entry.name];
    var own := EntryShape(entry, path, depth, o);
    var deeper := rows[own..];
    assert rows[b] == deeper[b - own];
    EntriesRow(entry.children, below, depth, o, rows[b]);
    if a >= own {
      assert rows[a] == deeper[a - own];
      EntriesInOrder(entry.children, below, depth, o, a - own, b - own);
      assert rows[a].path[|path|..][1..] == rows[a].path[|below|..];
      assert rows[b].path[|path|..][1..] == rows[b].path[|below|..];
    }
  }

  /** Rows come in the tree's order: a directory's row before the rows below it, siblings in the order visited. */
  lemma ListingIsInOrder(root: Node, depth: int, o: Options, a: nat, b: nat)
    requires Listed(root, depth, o).Rows? && a < b < |Listed(root, depth, o).rows|
    ensures root.Dir? && InOrder(root.children, Listed(root, depth, o).rows[a].path, Listed(root, depth, o).rows[b].path)
  {
    hide InOrder, DirRaises;
    var rows, limit := Listed(root, depth, o).rows, Min(depth, MAX_LIST_DEPTH);
    EntriesInOrder(root.children, [], limit, o, a, b);
    assert rows[a].path[0..] == rows[a].path && rows[b].path[0..] == rows[b].path;
  }

  /** A node at this level that makes a walk of `left` levels raise. */
  predicate Raises(node: Node, level: nat, left: int) {
    || (node.Dir? && node.access.Failing? && level < left)
    || (node.Barred? && level <= left)
  }

  predicate MeetsRaiser(from: Node, path: seq<string>, node: Node, left: int) {
    Reaches(from, path, node) && Raises(node, |path|, left)
  }

  lemma {:induction false} DirRaisesIff(dir: Node, left: int)
    requires dir.Dir?
    ensures DirRaises(dir, left) <==> exists path, node :: MeetsRaiser(dir, path, node, left)
    decreases dir, 0
  {
    hide EntriesRaise, ReachesIn;
    if left >= 1 && dir.access.Failing? {
      assert MeetsRaiser(dir, [], dir, left);
    } else if left >= 1 && dir.access.Readable? {
      EntriesRaiseIff(dir.children, left - 1);
      if EntriesRaise(dir.children, left - 1) {
        var entry, path, node :|
          entry in dir.children && entry.name !in EXCLUDED_DIRS && MeetsRaiser(entry, path, node, left - 1);
        StepDown(dir, entry, path, node);
        assert MeetsRaiser(dir, [entry.name] + path, node, left);
      }
    }
    forall path, node | MeetsRaiser(dir, path, node, left) ensures DirRaises(dir, left) {
      if |path| > 0 {
        var entry := StepUp(dir, path, node);
        assert MeetsRaiser(entry, path[1..], node, left - 1);
      }
    }
  }

  lemma StepDown(dir: Node, entry: Node, path: seq<string>, node: Node)
    requires dir.Dir? && dir.access.Readable? && entry in dir.children && entry.name !in EXCLUDED_DIRS
    requires Reaches(entry, path, node)
    ensures Reaches(dir, [entry.name] + path, node)
  {
    assert ([entry.name] + path)[1..] == path;
    assert ReachesIn(dir.children, [entry.name] + path, node);
  }

  lemma StepUp(dir: Node, path: seq<string>, node: Node) returns (entry: Node)
    requires |path| > 0 && Reaches(dir, path, node)
    ensures dir.Dir? && dir.access.Readable? && entry in dir.children
    ensures entry.name == path[0] && path[0] !in EXCLUDED_DIRS && Reaches(entry, path[1..], node)
  {
    entry :| entry in dir.children && entry.name == path[0] && Reaches(entry, path[1..], node);
  }

  lemma {:induction false} EntriesRaiseIff(entries: seq<Node>, left: int)
    requires left >= 0
    ensures EntriesRaise(entries, left) <==>
      exists entry, path, node ::
        entry in entries && entry.name !in EXCLUDED_DIRS && MeetsRaiser(entry, path, node, left)
    decreases entries, 0
  {
    hide MeetsRaiser, EntryRaises;
    if |entries| > 0 {
      EntryRaisesIff(entries[0], left);
      EntriesRaiseIff(entries[1..], left);
      assert forall entry :: entry in entries <==> entry == entries[0] || entry in entries[1..];
    }
  }

  lemma {:induction false} EntryRaisesIff(entry: Node, left: int)
    requires left >= 0
    ensures EntryRaises(entry, left) <==>
      entry.name !in EXCLUDED_DIRS && exists path, node :: MeetsRaiser(entry, path, node, left)
    decreases entry, 1
  {
    hide DirRaises;
    if entry.Dir? {
      DirRaisesIff(entry, left);
    } else if entry.Barred? {
      assert MeetsRaiser(entry, [], entry, left);
    }
  }

  /**
   * The call raises, whatever the options, exactly when the root is barred, or a path of readable
   * directories leads to a barred entry within the depth, or to a failing directory the walk would read.
   */
  lemma RaisesIff(root: Node, depth: int, o: Options)
    ensures Listed(root, depth, o).Raised? <==>
      || root.Barred?
      || (root.Dir? && exists path, node :: MeetsRaiser(root, path, node, Min(depth, 5)))
  {
    hide DirRaises, MeetsRaiser;
    if root.Dir? {
      DirRaisesIff(root, Min(depth, MAX_LIST_DEPTH));
    }
  }

  // ----- Less depth, fewer rows -----

  /** The rows at most `depth` deep. */
  function UpTo(rows: seq<Row>, depth: int): seq<Row> {
    if |rows| == 0 then []
    else if |rows[0].path| <= depth then [rows[0]] + UpTo(rows[1..], depth)
    else UpTo(rows[1..], depth)
  }

  lemma {:induction false} UpToAppend(a: seq<Row>, b: seq<Row>, depth: int)
    ensures UpTo(a + b, depth) == UpTo(a, depth) + UpTo(b, depth)
  {
    if |a| == 0 {
      assert a + b == b;
    } else {
      assert (a + b)[1..] == a[1..] + b;
      UpToAppend(a[1..], b, depth);
    }
  }

  lemma {:induction false} ShallowerDir(dir: Node, path: seq<string>, d: int, deep: int, o: Options)
    requires dir.Dir? && d <= deep
    ensures WalkDir(dir, path, d, o) == UpTo(WalkDir(dir, path, deep, o), d)
    decreases dir, 0
  {
    ShallowerEntries(dir.children, path, d, deep, o);
  }

  lemma {:induction false} ShallowerEntries(entries: seq<Node>, path: seq<string>, d: int, deep: int, o: Options)
    requires d <= deep
    ensures UpTo(WalkEntries(entries, path, deep, o), d)
         == if |path| < d then WalkEntries(entries, path, d, o) else []
    decreases entries, 0
  {
    hide WalkEntry;
    if |entries| > 0 {
      ShallowerEntry(entries[0], path, d, deep, o);
      ShallowerEntries(entries[1..], path, d, deep, o);
      UpToAppend(WalkEntry(entries[0], path, deep, o), WalkEntries(entries[1..], path, deep, o), d);
    }
  }

  lemma {:induction false} ShallowerEntry(entry: Node, path: seq<string>, d: int, deep: int, o: Options)
    requires d <= deep
    ensures UpTo(WalkEntry(entry, path, deep, o), d)
         == if |path| < d then WalkEntry(entry, path, d, o) else []
    decreases entry, 1
  {
    hide Wanted, WalkEntries;
    var below := path + [entry.name];
    if entry.Dir? {
      ShallowerDir(entry, below, d, deep, o);
      UpToAppend([Row(below, true)], WalkDir(entry, below, deep, o), d);
      assert [] + WalkDir(entry, below, deep, o) == WalkDir(entry, below, deep, o);
    }
  }

  lemma {:induction false} ShallowerRaisesLess(dir: Node, d: int, deep: int)
    requires dir.Dir? && d <= deep && DirRaises(dir, d)
    ensures DirRaises(dir, deep)
    decreases dir, 0
  {
    if dir.access.Readable? {
      ShallowerEntriesRaiseLess(dir.children, d - 1, deep - 1);
    }
  }

  lemma {:induction false} ShallowerEntriesRaiseLess(entries: seq<Node>, d: int, deep: int)
    requires d <= deep && EntriesRaise(entries, d)
    ensures EntriesRaise(entries, deep)
    decreases entries, 0
  {
    if EntryRaises(entries[0], d) {
      if entries[0].Dir? {
        ShallowerRaisesLess(entries[0], d, deep);
      }
    } else {
      ShallowerEntriesRaiseLess(entries[1..], d, deep);
    }
  }

  /** A shallower listing is the deeper one without its deeper levels; beyond depth 5 nothing changes. */
  lemma DepthOnlyCutsLevels(root: Node, d: int, deep: int, o: Options)
    requires d <= deep
    ensures Listed(root, deep, o).Rows? ==>
      Listed(root, d, o) == Rows(UpTo(Listed(root, deep, o).rows, Min(d, 5)))
    ensures d >= 5 ==> Listed(root, d, o) == Listed(root, deep, o)
  {
    hide DirRaises, WalkDir;
    var low, high := Min(d, MAX_LIST_DEPTH), Min(deep, MAX_LIST_DEPTH);
    if root.Dir? {
      ShallowerDir(root, [], low, high, o);
      if DirRaises(root, low) {
        ShallowerRaisesLess(root, low, high);
      }
    }
  }

  // ----- Filtering -----

  function Filter(rows: seq<Row>, o: Options): seq<Row> {
    if |rows| == 0 then []
    else if |rows[0].path| > 0 && Wanted(o, rows[0].isDir, rows[0].path[|rows[0].path| - 1]) then
      [rows[0]] + Filter(rows[1..], o)
    else Filter(rows[1..], o)
  }

  lemma {:induction false} FilterAppend(a: seq<Row>, b: seq<Row>, o: Options)
    ensures Filter(a + b, o) == Filter(a, o) + Filter(b, o)
  {
    hide Wanted;
    if |a| == 0 {
      assert a + b == b;
    } else {
      assert (a + b)[1..] == a[1..] + b;
      FilterAppend(a[1..], b, o);
    }
  }

  lemma {:induction false} FilteredEntries(entries: seq<Node>, path: seq<string>, depth: int, o: Options)
    ensures WalkEntries(entries, path, depth, o) == Filter(WalkEntries(entries, path, depth, Everything(o)), o)
    decreases entries, 0
  {
    hide WalkEntry;
    if |entries| > 0 {
      FilteredEntry(entries[0], path, depth, o);
      FilteredEntries(entries[1..], path, depth, o);
      FilterAppend(WalkEntry(entries[0], path, depth, Everything(o)),
                   WalkEntries(entries[1..], path, depth, Everything(o)), o);
    }
  }

  lemma {:induction false} FilteredEntry(entry: Node, path: seq<string>, depth: int, o: Options)
    ensures WalkEntry(entry, path, depth, o) == Filter(WalkEntry(entry, path, depth, Everything(o)), o)
    decreases entry, 1
  {
    hide WalkEntries, Matches;
    var below := path + [entry.name];
    AllWanted(o, entry.name);
    if entry.Dir? {
      FilteredEntries(entry.children, below, depth, o);
      FilterAppend([Row(below, true)], WalkDir(entry, below, depth, Everything(o)), o);
    }
  }

  lemma AllWanted(o: Options, name: string)
    ensures Matches(Everything(o), name)
  {
  }

  /**
   * Filtering while walking is filtering afterwards: for every tree, depth and options the call has
   * the same kind of outcome as the unfiltered one, and its rows are the wanted ones among those.
   */
  lemma FilteredListingIsFilter(root: Node, depth: int, o: Options)
    ensures Listed(root, depth, o)
         == match Listed(root, depth, Everything(o))
            case Rows(rows) => Rows(Filter(rows, o))
            case NotADirectory => NotADirectory
            case Raised => Raised
  {
    hide DirRaises, Filter, WalkEntries;
    if root.Dir? {
      FilteredEntries(root.children, [], Min(depth, MAX_LIST_DEPTH), o);
      NothingFiltered(o);
    }
  }

  lemma NothingFiltered(o: Options)
    ensures Filter([], o) == []
  {
  }
}
