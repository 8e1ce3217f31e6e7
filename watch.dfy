/**
 * AddRecursiveWatch (internal/livereload/livereload.go): for every watch
 * root, walk its directory tree the way filepath.Walk does and hand every
 * directory that is not ignored to the file watcher.
 *
 * The file system is an abstract tree. A path is the root string followed by
 * the names of the entries below it, so filepath.Join is not modelled. The
 * children of a directory are given in the order the walk visits them
 * (filepath.Walk sorts them by name).
 */
module Watch {
  import opened Wrappers
  import opened GoStrings
  import opened Events

  type Path = seq<string>

  /** What os.Lstat and reading the directory report about one path. */
  datatype FsNode =
    | File                                              // a regular file, a symlink or any other non-directory
    | Dir(readErr: Option<string>, entries: seq<Entry>) // a directory; readErr when its names cannot be read
    | Unstatable(err: string)                           // os.Lstat failed

  datatype Entry = Entry(name: string, node: FsNode)

  /** The node of a root path; a root missing from the file system fails os.Lstat. */
  function RootNode(fs: map<string, FsNode>, root: string): FsNode
  {
    if root in fs && root != "" then fs[root] else Unstatable("lstat " + root + ": no such file or directory")
  }

  // ---------------------------------------------------------------------------
  // The reference: a full traversal that records every directory it would
  // watch and every error it meets, and never stops early.
  // ---------------------------------------------------------------------------

  datatype Item = Watch(path: Path) | Fail(err: string)

  /**
   * The items of the subtree at `path`, whose own name is `name`. An
   * unreadable directory is an error and is not watched, whether or not
   * its name is ignored; an ignored directory contributes nothing, its
   * subtree included.
   */
  function Reach(path: Path, name: string, node: FsNode, ignore: IgnoreMap): seq<Item>
    decreases node
  {
    match node
    case File => []
    case Unstatable(e) => [Fail(e)]
    case Dir(readErr, entries) =>
      if readErr.Some? then [Fail(readErr.value)]
      else if Lookup(ignore, name) then []
      else [Watch(path)] + ReachEntries(path, entries, ignore)
  }

  function ReachEntries(dir: Path, entries: seq<Entry>, ignore: IgnoreMap): seq<Item>
    decreases entries
  {
    if entries == [] then []
    else
      var e := entries[|entries| - 1];
      ReachEntries(dir, entries[..|entries| - 1], ignore) + Reach(dir + [e.name], e.name, e.node, ignore)
  }

  /** The directories watched before the first error. */
  function UpToFail(items: seq<Item>): seq<Path>
  {
    if items == [] then []
    else match items[0]
      case Watch(q) => [q] + UpToFail(items[1..])
      case Fail(_) => []
  }

  function FirstFail(items: seq<Item>): Option<string>
  {
    if items == [] then None
    else match items[0]
      case Watch(_) => FirstFail(items[1..])
      case Fail(e) => Some(e)
  }

  /** `rel` leads from `node` through readable directories to a readable directory. */
  predicate Readable(node: FsNode, rel: seq<string>)
    decreases node
  {
    && node.Dir? && node.readErr.None?
    && (rel != [] ==> exists e :: e in node.entries && e.name == rel[0] && Readable(e.node, rel[1..]))
  }

  predicate NoneIgnored(ignore: IgnoreMap, names: seq<string>) {
    forall j :: 0 <= j < |names| ==> !Lookup(ignore, names[j])
  }

  // ---------------------------------------------------------------------------
  // The walk: filepath.Walk with the callback of AddRecursiveWatch.
  // ---------------------------------------------------------------------------

  /** What the callback, and then the walk of a subtree, tells filepath.Walk. */
  datatype Visit = Continue | SkipDir | Abort(err: string)

  /** The directories passed to watcher.Add, in order, and how the walk ended. */
  datatype Walked = Walked(adds: seq<Path>, visit: Visit)

  /**
   * One node. The callback returns any error it is handed, before it looks
   * at the name; an ignored directory yields SkipDir; any other directory is
   * added, and the walk goes on into its entries whether or not Add failed.
   * Non-directories are passed over.
   */
  function WalkNode(path: Path, name: string, node: FsNode, ignore: IgnoreMap): Walked
    decreases node
  {
    match node
    case File => Walked([], Continue)
    case Unstatable(e) => Walked([], Abort(e))
    case Dir(readErr, entries) =>
      if readErr.Some? then Walked([], Abort(readErr.value))
      else if Lookup(ignore, name) then Walked([], SkipDir)
      else
        var r := WalkEntries(path, entries, ignore);
        Walked([path] + r.adds, r.visit)
  }

  /**
   * The entries of a directory in order. SkipDir from a child directory
   * moves on to the next entry; an error ends the walk.
   */
  function WalkEntries(dir: Path, entries: seq<Entry>, ignore: IgnoreMap): Walked
    decreases entries
  {
    if entries == [] then Walked([], Continue)
    else
      var r := WalkEntries(dir, entries[..|entries| - 1], ignore);
      if r.visit.Abort? then r
      else
        var e := entries[|entries| - 1];
        var c := WalkNode(dir + [e.name], e.name, e.node, ignore);
        Walked(r.adds + c.adds, if c.visit.Abort? then c.visit else Continue)
  }

  /** filepath.Walk of one root: the root's name is its base name, and SkipDir at the root is no error. */
  function WalkRoot(root: string, node: FsNode, ignore: IgnoreMap): (r: Walked)
    ensures !r.visit.SkipDir?
  {
    var r := WalkNode([root], Base(root), node, ignore);
    if r.visit.SkipDir? then Walked(r.adds, Continue) else r
  }

  /** The walk of one entry of the watch list, after trimming white space. */
  function RootWalk(p: string, fs: map<string, FsNode>, ignore: IgnoreMap): Walked
  {
    var root := TrimSpace(p);
    WalkRoot(root, RootNode(fs, root), ignore)
  }

  /** The walks of the entries of the watch list, one per entry. */
  function RootWalks(paths: seq<string>, fs: map<string, FsNode>, ignore: IgnoreMap): seq<Walked>
  {
    seq(|paths|, i requires 0 <= i < |paths| => RootWalk(paths[i], fs, ignore))
  }

  /** Walks run in order; the first one that fails ends the whole operation. */
  function Sequence(walks: seq<Walked>): Walked
  {
    if walks == [] then Walked([], Continue)
    else
      var r := Sequence(walks[..|walks| - 1]);
      if r.visit.Abort? then r
      else
        var w := walks[|walks| - 1];
        Walked(r.adds + w.adds, w.visit)
  }

  /**
   * `walks` is the list of root walks of `paths`: entry i is RootWalk of
   * paths[i]. The trigger keeps the walks closed until a proof names one.
   */
  ghost predicate AreRootWalks(walks: seq<Walked>, paths: seq<string>, fs: map<string, FsNode>, ignore: IgnoreMap) {
    && |walks| == |paths|
    && forall i {:trigger RootWalk(paths[i], fs, ignore)} :: 0 <= i < |paths| ==> walks[i] == RootWalk(paths[i], fs, ignore)
  }

  lemma RootWalksAre(paths: seq<string>, fs: map<string, FsNode>, ignore: IgnoreMap)
    ensures AreRootWalks(RootWalks(paths, fs, ignore), paths, fs, ignore)
  {
  }

  /** The list of root walks of `paths` (RootWalks), known only through AreRootWalks. */
  ghost function TheRootWalks(paths: seq<string>, fs: map<string, FsNode>, ignore: IgnoreMap): (walks: seq<Walked>)
    ensures AreRootWalks(walks, paths, fs, ignore)
  {
    RootWalksAre(paths, fs, ignore);
    var walks :| AreRootWalks(walks, paths, fs, ignore);
    walks
  }

  /** AddRecursiveWatch over the watch list. */
  ghost function WatchAll(paths: seq<string>, fs: map<string, FsNode>, ignore: IgnoreMap): Walked
  {
    Sequence(TheRootWalks(paths, fs, ignore))
  }

  // ---------------------------------------------------------------------------
  // The walk is the reference traversal cut at its first error.
  // ---------------------------------------------------------------------------

  lemma {:induction false} UpToFailAppend(a: seq<Item>, b: seq<Item>)
    ensures FirstFail(a + b) == if FirstFail(a).Some? then FirstFail(a) else FirstFail(b)
    ensures UpToFail(a + b) == if FirstFail(a).Some? then UpToFail(a) else UpToFail(a) + UpToFail(b)
  {
    if a == [] {
      assert a + b == b;
    } else {
      assert (a + b)[0] == a[0];
      assert (a + b)[1..] == a[1..] + b;
      UpToFailAppend(a[1..], b);
    }
  }

  /**
   * The walk adds exactly the directories the reference watches before its
   * first error, and it aborts exactly when the reference meets an error,
   * with that error.
   */
  lemma {:induction false} WalkNodeCutsReach(path: Path, name: string, node: FsNode, ignore: IgnoreMap)
    ensures var w, items := WalkNode(path, name, node, ignore), Reach(path, name, node, ignore);
            && w.adds == UpToFail(items)
            && (w.visit.Abort? <==> FirstFail(items).Some?)
            && (w.visit.Abort? ==> FirstFail(items) == Some(w.visit.err))
            && (w.visit.SkipDir? ==> items == [])
    decreases node
  {
    if node.Dir? && node.readErr.None? && !Lookup(ignore, name) {
      WalkEntriesCutsReach(path, node.entries, ignore);
      var rest := ReachEntries(path, node.entries, ignore);
      assert ([Watch(path)] + rest)[1..] == rest;
    }
  }

  lemma {:induction false} WalkEntriesCutsReach(dir: Path, entries: seq<Entry>, ignore: IgnoreMap)
    ensures var w, items := WalkEntries(dir, entries, ignore), ReachEntries(dir, entries, ignore);
            && w.adds == UpToFail(items)
            && !w.visit.SkipDir?
            && (w.visit.Abort? <==> FirstFail(items).Some?)
            && (w.visit.Abort? ==> FirstFail(items) == Some(w.visit.err))
    decreases entries
  {
    if entries != [] {
      var front := entries[..|entries| - 1];
      var e := entries[|entries| - 1];
      WalkEntriesCutsReach(dir, front, ignore);
      WalkNodeCutsReach(dir + [e.name], e.name, e.node, ignore);
      UpToFailAppend(ReachEntries(dir, front, ignore), Reach(dir + [e.name], e.name, e.node, ignore));
    }
  }

  lemma {:induction false} UpToFailWatches(items: seq<Item>, q: Path)
    ensures q in UpToFail(items) ==> Watch(q) in items
    ensures FirstFail(items).None? ==> (q in UpToFail(items) <==> Watch(q) in items)
  {
    if items != [] {
      UpToFailWatches(items[1..], q);
      assert items == [items[0]] + items[1..];
    }
  }

  // ---------------------------------------------------------------------------
  // What the reference watches: exactly the readable directories reached
  // without passing through an ignored name.
  // ---------------------------------------------------------------------------

  /**
   * Everything watched in the subtree at `path` is a readable directory
   * below it, reached through names none of which is ignored, and the
   * subtree's own name is not ignored either. In particular no file is
   * ever watched.
   */
  lemma {:induction false} ReachSound(path: Path, name: string, node: FsNode, ignore: IgnoreMap, q: Path)
    requires Watch(q) in Reach(path, name, node, ignore)
    ensures !Lookup(ignore, name) && |path| <= |q| && q[..|path|] == path
    ensures Readable(node, q[|path|..]) && NoneIgnored(ignore, q[|path|..])
    decreases node
  {
    var items := Reach(path, name, node, ignore);
    assert node.Dir? && node.readErr.None? && !Lookup(ignore, name);
    if q != path {
      assert Watch(q) in ReachEntries(path, node.entries, ignore);
      ReachEntriesSound(path, node.entries, ignore, q);
      var e :| e in node.entries && |path| < |q| && q[..|path| + 1] == path + [e.name]
               && !Lookup(ignore, e.name)
               && Readable(e.node, q[|path| + 1..]) && NoneIgnored(ignore, q[|path| + 1..]);
      var rel := q[|path|..];
      assert rel[0] == e.name;
      assert rel[1..] == q[|path| + 1..];
      assert q[..|path|] == q[..|path| + 1][..|path|];
      forall j | 0 <= j < |rel|
        ensures !Lookup(ignore, rel[j])
      {
        if j > 0 {
          assert rel[j] == q[|path| + 1..][j - 1];
        }
      }
    }
  }

  lemma {:induction false} ReachEntriesSound(dir: Path, entries: seq<Entry>, ignore: IgnoreMap, q: Path)
    requires Watch(q) in ReachEntries(dir, entries, ignore)
    ensures exists e :: e in entries && |dir| < |q| && q[..|dir| + 1] == dir + [e.name]
                        && !Lookup(ignore, e.name)
                        && Readable(e.node, q[|dir| + 1..]) && NoneIgnored(ignore, q[|dir| + 1..])
    decreases entries
  {
    var front := entries[..|entries| - 1];
    var e := entries[|entries| - 1];
    if Watch(q) in ReachEntries(dir, front, ignore) {
      ReachEntriesSound(dir, front, ignore, q);
      var f :| f in front && |dir| < |q| && q[..|dir| + 1] == dir + [f.name]
               && !Lookup(ignore, f.name)
               && Readable(f.node, q[|dir| + 1..]) && NoneIgnored(ignore, q[|dir| + 1..]);
      assert f in entries;
    } else {
      var child := dir + [e.name];
      ReachSound(child, e.name, e.node, ignore, q);
      assert q[..|dir| + 1] == child;
      assert q[|child|..] == q[|dir| + 1..];
    }
  }

  /**
   * Conversely every readable directory reached through names none of which
   * is ignored is watched, however many errors the rest of the tree holds.
   */
  lemma {:induction false} ReachComplete(path: Path, name: string, node: FsNode, ignore: IgnoreMap, rel: seq<string>)
    requires Readable(node, rel) && !Lookup(ignore, name) && NoneIgnored(ignore, rel)
    ensures Watch(path + rel) in Reach(path, name, node, ignore)
    decreases |rel|
  {
    if rel == [] {
      assert path + rel == path;
    } else {
      var e :| e in node.entries && e.name == rel[0] && Readable(e.node, rel[1..]);
      assert !Lookup(ignore, rel[0]);
      assert NoneIgnored(ignore, rel[1..]) by {
        forall j | 0 <= j < |rel[1..]| ensures !Lookup(ignore, rel[1..][j]) {
          assert rel[1..][j] == rel[j + 1];
        }
      }
      ReachComplete(path + [e.name], e.name, e.node, ignore, rel[1..]);
      assert path + [e.name] + rel[1..] == path + rel;
      ReachEntriesContains(path, node.entries, ignore, e, Watch(path + rel));
    }
  }

  /** Whatever the subtree of an entry holds, the items of the directory hold. */
  lemma {:induction false} ReachEntriesContains(dir: Path, entries: seq<Entry>, ignore: IgnoreMap, e: Entry, it: Item)
    requires e in entries && it in Reach(dir + [e.name], e.name, e.node, ignore)
    ensures it in ReachEntries(dir, entries, ignore)
    decreases entries
  {
    var front := entries[..|entries| - 1];
    if e != entries[|entries| - 1] {
      assert e in front by {
        var k :| 0 <= k < |entries| && entries[k] == e;
        assert front[k] == e;
      }
      ReachEntriesContains(dir, front, ignore, e, it);
    }
  }

  // ---------------------------------------------------------------------------
  // The properties of one root's walk.
  // ---------------------------------------------------------------------------

  /**
   * Every directory the walk of a root adds is a readable directory under the
   * root, reached through non-ignored names from a root whose base name is
   * not ignored. The walk aborts exactly when the reference traversal meets
   * an error, and then with the first one.
   */
  lemma WalkRootSound(root: string, node: FsNode, ignore: IgnoreMap)
    ensures var w, items := WalkRoot(root, node, ignore), Reach([root], Base(root), node, ignore);
            && !w.visit.SkipDir?
            && (w.visit.Abort? <==> FirstFail(items).Some?)
            && (w.visit.Abort? ==> FirstFail(items) == Some(w.visit.err))
            && forall q :: q in w.adds ==>
                 (|q| >= 1 && q[0] == root && !Lookup(ignore, Base(root)) && Readable(node, q[1..]) && NoneIgnored(ignore, q[1..]))
  {
    var items := Reach([root], Base(root), node, ignore);
    WalkNodeCutsReach([root], Base(root), node, ignore);
    forall q | q in WalkRoot(root, node, ignore).adds
      ensures |q| >= 1 && q[0] == root && !Lookup(ignore, Base(root))
              && Readable(node, q[1..]) && NoneIgnored(ignore, q[1..])
    {
      UpToFailWatches(items, q);
      ReachSound([root], Base(root), node, ignore, q);
      assert q[..1] == [root];
    }
  }

  /**
   * When the traversal meets no error, the walk of a root adds every readable
   * directory reached through non-ignored names, and finishes without error.
   */
  lemma WalkRootComplete(root: string, node: FsNode, ignore: IgnoreMap, rel: seq<string>)
    requires FirstFail(Reach([root], Base(root), node, ignore)).None?
    requires Readable(node, rel) && !Lookup(ignore, Base(root)) && NoneIgnored(ignore, rel)
    ensures var w := WalkRoot(root, node, ignore);
            w.visit == Continue && [root] + rel in w.adds
  {
    var items := Reach([root], Base(root), node, ignore);
    WalkNodeCutsReach([root], Base(root), node, ignore);
    ReachComplete([root], Base(root), node, ignore, rel);
    UpToFailWatches(items, [root] + rel);
  }

  /** A path that passes through an ignored name anywhere below the root is never added. */
  lemma IgnoredDirNeverAdded(root: string, node: FsNode, ignore: IgnoreMap, rel: seq<string>, j: int)
    requires 0 <= j < |rel| && Lookup(ignore, rel[j])
    ensures [root] + rel !in WalkRoot(root, node, ignore).adds
  {
    WalkRootSound(root, node, ignore);
    var q := [root] + rel;
    assert q[1..] == rel;
  }

  // ---------------------------------------------------------------------------
  // The whole watch list.
  // ---------------------------------------------------------------------------

  /** filepath.Walk never returns SkipDir to AddRecursiveWatch. */
  lemma RootWalkNeverSkips(p: string, fs: map<string, FsNode>, ignore: IgnoreMap)
    ensures !RootWalk(p, fs, ignore).visit.SkipDir?
  {
  }

  /** Sequenced walks none of which skips end without error or with an error, never with SkipDir. */
  lemma {:induction false} SequenceNeverSkips(walks: seq<Walked>)
    requires forall i :: 0 <= i < |walks| ==> !walks[i].visit.SkipDir?
    ensures !Sequence(walks).visit.SkipDir?
  {
    if walks != [] {
      SequenceNeverSkips(walks[..|walks| - 1]);
    }
  }

  /** Sequenced walks succeed exactly when every one of them does. */
  lemma {:induction false} SequenceSucceeds(walks: seq<Walked>)
    requires forall i :: 0 <= i < |walks| ==> !walks[i].visit.SkipDir?
    ensures Sequence(walks).visit.Continue? <==> forall i :: 0 <= i < |walks| ==> !walks[i].visit.Abort?
  {
    if walks != [] {
      var front := walks[..|walks| - 1];
      SequenceSucceeds(front);
      SequenceNeverSkips(front);
    }
  }

  /** When sequenced walks succeed, everything any of them adds is added. */
  lemma {:induction false} SequenceCovers(walks: seq<Walked>, i: int, q: Path)
    requires forall i :: 0 <= i < |walks| ==> !walks[i].visit.SkipDir?
    requires Sequence(walks).visit.Continue?
    requires 0 <= i < |walks| && q in walks[i].adds
    ensures q in Sequence(walks).adds
  {
    var front := walks[..|walks| - 1];
    SequenceNeverSkips(front);
    if i < |front| {
      SequenceCovers(front, i, q);
    }
  }

  /** Sequenced walks add nothing that no single walk adds. */
  lemma {:induction false} SequenceSound(walks: seq<Walked>, q: Path)
    requires q in Sequence(walks).adds
    ensures exists i :: 0 <= i < |walks| && q in walks[i].adds
  {
    var front := walks[..|walks| - 1];
    var last := |walks| - 1;
    if Sequence(front).visit.Abort? || q in Sequence(front).adds {
      SequenceSound(front, q);
      var i :| 0 <= i < |front| && q in front[i].adds;
      assert walks[i] == front[i];
    } else {
      assert q in walks[last].adds;
    }
  }

  /** When sequenced walks fail, they fail with the error of the first walk that failed. */
  lemma {:induction false} SequenceFirstError(walks: seq<Walked>)
    requires forall i :: 0 <= i < |walks| ==> !walks[i].visit.SkipDir?
    requires Sequence(walks).visit.Abort?
    ensures exists k :: && 0 <= k < |walks| && walks[k].visit == Sequence(walks).visit
                        && forall i :: 0 <= i < k ==> !walks[i].visit.Abort?
  {
    var front := walks[..|walks| - 1];
    assert forall i :: 0 <= i < |front| ==> front[i] == walks[i];
    if Sequence(front).visit.Abort? {
      SequenceFirstError(front);
      var k :| && 0 <= k < |front| && front[k].visit == Sequence(front).visit
               && forall i :: 0 <= i < k ==> !front[i].visit.Abort?;
      assert Sequence(walks) == Sequence(front);
      assert walks[k].visit == Sequence(walks).visit;
    } else {
      SequenceSucceeds(front);
      SequenceNeverSkips(front);
      assert Sequence(front).visit.Continue?;
      var k := |front|;
      assert walks[k].visit == Sequence(walks).visit;
      assert forall i :: 0 <= i < k ==> !walks[i].visit.Abort?;
    }
  }

  lemma RootWalksNeverSkip(paths: seq<string>, fs: map<string, FsNode>, ignore: IgnoreMap)
    ensures var walks := TheRootWalks(paths, fs, ignore);
            forall i :: 0 <= i < |walks| ==> !walks[i].visit.SkipDir?
  {
    var walks := TheRootWalks(paths, fs, ignore);
    forall i | 0 <= i < |walks| ensures !walks[i].visit.SkipDir? {
      RootWalkNeverSkips(paths[i], fs, ignore);
    }
  }

  /** AddRecursiveWatch returns nil exactly when every root walks without error, and never SkipDir. */
  lemma WatchAllSucceeds(paths: seq<string>, fs: map<string, FsNode>, ignore: IgnoreMap)
    ensures var r := WatchAll(paths, fs, ignore);
            && !r.visit.SkipDir?
            && (r.visit.Continue? <==> forall i :: 0 <= i < |paths| ==> !RootWalk(paths[i], fs, ignore).visit.Abort?)
  {
    var walks := TheRootWalks(paths, fs, ignore);
    RootWalksNeverSkip(paths, fs, ignore);
    SequenceNeverSkips(walks);
    SequenceSucceeds(walks);
    if Sequence(walks).visit.Continue? {
      forall i | 0 <= i < |paths| ensures !RootWalk(paths[i], fs, ignore).visit.Abort? {
        assert walks[i] == RootWalk(paths[i], fs, ignore);
      }
    } else {
      var i :| 0 <= i < |walks| && walks[i].visit.Abort?;
      assert walks[i] == RootWalk(paths[i], fs, ignore);
    }
  }

  /** When AddRecursiveWatch returns nil, it has added everything each root's walk adds. */
  lemma WatchAllCovers(paths: seq<string>, fs: map<string, FsNode>, ignore: IgnoreMap, i: int, q: Path)
    requires WatchAll(paths, fs, ignore).visit.Continue?
    requires 0 <= i < |paths| && q in RootWalk(paths[i], fs, ignore).adds
    ensures q in WatchAll(paths, fs, ignore).adds
  {
    var walks := TheRootWalks(paths, fs, ignore);
    RootWalksNeverSkip(paths, fs, ignore);
    assert walks[i] == RootWalk(paths[i], fs, ignore);
    SequenceCovers(walks, i, q);
  }

  /** AddRecursiveWatch adds nothing that the walk of no root adds, whether it fails or not. */
  lemma WatchAllSound(paths: seq<string>, fs: map<string, FsNode>, ignore: IgnoreMap, q: Path)
    requires q in WatchAll(paths, fs, ignore).adds
    ensures exists i :: 0 <= i < |paths| && q in RootWalk(paths[i], fs, ignore).adds
  {
    var walks := TheRootWalks(paths, fs, ignore);
    SequenceSound(walks, q);
    var i :| 0 <= i < |walks| && q in walks[i].adds;
    assert walks[i] == RootWalk(paths[i], fs, ignore);
  }

  /**
   * Every directory AddRecursiveWatch adds lies under a trimmed entry of the
   * watch list whose base name is not ignored, and is a readable directory
   * reached from that root through non-ignored names.
   */
  lemma WatchAllAddsOnlyWatchable(paths: seq<string>, fs: map<string, FsNode>, ignore: IgnoreMap, q: Path)
    requires q in WatchAll(paths, fs, ignore).adds
    ensures |q| >= 1
    ensures exists i :: 0 <= i < |paths| && q[0] == TrimSpace(paths[i])
    ensures !Lookup(ignore, Base(q[0])) && Readable(RootNode(fs, q[0]), q[1..]) && NoneIgnored(ignore, q[1..])
  {
    WatchAllSound(paths, fs, ignore, q);
    var i :| 0 <= i < |paths| && q in RootWalk(paths[i], fs, ignore).adds;
    var root := TrimSpace(paths[i]);
    WalkRootSound(root, RootNode(fs, root), ignore);
  }

  /**
   * When AddRecursiveWatch fails, it returns the error of the first root
   * whose walk failed, and every root before that one walked without error.
   */
  lemma WatchAllFirstError(paths: seq<string>, fs: map<string, FsNode>, ignore: IgnoreMap)
    requires WatchAll(paths, fs, ignore).visit.Abort?
    ensures exists k :: && 0 <= k < |paths| && RootWalk(paths[k], fs, ignore).visit == WatchAll(paths, fs, ignore).visit
                        && forall i :: 0 <= i < k ==> !RootWalk(paths[i], fs, ignore).visit.Abort?
  {
    var walks := TheRootWalks(paths, fs, ignore);
    RootWalksNeverSkip(paths, fs, ignore);
    SequenceFirstError(walks);
    var k :| && 0 <= k < |walks| && walks[k].visit == Sequence(walks).visit
             && forall i :: 0 <= i < k ==> !walks[i].visit.Abort?;
    assert RootWalk(paths[k], fs, ignore) == walks[k];
    assert forall i :: 0 <= i < k ==> RootWalk(paths[i], fs, ignore) == walks[i];
  }

  /** Sequencing one more walk. */
  lemma SequenceSnoc(walks: seq<Walked>, i: nat)
    requires i < |walks|
    ensures var r := Sequence(walks[..i]);
            Sequence(walks[..i + 1]) == if r.visit.Abort? then r else Walked(r.adds + walks[i].adds, walks[i].visit)
  {
    assert walks[..i + 1][..i] == walks[..i];
  }

  lemma AppendAssoc<T>(a: seq<T>, b: seq<T>, c: seq<T>)
    ensures (a + b) + c == a + (b + c)
  {
  }

  /** Walking one more entry of a directory. */
  lemma WalkEntriesSnoc(dir: Path, entries: seq<Entry>, ignore: IgnoreMap, i: nat)
    requires i < |entries|
    ensures var r := WalkEntries(dir, entries[..i], ignore);
            var e := entries[i];
            var c := WalkNode(dir + [e.name], e.name, e.node, ignore);
            WalkEntries(dir, entries[..i + 1], ignore)
              == if r.visit.Abort? then r else Walked(r.adds + c.adds, if c.visit.Abort? then c.visit else Continue)
  {
    assert entries[..i + 1][..i] == entries[..i];
    assert entries[..i + 1][i] == entries[i];
  }

  /** Once the walk of a directory's first entries has failed, the later entries change nothing. */
  lemma {:induction false} WalkEntriesAbortSticks(dir: Path, entries: seq<Entry>, ignore: IgnoreMap, k: nat)
    requires k <= |entries| && WalkEntries(dir, entries[..k], ignore).visit.Abort?
    ensures WalkEntries(dir, entries, ignore) == WalkEntries(dir, entries[..k], ignore)
    decreases |entries| - k
  {
    if k < |entries| {
      assert entries[..k + 1][..k] == entries[..k];
      WalkEntriesAbortSticks(dir, entries, ignore, k + 1);
    } else {
      assert entries[..k] == entries;
    }
  }

  /** Once one walk has failed, the later walks change nothing. */
  lemma {:induction false} SequenceAbortSticks(walks: seq<Walked>, k: nat)
    requires k <= |walks| && Sequence(walks[..k]).visit.Abort?
    ensures Sequence(walks) == Sequence(walks[..k])
    decreases |walks| - k
  {
    if k < |walks| {
      assert walks[..k + 1][..k] == walks[..k];
      SequenceAbortSticks(walks, k + 1);
    } else {
      assert walks[..k] == walks;
    }
  }

  // ---------------------------------------------------------------------------
  // The imperative walk against a file watcher.
  // ---------------------------------------------------------------------------

  /**
   * The FileWatcher as AddRecursiveWatch uses it: Add(path) either starts
   * watching the directory or fails; `failing` is the oracle of the paths
   * for which it fails.
   */
  class Watcher {
    const failing: set<Path>
    /** Every path passed to Add, in order. */
    var calls: seq<Path>
    /** The directories being watched. */
    var watched: set<Path>
    /** The paths whose Add failed, as logged ("Failed to watch"). */
    var logged: seq<Path>

    /** The watch list holds exactly the paths whose Add succeeded; the log, those whose Add failed. */
    ghost predicate Valid()
      reads this
    {
      && (forall q :: q in watched <==> q in calls && q !in failing)
      && (forall q :: q in logged <==> q in calls && q in failing)
    }

    constructor (failing: set<Path>)
      ensures this.failing == failing && calls == [] && watched == {} && logged == []
      ensures Valid()
    {
      this.failing := failing;
      calls := [];
      watched := {};
      logged := [];
    }

    method Add(path: Path) returns (err: Option<string>)
      modifies this
      ensures calls == old(calls) + [path]
      ensures err.Some? <==> path in failing
      ensures watched == if path in failing then old(watched) else old(watched) + {path}
      ensures logged == old(logged)
    {
      calls := calls + [path];
      if path in failing {
        err := Some("watch failed");
      } else {
        watched := watched + {path};
        err := None;
      }
    }

    /** log.Printf("Failed to watch %s: %v", path, err). */
    method LogFailure(path: Path)
      modifies this
      ensures logged == old(logged) + [path]
      ensures calls == old(calls) && watched == old(watched)
    {
      logged := logged + [path];
    }
  }

  /** The walk of one subtree: filepath.Walk's recursion with AddRecursiveWatch's callback. */
  method WalkTree(w: Watcher, path: Path, name: string, node: FsNode, ignore: IgnoreMap) returns (v: Visit)
    requires w.Valid()
    modifies w
    ensures w.Valid()
    ensures w.calls == old(w.calls) + WalkNode(path, name, node, ignore).adds
    ensures v == WalkNode(path, name, node, ignore).visit
    decreases node, 1
  {
    if node.File? {
      return Continue;
    }
    if node.Unstatable? {
      return Abort(node.err);  // the callback returns the error it is handed
    }
    if node.readErr.Some? {
      return Abort(node.readErr.value);
    }
    if Lookup(ignore, name) {
      return SkipDir;
    }
    var err := w.Add(path);
    if err.Some? {
      w.LogFailure(path);  // and the walk goes on
    }
    v := WalkChildren(w, path, node.entries, ignore);
  }

  /** The entries of a readable, non-ignored directory, in order. */
  method WalkChildren(w: Watcher, dir: Path, entries: seq<Entry>, ignore: IgnoreMap) returns (v: Visit)
    requires w.Valid()
    modifies w
    ensures w.Valid()
    ensures w.calls == old(w.calls) + WalkEntries(dir, entries, ignore).adds
    ensures v == WalkEntries(dir, entries, ignore).visit
    decreases entries, 0
  {
    var i := 0;
    while i < |entries|
      invariant 0 <= i <= |entries|
      invariant w.Valid()
      invariant w.calls == old(w.calls) + WalkEntries(dir, entries[..i], ignore).adds
      invariant WalkEntries(dir, entries[..i], ignore).visit == Continue
    {
      var e := entries[i];
      ghost var r := WalkEntries(dir, entries[..i], ignore);
      var c := WalkTree(w, dir + [e.name], e.name, e.node, ignore);
      ghost var cw := WalkNode(dir + [e.name], e.name, e.node, ignore);
      WalkEntriesSnoc(dir, entries, ignore, i);
      AppendAssoc(old(w.calls), r.adds, cw.adds);
      if c.Abort? {
        assert WalkEntries(dir, entries[..i + 1], ignore) == Walked(r.adds + cw.adds, c);
        WalkEntriesAbortSticks(dir, entries, ignore, i + 1);
        return c;
      }
      assert WalkEntries(dir, entries[..i + 1], ignore) == Walked(r.adds + cw.adds, Continue);
      i := i + 1;
    }
    assert entries[..i] == entries;
    return Continue;
  }

  /** One entry of the watch list: trimmed, looked up and walked; SkipDir at the root is no error. */
  method WatchRoot(w: Watcher, paths: seq<string>, fs: map<string, FsNode>, ignore: IgnoreMap, i: nat, ghost walks: seq<Walked>) returns (v: Visit)
    requires i < |paths| && AreRootWalks(walks, paths, fs, ignore)
    requires w.Valid()
    modifies w
    ensures w.Valid()
    ensures w.calls == old(w.calls) + walks[i].adds
    ensures v == walks[i].visit && !v.SkipDir?
  {
    var root := TrimSpace(paths[i]);
    v := WalkTree(w, [root], Base(root), RootNode(fs, root), ignore);
    if v.SkipDir? {
      v := Continue;
    }
    assert walks[i] == RootWalk(paths[i], fs, ignore);
  }

  /**
   * AddRecursiveWatch: walks each entry of the watch list in turn and
   * returns the first walk error, leaving the later entries unwalked.
   */
  method AddRecursiveWatch(w: Watcher, paths: seq<string>, fs: map<string, FsNode>, ignore: IgnoreMap) returns (err: Option<string>)
    requires w.Valid()
    modifies w
    ensures w.Valid()
    ensures w.calls == old(w.calls) + WatchAll(paths, fs, ignore).adds
    ensures err == if WatchAll(paths, fs, ignore).visit.Abort? then Some(WatchAll(paths, fs, ignore).visit.err) else None
  {
    ghost var walks := TheRootWalks(paths, fs, ignore);
    var i := 0;
    while i < |paths|
      invariant 0 <= i <= |paths|
      invariant w.Valid()
      invariant Sequence(walks[..i]).visit == Continue
      invariant w.calls == old(w.calls) + Sequence(walks[..i]).adds
    {
      var v := WatchRoot(w, paths, fs, ignore, i, walks);
      SequenceSnoc(walks, i);
      AppendAssoc(old(w.calls), Sequence(walks[..i]).adds, walks[i].adds);
      if v.Abort? {
        SequenceAbortSticks(walks, i + 1);
        return Some(v.err);
      }
      i := i + 1;
    }
    assert walks[..i] == walks;
    return None;
  }
}
