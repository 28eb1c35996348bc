/** The files and directories that the cleanup commands read and remove, and the two directory walks:
    the collection of old files and the removal of empty directories. */
module DirectoryTree {
  import opened Wrappers

  /** The segments from the root of the file system. */
  type Path = seq<string>

  /** One item of `entries` in `cache-index.json`: its kind and path ("" when it has none), its date when
      `Date.parse` yields a number, and its ids. */
  datatype IndexEntry =
    IndexEntry(kind: string, path: string, updatedMs: Option<int>, projectId: Option<string>,
               conversationId: Option<string>)

  /** What `JSON.parse` makes of a file, as far as the index pruning looks at it; an item that is null
      is None. */
  datatype Document = NotJson | JsonNull | Json(entries: seq<Option<IndexEntry>>)

  datatype Node = File(mtime: int, document: Document) | Directory(mtime: int) | Other(mtime: int)

  type Tree = map<Path, Node>

  function Parent(p: Path): Path
    requires p != []
  {
    p[..|p| - 1]
  }

  /** Everything sits in a directory. */
  ghost predicate IsTree(nodes: Tree) {
    forall p | p in nodes && p != [] :: Parent(p) in nodes && nodes[Parent(p)].Directory?
  }

  /** No name holds a slash. */
  ghost predicate HasPlainNames(nodes: Tree) {
    forall p | p in nodes :: forall s | s in p :: '/' !in s
  }

  lemma {:induction false} AncestorsAreDirectories(nodes: Tree, d: Path, p: Path)
    requires IsTree(nodes) && p in nodes && d < p
    ensures d in nodes && nodes[d].Directory?
    decreases |p|
  {
    if d != Parent(p) {
      assert d < Parent(p);
      AncestorsAreDirectories(nodes, d, Parent(p));
    }
  }

  /** The names that `readdir` lists. */
  function Names(nodes: Tree, d: Path): set<string> {
    set p | p in nodes && |p| == |d| + 1 && d < p :: p[|d|]
  }

  lemma NamesAreChildren(nodes: Tree, d: Path, name: string)
    ensures name in Names(nodes, d) <==> d + [name] in nodes
  {
    if d + [name] in nodes {
      assert (d + [name])[|d|] == name;
    }
    if name in Names(nodes, d) {
      var p :| p in nodes && |p| == |d| + 1 && d < p && p[|d|] == name;
      assert p == d + [name];
    }
  }

  function Beneath(nodes: Tree, d: Path): set<Path> {
    set p | p in nodes && d <= p
  }

  /** The walk into a child has less to see. */
  lemma ChildIsSmaller(nodes: Tree, now: Tree, d: Path, child: Path)
    requires now.Keys <= nodes.Keys && d < child && d in nodes
    ensures |Beneath(now, child)| < |Beneath(nodes, d)|
  {
    var larger := Beneath(nodes, d) - {d};
    assert Beneath(now, child) <= larger;
    SubsetSize(Beneath(now, child), larger);
  }

  /** The tree without the paths in `gone`. */
  function Without(nodes: Tree, gone: set<Path>): Tree {
    map p | p in nodes && p !in gone :: nodes[p]
  }

  // ----- Empty directories -----

  /** Nothing but directories from `d` down. */
  ghost predicate OnlyDirectories(nodes: Tree, d: Path) {
    forall p | p in nodes && d <= p :: nodes[p].Directory?
  }

  ghost predicate HasFile(nodes: Tree, d: Path) {
    exists p | p in nodes :: d <= p && nodes[p].File?
  }

  ghost predicate AnyHasFile(nodes: Tree, d: Path, children: seq<string>) {
    exists name | name in children :: HasFile(nodes, d + [name])
  }

  lemma AnyHasFileMore(nodes: Tree, d: Path, children: seq<string>, name: string)
    ensures AnyHasFile(nodes, d, children + [name]) <==> AnyHasFile(nodes, d, children) || HasFile(nodes, d + [name])
  {
    assert forall other | other in children :: other in children + [name];
    assert name in children + [name];
  }

  /** The directories that `pruneEmptyDirs` removes. */
  ghost function Hollow(nodes: Tree, root: Path): set<Path> {
    set p | p in nodes && root < p && OnlyDirectories(nodes, p)
  }

  ghost function HollowFrom(nodes: Tree, root: Path, d: Path): set<Path> {
    set p | p in Hollow(nodes, root) && d <= p
  }

  ghost function HollowUnder(nodes: Tree, root: Path, d: Path): set<Path> {
    set p | p in Hollow(nodes, root) && d < p
  }

  ghost function Pruned(nodes: Tree, root: Path): Tree {
    Without(nodes, Hollow(nodes, root))
  }

  /** The hollow directories in the given children of `d`. */
  ghost function HollowIn(nodes: Tree, root: Path, d: Path, children: seq<string>): set<Path> {
    set p | p in Hollow(nodes, root) && d < p && p[|d|] in children
  }

  lemma HollowPassesDown(nodes: Tree, root: Path, p: Path)
    requires p in nodes && p != [] && Parent(p) in Hollow(nodes, root)
    ensures p in Hollow(nodes, root)
  {
    assert root < p;
    forall q | q in nodes && p <= q ensures nodes[q].Directory? {
      assert Parent(p) <= q;
    }
  }

  lemma Strictly(d: Path, p: Path)
    ensures d <= p <==> d == p || d < p
  {
    if d <= p && |d| == |p| {
      assert d == p;
    }
  }

  lemma Below(d: Path, name: string, p: Path)
    ensures d + [name] <= p <==> d < p && p[|d|] == name
  {
    if d + [name] <= p {
      assert p[..|d| + 1] == d + [name];
      assert p[..|d|] == (d + [name])[..|d|] == d;
    }
  }

  /** A walk through some children leaves the others alone. */
  lemma OtherChildUntouched(nodes: Tree, root: Path, d: Path, children: seq<string>, name: string)
    requires name !in children
    ensures var now := Without(nodes, HollowIn(nodes, root, d, children));
            forall p | d + [name] <= p :: (p in now <==> p in nodes) && (p in now ==> now[p] == nodes[p])
  {
    forall p | d + [name] <= p ensures p !in HollowIn(nodes, root, d, children) {
      Below(d, name, p);
    }
  }

  lemma SubtreeDecides(nodes: Tree, now: Tree, root: Path, full: Path)
    requires forall p | full <= p :: (p in now <==> p in nodes) && (p in now ==> now[p] == nodes[p])
    ensures HasFile(now, full) <==> HasFile(nodes, full)
    ensures HollowFrom(now, root, full) == HollowFrom(nodes, root, full)
  {
    forall p | full <= p ensures p in Hollow(now, root) <==> p in Hollow(nodes, root) {
      assert OnlyDirectories(now, p) <==> OnlyDirectories(nodes, p) by {
        forall q | p <= q ensures (q in now <==> q in nodes) && (q in now ==> now[q] == nodes[q]) {
          assert full <= q;
        }
      }
    }
    if HasFile(now, full) {
      var p :| p in now && full <= p && now[p].File?;
      assert p in nodes;
    }
    if HasFile(nodes, full) {
      var p :| p in nodes && full <= p && nodes[p].File?;
      assert p in now;
    }
  }

  /** One child more. */
  lemma HollowInMore(nodes: Tree, root: Path, d: Path, children: seq<string>, name: string)
    ensures HollowIn(nodes, root, d, children + [name])
            == HollowIn(nodes, root, d, children) + HollowFrom(nodes, root, d + [name])
  {
    forall p ensures d + [name] <= p <==> d < p && p[|d|] == name {
      Below(d, name, p);
    }
  }

  /** Only a directory can be hollow or hold anything. */
  lemma LeafIsAlone(nodes: Tree, root: Path, d: Path)
    requires IsTree(nodes)
    ensures !(d in nodes && nodes[d].Directory?) ==>
      && HollowFrom(nodes, root, d) == {}
      && (HasFile(nodes, d) <==> d in nodes && nodes[d].File?)
  {
    if d in nodes && nodes[d].Directory? { return; }
    forall p | p in nodes && d <= p ensures p == d {
      if p != d {
        AncestorsAreDirectories(nodes, d, p);
      }
    }
    if d in nodes {
      assert !OnlyDirectories(nodes, d);
    }
  }

  lemma ChildOnTheWay(nodes: Tree, d: Path, p: Path)
    requires IsTree(nodes) && p in nodes && d < p
    ensures d + [p[|d|]] in nodes && d + [p[|d|]] <= p && p[|d|] in Names(nodes, d)
  {
    var child := p[..|d| + 1];
    assert child == d + [p[|d|]];
    if child != p {
      AncestorsAreDirectories(nodes, child, p);
    }
    NamesAreChildren(nodes, d, p[|d|]);
  }

  lemma AllChildrenHollow(nodes: Tree, root: Path, d: Path, names: seq<string>)
    requires IsTree(nodes)
    requires forall name :: name in names <==> d + [name] in nodes
    ensures HollowIn(nodes, root, d, names) == HollowUnder(nodes, root, d)
  {
    forall p | p in nodes && d < p ensures p[|d|] in names {
      ChildOnTheWay(nodes, d, p);
    }
  }

  lemma FileBelowChild(nodes: Tree, d: Path, p: Path, names: seq<string>)
    requires IsTree(nodes) && p in nodes && d < p && nodes[p].File?
    requires forall name :: name in names <==> d + [name] in nodes
    ensures p[|d|] in names && HasFile(nodes, d + [p[|d|]])
  {
    ChildOnTheWay(nodes, d, p);
  }

  lemma FileBelowParent(nodes: Tree, d: Path, name: string)
    requires HasFile(nodes, d + [name])
    ensures HasFile(nodes, d)
  {
    var p :| p in nodes && d + [name] <= p && nodes[p].File?;
    Below(d, name, p);
  }

  lemma AllChildrenFiles(nodes: Tree, d: Path, names: seq<string>)
    requires IsTree(nodes) && d in nodes && nodes[d].Directory?
    requires forall name :: name in names <==> d + [name] in nodes
    ensures HasFile(nodes, d) <==> AnyHasFile(nodes, d, names)
  {
    if HasFile(nodes, d) {
      var p :| p in nodes && d <= p && nodes[p].File?;
      Strictly(d, p);
      FileBelowChild(nodes, d, p, names);
    }
    forall name | name in names && HasFile(nodes, d + [name]) ensures HasFile(nodes, d) {
      FileBelowParent(nodes, d, name);
    }
  }

  lemma HollowBelow(nodes: Tree, root: Path, d: Path, p: Path)
    requires OnlyDirectories(nodes, d) && root <= d && d < p && p in nodes
    ensures p in HollowUnder(nodes, root, d)
  {
    forall q | q in nodes && p <= q ensures nodes[q].Directory? {
      assert d <= q;
    }
  }

  /** Once the children are walked, `d` is empty exactly when it is hollow. */
  lemma EmptyWhenHollow(nodes: Tree, root: Path, d: Path)
    requires root <= d && d in nodes && nodes[d].Directory?
    ensures var now := Without(nodes, HollowUnder(nodes, root, d));
            && d in now && now[d].Directory?
            && (OnlyDirectories(nodes, d) <==> forall p | p in now :: !(d < p))
  {
    var now := Without(nodes, HollowUnder(nodes, root, d));
    if OnlyDirectories(nodes, d) {
      forall p | p in now ensures !(d < p) {
        if d < p {
          HollowBelow(nodes, root, d, p);
        }
      }
    } else {
      var p :| p in nodes && d <= p && !nodes[p].Directory?;
      Strictly(d, p);
      assert p !in Hollow(nodes, root);
      assert p in now && d < p;
    }
  }

  /** The walk ends by removing `d` if it has become empty. */
  lemma AfterChildren(nodes: Tree, root: Path, d: Path)
    requires root <= d && d in nodes
    ensures var now := Without(nodes, HollowUnder(nodes, root, d));
            Without(nodes, HollowFrom(nodes, root, d))
            == if d != root && OnlyDirectories(nodes, d) then Without(now, {d}) else now
  {
    Strictly(root, d);
    forall p | p in nodes ensures d <= p <==> d == p || d < p {
      Strictly(d, p);
    }
    assert HollowFrom(nodes, root, d)
        == HollowUnder(nodes, root, d) + (if d in Hollow(nodes, root) then {d} else {});
  }

  lemma TreeWithoutEmpty(nodes: Tree, root: Path, d: Path)
    requires IsTree(nodes)
    ensures IsTree(Without(nodes, HollowFrom(nodes, root, d)))
  {
    forall p | p in nodes && p != [] && Parent(p) in HollowFrom(nodes, root, d)
      ensures p in HollowFrom(nodes, root, d)
    {
      HollowPassesDown(nodes, root, p);
    }
  }

  /** The tree after the walk through some children. */
  ghost function Walked(nodes: Tree, root: Path, d: Path, children: seq<string>): Tree {
    Without(nodes, HollowIn(nodes, root, d, children))
  }

  /** One round of the loop over the children. */
  lemma ChildWalked(nodes: Tree, root: Path, d: Path, children: seq<string>, name: string)
    requires IsTree(nodes) && d in nodes && name !in children && d + [name] in nodes
    ensures var now, full := Walked(nodes, root, d, children), d + [name];
            && full in now
            && (AnyHasFile(nodes, d, children + [name]) <==> AnyHasFile(nodes, d, children) || HasFile(now, full))
            && Without(now, HollowFrom(now, root, full)) == Walked(nodes, root, d, children + [name])
            && |Beneath(now, full)| < |Beneath(nodes, d)|
  {
    var now, full := Walked(nodes, root, d, children), d + [name];
    OtherChildUntouched(nodes, root, d, children, name);
    SubtreeDecides(nodes, now, root, full);
    HollowInMore(nodes, root, d, children, name);
    AnyHasFileMore(nodes, d, children, name);
    ChildIsSmaller(nodes, now, d, full);
  }

  predicate IsNewChild(nodes: Tree, d: Path, names: seq<string>, i: nat)
    requires i < |names|
  {
    names[i] !in names[..i] && d + [names[i]] in nodes
  }

  lemma ListedChildren(nodes: Tree, d: Path, names: seq<string>)
    requires Distinct(names) && forall name :: name in names <==> d + [name] in nodes
    ensures forall i | 0 <= i < |names| :: IsNewChild(nodes, d, names, i)
  {
    forall i | 0 <= i < |names| ensures IsNewChild(nodes, d, names, i) {
      assert names[i] in names;
    }
  }

  lemma AllChildrenWalked(nodes: Tree, root: Path, d: Path, names: seq<string>)
    requires IsTree(nodes) && d in nodes && nodes[d].Directory?
    requires forall name :: name in names <==> d + [name] in nodes
    ensures Walked(nodes, root, d, names) == Without(nodes, HollowUnder(nodes, root, d))
    ensures HasFile(nodes, d) <==> AnyHasFile(nodes, d, names)
  {
    AllChildrenHollow(nodes, root, d, names);
    AllChildrenFiles(nodes, d, names);
  }

  lemma FilesAreNotDirectories(nodes: Tree, d: Path)
    ensures HasFile(nodes, d) ==> !OnlyDirectories(nodes, d)
  {
  }

  /** What the walk keeps: every file, the root, and whatever has something other than a directory
      beneath it; so, in a tree of files and directories, it removes exactly the other directories with
      no file beneath. */
  lemma PrunedKeeps(nodes: Tree, root: Path)
    requires IsTree(nodes)
    ensures var after := Pruned(nodes, root);
            && IsTree(after)
            && (forall p | p in nodes && !nodes[p].Directory? :: p in after && after[p] == nodes[p])
            && (root in nodes ==> root in after)
            && (forall p | p in nodes && !(root < p) :: p in after)
            && ((forall p | p in nodes :: !nodes[p].Other?) ==>
                  forall p | p in nodes :: p !in after <==> root < p && !HasFile(nodes, p))
  {
    var after := Pruned(nodes, root);
    assert HollowFrom(nodes, root, root) == Hollow(nodes, root);
    TreeWithoutEmpty(nodes, root, root);
    forall p | p in nodes && !nodes[p].Directory? ensures p !in Hollow(nodes, root) {
    }
    if forall p | p in nodes :: !nodes[p].Other? {
      forall p | p in nodes && root < p ensures p in Hollow(nodes, root) <==> !HasFile(nodes, p) {
        FilesAreNotDirectories(nodes, p);
        if p !in Hollow(nodes, root) {
          var q :| q in nodes && p <= q && !nodes[q].Directory?;
          assert nodes[q].File?;
        }
      }
    }
  }

  /** No hollow directory is left, so a second walk changes nothing. */
  lemma PrunedIsFixed(nodes: Tree, root: Path)
    ensures Hollow(Pruned(nodes, root), root) == {}
    ensures Pruned(Pruned(nodes, root), root) == Pruned(nodes, root)
  {
    var after := Pruned(nodes, root);
    forall p | p in after && root < p ensures !OnlyDirectories(after, p) {
      var q :| q in nodes && p <= q && !nodes[q].Directory?;
      assert q !in Hollow(nodes, root);
      assert q in after;
    }
  }

  // ----- Old files -----

  predicate IsOldFile(nodes: Tree, p: Path, cutoffMs: int) {
    p in nodes && nodes[p].File? && nodes[p].mtime < cutoffMs
  }

  /** The files beneath `d` dated before the cutoff. */
  function OldFiles(nodes: Tree, d: Path, cutoffMs: int): set<Path> {
    set p | p in nodes && d < p && IsOldFile(nodes, p, cutoffMs)
  }

  function OldFilesIn(nodes: Tree, d: Path, children: seq<string>, cutoffMs: int): set<Path> {
    set p | p in OldFiles(nodes, d, cutoffMs) && p[|d|] in children
  }

  lemma NoOldFiles(nodes: Tree, d: Path, cutoffMs: int)
    requires IsTree(nodes) && !(d in nodes && nodes[d].Directory?)
    ensures OldFiles(nodes, d, cutoffMs) == {}
  {
    forall p | p in nodes ensures !(d < p) {
      if d < p {
        AncestorsAreDirectories(nodes, d, p);
      }
    }
  }

  lemma AllOldFiles(nodes: Tree, d: Path, names: seq<string>, cutoffMs: int)
    requires IsTree(nodes)
    requires forall name :: name in names <==> d + [name] in nodes
    ensures OldFilesIn(nodes, d, names, cutoffMs) == OldFiles(nodes, d, cutoffMs)
  {
    forall p | p in nodes && d < p ensures p[|d|] in names {
      ChildOnTheWay(nodes, d, p);
    }
  }

  /** The old files of one child more. */
  lemma OldFilesInMore(nodes: Tree, d: Path, children: seq<string>, name: string, cutoffMs: int)
    requires IsTree(nodes) && name !in children && d + [name] in nodes
    ensures var more := if nodes[d + [name]].Directory? then OldFiles(nodes, d + [name], cutoffMs)
                        else if IsOldFile(nodes, d + [name], cutoffMs) then {d + [name]} else {};
            && OldFilesIn(nodes, d, children + [name], cutoffMs) == OldFilesIn(nodes, d, children, cutoffMs) + more
            && OldFilesIn(nodes, d, children, cutoffMs) !! more
  {
    var full := d + [name];
    forall p | p in nodes
      ensures d < p && p[|d|] == name <==> p == full || full < p
      ensures full < p ==> nodes[full].Directory?
    {
      Below(d, name, p);
      Strictly(full, p);
      if full < p {
        AncestorsAreDirectories(nodes, full, p);
      }
    }
  }

  class FileSystem {
    var nodes: Tree

    constructor (nodes: Tree)
      ensures this.nodes == nodes
    {
      this.nodes := nodes;
    }

    /** `readdir`, which fails on anything but a directory; the order of the names is the system's. */
    method ReadDirectory(d: Path) returns (readable: bool, names: seq<string>)
      ensures readable <==> d in nodes && nodes[d].Directory?
      ensures readable ==> Distinct(names) && forall name :: name in names <==> d + [name] in nodes
      ensures !readable ==> names == []
    {
      names := [];
      readable := d in nodes && nodes[d].Directory?;
      if !readable { return; }
      var left := Names(nodes, d);
      while left != {}
        invariant forall name :: name in Names(nodes, d) <==> name in left || name in names
        invariant forall name | name in names :: name !in left
        invariant Distinct(names)
        decreases left
      {
        var name :| name in left;
        left := left - {name};
        names := names + [name];
      }
      forall name ensures name in names <==> d + [name] in nodes {
        NamesAreChildren(nodes, d, name);
      }
    }

    /** `rmdir`, which fails unless the directory is empty. */
    method RemoveDirectory(d: Path) returns (removed: bool)
      requires IsTree(nodes)
      modifies this
      ensures removed <==> old(d in nodes && nodes[d].Directory? && forall p | p in nodes :: !(d < p))
      ensures nodes == if removed then Without(old(nodes), {d}) else old(nodes)
    {
      removed := d in nodes && nodes[d].Directory? && Names(nodes, d) == {};
      if removed {
        forall p | p in nodes ensures !(d < p) {
          if d < p {
            ChildOnTheWay(nodes, d, p);
          }
        }
        nodes := Without(nodes, {d});
      } else if d in nodes && nodes[d].Directory? {
        var name :| name in Names(nodes, d);
        NamesAreChildren(nodes, d, name);
        assert d < d + [name];
      }
    }

    /** `rm` with `force`: a missing path is no error, a directory is one unless `recursive` is set. */
    method Remove(p: Path, recursive: bool) returns (ok: bool)
      modifies this
      ensures ok <==> recursive || !old(p in nodes && nodes[p].Directory?)
      ensures nodes ==
        if !ok then old(nodes) else Without(old(nodes), if recursive then Beneath(old(nodes), p) else {p})
    {
      ok := recursive || !(p in nodes && nodes[p].Directory?);
      if ok {
        nodes := Without(nodes, if recursive then Beneath(nodes, p) else {p});
      }
    }

    /** `collectBlobFileCandidates`. */
    method CollectOldFiles(d: Path, cutoffMs: int) returns (found: seq<Path>)
      requires IsTree(nodes)
      ensures Distinct(found) && SetOf(found) == OldFiles(nodes, d, cutoffMs)
      decreases |Beneath(nodes, d)|
    {
      found := [];
      var readable, names := ReadDirectory(d);
      if !readable {
        NoOldFiles(nodes, d, cutoffMs);
        return;
      }
      for i := 0 to |names|
        invariant Distinct(found) && SetOf(found) == OldFilesIn(nodes, d, names[..i], cutoffMs)
      {
        var full := d + [names[i]];
        assert names[i] in names && names[i] !in names[..i];
        assert names[..i + 1] == names[..i] + [names[i]];
        OldFilesInMore(nodes, d, names[..i], names[i], cutoffMs);
        if nodes[full].Directory? {
          ChildIsSmaller(nodes, nodes, d, full);
          var inner := CollectOldFiles(full, cutoffMs);
          DistinctConcat(found, inner);
          found := found + inner;
          continue;
        }
        if !nodes[full].File? { continue; }
        if nodes[full].mtime < cutoffMs {
          DistinctSnoc(found, full);
          found := found + [full];
        }
      }
      assert names[..|names|] == names;
      AllOldFiles(nodes, d, names, cutoffMs);
    }

    /** The inner function of `pruneEmptyDirs`. */
    method WalkEmpty(root: Path, d: Path) returns (hasFiles: bool)
      requires IsTree(nodes) && root <= d
      modifies this
      ensures IsTree(nodes)
      ensures hasFiles <==> old(HasFile(nodes, d)) && d in old(nodes) && old(nodes)[d].Directory?
      ensures nodes == Without(old(nodes), HollowFrom(old(nodes), root, d))
      decreases |Beneath(nodes, d)|, 1
    {
      ghost var before := nodes;
      var readable, names := ReadDirectory(d);
      if !readable {
        LeafIsAlone(before, root, d);
        return false;
      }
      ListedChildren(before, d, names);
      hasFiles := WalkChildren(root, d, names);
      AllChildrenWalked(before, root, d, names);
      EmptyWhenHollow(before, root, d);
      AfterChildren(before, root, d);
      FilesAreNotDirectories(before, d);
      if !hasFiles && d != root {
        var removed := RemoveDirectory(d);
        TreeWithoutEmpty(before, root, d);
        return false;
      }
    }

    method WalkEntry(root: Path, full: Path) returns (hasFiles: bool)
      requires IsTree(nodes) && root <= full && full in nodes
      modifies this
      ensures IsTree(nodes)
      ensures hasFiles <==> HasFile(old(nodes), full)
      ensures nodes == Without(old(nodes), HollowFrom(old(nodes), root, full))
      decreases |Beneath(nodes, full)|, 2
    {
      hasFiles := false;
      LeafIsAlone(nodes, root, full);
      if nodes[full].Directory? {
        hasFiles := WalkEmpty(root, full);
      } else if nodes[full].File? {
        hasFiles := true;
      }
    }

    method WalkChildren(root: Path, d: Path, names: seq<string>) returns (hasFiles: bool)
      requires IsTree(nodes) && root <= d && d in nodes
      requires forall i | 0 <= i < |names| :: IsNewChild(nodes, d, names, i)
      modifies this
      ensures IsTree(nodes)
      ensures hasFiles <==> AnyHasFile(old(nodes), d, names)
      ensures nodes == Walked(old(nodes), root, d, names)
      decreases |Beneath(nodes, d)|, 0
    {
      ghost var before := nodes;
      hasFiles := false;
      for i := 0 to |names|
        invariant IsTree(nodes)
        invariant nodes == Walked(before, root, d, names[..i])
        invariant hasFiles <==> AnyHasFile(before, d, names[..i])
      {
        var name := names[i];
        assert IsNewChild(before, d, names, i);
        assert names[..i + 1] == names[..i] + [name];
        ChildWalked(before, root, d, names[..i], name);
        var childHasFiles := WalkEntry(root, d + [name]);
        hasFiles := hasFiles || childHasFiles;
      }
      assert names[..|names|] == names;
    }

    /** `pruneEmptyDirs`. */
    method PruneEmptyDirs(root: Path)
      requires IsTree(nodes)
      modifies this
      ensures IsTree(nodes) && nodes == Pruned(old(nodes), root)
    {
      var hasFiles := WalkEmpty(root, root);
      assert HollowFrom(old(nodes), root, root) == Hollow(old(nodes), root);
    }
  }
}
