/** `cache clear` and `cache cleanup` on one cache directory: which files and rows go, and why what
    stays is exactly what the remaining entries need. */
module CacheCleanup {
  import opened Wrappers
  import opened Text
  import opened Timestamps
  import opened DirectoryTree
  import opened CacheTables
  import opened SqlWhere
  import opened ClearRows
  import opened CacheDatabase

  // ----- What `collectCacheClearTargets` selects -----

  datatype Target = Target(path: Path, recursive: bool)

  predicate Includes(dataset: DatasetName, name: DatasetName) {
    dataset == All || dataset == name
  }

  /** Exists, and is dated before the cutoff if there is one. */
  predicate Due(nodes: Tree, p: Path, cutoffMs: Option<int>) {
    p in nodes && (cutoffMs.Some? ==> nodes[p].mtime < cutoffMs.value)
  }

  predicate IsDirectory(nodes: Tree, p: Path) {
    p in nodes && nodes[p].Directory?
  }

  predicate IsTopTarget(nodes: Tree, dir: Path, name: string, cutoffMs: Option<int>, t: Target) {
    t == Target(dir + [name], false) && Due(nodes, t.path, cutoffMs)
  }

  predicate IsListed(instructions: bool, name: string) {
    EndsWith(name, ".json") || (instructions && EndsWith(name, ".md"))
  }

  predicate IsListTarget(nodes: Tree, dir: Path, folder: string, instructions: bool, cutoffMs: Option<int>, t: Target) {
    && !t.recursive && |t.path| == |dir| + 2 && dir + [folder] < t.path
    && IsListed(instructions, t.path[|dir| + 1])
    && t.path in nodes && nodes[t.path].File? && Due(nodes, t.path, cutoffMs)
  }

  const MANIFEST := "manifest.json"

  predicate IsManifestTarget(nodes: Tree, dir: Path, folder: string, includeBlobs: bool, cutoffMs: Option<int>,
                             t: Target)
  {
    && |t.path| >= |dir| + 2 && dir + [folder] < t.path
    && var item := t.path[..|dir| + 2];
       && IsDirectory(nodes, item)
       && Due(nodes, item + [MANIFEST], cutoffMs)
       && t == if includeBlobs then Target(item, true) else Target(item + [MANIFEST], false)
  }

  /** The three files in the cache directory itself. */
  predicate IsFileTarget(nodes: Tree, dir: Path, dataset: DatasetName, cutoffMs: Option<int>, t: Target) {
    || (Includes(dataset, Projects) && IsTopTarget(nodes, dir, "projects.json", cutoffMs, t))
    || (Includes(dataset, Conversations) && IsTopTarget(nodes, dir, "conversations.json", cutoffMs, t))
    || (Includes(dataset, All) && IsTopTarget(nodes, dir, "cache-index.json", cutoffMs, t))
  }

  /** Files of the three folders of files. */
  predicate IsFolderTarget(nodes: Tree, dir: Path, dataset: DatasetName, cutoffMs: Option<int>, t: Target) {
    || (Includes(dataset, Context) && IsListTarget(nodes, dir, "contexts", false, cutoffMs, t))
    || (Includes(dataset, ConversationFiles) && IsListTarget(nodes, dir, "conversation-files", false, cutoffMs, t))
    || (Includes(dataset, ProjectInstructions) && IsListTarget(nodes, dir, "project-instructions", true, cutoffMs, t))
  }

  /** Folders with manifests, or the manifests alone. */
  predicate IsBundleTarget(nodes: Tree, dir: Path, dataset: DatasetName, cutoffMs: Option<int>, includeBlobs: bool,
                           t: Target)
  {
    || (Includes(dataset, ConversationAttachments)
        && IsManifestTarget(nodes, dir, "conversation-attachments", includeBlobs, cutoffMs, t))
    || (Includes(dataset, ProjectKnowledge)
        && IsManifestTarget(nodes, dir, "project-knowledge", includeBlobs, cutoffMs, t))
  }

  predicate IsTarget(nodes: Tree, dir: Path, dataset: DatasetName, cutoffMs: Option<int>, includeBlobs: bool,
                     t: Target)
  {
    || IsFileTarget(nodes, dir, dataset, cutoffMs, t)
    || IsFolderTarget(nodes, dir, dataset, cutoffMs, t)
    || IsBundleTarget(nodes, dir, dataset, cutoffMs, includeBlobs, t)
  }

  ghost predicate AreTargets(nodes: Tree, dir: Path, dataset: DatasetName, cutoffMs: Option<int>, includeBlobs: bool,
                             targets: seq<Target>)
  {
    && Distinct(targets)
    && forall t :: t in targets <==> IsTarget(nodes, dir, dataset, cutoffMs, includeBlobs, t)
  }

  /** The names directly in the cache directory that targets lie in or are. */
  const FILES := ["projects.json", "conversations.json", "cache-index.json"]
  const FOLDERS := ["contexts", "conversation-files", "project-instructions"]
  const BUNDLES := ["conversation-attachments", "project-knowledge"]

  lemma PlacesDiffer()
    ensures Distinct(FILES + FOLDERS + BUNDLES)
  {
    assert |FILES[0]| == 13 && |FILES[1]| == 18 && |FILES[2]| == 16 && FILES[1][12] == 's';
    assert |FOLDERS[0]| == 8 && |FOLDERS[1]| == 18 && |FOLDERS[2]| == 20 && FOLDERS[1][12] == '-';
    assert |BUNDLES[0]| == 24 && |BUNDLES[1]| == 17;
  }

  lemma PlacesApart()
    ensures Distinct(FILES) && Distinct(FOLDERS) && Distinct(BUNDLES)
    ensures forall top | top in FILES :: top !in FOLDERS
    ensures forall top | top in FILES + FOLDERS :: top !in BUNDLES
  {
    PlacesDiffer();
    SplitDistinct(FILES + FOLDERS, BUNDLES);
    SplitDistinct(FILES, FOLDERS);
  }

  /** Targets, each once, that lie in the given places. */
  ghost predicate AreIn(dir: Path, targets: seq<Target>, tops: seq<string>) {
    Distinct(targets) && forall t | t in targets :: |t.path| > |dir| && t.path[|dir|] in tops
  }

  /** Targets of other places are new. */
  lemma {:induction false} OtherPlaces(dir: Path, targets: seq<Target>, tops: seq<string>, more: seq<Target>,
                                       others: seq<string>)
    requires AreIn(dir, targets, tops) && AreIn(dir, more, others)
    requires forall top | top in tops :: top !in others
    ensures AreIn(dir, targets + more, tops + others)
  {
    forall t | t in SetOf(targets) ensures t !in SetOf(more) {
      assert t in targets;
    }
    DistinctConcat(targets, more);
    forall t | t in targets + more ensures t in targets || t in more {
    }
  }

  lemma SplitDistinct<T>(a: seq<T>, b: seq<T>)
    requires Distinct(a + b)
    ensures Distinct(a) && Distinct(b) && forall x | x in a :: x !in b
  {
    forall i, j | 0 <= i < |a| && 0 <= j < |b| ensures a[i] != b[j] {
      assert (a + b)[i] == a[i] && (a + b)[|a| + j] == b[j];
    }
    assert forall i | 0 <= i < |a| :: (a + b)[i] == a[i];
    assert forall j | 0 <= j < |b| :: (a + b)[|a| + j] == b[j];
  }

  /** What the removal of one target takes away: a directory where a file was expected stays. */
  predicate Takes(nodes: Tree, t: Target, p: Path) {
    if t.recursive then t.path <= p else t.path == p && !IsDirectory(nodes, p)
  }

  function Doomed(nodes: Tree, targets: seq<Target>): set<Path> {
    set p | p in nodes && exists t | t in targets :: Takes(nodes, t, p)
  }

  /** The targets whose removal fails: directories that are to go as files, and are still there. */
  function Refused(nodes: Tree, targets: seq<Target>): nat {
    if targets == [] then 0
    else
      var n := |targets| - 1;
      var t := targets[n];
      Refused(nodes, targets[..n])
      + (if !t.recursive && IsDirectory(Without(nodes, Doomed(nodes, targets[..n])), t.path) then 1 else 0)
  }

  lemma DoomedMore(nodes: Tree, targets: seq<Target>, t: Target)
    ensures Doomed(nodes, targets + [t]) == Doomed(nodes, targets) + (set p | p in nodes && Takes(nodes, t, p))
  {
    assert forall u | u in targets :: u in targets + [t];
    assert t in targets + [t];
  }

  /** A removal leaves a tree. */
  lemma StillTree(nodes: Tree, p: Path, recursive: bool)
    requires IsTree(nodes) && (recursive || !IsDirectory(nodes, p))
    ensures IsTree(Without(nodes, if recursive then Beneath(nodes, p) else {p}))
  {
    if recursive {
      forall q | q in nodes && q != [] && p <= Parent(q) ensures p <= q {
      }
    }
  }

  /** One removal more. */
  lemma RemovedMore(nodes: Tree, targets: seq<Target>, t: Target)
    ensures var now := Without(nodes, Doomed(nodes, targets));
            && (!t.recursive && IsDirectory(now, t.path) ==> now == Without(nodes, Doomed(nodes, targets + [t])))
            && (t.recursive || !IsDirectory(now, t.path) ==>
                  Without(now, if t.recursive then Beneath(now, t.path) else {t.path})
                  == Without(nodes, Doomed(nodes, targets + [t])))
  {
    DoomedMore(nodes, targets, t);
    if !t.recursive && IsDirectory(nodes, t.path) {
      assert forall p | p in nodes :: !Takes(nodes, t, p);
    }
  }

  lemma TopOf(dir: Path, top: string, p: Path)
    requires dir + [top] <= p
    ensures dir < p && p[|dir|] == top
  {
    assert (dir + [top])[|dir|] == top;
  }

  const SPARED := {"blobs", "backups", "cache.sqlite"}

  lemma FileHasTop(nodes: Tree, dir: Path, dataset: DatasetName, cutoffMs: Option<int>, t: Target)
    requires IsFileTarget(nodes, dir, dataset, cutoffMs, t)
    ensures |t.path| > |dir| && t.path[|dir|] !in SPARED
  {
  }

  lemma FolderHasTop(nodes: Tree, dir: Path, dataset: DatasetName, cutoffMs: Option<int>, t: Target)
    requires IsFolderTarget(nodes, dir, dataset, cutoffMs, t)
    ensures |t.path| > |dir| && t.path[|dir|] !in SPARED
  {
    forall top | dir + [top] < t.path ensures t.path[|dir|] == top {
      TopOf(dir, top, t.path);
    }
  }

  lemma BundleHasTop(nodes: Tree, dir: Path, dataset: DatasetName, cutoffMs: Option<int>, includeBlobs: bool, t: Target)
    requires IsBundleTarget(nodes, dir, dataset, cutoffMs, includeBlobs, t)
    ensures |t.path| > |dir| && t.path[|dir|] !in SPARED
  {
    forall top | dir + [top] < t.path ensures t.path[|dir|] == top {
      TopOf(dir, top, t.path);
    }
  }

  /** Targets are named in one of eight places. */
  lemma TargetsSpare(nodes: Tree, dir: Path, dataset: DatasetName, cutoffMs: Option<int>, includeBlobs: bool,
                     t: Target, top: string, p: Path)
    requires IsTarget(nodes, dir, dataset, cutoffMs, includeBlobs, t)
    requires dir + [top] <= p && top in {"blobs", "backups", "cache.sqlite"}
    ensures !Takes(nodes, t, p)
  {
    TopOf(dir, top, p);
    if IsFileTarget(nodes, dir, dataset, cutoffMs, t) {
      FileHasTop(nodes, dir, dataset, cutoffMs, t);
    } else if IsFolderTarget(nodes, dir, dataset, cutoffMs, t) {
      FolderHasTop(nodes, dir, dataset, cutoffMs, t);
    } else {
      BundleHasTop(nodes, dir, dataset, cutoffMs, includeBlobs, t);
    }
  }

  // ----- `cache-index.json` -----

  /** `path.join` of an absolute path and the segments of a relative one. */
  function Resolve(base: Path, segments: seq<string>): Path
    decreases segments
  {
    if segments == [] then base
    else
      var s := segments[0];
      var next := if s == "" || s == "." then base
                  else if s == ".." then (if base == [] then [] else Parent(base))
                  else base + [s];
      Resolve(next, segments[1..])
  }

  function PathOf(dir: Path, entry: IndexEntry): Path {
    Resolve(dir, Segments(entry.path))
  }

  /** Dates at or before 1970 count as no date. */
  predicate DatedBefore(entry: IndexEntry, cutoffMs: int) {
    entry.updatedMs.Some? && 0 < entry.updatedMs.value < cutoffMs
  }

  predicate KeepsEntry(nodes: Tree, dir: Path, entry: Option<IndexEntry>, cutoffMs: int) {
    entry.Some? && entry.value.path != "" && PathOf(dir, entry.value) in nodes && !DatedBefore(entry.value, cutoffMs)
  }

  function Kept(nodes: Tree, dir: Path, entries: seq<Option<IndexEntry>>, cutoffMs: int): seq<Option<IndexEntry>> {
    Filtered(entries, e => KeepsEntry(nodes, dir, e, cutoffMs))
  }

  /** The kept entries are an order-preserving subsequence of the old ones with every occurrence of an
      entry that passes, and pruning again with nothing changed prunes nothing. */
  lemma KeptIsFiltered(nodes: Tree, dir: Path, entries: seq<Option<IndexEntry>>, cutoffMs: int, e: Option<IndexEntry>)
    ensures var kept := Kept(nodes, dir, entries, cutoffMs);
            && IsSubsequence(kept, entries)
            && multiset(kept)[e] == (if KeepsEntry(nodes, dir, e, cutoffMs) then multiset(entries)[e] else 0)
            && Kept(nodes, dir, kept, cutoffMs) == kept
  {
    var keep := e => KeepsEntry(nodes, dir, e, cutoffMs);
    FilterKeepsOrder(entries, keep);
    FilterCounts(entries, keep, e);
    FilterIsFixed(entries, keep);
  }

  lemma KeptOfFullLength(nodes: Tree, dir: Path, entries: seq<Option<IndexEntry>>, cutoffMs: int)
    ensures |Kept(nodes, dir, entries, cutoffMs)| == |entries| ==> Kept(nodes, dir, entries, cutoffMs) == entries
  {
    if |Kept(nodes, dir, entries, cutoffMs)| == |entries| {
      FilterOfFullLength(entries, e => KeepsEntry(nodes, dir, e, cutoffMs));
    }
  }

  lemma KeptPass(nodes: Tree, dir: Path, entries: seq<Option<IndexEntry>>, cutoffMs: int)
    ensures forall e | e in Kept(nodes, dir, entries, cutoffMs) :: KeepsEntry(nodes, dir, e, cutoffMs) && e in entries
  {
    FilterPasses(entries, e => KeepsEntry(nodes, dir, e, cutoffMs));
  }

  /** An entry dated before the cutoff can stay only when its date is not after 1970. */
  lemma KeptBeforeCutoff(nodes: Tree, dir: Path, entry: IndexEntry, cutoffMs: int)
    requires entry.updatedMs.Some? && entry.updatedMs.value < cutoffMs
    ensures KeepsEntry(nodes, dir, Some(entry), cutoffMs)
            <==> entry.updatedMs.value <= 0 && entry.path != "" && PathOf(dir, entry) in nodes
  {
  }

  /** Which entries stay: those that name an existing path and have no date, one not after 1970, or a young one. */
  lemma KeptExactlyWhen(nodes: Tree, dir: Path, entry: IndexEntry, cutoffMs: int)
    ensures KeepsEntry(nodes, dir, Some(entry), cutoffMs)
            <==> && entry.path != "" && PathOf(dir, entry) in nodes
                 && match entry.updatedMs
                    case None => true
                    case Some(date) => date <= 0 || date >= cutoffMs
  {
  }

  // ----- Backups and blobs -----

  /** The folders directly in `backups` that are dated before the cutoff. */
  function OldBackups(nodes: Tree, dir: Path, cutoffMs: int): set<Path> {
    set p | p in nodes && |p| == |dir| + 2 && dir + ["backups"] < p && nodes[p].Directory? && nodes[p].mtime < cutoffMs
  }

  function BackupContents(nodes: Tree, dir: Path, folders: set<Path>): set<Path> {
    set p | p in nodes && |p| >= |dir| + 2 && p[..|dir| + 2] in folders
  }

  /** `path.relative(cacheDir, p)` with slashes. */
  function Relative(dir: Path, p: Path): string
    requires dir <= p
  {
    Slashed(Joined(p[|dir|..], "/"))
  }

  /** Old blob files to which no asset row refers. */
  function Detached(nodes: Tree, dir: Path, cutoffMs: int, references: set<string>): set<Path> {
    set p | p in OldFiles(nodes, dir + ["blobs"], cutoffMs) && Relative(dir, p) !in references
  }

  ghost function BlobsPruned(nodes: Tree, dir: Path, cutoffMs: int, references: set<string>): Tree {
    var gone := Detached(nodes, dir, cutoffMs, references);
    if gone == {} then nodes else Pruned(Without(nodes, gone), dir + ["blobs"])
  }

  /** A blob file goes exactly when it is old and unreferenced; nothing outside `blobs` goes. */
  lemma BlobFilesKept(nodes: Tree, dir: Path, cutoffMs: int, references: set<string>)
    requires IsTree(nodes)
    ensures var blobs, after := dir + ["blobs"], BlobsPruned(nodes, dir, cutoffMs, references);
            && IsTree(after)
            && (forall p | p in after :: p in nodes && after[p] == nodes[p])
            && (forall p | p in nodes && !(blobs < p) :: p in after)
            && (forall p | p in nodes && blobs < p && nodes[p].File? ::
                  p in after <==> nodes[p].mtime >= cutoffMs || Relative(dir, p) in references)
  {
    var blobs, gone := dir + ["blobs"], Detached(nodes, dir, cutoffMs, references);
    if gone != {} {
      FilesLeaveTree(nodes, gone);
      PrunedKeeps(Without(nodes, gone), blobs);
    }
    forall p | p in nodes && blobs < p && nodes[p].File?
      ensures p in gone <==> nodes[p].mtime < cutoffMs && Relative(dir, p) !in references
    {
      assert p in OldFiles(nodes, blobs, cutoffMs) <==> nodes[p].mtime < cutoffMs;
    }
  }

  lemma FilesLeaveTree(nodes: Tree, gone: set<Path>)
    requires IsTree(nodes) && forall p | p in gone && p in nodes :: nodes[p].File?
    ensures IsTree(Without(nodes, gone))
  {
  }

  lemma BackupsLeaveTree(nodes: Tree, dir: Path, folders: set<Path>)
    requires IsTree(nodes)
    ensures IsTree(Without(nodes, BackupContents(nodes, dir, folders)))
  {
    var gone := BackupContents(nodes, dir, folders);
    forall p | p in nodes && p != [] && Parent(p) in gone ensures p in gone {
      assert p[..|dir| + 2] == Parent(p)[..|dir| + 2];
    }
  }

  predicate IsName(segment: string) {
    segment != "" && segment != "." && segment != ".."
  }

  /** A storage path written the plain way: it starts with `blobs/`, and has no space at either end, no
      backslash and no empty or dotted segment. */
  predicate IsPlain(relpath: string) {
    && relpath[..(if |relpath| < 6 then |relpath| else 6)] == "blobs/"
    && !HasSpaceEnd(relpath)
    && '\\' !in relpath
    && forall s | s in Segments(relpath) :: IsName(s)
  }

  lemma {:induction false} ResolvePlain(base: Path, segments: seq<string>)
    requires forall s | s in segments :: IsName(s)
    ensures Resolve(base, segments) == base + segments
    decreases segments
  {
    if segments != [] {
      assert IsName(segments[0]);
      ResolvePlain(base + [segments[0]], segments[1..]);
      assert base + segments == base + [segments[0]] + segments[1..];
    } else {
      assert base + segments == base;
    }
  }

  /** A plain storage path protects the very file it names. */
  lemma PlainReferenceProtects(dir: Path, assets: set<FileAssetRow>, a: FileAssetRow)
    requires a in assets && a.storageRelpath.Some? && IsPlain(a.storageRelpath.value)
    ensures var p := Resolve(dir, Segments(a.storageRelpath.value));
            dir <= p && Relative(dir, p) in ReferencedRelpaths(assets)
  {
    var r := a.storageRelpath.value;
    var p := Resolve(dir, Segments(r));
    ResolvePlain(dir, Segments(r));
    assert p[|dir|..] == Segments(r);
    JoinedSegments(r);
    TrimFixes(r);
    PlainIsLike(r);
    assert a in BlobAssets(assets);
    assert Spelt(a) in ReferencedRelpaths(assets);
  }

  /** Written with backslashes, it protects the path with slashes. */
  lemma SlashesProtect(assets: set<FileAssetRow>, a: FileAssetRow, relpath: string)
    requires a in assets && a.storageRelpath == Some(relpath) && LikeBlobs(relpath) && !HasSpaceEnd(relpath)
    ensures exists s | s in ReferencedRelpaths(assets) ::
      |s| == |relpath| && forall i | 0 <= i < |s| :: s[i] == if relpath[i] == '\\' then '/' else relpath[i]
  {
    TrimFixes(relpath);
    assert a in BlobAssets(assets);
    assert Spelt(a) in ReferencedRelpaths(assets);
  }

  lemma PlainIsLike(relpath: string)
    requires IsPlain(relpath)
    ensures LikeBlobs(relpath)
  {
    assert relpath[..6] == "blobs/";
    assert relpath[0] == relpath[..6][0] && relpath[1] == relpath[..6][1] && relpath[2] == relpath[..6][2];
    assert relpath[3] == relpath[..6][3] && relpath[4] == relpath[..6][4] && relpath[5] == relpath[..6][5];
  }

  lemma ChildPath(d: Path, p: Path)
    requires d < p && |p| == |d| + 1
    ensures p == d + [p[|d|]]
  {
  }

  /** A listed file is a child of its folder. */
  lemma ListTargetsAreChildren(nodes: Tree, dir: Path, folder: string, instructions: bool, cutoffMs: Option<int>,
                               t: Target)
    requires IsTree(nodes) && IsListTarget(nodes, dir, folder, instructions, cutoffMs, t)
    ensures IsDirectory(nodes, dir + [folder]) && t.path == dir + [folder] + [t.path[|dir| + 1]]
  {
    AncestorsAreDirectories(nodes, dir + [folder], t.path);
    ChildPath(dir + [folder], t.path);
  }

  /** So is the folder of a manifest. */
  lemma ManifestTargetsAreChildren(nodes: Tree, dir: Path, folder: string, includeBlobs: bool, cutoffMs: Option<int>,
                                   t: Target)
    requires IsTree(nodes) && IsManifestTarget(nodes, dir, folder, includeBlobs, cutoffMs, t)
    ensures IsDirectory(nodes, dir + [folder]) && t.path[..|dir| + 2] == dir + [folder] + [t.path[|dir| + 1]]
  {
    var item := t.path[..|dir| + 2];
    assert dir + [folder] < item;
    AncestorsAreDirectories(nodes, dir + [folder], item);
    ChildPath(dir + [folder], item);
  }

  /** The manifest target with this name, if there is one. */
  lemma {:induction false} OneManifest(nodes: Tree, dir: Path, folder: string, includeBlobs: bool,
                                       cutoffMs: Option<int>, name: string)
    requires IsTree(nodes)
    ensures var item := dir + [folder] + [name];
            var target := if includeBlobs then Target(item, true) else Target(item + [MANIFEST], false);
            && |target.path| > |dir| + 1 && target.path[|dir| + 1] == name
            && forall t :: IsManifestTarget(nodes, dir, folder, includeBlobs, cutoffMs, t) && t.path[|dir| + 1] == name
                           <==> t == target && IsDirectory(nodes, item) && Due(nodes, item + [MANIFEST], cutoffMs)
  {
    var item := dir + [folder] + [name];
    var target := if includeBlobs then Target(item, true) else Target(item + [MANIFEST], false);
    forall t | IsManifestTarget(nodes, dir, folder, includeBlobs, cutoffMs, t) && t.path[|dir| + 1] == name
      ensures t == target && IsDirectory(nodes, item) && Due(nodes, item + [MANIFEST], cutoffMs)
    {
      ManifestTargetsAreChildren(nodes, dir, folder, includeBlobs, cutoffMs, t);
    }
    assert target.path[..|dir| + 2] == item && item[|dir| + 1] == target.path[|dir| + 1] == name;
  }

  class CacheDirectory {
    const dir: Path
    const files: FileSystem
    const database: Database

    constructor (dir: Path, files: FileSystem, database: Database)
      ensures this.dir == dir && this.files == files && this.database == database
    {
      this.dir, this.files, this.database := dir, files, database;
    }

    // ----- Collecting targets -----

    method TopTargets(name: string, cutoffMs: Option<int>) returns (found: seq<Target>)
      ensures forall t :: t in found <==> IsTopTarget(files.nodes, dir, name, cutoffMs, t)
      ensures AreIn(dir, found, [name])
    {
      var path := dir + [name];
      found := if Due(files.nodes, path, cutoffMs) then [Target(path, false)] else [];
    }

    /** Two loops of the source: the JSON folders, and the instructions with their second suffix. */
    method ListTargets(folder: string, instructions: bool, cutoffMs: Option<int>) returns (found: seq<Target>)
      requires IsTree(files.nodes)
      ensures forall t :: t in found <==> IsListTarget(files.nodes, dir, folder, instructions, cutoffMs, t)
      ensures AreIn(dir, found, [folder])
    {
      found := [];
      var absDir := dir + [folder];
      var readable, names := files.ReadDirectory(absDir);
      forall t | IsListTarget(files.nodes, dir, folder, instructions, cutoffMs, t)
        ensures readable && t.path[|dir| + 1] in names
      {
        ListTargetsAreChildren(files.nodes, dir, folder, instructions, cutoffMs, t);
      }
      for i := 0 to |names|
        invariant forall t :: t in found <==>
          IsListTarget(files.nodes, dir, folder, instructions, cutoffMs, t) && t.path[|dir| + 1] in names[..i]
        invariant Distinct(found)
      {
        var name := names[i];
        var full := absDir + [name];
        assert names[..i + 1] == names[..i] + [name];
        forall t | IsListTarget(files.nodes, dir, folder, instructions, cutoffMs, t) && t.path[|dir| + 1] == name
          ensures t == Target(full, false)
        {
          ListTargetsAreChildren(files.nodes, dir, folder, instructions, cutoffMs, t);
        }
        assert full[|dir| + 1] == name;
        assert name in names && name !in names[..i];
        if !files.nodes[full].File? || !IsListed(instructions, name) { continue; }
        if Due(files.nodes, full, cutoffMs) {
          found := found + [Target(full, false)];
        }
      }
      assert names[..|names|] == names;
    }

    method ManifestTargets(folder: string, includeBlobs: bool, cutoffMs: Option<int>) returns (found: seq<Target>)
      requires IsTree(files.nodes)
      ensures forall t :: t in found <==> IsManifestTarget(files.nodes, dir, folder, includeBlobs, cutoffMs, t)
      ensures AreIn(dir, found, [folder])
    {
      found := [];
      var root := dir + [folder];
      var readable, names := files.ReadDirectory(root);
      forall t | IsManifestTarget(files.nodes, dir, folder, includeBlobs, cutoffMs, t)
        ensures readable && t.path[|dir| + 1] in names
      {
        ManifestTargetsAreChildren(files.nodes, dir, folder, includeBlobs, cutoffMs, t);
      }
      for i := 0 to |names|
        invariant forall t :: t in found <==>
          IsManifestTarget(files.nodes, dir, folder, includeBlobs, cutoffMs, t) && t.path[|dir| + 1] in names[..i]
        invariant Distinct(found)
      {
        var name := names[i];
        var item := root + [name];
        var target := if includeBlobs then Target(item, true) else Target(item + [MANIFEST], false);
        assert names[..i + 1] == names[..i] + [name];
        assert name !in names[..i];
        OneManifest(files.nodes, dir, folder, includeBlobs, cutoffMs, name);
        if !IsDirectory(files.nodes, item) { continue; }
        if Due(files.nodes, item + [MANIFEST], cutoffMs) {
          found := found + [target];
        }
      }
      assert names[..|names|] == names;
    }

    /** The files in the cache directory itself. */
    method CollectFiles(dataset: DatasetName, cutoffMs: Option<int>) returns (targets: seq<Target>)
      requires IsTree(files.nodes)
      ensures forall t :: t in targets <==> IsFileTarget(files.nodes, dir, dataset, cutoffMs, t)
      ensures AreIn(dir, targets, FILES)
    {
      targets := [];
      PlacesApart();
      if Includes(dataset, Projects) {
        var more := TopTargets(FILES[0], cutoffMs);
        OtherPlaces(dir, targets, FILES[..0], more, [FILES[0]]);
        targets := targets + more;
      }
      assert FILES[..0] + [FILES[0]] == FILES[..1];
      if Includes(dataset, Conversations) {
        var more := TopTargets(FILES[1], cutoffMs);
        OtherPlaces(dir, targets, FILES[..1], more, [FILES[1]]);
        targets := targets + more;
      }
      assert FILES[..1] + [FILES[1]] == FILES[..2];
      if Includes(dataset, All) {
        var more := TopTargets(FILES[2], cutoffMs);
        OtherPlaces(dir, targets, FILES[..2], more, [FILES[2]]);
        targets := targets + more;
      }
      assert FILES[..2] + [FILES[2]] == FILES[..3];
    }

    /** The files of the folders. */
    method CollectFolders(dataset: DatasetName, cutoffMs: Option<int>) returns (targets: seq<Target>)
      requires IsTree(files.nodes)
      ensures forall t :: t in targets <==> IsFolderTarget(files.nodes, dir, dataset, cutoffMs, t)
      ensures AreIn(dir, targets, FOLDERS)
    {
      targets := [];
      PlacesApart();
      if Includes(dataset, Context) {
        var more := ListTargets(FOLDERS[0], false, cutoffMs);
        OtherPlaces(dir, targets, FOLDERS[..0], more, [FOLDERS[0]]);
        targets := targets + more;
      }
      assert FOLDERS[..0] + [FOLDERS[0]] == FOLDERS[..1];
      if Includes(dataset, ConversationFiles) {
        var more := ListTargets(FOLDERS[1], false, cutoffMs);
        OtherPlaces(dir, targets, FOLDERS[..1], more, [FOLDERS[1]]);
        targets := targets + more;
      }
      assert FOLDERS[..1] + [FOLDERS[1]] == FOLDERS[..2];
      if Includes(dataset, ProjectInstructions) {
        var more := ListTargets(FOLDERS[2], true, cutoffMs);
        OtherPlaces(dir, targets, FOLDERS[..2], more, [FOLDERS[2]]);
        targets := targets + more;
      }
      assert FOLDERS[..2] + [FOLDERS[2]] == FOLDERS[..3];
    }

    /** The folders with manifests. */
    method CollectBundles(dataset: DatasetName, cutoffMs: Option<int>, includeBlobs: bool)
      returns (targets: seq<Target>)
      requires IsTree(files.nodes)
      ensures forall t :: t in targets <==> IsBundleTarget(files.nodes, dir, dataset, cutoffMs, includeBlobs, t)
      ensures AreIn(dir, targets, BUNDLES)
    {
      targets := [];
      PlacesApart();
      if Includes(dataset, ConversationAttachments) {
        var more := ManifestTargets(BUNDLES[0], includeBlobs, cutoffMs);
        OtherPlaces(dir, targets, BUNDLES[..0], more, [BUNDLES[0]]);
        targets := targets + more;
      }
      assert BUNDLES[..0] + [BUNDLES[0]] == BUNDLES[..1];
      if Includes(dataset, ProjectKnowledge) {
        var more := ManifestTargets(BUNDLES[1], includeBlobs, cutoffMs);
        OtherPlaces(dir, targets, BUNDLES[..1], more, [BUNDLES[1]]);
        targets := targets + more;
      }
      assert BUNDLES[..1] + [BUNDLES[1]] == BUNDLES[..2];
    }

    /** `collectCacheClearTargets`. */
    method CollectTargets(dataset: DatasetName, cutoffMs: Option<int>, includeBlobs: bool)
      returns (targets: seq<Target>)
      requires IsTree(files.nodes)
      ensures AreTargets(files.nodes, dir, dataset, cutoffMs, includeBlobs, targets)
    {
      PlacesApart();
      targets := CollectFiles(dataset, cutoffMs);
      var more := CollectFolders(dataset, cutoffMs);
      OtherPlaces(dir, targets, FILES, more, FOLDERS);
      targets := targets + more;
      more := CollectBundles(dataset, cutoffMs, includeBlobs);
      OtherPlaces(dir, targets, FILES + FOLDERS, more, BUNDLES);
      targets := targets + more;
    }

    /** The removal loop of `clearCacheForContext`. */
    method RemoveTargets(targets: seq<Target>) returns (deleted: nat, errors: nat)
      requires IsTree(files.nodes)
      modifies files
      ensures IsTree(files.nodes) && files.nodes == Without(old(files.nodes), Doomed(old(files.nodes), targets))
      ensures deleted + errors == |targets| && errors == Refused(old(files.nodes), targets)
    {
      ghost var before := files.nodes;
      deleted, errors := 0, 0;
      for i := 0 to |targets|
        invariant IsTree(files.nodes) && files.nodes == Without(before, Doomed(before, targets[..i]))
        invariant deleted + errors == i && errors == Refused(before, targets[..i])
      {
        var target := targets[i];
        assert targets[..i + 1][..i] == targets[..i];
        assert targets[..i + 1] == targets[..i] + [target];
        RemovedMore(before, targets[..i], target);
        if target.recursive || !IsDirectory(files.nodes, target.path) {
          StillTree(files.nodes, target.path, target.recursive);
        }
        var ok := files.Remove(target.path, target.recursive);
        if ok {
          deleted := deleted + 1;
        } else {
          errors := errors + 1;
        }
      }
      assert targets[..|targets|] == targets;
    }

    // ----- The three prunes of `cache cleanup` -----

    function IndexPath(): Path {
      dir + ["cache-index.json"]
    }

    /** The entries of the index, unless it is missing, unreadable or no JSON. */
    function IndexEntries(nodes: Tree): Option<seq<Option<IndexEntry>>> {
      if IndexPath() in nodes && nodes[IndexPath()].File? && nodes[IndexPath()].document.Json?
      then Some(nodes[IndexPath()].document.entries)
      else None
    }

    /** The index is the JSON text `null`, or holds a null entry: reading a property of it throws. */
    ghost predicate IndexThrows(nodes: Tree) {
      && IndexPath() in nodes && nodes[IndexPath()].File?
      && var document := nodes[IndexPath()].document;
         document.JsonNull? || (document.Json? && None in document.entries)
    }

    /** The number of entries that do not pass. */
    function IndexPrunes(nodes: Tree, cutoffMs: int): int {
      var entries := IndexEntries(nodes);
      if entries.Some? then |entries.value| - |Kept(nodes, dir, entries.value, cutoffMs)| else 0
    }

    /** `pruneCacheIndexEntries`; a null document or a null entry throws. `now` is the date of the rewrite. */
    method PruneIndexEntries(cutoffMs: int, now: int, apply: bool) returns (thrown: bool, pruned: nat)
      modifies files
      ensures thrown <==> IndexThrows(old(files.nodes))
      ensures thrown ==> files.nodes == old(files.nodes)
      ensures var entries := IndexEntries(old(files.nodes));
              !thrown && entries.Some? ==>
                && None !in entries.value
                && pruned + |Kept(old(files.nodes), dir, entries.value, cutoffMs)| == |entries.value|
                && files.nodes
                   == if apply && pruned > 0
                      then old(files.nodes)[
                           IndexPath() := File(now, Json(Kept(old(files.nodes), dir, entries.value, cutoffMs)))]
                      else old(files.nodes)
      ensures IndexEntries(old(files.nodes)).None? ==> pruned == 0 && files.nodes == old(files.nodes)
      ensures IsRewrite(old(files.nodes), files.nodes, IndexPath())
      ensures var entries := IndexEntries(old(files.nodes));
              apply && !thrown && entries.Some? ==>
                IndexEntries(files.nodes) == Some(Kept(old(files.nodes), dir, entries.value, cutoffMs))
    {
      thrown, pruned := false, 0;
      if !(IndexPath() in files.nodes && files.nodes[IndexPath()].File?) { return; }
      var parsed := files.nodes[IndexPath()].document;
      if parsed.NotJson? { return; }
      if parsed.JsonNull? {
        thrown := true;
        return;
      }
      var entries := parsed.entries;
      var keep: seq<Option<IndexEntry>> := [];
      for i := 0 to |entries|
        invariant keep == Kept(files.nodes, dir, entries[..i], cutoffMs)
        invariant pruned + |keep| == i
        invariant None !in entries[..i]
      {
        var entry := entries[i];
        assert entries[..i + 1][..i] == entries[..i];
        assert entries[..i + 1] == entries[..i] + [entry];
        if entry.None? {
          thrown := true;
          return;
        }
        if entry.value.path == "" {
          pruned := pruned + 1;
          continue;
        }
        var found := PathOf(dir, entry.value) in files.nodes;
        var updatedMs := if entry.value.updatedMs.Some? then entry.value.updatedMs.value else 0;
        var tooOld := updatedMs > 0 && updatedMs < cutoffMs;
        if !found || tooOld {
          pruned := pruned + 1;
          continue;
        }
        keep := keep + [entry];
      }
      assert entries[..|entries|] == entries;
      KeptOfFullLength(files.nodes, dir, entries, cutoffMs);
      if apply && pruned > 0 {
        files.nodes := files.nodes[IndexPath() := File(now, Json(keep))];
      }
    }

    /** `pruneOldBackups`. */
    method PruneOldBackups(cutoffMs: int, apply: bool) returns (count: nat)
      requires IsTree(files.nodes)
      modifies files
      ensures IsTree(files.nodes)
      ensures count == |OldBackups(old(files.nodes), dir, cutoffMs)|
      ensures files.nodes == if apply
                             then Without(old(files.nodes),
                                          BackupContents(old(files.nodes), dir,
                                                         OldBackups(old(files.nodes), dir, cutoffMs)))
                             else old(files.nodes)
    {
      ghost var before := files.nodes;
      count := 0;
      var readable, names := files.ReadDirectory(dir + ["backups"]);
      NoBackups(before, dir, cutoffMs);
      for i := 0 to |names|
        invariant count == |OldBackupsIn(before, dir, names[..i], cutoffMs)|
        invariant files.nodes == if apply then WithoutBackups(before, dir, names[..i], cutoffMs) else before
      {
        var folder := dir + ["backups", names[i]];
        assert names[i] in names && names[i] !in names[..i];
        assert names[..i + 1] == names[..i] + [names[i]];
        assert folder == dir + ["backups"] + [names[i]];
        BackupStep(before, dir, names[..i], names[i], cutoffMs);
        if !files.nodes[folder].Directory? { continue; }
        if files.nodes[folder].mtime >= cutoffMs { continue; }
        count := count + 1;
        if apply {
          var ok := files.Remove(folder, true);
        }
      }
      assert names[..|names|] == names;
      AllOldBackups(before, dir, names, cutoffMs);
      BackupsLeaveTree(before, dir, OldBackups(before, dir, cutoffMs));
    }

    /** `pruneDetachedBlobFiles`; `read` says whether the references could be read. */
    method PruneDetachedBlobs(cutoffMs: int, apply: bool) returns (pruned: nat, ghost read: bool)
      requires IsTree(files.nodes)
      modifies files, database`issued
      ensures read <==> database.present && IsDirectory(old(files.nodes), dir + ["blobs"]) && database.LastCompleted()
      ensures database.present && database.NeverFails() && IsDirectory(old(files.nodes), dir + ["blobs"]) ==> read
      ensures read ==> pruned == |Detached(old(files.nodes), dir, cutoffMs, ReferencedRelpaths(database.tables.assets))|
      ensures files.nodes == if read && apply
                             then BlobsPruned(old(files.nodes), dir, cutoffMs,
                                              ReferencedRelpaths(database.tables.assets))
                             else old(files.nodes)
      ensures !read ==> pruned == 0
    {
      pruned, read := 0, false;
      var blobs := dir + ["blobs"];
      if !IsDirectory(files.nodes, blobs) { return; }
      if !database.present { return; }
      var references := database.ReadReferences();
      if references.None? { return; }
      read := true;
      pruned := RemoveDetached(cutoffMs, references.value, apply);
    }

    /** The rest of it, once the references are known. */
    method RemoveDetached(cutoffMs: int, references: set<string>, apply: bool) returns (pruned: nat)
      requires IsTree(files.nodes)
      modifies files
      ensures pruned == |Detached(old(files.nodes), dir, cutoffMs, references)|
      ensures files.nodes ==
        if apply then BlobsPruned(old(files.nodes), dir, cutoffMs, references) else old(files.nodes)
    {
      var blobs := dir + ["blobs"];
      ghost var gone := Detached(files.nodes, dir, cutoffMs, references);
      var candidates := files.CollectOldFiles(blobs, cutoffMs);
      AllDetached(files.nodes, dir, cutoffMs, candidates, references);
      FilesLeaveTree(files.nodes, gone);
      WithoutMore(files.nodes, {}, {});
      pruned := RemoveUnreferenced(candidates, references, apply);
      if apply && pruned > 0 {
        files.PruneEmptyDirs(blobs);
      }
    }

    /** `clearCacheForContext`. */
    method ClearContext(dataset: DatasetName, cutoff: Option<Timestamp>, includeBlobs: bool, apply: bool)
      returns (matched: nat, deleted: nat, errors: nat, sqlFailed: bool, sql: ClearSummary,
               ghost attempts: seq<Attempt>)
      requires IsTree(files.nodes) && (cutoff.Some? ==> cutoff.value.Valid())
      modifies files, database
      ensures fresh(sql)
      ensures IsTree(files.nodes)
      ensures !apply ==> files.nodes == old(files.nodes) && database.tables == old(database.tables)
      ensures apply ==>
        files.nodes ==
          Without(old(files.nodes), ClearedPaths(old(files.nodes), dir, dataset, CutoffMs(cutoff), includeBlobs))
      // That is, by name and date:
      ensures apply ==> forall p | p in old(files.nodes) ::
        p in files.nodes <==> !GoesWith(old(files.nodes), dir, dataset, CutoffMs(cutoff), includeBlobs, p)
      ensures exists targets ::
        && AreTargets(old(files.nodes), dir, dataset, CutoffMs(cutoff), includeBlobs, targets)
        && matched == |targets|
        && errors == (if apply then Refused(old(files.nodes), targets) else 0)
        && deleted == if apply then matched - errors else 0
      ensures ClearedRows(FilterFor(dataset, cutoff), apply && database.present, !sqlFailed, attempts,
                          old(database.tables), database.tables)
      ensures database.present && !sqlFailed && Undisturbed(attempts) ==>
        && Reported(old(database.tables), FilterFor(dataset, cutoff), attempts[|attempts| - 1].rows, sql.Matched())
        && (apply ==> Accounted(old(database.tables), FilterFor(dataset, cutoff), sql.Matched(), sql.Deleted()))
      ensures database.present && database.NeverFails() ==> !sqlFailed && Undisturbed(attempts)
    {
      var targets := CollectTargets(dataset, CutoffMs(cutoff), includeBlobs);
      ghost var before := files.nodes;
      matched, deleted, errors := |targets|, 0, 0;
      if apply {
        DoomedAreCleared(files.nodes, dir, dataset, CutoffMs(cutoff), includeBlobs, targets);
        ClearedExactlyWhen(files.nodes, dir, dataset, CutoffMs(cutoff), includeBlobs);
        deleted, errors := RemoveTargets(targets);
      }
      var available;
      available, sqlFailed, sql, attempts := database.ClearSqlRows(dataset, cutoff, apply);
      assert AreTargets(before, dir, dataset, CutoffMs(cutoff), includeBlobs, targets);
      assert |attempts| == 1 ==> attempts[..0] == [];
    }

    /** `cache cleanup` of one context. */
    method RunCleanup(cutoff: Timestamp, includeBlobs: bool, now: int, apply: bool)
      returns (thrown: bool, indexPruned: nat, backupsPruned: nat, blobFilesPruned: nat, sqlFailed: bool,
               ghost afterClear: Tree, ghost attempts: seq<Attempt>)
      requires IsTree(files.nodes) && cutoff.Valid()
      modifies files, database
      ensures IsTree(files.nodes)
      ensures !apply ==> files.nodes == old(files.nodes) && database.tables == old(database.tables)
      ensures apply ==>
        afterClear ==
          Without(old(files.nodes), ClearedPaths(old(files.nodes), dir, All, Some(Millis(cutoff)), includeBlobs))
      ensures thrown <==> IndexThrows(if apply then afterClear else old(files.nodes))
      // Whatever goes is a target of the clear, lies in an old backup, or lies in `blobs`.
      ensures OnlyExpectedGone(old(files.nodes), files.nodes, dir, Millis(cutoff), includeBlobs)
      // Whatever fails: no row goes that a remaining entry owns, and no blob file that is young or referenced;
      // so the blob files of live assets stay.
      ensures ClearedRows(FilterFor(All, Some(cutoff)), apply && database.present, !sqlFailed, attempts,
                          old(database.tables), database.tables)
      ensures BlobsSafe(old(files.nodes), files.nodes, dir, Millis(cutoff), ReferencedRelpaths(database.tables.assets))
      ensures UniqueKeys(old(database.tables).entries) ==>
        LiveBlobsStay(old(database.tables), database.tables, old(files.nodes), files.nodes, dir)
      // When the clear was whole and the references could be read, this is garbage collection.
      ensures apply && !thrown && database.present && BlobsWereSwept(old(files.nodes)) ==>
        BlobsSwept(files.nodes, dir, Millis(cutoff), ReferencedRelpaths(database.tables.assets))
      ensures apply && !thrown && database.present && BlobsWereSwept(old(files.nodes)) && IsSound(old(database.tables))
              && database.tables == Cleared(old(database.tables), FilterFor(All, Some(cutoff))) ==>
        Collected(old(database.tables), database.tables, old(files.nodes), files.nodes, dir, Millis(cutoff))
      // So it is when no statement is busy or fails.
      ensures database.present && database.NeverFails() ==>
        !sqlFailed && Undisturbed(attempts) && (!thrown ==> BlobsWereSwept(old(files.nodes)))
      ensures !thrown ==> backupsPruned == |OldBackups(old(files.nodes), dir, Millis(cutoff))|
      ensures !thrown ==>
        indexPruned == IndexPrunes(if apply then afterClear else old(files.nodes), Millis(cutoff))
      ensures !thrown ==>
        blobFilesPruned ==
          if BlobsWereRead(old(files.nodes)) then
            |Detached(old(files.nodes), dir, Millis(cutoff), ReferencedRelpaths(database.tables.assets))|
          else 0
      // What goes, by name and date; a document that makes the prune of the index throw ends the cleanup there.
      ensures apply && thrown ==>
        forall p | p in old(files.nodes) ::
          p in files.nodes <==> !GoesWith(old(files.nodes), dir, All, Some(Millis(cutoff)), includeBlobs, p)
      ensures apply && !thrown ==>
        CleanedUp(old(files.nodes), files.nodes, dir, Millis(cutoff), includeBlobs, BlobsWereRead(old(files.nodes)),
                  ReferencedRelpaths(database.tables.assets))
      // A surviving index holds the old entries that pass, and none of them dangles.
      ensures apply && !thrown && IndexEntries(files.nodes).Some? ==>
        && IndexEntries(old(files.nodes)).Some?
        && var before, after := IndexEntries(old(files.nodes)).value, IndexEntries(files.nodes).value;
           && after == Kept(afterClear, dir, before, Millis(cutoff))
           && indexPruned + |after| == |before|
           && forall e | e in after :: Stands(files.nodes, dir, e, Millis(cutoff))
    {
      ghost var before, rows, f := files.nodes, database.tables, FilterFor(All, Some(cutoff));
      var matched, deleted, errors, sql;
      matched, deleted, errors, sqlFailed, sql, attempts := ClearContext(All, Some(cutoff), includeBlobs, apply);
      afterClear := files.nodes;
      thrown, indexPruned, backupsPruned, blobFilesPruned :=
        PruneRest(Millis(cutoff), now, apply, before, includeBlobs);
      RowsAndBlobs(rows, f, database.tables, before, files.nodes, dir, Millis(cutoff));
    }

    /** The three prunes, after a clear that found the tree `before`. */
    method PruneRest(cutoffMs: int, now: int, apply: bool, ghost before: Tree, ghost includeBlobs: bool)
      returns (thrown: bool, indexPruned: nat, backupsPruned: nat, blobFilesPruned: nat)
      requires IsTree(files.nodes)
      requires files.nodes ==
        if apply then Without(before, ClearedPaths(before, dir, All, Some(cutoffMs), includeBlobs))
                              else before
      modifies files, database`issued
      ensures IsTree(files.nodes)
      ensures !apply ==> files.nodes == before
      ensures thrown <==> IndexThrows(old(files.nodes))
      ensures OnlyExpectedGone(before, files.nodes, dir, cutoffMs, includeBlobs)
      ensures BlobsSafe(before, files.nodes, dir, cutoffMs, ReferencedRelpaths(database.tables.assets))
      ensures apply && !thrown && database.present && BlobsWereSwept(before) ==>
        BlobsSwept(files.nodes, dir, cutoffMs, ReferencedRelpaths(database.tables.assets))
      ensures database.present && database.NeverFails() && !thrown ==> BlobsWereSwept(before)
      ensures !thrown ==> backupsPruned == |OldBackups(before, dir, cutoffMs)|
      ensures !thrown ==> indexPruned == IndexPrunes(old(files.nodes), cutoffMs)
      ensures !thrown ==>
        blobFilesPruned ==
          if BlobsWereRead(before) then |Detached(before, dir, cutoffMs, ReferencedRelpaths(database.tables.assets))|
          else 0
      ensures thrown ==> files.nodes == old(files.nodes)
      ensures apply && !thrown ==>
        CleanedUp(before, files.nodes, dir, cutoffMs, includeBlobs, BlobsWereRead(before),
                  ReferencedRelpaths(database.tables.assets))
      ensures apply && !thrown && IndexEntries(files.nodes).Some? ==>
        && IndexEntries(before).Some?
        && var entries, after := IndexEntries(before).value, IndexEntries(files.nodes).value;
           && after == Kept(old(files.nodes), dir, entries, cutoffMs)
           && indexPruned + |after| == |entries|
           && forall e | e in after :: Stands(files.nodes, dir, e, cutoffMs)
    {
      ghost var afterClear, references := files.nodes, ReferencedRelpaths(database.tables.assets);
      backupsPruned, blobFilesPruned := 0, 0;
      thrown, indexPruned := PruneIndexEntries(cutoffMs, now, apply);
      if thrown {
        ClearEffect(before, afterClear, dir, cutoffMs, includeBlobs, apply, references);
        return;
      }
      ghost var read;
      ghost var afterIndex := files.nodes;
      backupsPruned, blobFilesPruned, read := Sweep(cutoffMs, apply, afterClear);
      if apply {
        AppliedEffect(before, afterClear, afterIndex, files.nodes, dir, cutoffMs, includeBlobs, read, references);
        if IndexEntries(afterClear).Some? {
          KeptPass(afterClear, dir, IndexEntries(afterClear).value, cutoffMs);
        }
      } else {
        ClearEffect(before, files.nodes, dir, cutoffMs, includeBlobs, false, references);
      }
    }

    /** The statement that reads the references, the last of the cleanup, completed. */
    ghost predicate BlobsWereRead(nodes: Tree)
      reads database
    {
      database.present && IsDirectory(nodes, dir + ["blobs"]) && database.LastCompleted()
    }

    /** There are no blobs, or the last statement of the cleanup, which reads their references, completed. */
    ghost predicate BlobsWereSwept(nodes: Tree)
      reads database
    {
      IsDirectory(nodes, dir + ["blobs"]) ==> database.LastCompleted()
    }

    /** The last two steps of the cleanup. */
    method Sweep(cutoffMs: int, apply: bool, ghost afterClear: Tree)
      returns (backupsPruned: nat, blobFilesPruned: nat, ghost read: bool)
      requires IsTree(afterClear) && IsRewrite(afterClear, files.nodes, IndexPath())
      modifies files, database`issued
      ensures IsTree(files.nodes) && IsTree(old(files.nodes))
      ensures read <==> database.present && IsDirectory(afterClear, dir + ["blobs"]) && database.LastCompleted()
      ensures database.present && database.NeverFails() && IsDirectory(afterClear, dir + ["blobs"]) ==> read
      ensures !apply ==> files.nodes == old(files.nodes)
      ensures backupsPruned == |OldBackups(old(files.nodes), dir, cutoffMs)|
      ensures blobFilesPruned ==
        if read then |Detached(old(files.nodes), dir, cutoffMs, ReferencedRelpaths(database.tables.assets))| else 0
      ensures apply ==>
        files.nodes == Swept(old(files.nodes), dir, cutoffMs, read, ReferencedRelpaths(database.tables.assets))
    {
      RewriteKeepsTree(afterClear, files.nodes, IndexPath());
      SweptSteps(files.nodes, dir, cutoffMs, ReferencedRelpaths(database.tables.assets));
      DetachedBeneath(files.nodes, dir, cutoffMs, ReferencedRelpaths(database.tables.assets));
      backupsPruned := PruneOldBackups(cutoffMs, apply);
      blobFilesPruned, read := PruneDetachedBlobs(cutoffMs, apply);
    }

    method RemoveUnreferenced(candidates: seq<Path>, references: set<string>, apply: bool) returns (pruned: nat)
      requires Distinct(candidates)
      requires forall p | p in candidates :: dir <= p && p in files.nodes && files.nodes[p].File?
      modifies files
      ensures pruned == |Unreferenced(dir, candidates, references)|
      ensures files.nodes == if apply then Without(old(files.nodes), Unreferenced(dir, candidates, references))
                             else old(files.nodes)
    {
      ghost var before := files.nodes;
      pruned := 0;
      WithoutMore(before, {}, {});
      for i := 0 to |candidates|
        invariant pruned == |Unreferenced(dir, candidates[..i], references)|
        invariant files.nodes ==
          if apply then Without(before, Unreferenced(dir, candidates[..i], references)) else before
      {
        var path := candidates[i];
        assert candidates[..i + 1] == candidates[..i] + [path];
        assert path in candidates && path !in candidates[..i];
        UnreferencedMore(before, dir, candidates[..i], path, references);
        if Relative(dir, path) in references { continue; }
        pruned := pruned + 1;
        if apply {
          var ok := files.Remove(path, false);
        }
      }
      assert candidates[..|candidates|] == candidates;
    }
  }

  lemma WithoutMore(nodes: Tree, gone: set<Path>, more: set<Path>)
    ensures Without(Without(nodes, gone), more) == Without(nodes, gone + more)
    ensures Without(nodes, {}) == nodes
  {
  }

  function Unreferenced(dir: Path, candidates: seq<Path>, references: set<string>): set<Path> {
    set p | p in candidates && dir <= p && Relative(dir, p) !in references
  }

  /** One round of the loop. */
  lemma UnreferencedMore(nodes: Tree, dir: Path, candidates: seq<Path>, path: Path, references: set<string>)
    requires path !in candidates && dir <= path && path in nodes && nodes[path].File?
    ensures var before := Unreferenced(dir, candidates, references);
            var after := Unreferenced(dir, candidates + [path], references);
            var now := Without(nodes, before);
            && path in now && now[path].File?
            && if Relative(dir, path) in references then after == before
               else |after| == |before| + 1 && Without(now, {path}) == Without(nodes, after)
  {
    var before, after := Unreferenced(dir, candidates, references), Unreferenced(dir, candidates + [path], references);
    assert after == before + (if Relative(dir, path) in references then {} else {path});
    assert path !in before;
  }

  lemma AllDetached(nodes: Tree, dir: Path, cutoffMs: int, candidates: seq<Path>, references: set<string>)
    requires SetOf(candidates) == OldFiles(nodes, dir + ["blobs"], cutoffMs)
    ensures Unreferenced(dir, candidates, references) == Detached(nodes, dir, cutoffMs, references)
    ensures forall p | p in candidates :: dir <= p && p in nodes && nodes[p].File?
  {
    forall p ensures p in candidates <==> p in OldFiles(nodes, dir + ["blobs"], cutoffMs) {
      assert p in candidates <==> p in SetOf(candidates);
    }
  }

  function OldBackupsIn(nodes: Tree, dir: Path, names: seq<string>, cutoffMs: int): set<Path> {
    set p | p in OldBackups(nodes, dir, cutoffMs) && p[|dir| + 1] in names
  }

  lemma BackupPath(dir: Path, name: string, p: Path)
    requires |p| == |dir| + 2 && dir + ["backups"] < p
    ensures p[|dir| + 1] == name <==> p == dir + ["backups", name]
  {
    ChildPath(dir + ["backups"], p);
    assert dir + ["backups", name] == dir + ["backups"] + [name];
  }

  lemma OldBackupsMore(nodes: Tree, dir: Path, names: seq<string>, name: string, cutoffMs: int)
    requires name !in names && dir + ["backups", name] in nodes
    ensures var folder := dir + ["backups", name];
            OldBackupsIn(nodes, dir, names + [name], cutoffMs)
            == OldBackupsIn(nodes, dir, names, cutoffMs)
               + (if nodes[folder].Directory? && nodes[folder].mtime < cutoffMs then {folder} else {})
    ensures dir + ["backups", name] !in OldBackupsIn(nodes, dir, names, cutoffMs)
  {
    var folder := dir + ["backups", name];
    assert folder[|dir| + 1] == name && dir + ["backups"] < folder;
    forall p | p in OldBackups(nodes, dir, cutoffMs) ensures p[|dir| + 1] == name <==> p == folder {
      BackupPath(dir, name, p);
    }
  }

  lemma BackupUntouched(nodes: Tree, dir: Path, gone: set<Path>, folder: Path)
    requires |folder| == |dir| + 2 && folder !in gone && folder in nodes
    ensures folder in Without(nodes, BackupContents(nodes, dir, gone))
  {
    assert folder[..|dir| + 2] == folder;
  }

  lemma BackupRemoved(nodes: Tree, dir: Path, gone: set<Path>, folder: Path)
    requires |folder| == |dir| + 2
    ensures var now := Without(nodes, BackupContents(nodes, dir, gone));
            Without(now, Beneath(now, folder)) == Without(nodes, BackupContents(nodes, dir, gone + {folder}))
  {
    forall p | p in nodes ensures folder <= p <==> |p| >= |dir| + 2 && p[..|dir| + 2] == folder {
    }
  }

  function WithoutBackups(nodes: Tree, dir: Path, names: seq<string>, cutoffMs: int): Tree {
    Without(nodes, BackupContents(nodes, dir, OldBackupsIn(nodes, dir, names, cutoffMs)))
  }

  lemma NoBackups(nodes: Tree, dir: Path, cutoffMs: int)
    ensures OldBackupsIn(nodes, dir, [], cutoffMs) == {} && WithoutBackups(nodes, dir, [], cutoffMs) == nodes
  {
  }

  /** One round of the loop. */
  lemma BackupStep(nodes: Tree, dir: Path, names: seq<string>, name: string, cutoffMs: int)
    requires name !in names && dir + ["backups", name] in nodes
    ensures var folder, now := dir + ["backups", name], WithoutBackups(nodes, dir, names, cutoffMs);
            var before := OldBackupsIn(nodes, dir, names, cutoffMs);
            var after := OldBackupsIn(nodes, dir, names + [name], cutoffMs);
            && folder in now && now[folder] == nodes[folder]
            && if nodes[folder].Directory? && nodes[folder].mtime < cutoffMs
               then |after| == |before| + 1
                    && Without(now, Beneath(now, folder)) == WithoutBackups(nodes, dir, names + [name], cutoffMs)
               else after == before
  {
    var gone := OldBackupsIn(nodes, dir, names, cutoffMs);
    OldBackupsMore(nodes, dir, names, name, cutoffMs);
    BackupUntouched(nodes, dir, gone, dir + ["backups", name]);
    BackupRemoved(nodes, dir, gone, dir + ["backups", name]);
  }

  lemma AllOldBackups(nodes: Tree, dir: Path, names: seq<string>, cutoffMs: int)
    requires IsTree(nodes)
    requires IsDirectory(nodes, dir + ["backups"]) ==>
      forall name :: name in names <==> dir + ["backups"] + [name] in nodes
    ensures OldBackupsIn(nodes, dir, names, cutoffMs) == OldBackups(nodes, dir, cutoffMs)
  {
    forall p | p in OldBackups(nodes, dir, cutoffMs) ensures p[|dir| + 1] in names {
      AncestorsAreDirectories(nodes, dir + ["backups"], p);
      ChildPath(dir + ["backups"], p);
    }
  }

  function CutoffMs(cutoff: Option<Timestamp>): Option<int>
    requires cutoff.Some? ==> cutoff.value.Valid()
  {
    if cutoff.Some? then Some(Millis(cutoff.value)) else None
  }

  /** The files and directories that an applied clear removes. */
  ghost function ClearedPaths(nodes: Tree, dir: Path, dataset: DatasetName, cutoffMs: Option<int>, includeBlobs: bool)
    : set<Path>
  {
    set p | p in nodes && exists t :: IsTarget(nodes, dir, dataset, cutoffMs, includeBlobs, t) && Takes(nodes, t, p)
  }

  /** A file of the cache directory itself, by name and date. */
  predicate GoesAsFile(nodes: Tree, dir: Path, dataset: DatasetName, cutoffMs: Option<int>, p: Path)
    requires p in nodes && dir < p
  {
    && |p| == |dir| + 1 && !nodes[p].Directory? && (cutoffMs.Some? ==> nodes[p].mtime < cutoffMs.value)
    && (|| (p[|dir|] == "projects.json" && dataset in {All, Projects})
        || (p[|dir|] == "conversations.json" && dataset in {All, Conversations})
        || (p[|dir|] == "cache-index.json" && dataset == All))
  }

  /** A file of one of the three folders of files. */
  predicate GoesAsListed(nodes: Tree, dir: Path, dataset: DatasetName, cutoffMs: Option<int>, p: Path)
    requires p in nodes && dir < p
  {
    && |p| == |dir| + 2 && nodes[p].File? && (cutoffMs.Some? ==> nodes[p].mtime < cutoffMs.value)
    && var top, name := p[|dir|], p[|dir| + 1];
       || (top == "contexts" && dataset in {All, Context} && EndsWith(name, ".json"))
       || (top == "conversation-files" && dataset in {All, ConversationFiles} && EndsWith(name, ".json"))
       || (top == "project-instructions" && dataset in {All, ProjectInstructions}
           && (EndsWith(name, ".md") || EndsWith(name, ".json")))
  }

  /** Part of a folder with a manifest, or the manifest alone. */
  predicate GoesAsBundle(nodes: Tree, dir: Path, dataset: DatasetName, cutoffMs: Option<int>, includeBlobs: bool,
                         p: Path)
    requires p in nodes && dir < p
  {
    && |p| >= |dir| + 2
    && (|| (p[|dir|] == "conversation-attachments" && dataset in {All, ConversationAttachments})
        || (p[|dir|] == "project-knowledge" && dataset in {All, ProjectKnowledge}))
    && var folder, manifest := p[..|dir| + 2], p[..|dir| + 2] + ["manifest.json"];
       && folder in nodes && nodes[folder].Directory? && manifest in nodes
       && (cutoffMs.Some? ==> nodes[manifest].mtime < cutoffMs.value)
       && (includeBlobs || (p == manifest && !nodes[p].Directory?))
  }

  /** Whether a clear takes `p` away. */
  predicate GoesWith(nodes: Tree, dir: Path, dataset: DatasetName, cutoffMs: Option<int>, includeBlobs: bool, p: Path)
    requires p in nodes
  {
    && dir < p
    && (|| GoesAsFile(nodes, dir, dataset, cutoffMs, p)
        || GoesAsListed(nodes, dir, dataset, cutoffMs, p)
        || GoesAsBundle(nodes, dir, dataset, cutoffMs, includeBlobs, p))
  }

  lemma {:induction false} FileGoes(nodes: Tree, dir: Path, dataset: DatasetName, cutoffMs: Option<int>, t: Target)
    requires IsFileTarget(nodes, dir, dataset, cutoffMs, t) && !IsDirectory(nodes, t.path)
    ensures dir < t.path && GoesAsFile(nodes, dir, dataset, cutoffMs, t.path) && !t.recursive
  {
    TopOf(dir, t.path[|dir|], t.path);
  }

  lemma {:induction false} ListedGoes(nodes: Tree, dir: Path, dataset: DatasetName, cutoffMs: Option<int>, t: Target)
    requires IsFolderTarget(nodes, dir, dataset, cutoffMs, t)
    ensures dir < t.path && GoesAsListed(nodes, dir, dataset, cutoffMs, t.path) && !t.recursive
  {
    forall top | dir + [top] < t.path ensures t.path[|dir|] == top {
      TopOf(dir, top, t.path);
    }
  }

  lemma {:induction false} BundleGoes(nodes: Tree, dir: Path, dataset: DatasetName, cutoffMs: Option<int>,
                                      includeBlobs: bool, p: Path, t: Target)
    requires p in nodes && IsBundleTarget(nodes, dir, dataset, cutoffMs, includeBlobs, t) && Takes(nodes, t, p)
    ensures dir < p && GoesAsBundle(nodes, dir, dataset, cutoffMs, includeBlobs, p)
  {
    var folder := t.path[..|dir| + 2];
    assert p[..|dir| + 2] == folder;
    assert folder + [MANIFEST] == folder + ["manifest.json"];
    assert t == if includeBlobs then Target(folder, true) else Target(folder + [MANIFEST], false);
    forall top | dir + [top] < t.path ensures p[|dir|] == top {
      TopOf(dir, top, p);
    }
  }

  lemma {:induction false} ClearedGoes(nodes: Tree, dir: Path, dataset: DatasetName, cutoffMs: Option<int>,
                                       includeBlobs: bool, p: Path, t: Target)
    requires p in nodes && IsTarget(nodes, dir, dataset, cutoffMs, includeBlobs, t) && Takes(nodes, t, p)
    ensures GoesWith(nodes, dir, dataset, cutoffMs, includeBlobs, p)
  {
    if IsBundleTarget(nodes, dir, dataset, cutoffMs, includeBlobs, t) {
      BundleGoes(nodes, dir, dataset, cutoffMs, includeBlobs, p, t);
    } else if IsFileTarget(nodes, dir, dataset, cutoffMs, t) {
      FileGoes(nodes, dir, dataset, cutoffMs, t);
    } else {
      ListedGoes(nodes, dir, dataset, cutoffMs, t);
    }
  }

  lemma {:induction false} GoesIsCleared(nodes: Tree, dir: Path, dataset: DatasetName, cutoffMs: Option<int>,
                                         includeBlobs: bool, p: Path)
    requires p in nodes && GoesWith(nodes, dir, dataset, cutoffMs, includeBlobs, p)
    ensures exists t :: IsTarget(nodes, dir, dataset, cutoffMs, includeBlobs, t) && Takes(nodes, t, p)
  {
    var n, top := |dir|, p[|dir|];
    assert dir + [top] == p[..n + 1];
    if top in BUNDLES {
      var folder := p[..n + 2];
      var t := if includeBlobs then Target(folder, true) else Target(folder + [MANIFEST], false);
      assert t.path[..n + 2] == folder;
      assert IsBundleTarget(nodes, dir, dataset, cutoffMs, includeBlobs, t) && Takes(nodes, t, p);
    } else if |p| == n + 1 {
      assert IsFileTarget(nodes, dir, dataset, cutoffMs, Target(p, false)) && Takes(nodes, Target(p, false), p);
    } else {
      assert IsFolderTarget(nodes, dir, dataset, cutoffMs, Target(p, false)) && Takes(nodes, Target(p, false), p);
    }
  }

  /** A clear takes exactly the files that have one of the names of its dataset and are old enough, and the folders
      with such a manifest. */
  lemma ClearedExactlyWhen(nodes: Tree, dir: Path, dataset: DatasetName, cutoffMs: Option<int>, includeBlobs: bool)
    ensures forall p | p in nodes ::
      p in ClearedPaths(nodes, dir, dataset, cutoffMs, includeBlobs)
      <==> GoesWith(nodes, dir, dataset, cutoffMs, includeBlobs, p)
  {
    forall p | p in nodes
      ensures p in ClearedPaths(nodes, dir, dataset, cutoffMs, includeBlobs)
              <==> GoesWith(nodes, dir, dataset, cutoffMs, includeBlobs, p)
    {
      if p in ClearedPaths(nodes, dir, dataset, cutoffMs, includeBlobs) {
        var t :| IsTarget(nodes, dir, dataset, cutoffMs, includeBlobs, t) && Takes(nodes, t, p);
        ClearedGoes(nodes, dir, dataset, cutoffMs, includeBlobs, p, t);
      } else if GoesWith(nodes, dir, dataset, cutoffMs, includeBlobs, p) {
        GoesIsCleared(nodes, dir, dataset, cutoffMs, includeBlobs, p);
      }
    }
  }

  /** Nothing young goes. */
  lemma OnlyOldGoes(nodes: Tree, dir: Path, dataset: DatasetName, cutoff: int, includeBlobs: bool, p: Path)
    requires p in nodes && p in ClearedPaths(nodes, dir, dataset, Some(cutoff), includeBlobs)
    ensures exists q | q in nodes ::
      && nodes[q].mtime < cutoff
      && (q == p || (includeBlobs && |q| == |dir| + 3 && q[|q| - 1] == "manifest.json" && q[..|q| - 1] <= p))
  {
    ClearedExactlyWhen(nodes, dir, dataset, Some(cutoff), includeBlobs);
    if GoesAsBundle(nodes, dir, dataset, Some(cutoff), includeBlobs, p) {
      var manifest := p[..|dir| + 2] + ["manifest.json"];
      assert manifest[..|dir| + 2] == p[..|dir| + 2] && nodes[manifest].mtime < cutoff;
    } else {
      assert nodes[p].mtime < cutoff;
    }
  }

  /** Nothing of another dataset goes. */
  lemma OnlyItsOwnGoes(nodes: Tree, dir: Path, dataset: DatasetName, cutoffMs: Option<int>, includeBlobs: bool, p: Path)
    requires p in nodes && p in ClearedPaths(nodes, dir, dataset, cutoffMs, includeBlobs) && dataset != All
    ensures dir < p
    ensures p[|dir|] in (match dataset
                         case Projects => {"projects.json"}
                         case Conversations => {"conversations.json"}
                         case Context => {"contexts"}
                         case ConversationFiles => {"conversation-files"}
                         case ConversationAttachments => {"conversation-attachments"}
                         case ProjectKnowledge => {"project-knowledge"}
                         case ProjectInstructions => {"project-instructions"}
                         case _ => {})
  {
    ClearedExactlyWhen(nodes, dir, dataset, cutoffMs, includeBlobs);
  }

  lemma DoomedAreCleared(nodes: Tree, dir: Path, dataset: DatasetName, cutoffMs: Option<int>, includeBlobs: bool,
                         targets: seq<Target>)
    requires AreTargets(nodes, dir, dataset, cutoffMs, includeBlobs, targets)
    ensures Doomed(nodes, targets) == ClearedPaths(nodes, dir, dataset, cutoffMs, includeBlobs)
  {
  }

  /** A clear takes nothing from `blobs` and `backups`, and leaves the database file alone. */
  lemma ClearSpares(nodes: Tree, dir: Path, dataset: DatasetName, cutoffMs: Option<int>, includeBlobs: bool)
    ensures forall p | p in ClearedPaths(nodes, dir, dataset, cutoffMs, includeBlobs) ::
      !(dir + ["blobs"] <= p) && !(dir + ["backups"] <= p) && !(dir + ["cache.sqlite"] <= p)
  {
    forall p, t | IsTarget(nodes, dir, dataset, cutoffMs, includeBlobs, t) && Takes(nodes, t, p)
      ensures !(dir + ["blobs"] <= p) && !(dir + ["backups"] <= p) && !(dir + ["cache.sqlite"] <= p)
    {
      forall top | top in {"blobs", "backups", "cache.sqlite"} && dir + [top] <= p ensures false {
        TargetsSpare(nodes, dir, dataset, cutoffMs, includeBlobs, t, top, p);
      }
    }
  }

  /** `after` is `nodes`, with new text in the file `index` at most. */
  ghost predicate IsRewrite(nodes: Tree, after: Tree, index: Path) {
    after == nodes
    || (index in nodes && nodes[index].File? && index in after && after[index].File?
        && after == nodes[index := after[index]])
  }

  lemma RewriteKeepsTree(nodes: Tree, after: Tree, index: Path)
    requires IsTree(nodes) && IsRewrite(nodes, after, index)
    ensures IsTree(after)
  {
  }

  /** The tree after old backups and detached blobs have gone. */
  ghost function Swept(nodes: Tree, dir: Path, cutoffMs: int, read: bool, references: set<string>): Tree {
    var rest := Without(nodes, BackupContents(nodes, dir, OldBackups(nodes, dir, cutoffMs)));
    if read then BlobsPruned(rest, dir, cutoffMs, references) else rest
  }

  lemma SweptSteps(nodes: Tree, dir: Path, cutoffMs: int, references: set<string>)
    requires IsTree(nodes)
    ensures var rest := Without(nodes, BackupContents(nodes, dir, OldBackups(nodes, dir, cutoffMs)));
            && IsTree(rest) && IsTree(BlobsPruned(rest, dir, cutoffMs, references))
            && (IsDirectory(nodes, dir + ["blobs"]) <==> IsDirectory(rest, dir + ["blobs"]))
  {
    var rest := Without(nodes, BackupContents(nodes, dir, OldBackups(nodes, dir, cutoffMs)));
    BackupsLeaveTree(nodes, dir, OldBackups(nodes, dir, cutoffMs));
    BlobFilesKept(rest, dir, cutoffMs, references);
  }

  /** The detached blobs are the same before and after the backups went. */
  lemma DetachedBeneath(nodes: Tree, dir: Path, cutoffMs: int, references: set<string>)
    ensures var rest := Without(nodes, BackupContents(nodes, dir, OldBackups(nodes, dir, cutoffMs)));
            Detached(rest, dir, cutoffMs, references) == Detached(nodes, dir, cutoffMs, references)
  {
    var rest := Without(nodes, BackupContents(nodes, dir, OldBackups(nodes, dir, cutoffMs)));
    BackupsAreNoBlobs(nodes, dir, cutoffMs);
    SameDetached(nodes, rest, dir, cutoffMs, references);
  }

  lemma SameDetached(nodes: Tree, other: Tree, dir: Path, cutoffMs: int, references: set<string>)
    requires forall p | dir + ["blobs"] <= p ::
      (p in nodes <==> p in other) && (p in nodes ==> nodes[p] == other[p])
    ensures Detached(other, dir, cutoffMs, references) == Detached(nodes, dir, cutoffMs, references)
  {
    assert OldFiles(nodes, dir + ["blobs"], cutoffMs) == OldFiles(other, dir + ["blobs"], cutoffMs);
  }

  /** Only targets of the clear, old backups and blobs have gone. */
  ghost predicate OnlyExpectedGone(nodes: Tree, after: Tree, dir: Path, cutoffMs: int, includeBlobs: bool) {
    forall p | p in nodes && p !in after ::
      || p in ClearedPaths(nodes, dir, All, Some(cutoffMs), includeBlobs)
      || p in BackupContents(nodes, dir, OldBackups(nodes, dir, cutoffMs))
      || dir + ["blobs"] < p
  }

  lemma ClearEffect(nodes: Tree, after: Tree, dir: Path, cutoffMs: int, includeBlobs: bool, apply: bool,
                    references: set<string>)
    requires after ==
      if apply then Without(nodes, ClearedPaths(nodes, dir, All, Some(cutoffMs), includeBlobs)) else nodes
    ensures OnlyExpectedGone(nodes, after, dir, cutoffMs, includeBlobs)
    ensures BlobsSafe(nodes, after, dir, cutoffMs, references)
  {
    ClearSpares(nodes, dir, All, Some(cutoffMs), includeBlobs);
  }

  /** Rewriting the index file changes no backup and no blob. */
  lemma RewriteSpares(nodes: Tree, after: Tree, dir: Path, cutoffMs: int)
    requires IsRewrite(nodes, after, dir + ["cache-index.json"])
    ensures nodes.Keys == after.Keys
    ensures BackupContents(after, dir, OldBackups(after, dir, cutoffMs))
            == BackupContents(nodes, dir, OldBackups(nodes, dir, cutoffMs))
    ensures forall p | p in nodes && p != dir + ["cache-index.json"] :: after[p] == nodes[p]
    ensures forall p | p in nodes && (dir + ["blobs"] < p || dir + ["backups"] < p) :: p != dir + ["cache-index.json"]
  {
    assert OldBackups(after, dir, cutoffMs) == OldBackups(nodes, dir, cutoffMs);
  }

  /** What the sweep takes away, and what it leaves in `blobs`. */
  lemma SweptKeeps(nodes: Tree, dir: Path, cutoffMs: int, read: bool, references: set<string>)
    requires IsTree(nodes)
    ensures var after := Swept(nodes, dir, cutoffMs, read, references);
            && (forall p | p in after :: p in nodes && after[p] == nodes[p])
            && (forall p | p in nodes && p !in after ::
                  p in BackupContents(nodes, dir, OldBackups(nodes, dir, cutoffMs)) || dir + ["blobs"] < p)
            && BlobsSafe(nodes, after, dir, cutoffMs, references)
            && (read ==> BlobsSwept(after, dir, cutoffMs, references))
  {
    var rest := Without(nodes, BackupContents(nodes, dir, OldBackups(nodes, dir, cutoffMs)));
    SweptSteps(nodes, dir, cutoffMs, references);
    BlobFilesKept(rest, dir, cutoffMs, references);
    BackupsAreNoBlobs(nodes, dir, cutoffMs);
  }

  lemma BackupsAreNoBlobs(nodes: Tree, dir: Path, cutoffMs: int)
    ensures forall p | p in BackupContents(nodes, dir, OldBackups(nodes, dir, cutoffMs)) ::
      dir + ["backups"] < p && !(dir + ["blobs"] <= p)
  {
    forall p | p in BackupContents(nodes, dir, OldBackups(nodes, dir, cutoffMs))
      ensures dir + ["backups"] < p && !(dir + ["blobs"] <= p)
    {
      var folder := p[..|dir| + 2];
      assert folder[..|dir| + 1] == dir + ["backups"] == p[..|dir| + 1];
      assert p[|dir|] == (dir + ["backups"])[|dir|] == "backups";
      assert (dir + ["blobs"])[|dir|] == "blobs";
    }
  }

  lemma NoBlobs(nodes: Tree, after: Tree, dir: Path, cutoffMs: int, references: set<string>)
    requires IsTree(nodes) && after.Keys <= nodes.Keys
    ensures !IsDirectory(nodes, dir + ["blobs"]) ==> BlobsSwept(after, dir, cutoffMs, references)
  {
    forall p | p in after && dir + ["blobs"] < p ensures IsDirectory(nodes, dir + ["blobs"]) {
      AncestorsAreDirectories(nodes, dir + ["blobs"], p);
    }
  }

  /** The clear and the rewrite of the index leave blobs and backups as they were. */
  lemma BeforeSweep(nodes: Tree, afterClear: Tree, afterIndex: Tree, dir: Path, cutoffMs: int, includeBlobs: bool)
    requires afterClear == Without(nodes, ClearedPaths(nodes, dir, All, Some(cutoffMs), includeBlobs))
    requires IsRewrite(afterClear, afterIndex, dir + ["cache-index.json"])
    ensures forall p | p in nodes && dir + ["blobs"] < p :: p in afterIndex && afterIndex[p] == nodes[p]
    ensures forall p | p in nodes && p !in afterIndex ::
      p in ClearedPaths(nodes, dir, All, Some(cutoffMs), includeBlobs)
    ensures BackupContents(afterIndex, dir, OldBackups(afterIndex, dir, cutoffMs))
            <= BackupContents(nodes, dir, OldBackups(nodes, dir, cutoffMs))
  {
    RewriteSpares(afterClear, afterIndex, dir, cutoffMs);
    ClearSpares(nodes, dir, All, Some(cutoffMs), includeBlobs);
    assert BackupContents(afterClear, dir, OldBackups(afterClear, dir, cutoffMs))
        <= BackupContents(nodes, dir, OldBackups(nodes, dir, cutoffMs));
  }

  lemma BackupsBeforeSweep(nodes: Tree, afterClear: Tree, afterIndex: Tree, dir: Path, cutoffMs: int,
                           includeBlobs: bool)
    requires afterClear == Without(nodes, ClearedPaths(nodes, dir, All, Some(cutoffMs), includeBlobs))
    requires IsRewrite(afterClear, afterIndex, dir + ["cache-index.json"])
    ensures OldBackups(afterIndex, dir, cutoffMs) == OldBackups(nodes, dir, cutoffMs)
  {
    ClearSpares(nodes, dir, All, Some(cutoffMs), includeBlobs);
    assert OldBackups(afterClear, dir, cutoffMs) == OldBackups(nodes, dir, cutoffMs);
  }

  /** An entry that passes after the clear still stands after the sweep. */
  lemma SweepLeavesStanding(afterClear: Tree, afterIndex: Tree, after: Tree, dir: Path, cutoffMs: int,
                            read: bool, references: set<string>)
    requires IsTree(afterIndex) && IsRewrite(afterClear, afterIndex, dir + ["cache-index.json"])
    requires after == Swept(afterIndex, dir, cutoffMs, read, references)
    ensures forall e | KeepsEntry(afterClear, dir, e, cutoffMs) :: Stands(after, dir, e, cutoffMs)
    ensures var index := dir + ["cache-index.json"];
            (index in after <==> index in afterIndex) && (index in after ==> after[index] == afterIndex[index])
  {
    SweptKeeps(afterIndex, dir, cutoffMs, read, references);
    BackupsAreNoBlobs(afterIndex, dir, cutoffMs);
    assert afterClear.Keys == afterIndex.Keys;
    var index := dir + ["cache-index.json"];
    assert !(dir + ["backups"] < index) && !(dir + ["blobs"] < index);
  }

  /** The steps of an applied cleanup together. */
  lemma SweepEffect(nodes: Tree, afterClear: Tree, afterIndex: Tree, after: Tree, dir: Path, cutoffMs: int,
                    includeBlobs: bool, read: bool, references: set<string>)
    requires IsTree(afterClear)
    requires afterClear == Without(nodes, ClearedPaths(nodes, dir, All, Some(cutoffMs), includeBlobs))
    requires IsRewrite(afterClear, afterIndex, dir + ["cache-index.json"])
    requires after == Swept(afterIndex, dir, cutoffMs, read, references)
    ensures OnlyExpectedGone(nodes, after, dir, cutoffMs, includeBlobs)
    ensures BlobsSafe(nodes, after, dir, cutoffMs, references)
    ensures read || !IsDirectory(afterClear, dir + ["blobs"]) ==> BlobsSwept(after, dir, cutoffMs, references)
  {
    RewriteKeepsTree(afterClear, afterIndex, dir + ["cache-index.json"]);
    BeforeSweep(nodes, afterClear, afterIndex, dir, cutoffMs, includeBlobs);
    SweptKeeps(afterIndex, dir, cutoffMs, read, references);
    NoBlobs(afterClear, after, dir, cutoffMs, references);
  }

  lemma BlobsUntouched(nodes: Tree, afterClear: Tree, afterIndex: Tree, dir: Path, cutoffMs: int, includeBlobs: bool,
                       references: set<string>)
    requires afterClear == Without(nodes, ClearedPaths(nodes, dir, All, Some(cutoffMs), includeBlobs))
    requires IsRewrite(afterClear, afterIndex, dir + ["cache-index.json"])
    ensures Detached(afterIndex, dir, cutoffMs, references) == Detached(nodes, dir, cutoffMs, references)
  {
    ClearSpares(nodes, dir, All, Some(cutoffMs), includeBlobs);
    forall p | dir + ["blobs"] <= p
      ensures (p in nodes <==> p in afterIndex) && (p in nodes ==> nodes[p] == afterIndex[p])
    {
      TopOf(dir, "blobs", p);
      assert (dir + ["cache-index.json"])[|dir|] == "cache-index.json";
    }
    SameDetached(nodes, afterIndex, dir, cutoffMs, references);
  }

  /** All of what an applied cleanup does to the files. */
  lemma {:induction false} AppliedEffect(nodes: Tree, afterClear: Tree, afterIndex: Tree, after: Tree, dir: Path,
                                         cutoffMs: int, includeBlobs: bool, read: bool, references: set<string>)
    requires IsTree(afterClear)
    requires afterClear == Without(nodes, ClearedPaths(nodes, dir, All, Some(cutoffMs), includeBlobs))
    requires IsRewrite(afterClear, afterIndex, dir + ["cache-index.json"])
    requires after == Swept(afterIndex, dir, cutoffMs, read, references)
    ensures OnlyExpectedGone(nodes, after, dir, cutoffMs, includeBlobs)
    ensures BlobsSafe(nodes, after, dir, cutoffMs, references)
    ensures IsDirectory(nodes, dir + ["blobs"]) <==> IsDirectory(afterClear, dir + ["blobs"])
    ensures read || !IsDirectory(nodes, dir + ["blobs"]) ==> BlobsSwept(after, dir, cutoffMs, references)
    ensures OldBackups(afterIndex, dir, cutoffMs) == OldBackups(nodes, dir, cutoffMs)
    ensures CleanedUp(nodes, after, dir, cutoffMs, includeBlobs, read, references)
    ensures Detached(afterIndex, dir, cutoffMs, references) == Detached(nodes, dir, cutoffMs, references)
    ensures forall e | KeepsEntry(afterClear, dir, e, cutoffMs) :: Stands(after, dir, e, cutoffMs)
    ensures var index := dir + ["cache-index.json"];
            (index in after <==> index in afterIndex) && (index in after ==> after[index] == afterIndex[index])
  {
    RewriteKeepsTree(afterClear, afterIndex, dir + ["cache-index.json"]);
    ClearSpares(nodes, dir, All, Some(cutoffMs), includeBlobs);
    SweepEffect(nodes, afterClear, afterIndex, after, dir, cutoffMs, includeBlobs, read, references);
    SweepLeavesStanding(afterClear, afterIndex, after, dir, cutoffMs, read, references);
    CleanupTakes(nodes, afterClear, afterIndex, after, dir, cutoffMs, includeBlobs, read, references);
    BlobsUntouched(nodes, afterClear, afterIndex, dir, cutoffMs, includeBlobs, references);
    BackupsBeforeSweep(nodes, afterClear, afterIndex, dir, cutoffMs, includeBlobs);
  }

  /** Written out by name and date: what a cleanup takes away; `read` says whether the references were read. */
  ghost predicate CleanedUp(nodes: Tree, after: Tree, dir: Path, cutoffMs: int, includeBlobs: bool, read: bool,
                            references: set<string>)
  {
    forall p | p in nodes :: CleanedAt(nodes, after, dir, cutoffMs, includeBlobs, read, references, p)
  }

  ghost predicate CleanedAt(nodes: Tree, after: Tree, dir: Path, cutoffMs: int, includeBlobs: bool, read: bool,
                            references: set<string>, p: Path)
    requires p in nodes
  {
    if dir + ["backups"] < p then
      p in after <==>
        !(|p| >= |dir| + 2
          && var folder := p[..|dir| + 2];
             folder in nodes && nodes[folder].Directory? && nodes[folder].mtime < cutoffMs)
    else if dir + ["blobs"] < p then
      nodes[p].File? ==> (p in after <==> !(read && nodes[p].mtime < cutoffMs && Relative(dir, p) !in references))
    else
      p in after <==> !GoesWith(nodes, dir, All, Some(cutoffMs), includeBlobs, p)
  }

  lemma BackupsGo(nodes: Tree, dir: Path, cutoffMs: int, p: Path)
    requires p in nodes && dir + ["backups"] < p
    ensures p in BackupContents(nodes, dir, OldBackups(nodes, dir, cutoffMs))
            <==> |p| >= |dir| + 2
                 && var folder := p[..|dir| + 2];
                    folder in nodes && nodes[folder].Directory? && nodes[folder].mtime < cutoffMs
  {
    if |p| >= |dir| + 2 {
      assert dir + ["backups"] < p[..|dir| + 2];
    }
  }

  /** What the sweep takes away, place by place. */
  lemma {:induction false} SweepTakes(nodes: Tree, dir: Path, cutoffMs: int, read: bool, references: set<string>,
                                      p: Path)
    requires IsTree(nodes) && p in nodes
    ensures var after := Swept(nodes, dir, cutoffMs, read, references);
            && (dir + ["backups"] < p ==>
                  (p in after <==> p !in BackupContents(nodes, dir, OldBackups(nodes, dir, cutoffMs))))
            && (dir + ["blobs"] < p && nodes[p].File? ==>
                  (p in after <==> !(read && nodes[p].mtime < cutoffMs && Relative(dir, p) !in references)))
            && (!(dir + ["backups"] < p) && !(dir + ["blobs"] < p) ==> p in after)
  {
    var rest := Without(nodes, BackupContents(nodes, dir, OldBackups(nodes, dir, cutoffMs)));
    SweptSteps(nodes, dir, cutoffMs, references);
    BlobFilesKept(rest, dir, cutoffMs, references);
    BackupsAreNoBlobs(nodes, dir, cutoffMs);
    if dir + ["backups"] < p {
      TopOf(dir, "backups", p);
      assert (dir + ["blobs"])[|dir|] == "blobs";
    }
  }

  /** The steps of an applied cleanup take away what they should. */
  lemma {:induction false} CleanupTakes(nodes: Tree, afterClear: Tree, afterIndex: Tree, after: Tree, dir: Path,
                                        cutoffMs: int, includeBlobs: bool, read: bool, references: set<string>)
    requires IsTree(afterIndex)
    requires afterClear == Without(nodes, ClearedPaths(nodes, dir, All, Some(cutoffMs), includeBlobs))
    requires IsRewrite(afterClear, afterIndex, dir + ["cache-index.json"])
    requires after == Swept(afterIndex, dir, cutoffMs, read, references)
    ensures CleanedUp(nodes, after, dir, cutoffMs, includeBlobs, read, references)
  {
    ClearedExactlyWhen(nodes, dir, All, Some(cutoffMs), includeBlobs);
    ClearSpares(nodes, dir, All, Some(cutoffMs), includeBlobs);
    RewriteSpares(afterClear, afterIndex, dir, cutoffMs);
    SweptKeeps(afterIndex, dir, cutoffMs, read, references);
    forall p | p in nodes ensures CleanedAt(nodes, after, dir, cutoffMs, includeBlobs, read, references, p) {
      CleanedPath(nodes, afterClear, afterIndex, after, dir, cutoffMs, includeBlobs, read, references, p);
    }
  }

  lemma {:induction false} CleanedPath(nodes: Tree, afterClear: Tree, afterIndex: Tree, after: Tree, dir: Path,
                                       cutoffMs: int, includeBlobs: bool, read: bool, references: set<string>, p: Path)
    requires IsTree(afterIndex) && p in nodes
    requires afterClear == Without(nodes, ClearedPaths(nodes, dir, All, Some(cutoffMs), includeBlobs))
    requires IsRewrite(afterClear, afterIndex, dir + ["cache-index.json"])
    requires after == Swept(afterIndex, dir, cutoffMs, read, references)
    requires after.Keys <= afterIndex.Keys
    requires p in ClearedPaths(nodes, dir, All, Some(cutoffMs), includeBlobs)
             <==> GoesWith(nodes, dir, All, Some(cutoffMs), includeBlobs, p)
    requires dir + ["blobs"] < p || dir + ["backups"] < p ==>
      p in afterIndex && afterIndex[p] == nodes[p] && p !in ClearedPaths(nodes, dir, All, Some(cutoffMs), includeBlobs)
    ensures CleanedAt(nodes, after, dir, cutoffMs, includeBlobs, read, references, p)
  {
    assert p in afterIndex <==> p !in ClearedPaths(nodes, dir, All, Some(cutoffMs), includeBlobs);
    if p in afterIndex {
      SweepTakes(afterIndex, dir, cutoffMs, read, references, p);
    }
    if dir + ["backups"] < p {
      BackupsBeforeSweep(nodes, afterClear, afterIndex, dir, cutoffMs, includeBlobs);
      BackupsGo(nodes, dir, cutoffMs, p);
      assert p in BackupContents(afterIndex, dir, OldBackups(afterIndex, dir, cutoffMs))
             <==> p in BackupContents(nodes, dir, OldBackups(nodes, dir, cutoffMs));
    }
  }

  ghost predicate BlobsSafe(nodes: Tree, after: Tree, dir: Path, cutoffMs: int, references: set<string>) {
    forall p | p in nodes && dir + ["blobs"] < p && nodes[p].File?
               && (nodes[p].mtime >= cutoffMs || Relative(dir, p) in references) ::
      p in after && after[p] == nodes[p]
  }

  ghost predicate BlobsSwept(after: Tree, dir: Path, cutoffMs: int, references: set<string>) {
    forall p | p in after && dir + ["blobs"] < p && IsOldFile(after, p, cutoffMs) :: Relative(dir, p) in references
  }

  /** An index entry that names an existing path, unless it leads into `backups` or `blobs`. */
  ghost predicate Stands(nodes: Tree, dir: Path, entry: Option<IndexEntry>, cutoffMs: int) {
    && entry.Some? && entry.value.path != "" && !DatedBefore(entry.value, cutoffMs)
    && var p := PathOf(dir, entry.value);
       p in nodes || dir + ["backups"] < p || dir + ["blobs"] < p
  }

  // ----- Garbage collection -----

  /** The rows that an uninterrupted clear leaves are exactly those reachable from the entries it leaves:
      links and bindings by their keys, assets through those bindings. */
  lemma CollectionIsExact(s: Store, f: Filter)
    requires IsSound(s)
    ensures var t := Cleared(s, f);
            && t.entries == s.entries - Candidates(s, f)
            && t.links == LiveLinks(s, t.entries)
            && t.bindings == LiveBindings(s, t.entries)
            && t.assets == LiveAssets(s, t.entries)
            && OrphanLinks(t) == {} && OrphanBindings(t) == {} && OrphanAssets(t) == {}
  {
    var t := Cleared(s, f);
    ClearedIsBetween(s, f);
    ClearKeepsLinkOwners(s, f);
    ClearKeepsBindingOwners(s, f);
    forall l | l in t.links ensures LinkKey(l) in Keys(t.entries) {
      assert l !in OrphanLinks(t);
    }
    forall b | b in t.bindings ensures BindingKey(b) in Keys(t.entries) {
      assert b !in OrphanBindings(t);
    }
    assert t.bindings == LiveBindings(s, t.entries);
  }

  lemma ResolveBelow(dir: Path, name: string, rest: seq<string>)
    requires rest != [] && forall s | s in [name] + rest :: IsName(s)
    ensures dir + [name] < Resolve(dir, [name] + rest)
  {
    ResolvePlain(dir, [name] + rest);
    assert dir + ([name] + rest) == dir + [name] + rest;
  }

  lemma PathBelow(dir: Path, name: string, rest: string, relpath: string)
    requires '/' !in name && relpath == name + "/" + rest && forall s | s in Segments(relpath) :: IsName(s)
    ensures dir + [name] < Resolve(dir, Segments(relpath))
  {
    SegmentsAfterName(name, rest);
    var segments := Segments(rest);
    assert Segments(relpath) == [name] + segments;
    ResolveBelow(dir, name, segments);
  }

  lemma PlainPathIsBlob(dir: Path, relpath: string)
    requires IsPlain(relpath)
    ensures dir + ["blobs"] < Resolve(dir, Segments(relpath))
  {
    var name, rest := relpath[..5], relpath[6..];
    assert name == relpath[..6][..5] == "blobs";
    assert relpath[5] == relpath[..6][5] == '/';
    assert relpath == name + "/" + rest;
    PathBelow(dir, name, rest, relpath);
  }

  /** What is reachable from a surviving entry stays, down to the blob file that a plain storage path
      names, and what stays is reachable: every row, and every blob file older than the cutoff. */
  ghost predicate Collected(s: Store, t: Store, nodes: Tree, after: Tree, dir: Path, cutoffMs: int) {
    && t.links == LiveLinks(s, t.entries) && t.bindings == LiveBindings(s, t.entries)
    && t.assets == LiveAssets(s, t.entries)
    && (forall a | a in t.assets && a.storageRelpath.Some? && IsPlain(a.storageRelpath.value) ::
          var p := Resolve(dir, Segments(a.storageRelpath.value));
          p in nodes && nodes[p].File? ==> p in after && after[p] == nodes[p])
    && (forall p | dir + ["blobs"] < p && IsOldFile(after, p, cutoffMs) ::
          exists a :: a in LiveAssets(s, t.entries) && a.storageRelpath.Some? && Spelt(a) == Relative(dir, p))
  }

  /** No link and no binding has lost its entry, and no key of a binding has an empty half. */
  ghost predicate IsSound(s: Store) {
    && UniqueKeys(s.entries) && OrphanLinks(s) == {} && OrphanBindings(s) == {}
    && forall b | b in s.bindings :: b.dataset != "" && b.entityId != ""
  }

  /** Blob files that a live asset names the plain way are where they were. */
  ghost predicate LiveBlobsStay(s: Store, t: Store, nodes: Tree, after: Tree, dir: Path) {
    forall a | a in LiveAssets(s, t.entries) && a.storageRelpath.Some? && IsPlain(a.storageRelpath.value) ::
      var p := Resolve(dir, Segments(a.storageRelpath.value));
      p in nodes && nodes[p].File? ==> p in after && after[p] == nodes[p]
  }

  /** What the SQL half of a clear promises of the rows: safety whatever fails, and, when it completes, exactly
      when it was whole. */
  ghost predicate ClearedRows(f: Filter, applied: bool, completed: bool, attempts: seq<Attempt>, s: Store, t: Store) {
    && ClearReaches(attempts, f, s, t)
    && (UniqueKeys(s.entries) ==> RowsSafe(s, f, t))
    && (!applied ==> t == s)
    && (applied && completed ==>
          && (t == Cleared(s, f) <==> NothingLeft(s, f, FirstStore(attempts, f, s)))
          && (Undisturbed(attempts) ==> t == Cleared(s, f)))
  }

  lemma {:induction false} ProtectedBlob(dir: Path, assets: set<FileAssetRow>, a: FileAssetRow, nodes: Tree,
                                         after: Tree, cutoffMs: int)
    requires BlobsSafe(nodes, after, dir, cutoffMs, ReferencedRelpaths(assets))
    requires a in assets && a.storageRelpath.Some? && IsPlain(a.storageRelpath.value)
    ensures var p := Resolve(dir, Segments(a.storageRelpath.value));
            p in nodes && nodes[p].File? ==> p in after && after[p] == nodes[p]
  {
    PlainReferenceProtects(dir, assets, a);
    PlainPathIsBlob(dir, a.storageRelpath.value);
  }

  lemma {:induction false} RowsAndBlobs(s: Store, f: Filter, t: Store, nodes: Tree, after: Tree, dir: Path,
                                        cutoffMs: int)
    requires BlobsSafe(nodes, after, dir, cutoffMs, ReferencedRelpaths(t.assets))
    ensures RowsSafe(s, f, t) ==> LiveBlobsStay(s, t, nodes, after, dir)
    ensures IsSound(s) && t == Cleared(s, f) && BlobsSwept(after, dir, cutoffMs, ReferencedRelpaths(t.assets)) ==>
      Collected(s, t, nodes, after, dir, cutoffMs)
  {
    if RowsSafe(s, f, t) {
      assert LiveAssets(s, t.entries) <= t.assets;
      forall a | a in LiveAssets(s, t.entries) && a.storageRelpath.Some? && IsPlain(a.storageRelpath.value)
        ensures var p := Resolve(dir, Segments(a.storageRelpath.value));
                p in nodes && nodes[p].File? ==> p in after && after[p] == nodes[p]
      {
        ProtectedBlob(dir, t.assets, a, nodes, after, cutoffMs);
      }
    }
    if IsSound(s) && t == Cleared(s, f) && BlobsSwept(after, dir, cutoffMs, ReferencedRelpaths(t.assets)) {
      CleanupCollects(s, f, nodes, after, dir, cutoffMs);
    }
  }

  lemma CleanupCollects(s: Store, f: Filter, nodes: Tree, after: Tree, dir: Path, cutoffMs: int)
    requires IsSound(s)
    requires BlobsSafe(nodes, after, dir, cutoffMs, ReferencedRelpaths(Cleared(s, f).assets))
    requires BlobsSwept(after, dir, cutoffMs, ReferencedRelpaths(Cleared(s, f).assets))
    ensures Collected(s, Cleared(s, f), nodes, after, dir, cutoffMs)
  {
    var t := Cleared(s, f);
    CollectionIsExact(s, f);
    forall a | a in t.assets && a.storageRelpath.Some? && IsPlain(a.storageRelpath.value)
      ensures var p := Resolve(dir, Segments(a.storageRelpath.value));
              p in nodes && nodes[p].File? ==> p in after && after[p] == nodes[p]
    {
      ProtectedBlob(dir, t.assets, a, nodes, after, cutoffMs);
    }
    forall p | dir + ["blobs"] < p && IsOldFile(after, p, cutoffMs)
      ensures exists a :: a in LiveAssets(s, t.entries) && a.storageRelpath.Some? && Spelt(a) == Relative(dir, p)
    {
      assert Relative(dir, p) in ReferencedRelpaths(t.assets);
      var a :| a in BlobAssets(t.assets) && Spelt(a) == Relative(dir, p);
    }
  }
}
