/** An optional value, what JavaScript takes for a present string, and facts about sequences as sets. */
module Wrappers {
  datatype Option<+T> = None | Some(value: T)

  predicate Truthy(text: Option<string>) {
    text.Some? && text.value != ""
  }

  ghost predicate Distinct<T>(items: seq<T>) {
    forall i, j | 0 <= i < j < |items| :: items[i] != items[j]
  }

  function SetOf<T>(items: seq<T>): set<T> {
    set x | x in items
  }

  lemma NoElements<T>(items: seq<T>)
    ensures SetOf(items) == {} <==> items == []
  {
    assert items != [] ==> items[0] in SetOf(items);
  }

  lemma DistinctConcat<T>(a: seq<T>, b: seq<T>)
    requires Distinct(a) && Distinct(b) && SetOf(a) !! SetOf(b)
    ensures Distinct(a + b) && SetOf(a + b) == SetOf(a) + SetOf(b)
  {
    forall i, j | 0 <= i < j < |a + b| ensures (a + b)[i] != (a + b)[j] {
      if i < |a| <= j {
        assert a[i] in SetOf(a) && b[j - |a|] in SetOf(b);
      }
    }
  }

  lemma DistinctSnoc<T>(items: seq<T>, last: T)
    requires Distinct(items) && last !in SetOf(items)
    ensures Distinct(items + [last]) && SetOf(items + [last]) == SetOf(items) + {last}
  {
    DistinctConcat(items, [last]);
  }

  function Filtered<T>(items: seq<T>, keep: T -> bool): seq<T> {
    if items == [] then []
    else
      var n := |items| - 1;
      Filtered(items[..n], keep) + (if keep(items[n]) then [items[n]] else [])
  }

  lemma {:induction false} FilterPasses<T>(items: seq<T>, keep: T -> bool)
    ensures forall x | x in Filtered(items, keep) :: keep(x) && x in items
  {
    if items != [] {
      FilterPasses(items[..|items| - 1], keep);
    }
  }

  ghost predicate IsSubsequence<T>(part: seq<T>, whole: seq<T>) {
    part == []
    || (whole != []
        && var p, w := |part| - 1, |whole| - 1;
           (part[p] == whole[w] && IsSubsequence(part[..p], whole[..w])) || IsSubsequence(part, whole[..w]))
  }

  lemma {:induction false} FilterKeepsOrder<T>(items: seq<T>, keep: T -> bool)
    ensures IsSubsequence(Filtered(items, keep), items) && |Filtered(items, keep)| <= |items|
  {
    if items != [] {
      var n := |items| - 1;
      FilterKeepsOrder(items[..n], keep);
      var before := Filtered(items[..n], keep);
      assert (before + [items[n]])[..|before|] == before;
      assert before + [] == before;
    }
  }

  /** Every occurrence of an element that passes is kept. */
  lemma {:induction false} FilterCounts<T>(items: seq<T>, keep: T -> bool, x: T)
    ensures multiset(Filtered(items, keep))[x] == if keep(x) then multiset(items)[x] else 0
  {
    if items != [] {
      var n := |items| - 1;
      FilterCounts(items[..n], keep, x);
      assert items == items[..n] + [items[n]];
    }
  }

  lemma {:induction false} FilterAll<T>(items: seq<T>, keep: T -> bool)
    requires forall x | x in items :: keep(x)
    ensures Filtered(items, keep) == items
  {
    if items != [] {
      FilterAll(items[..|items| - 1], keep);
      assert items[|items| - 1] in items;
    }
  }

  lemma {:induction false} FilterOfFullLength<T>(items: seq<T>, keep: T -> bool)
    requires |Filtered(items, keep)| == |items|
    ensures Filtered(items, keep) == items
  {
    if items != [] {
      FilterKeepsOrder(items[..|items| - 1], keep);
      FilterOfFullLength(items[..|items| - 1], keep);
    }
  }

  lemma FilterIsFixed<T>(items: seq<T>, keep: T -> bool)
    ensures Filtered(Filtered(items, keep), keep) == Filtered(items, keep)
  {
    FilterPasses(items, keep);
    FilterAll(Filtered(items, keep), keep);
  }

  lemma {:induction false} SubsetSize<T>(small: set<T>, large: set<T>)
    requires small <= large
    ensures |small| <= |large|
  {
    if small != {} {
      var x :| x in small;
      SubsetSize(small - {x}, large - {x});
    }
  }
}

/** The five relational tables of one `cache.sqlite`, and what it means for a row to be an orphan.
    A row keeps the columns that the maintenance commands read; `rowId` is SQLite's own row number,
    so that a table whose key is not unique can be described too. */
module CacheTables {
  import opened Text
  import opened Wrappers

  const CONTEXT_DATASET := "conversation-context"

  datatype EntryRow = EntryRow(rowId: int, dataset: string, entityId: string, updatedAt: string)
  datatype SourceLinkRow = SourceLinkRow(sourceId: string, conversationId: string)
  datatype FileBindingRow =
    FileBindingRow(bindingId: string, dataset: string, entityId: string, assetId: Option<string>)
  datatype FileAssetRow = FileAssetRow(assetId: string, storageRelpath: Option<string>)
  datatype ArtifactBindingRow = ArtifactBindingRow(artifactId: string, conversationId: string)

  datatype Store = Store(
    entries: set<EntryRow>,
    links: set<SourceLinkRow>,
    bindings: set<FileBindingRow>,
    assets: set<FileAssetRow>,
    artifacts: set<ArtifactBindingRow>)

  type EntryKey = (string, string)

  function KeyOf(e: EntryRow): EntryKey { (e.dataset, e.entityId) }
  function LinkKey(l: SourceLinkRow): EntryKey { (CONTEXT_DATASET, l.conversationId) }
  function BindingKey(b: FileBindingRow): EntryKey { (b.dataset, b.entityId) }
  function ArtifactKey(a: ArtifactBindingRow): EntryKey { (CONTEXT_DATASET, a.conversationId) }

  function Keys(entries: set<EntryRow>): set<EntryKey> {
    set e | e in entries :: KeyOf(e)
  }

  /** `PRIMARY KEY (dataset, entity_id)` of the table `cache_entries`. */
  ghost predicate UniqueKeys(entries: set<EntryRow>) {
    forall e, f | e in entries && f in entries && KeyOf(e) == KeyOf(f) :: e == f
  }

  function ReferencedAssets(bindings: set<FileBindingRow>): set<string> {
    set b | b in bindings && b.assetId.Some? :: b.assetId.value
  }

  function OrphanLinks(s: Store): set<SourceLinkRow> {
    set l | l in s.links && LinkKey(l) !in Keys(s.entries)
  }

  function OrphanBindings(s: Store): set<FileBindingRow> {
    set b | b in s.bindings && BindingKey(b) !in Keys(s.entries)
  }

  function OrphanArtifacts(s: Store): set<ArtifactBindingRow> {
    set a | a in s.artifacts && ArtifactKey(a) !in Keys(s.entries)
  }

  function OrphanAssets(s: Store): set<FileAssetRow> {
    set a | a in s.assets && a.assetId !in ReferencedAssets(s.bindings)
  }

  /** No table holds a row whose owner is missing. */
  ghost predicate OrphanFree(s: Store) {
    && OrphanLinks(s) == {}
    && OrphanBindings(s) == {}
    && OrphanArtifacts(s) == {}
    && OrphanAssets(s) == {}
  }

  /** `LIKE 'blobs/%'`, which does not distinguish the case of ASCII letters. */
  predicate LikeBlobs(relpath: string) {
    && |relpath| >= 6 && relpath[5] == '/'
    && relpath[0] in {'b', 'B'} && relpath[1] in {'l', 'L'} && relpath[2] in {'o', 'O'}
    && relpath[3] in {'b', 'B'} && relpath[4] in {'s', 'S'}
  }

  function BlobAssets(assets: set<FileAssetRow>): set<FileAssetRow> {
    set a | a in assets && a.storageRelpath.Some? && LikeBlobs(a.storageRelpath.value)
  }

  function Spelt(a: FileAssetRow): string {
    if a.storageRelpath.Some? then Slashed(Trim(a.storageRelpath.value)) else ""
  }

  /** The blob paths that asset rows refer to, as the cleanup spells them. */
  function ReferencedRelpaths(assets: set<FileAssetRow>): set<string> {
    set a | a in BlobAssets(assets) :: Spelt(a)
  }

  /** What the key of a deleted row says about the rows that stay, when keys are unique. */
  lemma RemovedKeysAreGone(entries: set<EntryRow>, removed: set<EntryRow>)
    requires UniqueKeys(entries) && removed <= entries
    ensures Keys(entries - removed) == Keys(entries) - Keys(removed)
  {
    forall k | k in Keys(entries) - Keys(removed)
      ensures k in Keys(entries - removed)
    {
      var e :| e in entries && KeyOf(e) == k;
      assert e !in removed;
    }
  }
}
