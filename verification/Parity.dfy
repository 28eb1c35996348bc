/** Parity of the two indexes of one cache directory: the keys of the SQL rows, the keys of the entries in
    `cache-index.json`, and the rebuild of that file from the directory tree. */
module CacheParity {
  import opened Wrappers
  import opened Text
  import opened DirectoryTree
  import opened CacheTables

  // ----- Kinds and their names -----

  datatype Kind =
    | Projects | Conversations
    | Context | ConversationFiles | ConversationAttachments | ProjectKnowledge | ProjectInstructions
  {
    /** One file for all of them. */
    predicate IsListing() {
      Projects? || Conversations?
    }

    predicate IsOfProject() {
      ProjectKnowledge? || ProjectInstructions?
    }

    function Name(): string {
      match this
      case Projects => "projects"
      case Conversations => "conversations"
      case Context => "context"
      case ConversationFiles => "conversation-files"
      case ConversationAttachments => "conversation-attachments"
      case ProjectKnowledge => "project-knowledge"
      case ProjectInstructions => "project-instructions"
    }

    /** The column `dataset` of its rows. */
    function Dataset(): string {
      if Context? then CONTEXT_DATASET else Name()
    }

    /** The directory of its files. */
    function Folder(): string {
      if Context? then "contexts" else Name()
    }
  }

  function KindNamed(text: string): Option<Kind> {
    if text == "projects" then Some(Projects)
    else if text == "conversations" then Some(Conversations)
    else if text == "context" then Some(Context)
    else if text == "conversation-files" then Some(ConversationFiles)
    else if text == "conversation-attachments" then Some(ConversationAttachments)
    else if text == "project-knowledge" then Some(ProjectKnowledge)
    else if text == "project-instructions" then Some(ProjectInstructions)
    else None
  }

  function DatasetNamed(text: string): Option<Kind> {
    if text == CONTEXT_DATASET then Some(Context)
    else if KindNamed(text) == Some(Context) then None
    else KindNamed(text)
  }

  predicate IsWord(s: string) {
    s != "" && 'a' <= s[0] <= 'z' && 'a' <= s[|s| - 1] <= 'z'
  }

  lemma WordsAreTrimmed(s: string)
    requires IsWord(s)
    ensures Trim(s) == s
  {
    TrimFixes(s);
  }

  lemma NamesAreWords(kind: Kind)
    ensures IsWord(kind.Name()) && IsWord(kind.Dataset()) && ':' !in kind.Name()
  {
  }

  lemma NamesDiffer(kind: Kind)
    ensures KindNamed(kind.Name()) == Some(kind) && DatasetNamed(kind.Dataset()) == Some(kind)
  {
    assert |"projects"| == 8 && |"conversations"| == 13 && |"context"| == 7 && |"conversation-files"| == 18;
    assert |"conversation-attachments"| == 24 && |"project-knowledge"| == 17 && |"project-instructions"| == 20;
    assert |CONTEXT_DATASET| == 20 && CONTEXT_DATASET[0] == 'c' && "project-instructions"[0] == 'p';
  }

  lemma NamesReadBack(kind: Kind)
    ensures KindNamed(Trim(kind.Name())) == Some(kind) && DatasetNamed(Trim(kind.Dataset())) == Some(kind)
  {
    NamesAreWords(kind);
    WordsAreTrimmed(kind.Name());
    WordsAreTrimmed(kind.Dataset());
    NamesDiffer(kind);
  }

  // ----- Patterns of paths -----

  function Lower(c: char): char {
    if 'A' <= c <= 'Z' then (c as int + 32) as char else c
  }

  /** Equality under the flag `i` of a pattern of ASCII letters. */
  predicate SameLetters(s: string, literal: string) {
    |s| == |literal| && forall i | 0 <= i < |s| :: Lower(s[i]) == Lower(literal[i])
  }

  /** The capture of `^head([^bar]+)tail$` with the flag `i`; "" when there is no match. */
  function Captured(text: string, head: string, bar: set<char>, tail: string): string {
    if |text| < |head| + |tail| then ""
    else
      var middle := text[|head|..|text| - |tail|];
      if SameLetters(text[..|head|], head) && SameLetters(text[|text| - |tail|..], tail)
         && forall c | c in middle :: c !in bar
      then middle else ""
  }

  /** `parseConversationIdFromPath` and `parseProjectIdFromPath`, by kind. */
  function ParseIdFromPath(path: string, kind: Kind): string {
    var head := kind.Folder() + "/";
    if path == "" then ""
    else
      match kind
      case Projects => ""
      case Conversations => ""
      case Context => Captured(path, head, {'/'}, ".json")
      case ConversationFiles => Captured(path, head, {'/'}, ".json")
      case ConversationAttachments => Captured(path, head, {'/'}, "/manifest.json")
      case ProjectKnowledge => Captured(path, head, {'/'}, "/manifest.json")
      case ProjectInstructions =>
        var markdown := Captured(path, head, {'/', '.'}, ".md");
        if markdown != "" then markdown else Captured(path, head, {'/', '.'}, ".json")
  }

  // ----- Keys -----

  function Key(kind: Kind, id: string): string {
    kind.Name() + "::" + id
  }

  function ToSqlParityKey(datasetRaw: string, entityIdRaw: string): Option<string> {
    var kind, entityId := DatasetNamed(Trim(datasetRaw)), Trim(entityIdRaw);
    if kind.Some? && kind.value.IsListing() then Some(Key(kind.value, ""))
    else if entityId == "" then None
    else if kind.None? then None
    else Some(Key(kind.value, entityId))
  }

  function OrEmpty(id: Option<string>): string {
    if id.Some? then id.value else ""
  }

  function ToIndexParityKey(entry: IndexEntry): Option<string> {
    var named := KindNamed(Trim(entry.kind));
    if named.None? then None
    else
      var kind := named.value;
      if kind.IsListing() then Some(Key(kind, ""))
      else
        var explicitId := Trim(OrEmpty(if kind.IsOfProject() then entry.projectId else entry.conversationId));
        var id := if explicitId != "" then explicitId else ParseIdFromPath(entry.path, kind);
        if id != "" then Some(Key(kind, id)) else None
  }

  lemma FirstColon(name: string, id: string, i: nat)
    requires ':' !in name && i < |name + "::" + id| && (name + "::" + id)[i] == ':'
    ensures i >= |name|
  {
    assert (name + "::" + id)[..|name|] == name;
  }

  lemma SplitAtColons(name: string, id: string, other: string, otherId: string)
    requires ':' !in name && ':' !in other && name + "::" + id == other + "::" + otherId
    ensures name == other && id == otherId
  {
    var a, b := name + "::" + id, other + "::" + otherId;
    assert a[|name|] == ':' && b[|other|] == ':';
    FirstColon(name, id, |other|);
    FirstColon(other, otherId, |name|);
    assert a[..|name|] == name && b[..|other|] == other;
    assert a[|name| + 2..] == id && b[|other| + 2..] == otherId;
  }

  /** No two things share a key. */
  lemma KeysAreInjective(kind: Kind, id: string, other: Kind, otherId: string)
    ensures Key(kind, id) == Key(other, otherId) <==> kind == other && id == otherId
  {
    if Key(kind, id) == Key(other, otherId) {
      NamesAreWords(kind);
      NamesAreWords(other);
      SplitAtColons(kind.Name(), id, other.Name(), otherId);
      NamesDiffer(kind);
      NamesDiffer(other);
    }
  }

  // ----- The entries of a rebuilt index -----

  /** What one entry of a rebuilt index stands for. */
  datatype Item = Item(kind: Kind, id: string, suffix: string)

  /** The combinations that the walks of the rebuild produce. */
  predicate IsItem(item: Item) {
    && '/' !in item.id
    && match item.kind
       case Projects => item.id == "" && item.suffix == ".json"
       case Conversations => item.id == "" && item.suffix == ".json"
       case Context => item.suffix == ".json"
       case ConversationFiles => item.suffix == ".json"
       case ConversationAttachments => item.suffix == "/manifest.json"
       case ProjectKnowledge => item.suffix == "/manifest.json"
       case ProjectInstructions => item.suffix == ".md" || item.suffix == ".json"
  }

  function RelPath(item: Item): string {
    if item.kind.IsListing() then item.kind.Name() + item.suffix else item.kind.Folder() + "/" + item.id + item.suffix
  }

  function EntryFor(item: Item, mtime: int): IndexEntry {
    IndexEntry(item.kind.Name(), RelPath(item), Some(mtime),
               if item.kind.IsListing() || !item.kind.IsOfProject() then None else Some(item.id),
               if item.kind.IsListing() || item.kind.IsOfProject() then None else Some(item.id))
  }

  /** The same entry without its explicit ids. */
  function WithoutIds(entry: IndexEntry): IndexEntry {
    entry.(projectId := None, conversationId := None)
  }

  lemma CapturedMiddle(head: string, id: string, tail: string, bar: set<char>)
    ensures Captured(head + id + tail, head, bar, tail) == if forall c | c in id :: c !in bar then id else ""
  {
    var text := head + id + tail;
    assert text[..|head|] == head && text[|text| - |tail|..] == tail && text[|head|..|text| - |tail|] == id;
  }

  /** A path with one of the two suffixes does not match the pattern with the other. */
  lemma OtherSuffix(head: string, id: string, suffix: string)
    requires suffix == ".md" || suffix == ".json"
    ensures Captured(head + id + suffix, head, {'/', '.'}, if suffix == ".md" then ".json" else ".md") == ""
  {
    var text, tail := head + id + suffix, if suffix == ".md" then ".json" else ".md";
    assert text[|text| - 1] == suffix[|suffix| - 1];
    if |text| >= |head| + |tail| {
      assert text[|text| - |tail|..][|tail| - 1] == text[|text| - 1];
    }
  }

  lemma PathNamesInstructions(head: string, id: string, suffix: string)
    requires '/' !in id && (suffix == ".md" || suffix == ".json")
    ensures var markdown := Captured(head + id + suffix, head, {'/', '.'}, ".md");
            (if markdown != "" then markdown else Captured(head + id + suffix, head, {'/', '.'}, ".json"))
            == if '.' in id then "" else id
  {
    CapturedMiddle(head, id, suffix, {'/', '.'});
    OtherSuffix(head, id, suffix);
  }

  /** The id that the path alone yields. */
  function PathId(item: Item): string {
    if item.kind.ProjectInstructions? && '.' in item.id then "" else item.id
  }

  lemma PathNamesItem(item: Item)
    requires IsItem(item) && !item.kind.IsListing()
    ensures ParseIdFromPath(RelPath(item), item.kind) == PathId(item)
  {
    var head := item.kind.Folder() + "/";
    assert RelPath(item) == head + item.id + item.suffix;
    if item.kind.ProjectInstructions? {
      PathNamesInstructions(head, item.id, item.suffix);
    } else {
      CapturedMiddle(head, item.id, item.suffix, {'/'});
    }
  }

  function KeyOrNone(kind: Kind, id: string): Option<string> {
    if id == "" then None else Some(Key(kind, id))
  }

  /** The three keys of one rebuilt entry: with its explicit id, from its path alone, and from its row. */
  lemma RebuiltKeys(item: Item, mtime: int)
    requires IsItem(item) && !item.kind.IsListing()
    ensures var byId := if Trim(item.id) != "" then Trim(item.id) else PathId(item);
            ToIndexParityKey(EntryFor(item, mtime)) == KeyOrNone(item.kind, byId)
    ensures ToIndexParityKey(WithoutIds(EntryFor(item, mtime))) == KeyOrNone(item.kind, PathId(item))
    ensures ToSqlParityKey(item.kind.Dataset(), item.id) == KeyOrNone(item.kind, Trim(item.id))
  {
    NamesReadBack(item.kind);
    PathNamesItem(item);
    TrimFixes("");
  }

  lemma ThreeAgree(kind: Kind, id: string, trimmed: string, parsed: string)
    requires id == "" ==> trimmed == ""
    requires parsed == id || (parsed == "" && trimmed != "")
    ensures var byId := KeyOrNone(kind, if trimmed != "" then trimmed else parsed);
            byId == KeyOrNone(kind, parsed) == KeyOrNone(kind, trimmed) <==> trimmed == id && parsed == id
  {
    KeysAreInjective(kind, trimmed, kind, parsed);
  }

  lemma DotsAreNoSpace(id: string)
    requires '.' in id
    ensures Trim(id) != ""
  {
    var before, after := TrimTakesSpace(id);
    assert id == before + Trim(id) + after;
    assert '.' in before || '.' in Trim(id) || '.' in after;
  }

  /** They agree exactly when the id has no space at its ends and, for project instructions, no dot. */
  lemma KeysAgreeExactlyWhen(item: Item, mtime: int)
    requires IsItem(item) && !item.kind.IsListing()
    ensures var entry := EntryFor(item, mtime);
            (ToIndexParityKey(entry)
             == ToIndexParityKey(WithoutIds(entry))
             == ToSqlParityKey(item.kind.Dataset(), item.id))
            <==> item.id == Trim(item.id) && (item.kind.ProjectInstructions? ==> '.' !in item.id)
  {
    RebuiltKeys(item, mtime);
    if '.' in item.id {
      DotsAreNoSpace(item.id);
    }
    ThreeAgree(item.kind, item.id, Trim(item.id), PathId(item));
  }

  /** A listing has one key, whatever the entity id of its row. */
  lemma ListingKeys(kind: Kind, path: string, mtime: int, entityId: string)
    requires kind.IsListing()
    ensures ToIndexParityKey(IndexEntry(kind.Name(), path, Some(mtime), None, None)) == Some(Key(kind, ""))
    ensures ToSqlParityKey(kind.Dataset(), entityId) == Some(Key(kind, ""))
  {
    NamesReadBack(kind);
  }

  // ----- Comparing the two sets of keys -----

  lemma MissingMore(source: set<string>, left: set<string>, target: set<string>, key: string)
    requires key in left && left <= source
    ensures |(source - (left - {key})) - target| == |(source - left) - target| + (if key in target then 0 else 1)
  {
    assert (source - (left - {key})) - target == ((source - left) - target) + (if key in target then {} else {key});
  }

  /** `countMissing`: an absent side counts as nothing missing. */
  method CountMissing(source: Option<set<string>>, target: Option<set<string>>) returns (count: nat)
    ensures count == if source.Some? && target.Some? then |source.value - target.value| else 0
  {
    count := 0;
    if source.None? || target.None? { return; }
    var left := source.value;
    assert (source.value - left) - target.value == {};
    while left != {}
      invariant left <= source.value
      invariant count == |(source.value - left) - target.value|
      decreases left
    {
      var key :| key in left;
      MissingMore(source.value, left, target.value, key);
      left := left - {key};
      if key !in target.value {
        count := count + 1;
      }
    }
    assert (source.value - {}) - target.value == source.value - target.value;
  }

  /** With both sides present, nothing is missing either way exactly when the key sets are equal. */
  lemma NothingMissingExactlyWhen(sql: set<string>, index: set<string>)
    ensures |sql - index| == 0 && |index - sql| == 0 <==> sql == index
  {
    if |sql - index| == 0 && |index - sql| == 0 {
      assert forall key | key in sql :: key !in sql - index;
      assert forall key | key in index :: key !in index - sql;
    }
    assert sql == index ==> sql - index == {} && index - sql == {};
  }

  // ----- Rebuilding the index -----

  function ItemPath(dir: Path, item: Item): Path {
    match item.kind
    case Projects => dir + [item.kind.Name() + item.suffix]
    case Conversations => dir + [item.kind.Name() + item.suffix]
    case ConversationAttachments => dir + [item.kind.Folder(), item.id, "manifest.json"]
    case ProjectKnowledge => dir + [item.kind.Folder(), item.id, "manifest.json"]
    case Context => dir + [item.kind.Folder(), item.id + item.suffix]
    case ConversationFiles => dir + [item.kind.Folder(), item.id + item.suffix]
    case ProjectInstructions => dir + [item.kind.Folder(), item.id + item.suffix]
  }

  predicate IsManifestKind(kind: Kind) {
    kind.ConversationAttachments? || kind.ProjectKnowledge?
  }

  /** The tree holds what the item stands for. */
  predicate IsRebuilt(nodes: Tree, dir: Path, item: Item) {
    && IsItem(item) && ItemPath(dir, item) in nodes
    && (item.kind.IsListing()
        || (if IsManifestKind(item.kind)
            then dir + [item.kind.Folder(), item.id] in nodes && nodes[dir + [item.kind.Folder(), item.id]].Directory?
            else nodes[ItemPath(dir, item)].File?))
  }

  function RebuiltEntry(nodes: Tree, dir: Path, item: Item): IndexEntry {
    var p := ItemPath(dir, item);
    EntryFor(item, if p in nodes then nodes[p].mtime else 0)
  }

  /** The file at `rel` is an item of the tree, and its entry is this one, with the date of the file. */
  ghost predicate Rebuilds(nodes: Tree, dir: Path, rel: Path, kind: string, path: string, projectId: Option<string>,
                           conversationId: Option<string>)
  {
    exists item | IsRebuilt(nodes, dir, item) ::
      && ItemPath(dir, item) == dir + rel && dir + rel in nodes
      && RebuiltEntry(nodes, dir, item)
         == IndexEntry(kind, path, Some(nodes[dir + rel].mtime), projectId, conversationId)
  }

  lemma RebuildsItem(nodes: Tree, dir: Path, item: Item, rel: Path, path: string)
    requires IsItem(item) && ItemPath(dir, item) == dir + rel && RelPath(item) == path
    ensures IsRebuilt(nodes, dir, item) ==>
      Rebuilds(nodes, dir, rel, item.kind.Name(), path,
               if item.kind.IsListing() || !item.kind.IsOfProject() then None else Some(item.id),
               if item.kind.IsListing() || item.kind.IsOfProject() then None else Some(item.id))
  {
  }

  /** The entry that a rebuild makes of each kind of file: its path, its date and its id. */
  lemma EntriesSpelled(nodes: Tree, dir: Path, id: string)
    requires '/' !in id
    ensures dir + ["projects.json"] in nodes && nodes[dir + ["projects.json"]].File? ==>
      Rebuilds(nodes, dir, ["projects.json"], "projects", "projects.json", None, None)
    ensures dir + ["conversations.json"] in nodes && nodes[dir + ["conversations.json"]].File? ==>
      Rebuilds(nodes, dir, ["conversations.json"], "conversations", "conversations.json", None, None)
    ensures dir + ["contexts", id + ".json"] in nodes && nodes[dir + ["contexts", id + ".json"]].File? ==>
      Rebuilds(nodes, dir, ["contexts", id + ".json"], "context", "contexts/" + id + ".json", None, Some(id))
    ensures dir + ["conversation-files", id + ".json"] in nodes
            && nodes[dir + ["conversation-files", id + ".json"]].File? ==>
      Rebuilds(nodes, dir, ["conversation-files", id + ".json"], "conversation-files",
               "conversation-files/" + id + ".json", None, Some(id))
    ensures dir + ["project-instructions", id + ".md"] in nodes
            && nodes[dir + ["project-instructions", id + ".md"]].File? ==>
      Rebuilds(nodes, dir, ["project-instructions", id + ".md"], "project-instructions",
               "project-instructions/" + id + ".md", Some(id), None)
    ensures dir + ["project-instructions", id + ".json"] in nodes
            && nodes[dir + ["project-instructions", id + ".json"]].File? ==>
      Rebuilds(nodes, dir, ["project-instructions", id + ".json"], "project-instructions",
               "project-instructions/" + id + ".json", Some(id), None)
    ensures dir + ["conversation-attachments", id] in nodes && nodes[dir + ["conversation-attachments", id]].Directory?
            && dir + ["conversation-attachments", id, "manifest.json"] in nodes ==>
      Rebuilds(nodes, dir, ["conversation-attachments", id, "manifest.json"], "conversation-attachments",
               "conversation-attachments/" + id + "/manifest.json", None, Some(id))
    ensures dir + ["project-knowledge", id] in nodes && nodes[dir + ["project-knowledge", id]].Directory?
            && dir + ["project-knowledge", id, "manifest.json"] in nodes ==>
      Rebuilds(nodes, dir, ["project-knowledge", id, "manifest.json"], "project-knowledge",
               "project-knowledge/" + id + "/manifest.json", Some(id), None)
  {
    assert "projects" + ".json" == "projects.json" && "conversations" + ".json" == "conversations.json";
    RebuildsItem(nodes, dir, Item(Projects, "", ".json"), ["projects.json"], "projects.json");
    RebuildsItem(nodes, dir, Item(Conversations, "", ".json"), ["conversations.json"], "conversations.json");
    RebuildsItem(nodes, dir, Item(Context, id, ".json"), ["contexts", id + ".json"], "contexts/" + id + ".json");
    RebuildsItem(nodes, dir, Item(ConversationFiles, id, ".json"), ["conversation-files", id + ".json"],
                 "conversation-files/" + id + ".json");
    RebuildsItem(nodes, dir, Item(ProjectInstructions, id, ".md"), ["project-instructions", id + ".md"],
                 "project-instructions/" + id + ".md");
    RebuildsItem(nodes, dir, Item(ProjectInstructions, id, ".json"), ["project-instructions", id + ".json"],
                 "project-instructions/" + id + ".json");
    RebuildsItem(nodes, dir, Item(ConversationAttachments, id, "/manifest.json"),
                 ["conversation-attachments", id, "manifest.json"],
                 "conversation-attachments/" + id + "/manifest.json");
    RebuildsItem(nodes, dir, Item(ProjectKnowledge, id, "/manifest.json"),
                 ["project-knowledge", id, "manifest.json"], "project-knowledge/" + id + "/manifest.json");
  }

  /** `items` are the items of these kinds in the tree, each once, and `entries` are their entries. */
  ghost predicate Covers(nodes: Tree, dir: Path, kinds: set<Kind>, items: seq<Item>, entries: seq<IndexEntry>) {
    && (forall item :: item in items <==> IsRebuilt(nodes, dir, item) && item.kind in kinds)
    && Distinct(items)
    && |entries| == |items|
    && forall i | 0 <= i < |items| :: entries[i] == RebuiltEntry(nodes, dir, items[i])
  }

  /** One entry for every item of these kinds in the tree, and no other entry. */
  ghost predicate IsIndexOf(nodes: Tree, dir: Path, kinds: set<Kind>, entries: seq<IndexEntry>) {
    exists items :: Covers(nodes, dir, kinds, items, entries)
  }

  /** Another text or date of the index file makes no difference to the rebuild, nor does its absence. */
  lemma {:induction false} IndexFileIsNoItem(nodes: Tree, other: Tree, dir: Path, entries: seq<IndexEntry>)
    requires OnlyIndexDiffers(nodes, other, dir)
    ensures IsRebuiltIndex(nodes, dir, entries) ==> IsRebuiltIndex(other, dir, entries)
  {
    forall item: Item | IsItem(item)
      ensures IsRebuilt(nodes, dir, item) <==> IsRebuilt(other, dir, item)
      ensures RebuiltEntry(nodes, dir, item) == RebuiltEntry(other, dir, item)
    {
      ItemIsNoIndex(dir, item);
    }
    if IsRebuiltIndex(nodes, dir, entries) {
      var found :| IsIndexOf(nodes, dir, ALL_KINDS, found) && entries == NewestFirst(found);
      var items :| Covers(nodes, dir, ALL_KINDS, items, found);
      forall i | 0 <= i < |items| ensures found[i] == RebuiltEntry(other, dir, items[i]) {
        assert items[i] in items;
      }
      assert Covers(other, dir, ALL_KINDS, items, found);
      assert IsIndexOf(other, dir, ALL_KINDS, found);
    }
  }

  ghost predicate OnlyIndexDiffers(nodes: Tree, other: Tree, dir: Path) {
    forall p | p != dir + ["cache-index.json"] ::
      (p in nodes <==> p in other) && (p in nodes ==> nodes[p] == other[p])
  }

  lemma ItemIsNoIndex(dir: Path, item: Item)
    requires IsItem(item)
    ensures ItemPath(dir, item) != dir + ["cache-index.json"]
    ensures !item.kind.IsListing() ==> dir + [item.kind.Folder(), item.id] != dir + ["cache-index.json"]
  {
    assert |"projects" + ".json"| == 13 && |"conversations" + ".json"| == 18 && |"cache-index.json"| == 16;
    assert ItemPath(dir, item)[|dir|..] != ["cache-index.json"];
  }

  lemma KindsKeepApart(nodes: Tree, dir: Path, kinds: set<Kind>, items: seq<Item>, moreKinds: set<Kind>,
                       more: seq<Item>)
    requires forall item | item in items :: item.kind in kinds
    requires forall item | item in more :: item.kind in moreKinds
    requires kinds !! moreKinds && Distinct(items) && Distinct(more)
    ensures Distinct(items + more)
  {
    forall item | item in SetOf(items) ensures item !in SetOf(more) {
      assert item in items;
    }
    DistinctConcat(items, more);
  }

  lemma CoversBoth(nodes: Tree, dir: Path, kinds: set<Kind>, items: seq<Item>, entries: seq<IndexEntry>,
                   moreKinds: set<Kind>, more: seq<Item>, moreEntries: seq<IndexEntry>)
    requires Covers(nodes, dir, kinds, items, entries) && Covers(nodes, dir, moreKinds, more, moreEntries)
    requires kinds !! moreKinds
    ensures Covers(nodes, dir, kinds + moreKinds, items + more, entries + moreEntries)
  {
    KindsKeepApart(nodes, dir, kinds, items, moreKinds, more);
    forall i | 0 <= i < |items + more|
      ensures (entries + moreEntries)[i] == RebuiltEntry(nodes, dir, (items + more)[i])
    {
      if i < |items| {
        assert (items + more)[i] == items[i];
      } else {
        assert (items + more)[i] == more[i - |items|];
      }
    }
  }

  /** What a file name means in a folder of this kind. */
  function ItemNamed(kind: Kind, name: string): Option<Item> {
    if EndsWith(name, ".json") then Some(Item(kind, name[..|name| - 5], ".json"))
    else if kind.ProjectInstructions? && EndsWith(name, ".md") then Some(Item(kind, name[..|name| - 3], ".md"))
    else None
  }

  predicate IsFileKind(kind: Kind) {
    kind.Context? || kind.ConversationFiles? || kind.ProjectInstructions?
  }

  lemma ItemHasItsName(kind: Kind, item: Item)
    requires IsFileKind(kind) && IsItem(item) && item.kind == kind
    ensures ItemNamed(kind, item.id + item.suffix) == Some(item)
  {
    var name := item.id + item.suffix;
    assert name[|name| - |item.suffix|..] == item.suffix && name[..|item.id|] == item.id;
    if item.suffix == ".md" && |name| >= 5 {
      assert name[|name| - 5..][4] == name[|name| - 1] == item.suffix[2];
    }
  }

  lemma NamedItem(kind: Kind, name: string)
    requires IsFileKind(kind) && '/' !in name && ItemNamed(kind, name).Some?
    ensures var item := ItemNamed(kind, name).value; IsItem(item) && item.kind == kind && item.id + item.suffix == name
  {
    var item := ItemNamed(kind, name).value;
    assert name == name[..|item.id|] + name[|item.id|..];
    assert item.suffix == name[|item.id|..];
  }

  lemma ItemNamedBack(kind: Kind, name: string, item: Item)
    requires IsFileKind(kind) && '/' !in name
    ensures IsItem(item) && item.kind == kind && item.id + item.suffix == name <==> ItemNamed(kind, name) == Some(item)
  {
    if IsItem(item) && item.kind == kind && item.id + item.suffix == name {
      ItemHasItsName(kind, item);
    }
    if ItemNamed(kind, name).Some? {
      NamedItem(kind, name);
    }
  }

  class IndexBuilder {
    const dir: Path
    const files: FileSystem

    constructor (dir: Path, files: FileSystem)
      ensures this.dir == dir && this.files == files
    {
      this.dir, this.files := dir, files;
    }

    method AddIfExists(kind: Kind) returns (entries: seq<IndexEntry>)
      requires kind.IsListing()
      ensures IsIndexOf(files.nodes, dir, {kind}, entries)
    {
      var item := Item(kind, "", ".json");
      var path := ItemPath(dir, item);
      if path in files.nodes {
        entries := [EntryFor(item, files.nodes[path].mtime)];
        assert Covers(files.nodes, dir, {kind}, [item], entries);
      } else {
        entries := [];
        assert Covers(files.nodes, dir, {kind}, [], entries);
      }
    }

    /** The walk through a folder of files. */
    method WalkFiles(kind: Kind) returns (entries: seq<IndexEntry>)
      requires IsTree(files.nodes) && HasPlainNames(files.nodes) && IsFileKind(kind)
      ensures IsIndexOf(files.nodes, dir, {kind}, entries)
    {
      entries := [];
      ghost var items: seq<Item> := [];
      var folder := dir + [kind.Folder()];
      var readable, names := files.ReadDirectory(folder);
      for i := 0 to |names|
        invariant |entries| == |items| && Distinct(items)
        invariant forall j | 0 <= j < |items| :: entries[j] == RebuiltEntry(files.nodes, dir, items[j])
        invariant forall item :: item in items <==> IsListedFile(files.nodes, dir, kind, names[..i], item)
      {
        var name := names[i];
        var path := folder + [name];
        assert names[..i + 1] == names[..i] + [name];
        assert name in names && name !in names[..i];
        assert path[|dir| + 1] == name;
        FileStep(files.nodes, dir, kind, names[..i], name);
        if !files.nodes[path].File? { continue; }
        var named := ItemNamed(kind, name);
        if named.None? { continue; }
        entries := entries + [EntryFor(named.value, files.nodes[path].mtime)];
        items := items + [named.value];
      }
      assert names[..|names|] == names;
      FilesAreListed(files.nodes, dir, kind, names);
      assert Covers(files.nodes, dir, {kind}, items, entries);
    }

    /** The walk through a folder of folders with manifests. */
    method WalkManifests(kind: Kind) returns (entries: seq<IndexEntry>)
      requires IsTree(files.nodes) && HasPlainNames(files.nodes) && IsManifestKind(kind)
      ensures IsIndexOf(files.nodes, dir, {kind}, entries)
    {
      entries := [];
      ghost var items: seq<Item> := [];
      var folder := dir + [kind.Folder()];
      var readable, names := files.ReadDirectory(folder);
      for i := 0 to |names|
        invariant |entries| == |items| && Distinct(items)
        invariant forall j | 0 <= j < |items| :: entries[j] == RebuiltEntry(files.nodes, dir, items[j])
        invariant forall item :: item in items <==> IsListedManifest(files.nodes, dir, kind, names[..i], item)
      {
        var name := names[i];
        assert names[..i + 1] == names[..i] + [name];
        assert name in names && name !in names[..i];
        assert (folder + [name])[|dir| + 1] == name;
        ManifestStep(files.nodes, dir, kind, names[..i], name);
        var item := Item(kind, name, "/manifest.json");
        var path := ItemPath(dir, item);
        if files.nodes[folder + [name]].Directory? && path in files.nodes {
          entries := entries + [EntryFor(item, files.nodes[path].mtime)];
          items := items + [item];
        }
      }
      assert names[..|names|] == names;
      ManifestsAreListed(files.nodes, dir, kind, names);
      assert Covers(files.nodes, dir, {kind}, items, entries);
    }

    /** `buildCacheIndexFromFilesystem`. */
    method BuildIndex() returns (entries: seq<IndexEntry>)
      requires IsTree(files.nodes) && HasPlainNames(files.nodes)
      ensures IsRebuiltIndex(files.nodes, dir, entries)
    {
      entries := BuildContexts();
      var more := BuildBundles();
      BothParts(files.nodes, dir, entries, more);
      SortedIndex(files.nodes, dir, entries + more);
      entries := NewestFirst(entries + more);
    }

    /** Its first part: the listings and the conversations. */
    method BuildContexts() returns (entries: seq<IndexEntry>)
      requires IsTree(files.nodes) && HasPlainNames(files.nodes)
      ensures IsIndexOf(files.nodes, dir, CONTEXT_KINDS, entries)
    {
      var projects := AddIfExists(Projects);
      var conversations := AddIfExists(Conversations);
      IndexOfBoth(files.nodes, dir, {Projects}, projects, {Conversations}, conversations);
      var contexts := WalkFiles(Context);
      var fileLists := WalkFiles(ConversationFiles);
      IndexOfBoth(files.nodes, dir, {Context}, contexts, {ConversationFiles}, fileLists);
      entries := projects + conversations + (contexts + fileLists);
      IndexOfBoth(files.nodes, dir, {Projects} + {Conversations}, projects + conversations,
                  {Context} + {ConversationFiles}, contexts + fileLists);
      assert {Projects} + {Conversations} + ({Context} + {ConversationFiles}) == CONTEXT_KINDS;
    }

    /** Its second part: the manifests and the instructions. */
    method BuildBundles() returns (entries: seq<IndexEntry>)
      requires IsTree(files.nodes) && HasPlainNames(files.nodes)
      ensures IsIndexOf(files.nodes, dir, BUNDLE_KINDS, entries)
    {
      var attachments := WalkManifests(ConversationAttachments);
      var knowledge := WalkManifests(ProjectKnowledge);
      IndexOfBoth(files.nodes, dir, {ConversationAttachments}, attachments, {ProjectKnowledge}, knowledge);
      var instructions := WalkFiles(ProjectInstructions);
      entries := attachments + knowledge + instructions;
      IndexOfBoth(files.nodes, dir, {ConversationAttachments} + {ProjectKnowledge}, attachments + knowledge,
                  {ProjectInstructions}, instructions);
      assert {ConversationAttachments} + {ProjectKnowledge} + {ProjectInstructions} == BUNDLE_KINDS;
    }
  }

  /** The entries of the whole tree, sorted. */
  ghost predicate IsRebuiltIndex(nodes: Tree, dir: Path, entries: seq<IndexEntry>) {
    exists found :: IsIndexOf(nodes, dir, ALL_KINDS, found) && entries == NewestFirst(found)
  }

  lemma {:induction false} IndexOfBoth(nodes: Tree, dir: Path, kinds: set<Kind>, entries: seq<IndexEntry>,
                                       moreKinds: set<Kind>, more: seq<IndexEntry>)
    requires IsIndexOf(nodes, dir, kinds, entries) && IsIndexOf(nodes, dir, moreKinds, more) && kinds !! moreKinds
    ensures IsIndexOf(nodes, dir, kinds + moreKinds, entries + more)
  {
    var items :| Covers(nodes, dir, kinds, items, entries);
    var moreItems :| Covers(nodes, dir, moreKinds, moreItems, more);
    CoversBoth(nodes, dir, kinds, items, entries, moreKinds, moreItems, more);
  }

  lemma {:induction false} BothParts(nodes: Tree, dir: Path, first: seq<IndexEntry>, second: seq<IndexEntry>)
    requires IsIndexOf(nodes, dir, CONTEXT_KINDS, first) && IsIndexOf(nodes, dir, BUNDLE_KINDS, second)
    ensures IsIndexOf(nodes, dir, ALL_KINDS, first + second)
  {
    AllKinds();
    IndexOfBoth(nodes, dir, CONTEXT_KINDS, first, BUNDLE_KINDS, second);
  }

  lemma AllKinds()
    ensures CONTEXT_KINDS + BUNDLE_KINDS == ALL_KINDS && CONTEXT_KINDS !! BUNDLE_KINDS
  {
  }

  lemma {:induction false} SortedIndex(nodes: Tree, dir: Path, found: seq<IndexEntry>)
    requires IsIndexOf(nodes, dir, ALL_KINDS, found)
    ensures IsRebuiltIndex(nodes, dir, NewestFirst(found))
  {
  }

  const CONTEXT_KINDS: set<Kind> := {Projects, Conversations, Context, ConversationFiles}
  const BUNDLE_KINDS: set<Kind> := {ConversationAttachments, ProjectKnowledge, ProjectInstructions}

  const ALL_KINDS: set<Kind> :=
    {Projects, Conversations, Context, ConversationFiles, ConversationAttachments, ProjectKnowledge,
     ProjectInstructions}

  predicate IsListedManifest(nodes: Tree, dir: Path, kind: Kind, names: seq<string>, item: Item) {
    IsRebuilt(nodes, dir, item) && item.kind == kind && item.id in names
  }

  /** One round of the walk. */
  lemma ManifestStep(nodes: Tree, dir: Path, kind: Kind, names: seq<string>, name: string)
    requires IsManifestKind(kind) && '/' !in name && dir + [kind.Folder()] + [name] in nodes && name !in names
    ensures var item := Item(kind, name, "/manifest.json");
            var adds := nodes[dir + [kind.Folder()] + [name]].Directory? && ItemPath(dir, item) in nodes;
            && (forall other :: IsListedManifest(nodes, dir, kind, names + [name], other)
                                <==> IsListedManifest(nodes, dir, kind, names, other) || (adds && other == item))
            && (adds ==> !IsListedManifest(nodes, dir, kind, names, item)
                         && RebuiltEntry(nodes, dir, item) == EntryFor(item, nodes[ItemPath(dir, item)].mtime))
  {
    assert dir + [kind.Folder()] + [name] == dir + [kind.Folder(), name];
  }

  lemma ManifestsAreListed(nodes: Tree, dir: Path, kind: Kind, names: seq<string>)
    requires IsTree(nodes) && IsManifestKind(kind)
    requires dir + [kind.Folder()] in nodes && nodes[dir + [kind.Folder()]].Directory? ==>
      forall name :: name in names <==> dir + [kind.Folder()] + [name] in nodes
    ensures forall item | IsRebuilt(nodes, dir, item) && item.kind == kind :: item.id in names
  {
    forall item | IsRebuilt(nodes, dir, item) && item.kind == kind ensures item.id in names {
      var path := dir + [kind.Folder(), item.id];
      assert path == dir + [kind.Folder()] + [item.id];
      AncestorsAreDirectories(nodes, dir + [kind.Folder()], path);
    }
  }

  // ----- The order of the entries -----

  function DateOf(e: IndexEntry): int {
    if e.updatedMs.Some? then e.updatedMs.value else 0
  }

  function InsertByDate(sorted: seq<IndexEntry>, e: IndexEntry): seq<IndexEntry> {
    if sorted == [] || DateOf(sorted[|sorted| - 1]) >= DateOf(e) then sorted + [e]
    else InsertByDate(sorted[..|sorted| - 1], e) + [sorted[|sorted| - 1]]
  }

  /** `entries.sort` by date, the newest first; the sort is stable. */
  function NewestFirst(entries: seq<IndexEntry>): seq<IndexEntry> {
    if entries == [] then [] else InsertByDate(NewestFirst(entries[..|entries| - 1]), entries[|entries| - 1])
  }

  ghost predicate IsDescending(entries: seq<IndexEntry>) {
    forall i, j | 0 <= i < j < |entries| :: DateOf(entries[i]) >= DateOf(entries[j])
  }

  lemma {:induction false} InsertedElements(sorted: seq<IndexEntry>, e: IndexEntry)
    ensures multiset(InsertByDate(sorted, e)) == multiset(sorted) + multiset{e}
  {
    if !(sorted == [] || DateOf(sorted[|sorted| - 1]) >= DateOf(e)) {
      var n := |sorted| - 1;
      InsertedElements(sorted[..n], e);
      assert sorted == sorted[..n] + [sorted[n]];
    }
  }

  lemma DescendingSnoc(entries: seq<IndexEntry>, last: IndexEntry)
    requires IsDescending(entries) && forall x | x in multiset(entries) :: DateOf(x) >= DateOf(last)
    ensures IsDescending(entries + [last])
  {
    assert forall i | 0 <= i < |entries| :: entries[i] in multiset(entries);
  }

  lemma LastIsOldest(sorted: seq<IndexEntry>, e: IndexEntry)
    requires IsDescending(sorted) && sorted != [] && DateOf(sorted[|sorted| - 1]) >= DateOf(e)
    ensures forall x | x in multiset(sorted) :: DateOf(x) >= DateOf(e)
  {
    forall x | x in multiset(sorted) ensures DateOf(x) >= DateOf(e) {
      assert x in sorted;
    }
  }

  lemma {:induction false} InsertedInOrder(sorted: seq<IndexEntry>, e: IndexEntry)
    requires IsDescending(sorted)
    ensures IsDescending(InsertByDate(sorted, e))
  {
    if sorted == [] {
    } else if DateOf(sorted[|sorted| - 1]) >= DateOf(e) {
      LastIsOldest(sorted, e);
      DescendingSnoc(sorted, e);
    } else {
      var n := |sorted| - 1;
      InsertedInOrder(sorted[..n], e);
      InsertedElements(sorted[..n], e);
      assert sorted == sorted[..n] + [sorted[n]];
      LastIsOldest(sorted, sorted[n]);
      assert multiset(sorted) == multiset(sorted[..n]) + multiset{sorted[n]};
      DescendingSnoc(InsertByDate(sorted[..n], e), sorted[n]);
    }
  }

  function OfDate(entries: seq<IndexEntry>, date: int): seq<IndexEntry> {
    Filtered(entries, x => DateOf(x) == date)
  }

  lemma OfDateSnoc(entries: seq<IndexEntry>, last: IndexEntry, date: int)
    ensures OfDate(entries + [last], date) == OfDate(entries, date) + (if DateOf(last) == date then [last] else [])
  {
    assert (entries + [last])[..|entries|] == entries;
  }

  lemma {:induction false} InsertedStably(sorted: seq<IndexEntry>, e: IndexEntry, date: int)
    ensures OfDate(InsertByDate(sorted, e), date) == OfDate(sorted, date) + (if DateOf(e) == date then [e] else [])
  {
    OfDateSnoc(sorted, e, date);
    if !(sorted == [] || DateOf(sorted[|sorted| - 1]) >= DateOf(e)) {
      var n := |sorted| - 1;
      InsertedStably(sorted[..n], e, date);
      OfDateSnoc(InsertByDate(sorted[..n], e), sorted[n], date);
      OfDateSnoc(sorted[..n], sorted[n], date);
      assert sorted == sorted[..n] + [sorted[n]];
    }
  }

  lemma {:induction false} NewestFirstElements(entries: seq<IndexEntry>)
    ensures multiset(NewestFirst(entries)) == multiset(entries)
  {
    if entries != [] {
      var n := |entries| - 1;
      NewestFirstElements(entries[..n]);
      InsertedElements(NewestFirst(entries[..n]), entries[n]);
      SnocElements(entries[..n], entries[n]);
      assert entries[..n] + [entries[n]] == entries;
    }
  }

  lemma SnocElements<T>(items: seq<T>, last: T)
    ensures multiset(items + [last]) == multiset(items) + multiset{last}
  {
  }

  lemma {:induction false} NewestFirstOrder(entries: seq<IndexEntry>)
    ensures IsDescending(NewestFirst(entries))
  {
    if entries != [] {
      var n := |entries| - 1;
      NewestFirstOrder(entries[..n]);
      InsertedInOrder(NewestFirst(entries[..n]), entries[n]);
    }
  }

  lemma {:induction false} NewestFirstStable(entries: seq<IndexEntry>, date: int)
    ensures OfDate(NewestFirst(entries), date) == OfDate(entries, date)
  {
    if entries != [] {
      var n := |entries| - 1;
      NewestFirstStable(entries[..n], date);
      InsertedStably(NewestFirst(entries[..n]), entries[n], date);
      OfDateSnoc(entries[..n], entries[n], date);
      assert entries == entries[..n] + [entries[n]];
    }
  }

  /** The rebuilt list is a permutation of what was found, newest first, and equal dates keep their order. */
  lemma NewestFirstSorts(entries: seq<IndexEntry>, date: int)
    ensures IsDescending(NewestFirst(entries)) && multiset(NewestFirst(entries)) == multiset(entries)
    ensures OfDate(NewestFirst(entries), date) == OfDate(entries, date)
  {
    NewestFirstElements(entries);
    NewestFirstOrder(entries);
    NewestFirstStable(entries, date);
  }

  // ----- The walk through files, step by step -----

  predicate IsListedFile(nodes: Tree, dir: Path, kind: Kind, names: seq<string>, item: Item) {
    IsRebuilt(nodes, dir, item) && item.kind == kind && item.id + item.suffix in names
  }

  /** One round of the walk. */
  lemma {:induction false} FileStep(nodes: Tree, dir: Path, kind: Kind, names: seq<string>, name: string)
    requires IsFileKind(kind) && '/' !in name && dir + [kind.Folder()] + [name] in nodes && name !in names
    ensures var path, named := dir + [kind.Folder()] + [name], ItemNamed(kind, name);
            var adds := nodes[path].File? && named.Some?;
            && (forall item :: IsListedFile(nodes, dir, kind, names + [name], item)
                               <==> IsListedFile(nodes, dir, kind, names, item) || (adds && named == Some(item)))
            && (adds ==> !IsListedFile(nodes, dir, kind, names, named.value)
                         && RebuiltEntry(nodes, dir, named.value) == EntryFor(named.value, nodes[path].mtime))
  {
    var path, named := dir + [kind.Folder()] + [name], ItemNamed(kind, name);
    forall item: Item
      ensures IsItem(item) && item.kind == kind && item.id + item.suffix == name <==> named == Some(item)
    {
      ItemNamedBack(kind, name, item);
    }
    assert path == dir + [kind.Folder(), name];
  }

  lemma FilesAreListed(nodes: Tree, dir: Path, kind: Kind, names: seq<string>)
    requires IsTree(nodes) && IsFileKind(kind)
    requires dir + [kind.Folder()] in nodes && nodes[dir + [kind.Folder()]].Directory? ==>
      forall name :: name in names <==> dir + [kind.Folder()] + [name] in nodes
    ensures forall item | IsRebuilt(nodes, dir, item) && item.kind == kind :: item.id + item.suffix in names
  {
    forall item | IsRebuilt(nodes, dir, item) && item.kind == kind ensures item.id + item.suffix in names {
      var path := ItemPath(dir, item);
      assert path == dir + [kind.Folder()] + [item.id + item.suffix];
      AncestorsAreDirectories(nodes, dir + [kind.Folder()], path);
    }
  }

  // ----- Parity after a rebuild -----

  /** The key of a rebuilt entry: its trimmed id, or what its path says when that is blank. */
  function ItemKey(item: Item): Option<string> {
    if item.kind.IsListing() then Some(Key(item.kind, ""))
    else KeyOrNone(item.kind, if Trim(item.id) != "" then Trim(item.id) else PathId(item))
  }

  /** The SQL row that stands for the same thing. */
  predicate IsRowOf(row: EntryRow, item: Item) {
    row.dataset == item.kind.Dataset() && (item.kind.IsListing() || row.entityId == item.id)
  }

  predicate HasId(item: Item) {
    item.kind.IsListing() || Trim(item.id) != ""
  }

  /** Rows of other datasets, such as `account-files`, have no key. */
  function RowParityKey(row: EntryRow): Option<string> {
    ToSqlParityKey(row.dataset, row.entityId)
  }

  function KeysOf<T>(things: set<T>, keyOf: T -> Option<string>): set<string> {
    set x | x in things && keyOf(x).Some? :: keyOf(x).value
  }

  /** `readIndexEntryKeys` and its counterpart for the rows. */
  function IndexKeys(entries: seq<IndexEntry>): set<string> {
    KeysOf(SetOf(entries), ToIndexParityKey)
  }

  function SqlKeys(rows: set<EntryRow>): set<string> {
    KeysOf(rows, RowParityKey)
  }

  /** None is missing exactly when everything with a key has its match. */
  lemma {:induction false} NoneMissingExactlyWhen<A, B>(things: set<A>, others: set<B>, keyOf: A -> Option<string>,
                                                        otherKey: B -> Option<string>)
    ensures KeysOf(things, keyOf) <= KeysOf(others, otherKey)
            <==> forall x | x in things && keyOf(x).Some? :: exists y | y in others :: otherKey(y) == keyOf(x)
  {
    var part, whole := KeysOf(things, keyOf), KeysOf(others, otherKey);
    if part <= whole {
      forall x | x in things && keyOf(x).Some? ensures exists y | y in others :: otherKey(y) == keyOf(x) {
        assert keyOf(x).value in part;
      }
    }
  }

  lemma NoneMissing(part: set<string>, whole: set<string>)
    ensures |part - whole| == 0 <==> part <= whole
  {
    if |part - whole| == 0 {
      assert forall key | key in part :: key !in part - whole;
    }
    assert part <= whole ==> part - whole == {};
  }

  lemma {:induction false} KeyOfItem(nodes: Tree, dir: Path, item: Item)
    requires IsItem(item)
    ensures ToIndexParityKey(RebuiltEntry(nodes, dir, item)) == ItemKey(item)
  {
    var p := ItemPath(dir, item);
    var mtime := if p in nodes then nodes[p].mtime else 0;
    if item.kind.IsListing() {
      ListingKeys(item.kind, RelPath(item), mtime, "");
    } else {
      RebuiltKeys(item, mtime);
    }
  }

  lemma {:induction false} KeyOfRow(row: EntryRow, item: Item)
    requires IsItem(item) && IsRowOf(row, item)
    ensures HasId(item) ==> RowParityKey(row) == ItemKey(item)
    ensures !HasId(item) ==> RowParityKey(row).None?
  {
    if item.kind.IsListing() {
      ListingKeys(item.kind, "", 0, row.entityId);
    } else {
      RebuiltKeys(item, 0);
    }
  }

  lemma {:induction false} KeysOfPermutation(entries: seq<IndexEntry>, other: seq<IndexEntry>)
    requires multiset(entries) == multiset(other)
    ensures IndexKeys(entries) == IndexKeys(other)
  {
    assert forall e | e in SetOf(entries) :: e in multiset(entries);
    assert forall e | e in SetOf(other) :: e in multiset(other);
    assert SetOf(entries) == SetOf(other);
  }

  lemma {:induction false} SameKeys<A, B>(things: seq<A>, others: seq<B>, keyOf: A -> Option<string>,
                                          otherKey: B -> Option<string>)
    requires |things| == |others| && forall i | 0 <= i < |things| :: keyOf(things[i]) == otherKey(others[i])
    ensures KeysOf(SetOf(things), keyOf) <= KeysOf(SetOf(others), otherKey)
  {
    forall x | x in SetOf(things) && keyOf(x).Some? ensures keyOf(x).value in KeysOf(SetOf(others), otherKey) {
      var i :| 0 <= i < |things| && things[i] == x;
      assert others[i] in SetOf(others);
    }
  }

  /** The keys of a rebuilt index are those of the items in the tree. */
  lemma {:induction false} RebuiltIndexKeys(nodes: Tree, dir: Path, entries: seq<IndexEntry>) returns (items: seq<Item>)
    requires IsRebuiltIndex(nodes, dir, entries)
    ensures forall item :: item in items <==> IsRebuilt(nodes, dir, item)
    ensures IndexKeys(entries) == KeysOf(SetOf(items), ItemKey)
  {
    var found :| IsIndexOf(nodes, dir, ALL_KINDS, found) && entries == NewestFirst(found);
    NewestFirstElements(found);
    KeysOfPermutation(entries, found);
    items := CoveredItems(nodes, dir, found);
  }

  lemma {:induction false} CoveredItems(nodes: Tree, dir: Path, found: seq<IndexEntry>) returns (items: seq<Item>)
    requires IsIndexOf(nodes, dir, ALL_KINDS, found)
    ensures forall item :: item in items <==> IsRebuilt(nodes, dir, item)
    ensures IndexKeys(found) == KeysOf(SetOf(items), ItemKey)
  {
    items :| Covers(nodes, dir, ALL_KINDS, items, found);
    CoveredKeys(nodes, dir, items, found);
  }

  lemma {:induction false} CoveredKeys(nodes: Tree, dir: Path, items: seq<Item>, found: seq<IndexEntry>)
    requires Covers(nodes, dir, ALL_KINDS, items, found)
    ensures IndexKeys(found) == KeysOf(SetOf(items), ItemKey)
  {
    forall i | 0 <= i < |items| ensures ToIndexParityKey(found[i]) == ItemKey(items[i]) {
      assert items[i] in items;
      KeyOfItem(nodes, dir, items[i]);
    }
    SameKeys(found, items, ToIndexParityKey, ItemKey);
    SameKeys(items, found, ItemKey, ToIndexParityKey);
  }

  /** What a parity key speaks of: a kind and an id, which is empty for a listing. */
  datatype Thing = Thing(kind: Kind, id: string)

  /** The thing of a row: its dataset names the kind, its trimmed entity id the rest. */
  function RowThing(row: EntryRow): Option<Thing> {
    var kind, id := DatasetNamed(Trim(row.dataset)), Trim(row.entityId);
    if kind.None? then None
    else if kind.value.IsListing() then Some(Thing(kind.value, ""))
    else if id == "" then None
    else Some(Thing(kind.value, id))
  }

  /** The thing of an item: its trimmed id, or the id in its path when that is blank. */
  function ItemThing(item: Item): Option<Thing> {
    var id := if Trim(item.id) != "" then Trim(item.id) else PathId(item);
    if item.kind.IsListing() then Some(Thing(item.kind, ""))
    else if id == "" then None
    else Some(Thing(item.kind, id))
  }

  function KeyOfThing(thing: Option<Thing>): Option<string> {
    if thing.Some? then Some(Key(thing.value.kind, thing.value.id)) else None
  }

  lemma KeyOfRowThing(row: EntryRow)
    ensures RowParityKey(row) == KeyOfThing(RowThing(row))
  {
  }

  /** Equal keys are equal things. */
  lemma {:induction false} SameThing(row: EntryRow, item: Item)
    ensures RowParityKey(row) == KeyOfThing(RowThing(row)) && ItemKey(item) == KeyOfThing(ItemThing(item))
    ensures RowParityKey(row) == ItemKey(item) <==> RowThing(row) == ItemThing(item)
  {
    if RowThing(row).Some? && ItemThing(item).Some? {
      var a, b := RowThing(row).value, ItemThing(item).value;
      KeysAreInjective(a.kind, a.id, b.kind, b.id);
    }
  }

  /** Every row that is a thing is a thing of the tree. */
  ghost predicate RowsMatched(nodes: Tree, dir: Path, rows: set<EntryRow>) {
    forall row | row in rows && RowThing(row).Some? ::
      exists item | IsRebuilt(nodes, dir, item) :: ItemThing(item) == RowThing(row)
  }

  /** Every item that is a thing is a thing of some row. */
  ghost predicate ItemsMatched(nodes: Tree, dir: Path, rows: set<EntryRow>) {
    forall item | IsRebuilt(nodes, dir, item) && ItemThing(item).Some? ::
      exists row | row in rows :: RowThing(row) == ItemThing(item)
  }

  ghost predicate RowKeysMatched(items: set<Item>, rows: set<EntryRow>) {
    forall row | row in rows && RowParityKey(row).Some? ::
      exists item | item in items :: ItemKey(item) == RowParityKey(row)
  }

  lemma {:induction false} RowsMatchedByKey(nodes: Tree, dir: Path, items: set<Item>, rows: set<EntryRow>)
    requires forall item :: item in items <==> IsRebuilt(nodes, dir, item)
    ensures RowKeysMatched(items, rows) <==> RowsMatched(nodes, dir, rows)
  {
    forall row, item ensures RowParityKey(row) == KeyOfThing(RowThing(row))
      ensures RowParityKey(row) == ItemKey(item) <==> RowThing(row) == ItemThing(item)
    {
      SameThing(row, item);
    }
  }

  ghost predicate ItemKeysMatched(items: set<Item>, rows: set<EntryRow>) {
    forall item | item in items && ItemKey(item).Some? ::
      exists row | row in rows :: RowParityKey(row) == ItemKey(item)
  }

  lemma {:induction false} ItemsMatchedByKey(nodes: Tree, dir: Path, items: set<Item>, rows: set<EntryRow>)
    requires forall item :: item in items <==> IsRebuilt(nodes, dir, item)
    ensures ItemKeysMatched(items, rows) <==> ItemsMatched(nodes, dir, rows)
  {
    forall row, item ensures ItemKey(item) == KeyOfThing(ItemThing(item))
      ensures RowParityKey(row) == ItemKey(item) <==> RowThing(row) == ItemThing(item)
    {
      SameThing(row, item);
    }
  }

  /** A rebuilt index has every key of a database, or the database every key of the index, if and only if
      every row, or every item, with a kind and an id has one with the same kind and id on the other side. */
  lemma {:induction false} RebuiltKeysExactlyWhen(nodes: Tree, dir: Path, entries: seq<IndexEntry>, rows: set<EntryRow>)
    requires IsRebuiltIndex(nodes, dir, entries)
    ensures SqlKeys(rows) <= IndexKeys(entries) <==> RowsMatched(nodes, dir, rows)
    ensures IndexKeys(entries) <= SqlKeys(rows) <==> ItemsMatched(nodes, dir, rows)
  {
    var items := RebuiltIndexKeys(nodes, dir, entries);
    assert forall item :: item in SetOf(items) <==> IsRebuilt(nodes, dir, item);
    NoneMissingExactlyWhen(rows, SetOf(items), RowParityKey, ItemKey);
    RowsMatchedByKey(nodes, dir, SetOf(items), rows);
    NoneMissingExactlyWhen(SetOf(items), rows, ItemKey, RowParityKey);
    ItemsMatchedByKey(nodes, dir, SetOf(items), rows);
  }

  /** So each of the two counts is zero under exactly that condition. */
  lemma {:induction false} RebuiltParityExactlyWhen(nodes: Tree, dir: Path, entries: seq<IndexEntry>,
                                                    rows: set<EntryRow>)
    requires IsRebuiltIndex(nodes, dir, entries)
    ensures |SqlKeys(rows) - IndexKeys(entries)| == 0 <==> RowsMatched(nodes, dir, rows)
    ensures |IndexKeys(entries) - SqlKeys(rows)| == 0 <==> ItemsMatched(nodes, dir, rows)
  {
    RebuiltKeysExactlyWhen(nodes, dir, entries, rows);
    NoneMissing(SqlKeys(rows), IndexKeys(entries));
    NoneMissing(IndexKeys(entries), SqlKeys(rows));
  }

  /** So nothing of the database is missing when every row with a key stands for an item of the tree, and
      nothing of the index when every item has an id and its row. */
  lemma {:induction false} RebuildRestoresParity(nodes: Tree, dir: Path, entries: seq<IndexEntry>, rows: set<EntryRow>)
    requires IsRebuiltIndex(nodes, dir, entries)
    ensures (forall row | row in rows && RowParityKey(row).Some? ::
               exists item | IsRebuilt(nodes, dir, item) :: IsRowOf(row, item))
            ==> |SqlKeys(rows) - IndexKeys(entries)| == 0
    ensures (forall item | IsRebuilt(nodes, dir, item) :: HasId(item) && exists row | row in rows :: IsRowOf(row, item))
            ==> |IndexKeys(entries) - SqlKeys(rows)| == 0
  {
    RebuiltParityExactlyWhen(nodes, dir, entries, rows);
    if forall row | row in rows && RowParityKey(row).Some? ::
         exists item | IsRebuilt(nodes, dir, item) :: IsRowOf(row, item)
    {
      RowsStandForItems(nodes, dir, rows);
    }
    if forall item | IsRebuilt(nodes, dir, item) :: HasId(item) && exists row | row in rows :: IsRowOf(row, item) {
      ItemsHaveRows(nodes, dir, rows);
    }
  }

  lemma {:induction false} RowsStandForItems(nodes: Tree, dir: Path, rows: set<EntryRow>)
    requires forall row | row in rows && RowParityKey(row).Some? ::
      exists item | IsRebuilt(nodes, dir, item) :: IsRowOf(row, item)
    ensures RowsMatched(nodes, dir, rows)
  {
    forall row | row in rows && RowThing(row).Some?
      ensures exists item | IsRebuilt(nodes, dir, item) :: ItemThing(item) == RowThing(row)
    {
      KeyOfRowThing(row);
      var item :| IsRebuilt(nodes, dir, item) && IsRowOf(row, item);
      KeyOfRow(row, item);
      SameThing(row, item);
    }
  }

  lemma {:induction false} ItemsHaveRows(nodes: Tree, dir: Path, rows: set<EntryRow>)
    requires forall item | IsRebuilt(nodes, dir, item) :: HasId(item) && exists row | row in rows :: IsRowOf(row, item)
    ensures ItemsMatched(nodes, dir, rows)
  {
    forall item | IsRebuilt(nodes, dir, item) && ItemThing(item).Some?
      ensures exists row | row in rows :: RowThing(row) == ItemThing(item)
    {
      var row :| row in rows && IsRowOf(row, item);
      KeyOfRow(row, item);
      SameThing(row, item);
    }
  }
}
