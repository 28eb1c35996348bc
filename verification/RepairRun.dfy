/** `cache repair` over its contexts: one backup per context before the first action, one result per action,
    and counts that agree with the results, whichever backup or action fails. */
module RepairRun {
  import opened Wrappers
  import opened DirectoryTree
  import opened CacheTables
  import opened RepairActions
  import opened CacheDatabase
  import opened CacheCleanup
  import opened CacheParity

  datatype RepairAction = RebuildIndex | PruneRows(prune: PruneAction)

  datatype ActionResult = ActionResult(name: RepairAction, applied: bool, failed: bool)

  /** The two files that a backup copies; None for a file that is not there. */
  datatype Snapshot = Snapshot(tables: Option<Store>, index: Option<Document>)

  datatype Event = BackupMade(name: string) | ActionStarted(action: RepairAction)

  /** What a repair of one context reads and changes. */
  datatype SessionState =
    SessionState(events: seq<Event>, backups: map<string, Snapshot>, contents: Snapshot, nodes: Tree)

  /** Actions applied, backups made, and actions failed. */
  datatype Totals = Totals(touched: nat, backups: nat, errors: nat) {
    function Plus(other: Totals): Totals {
      Totals(touched + other.touched, backups + other.backups, errors + other.errors)
    }
  }

  /** What the report says about one context. */
  datatype RepairEntry = RepairEntry(backupDir: Option<string>, results: seq<ActionResult>)

  function FailedCount(results: seq<ActionResult>): nat {
    if results == [] then 0
    else FailedCount(results[..|results| - 1]) + (if results[|results| - 1].failed then 1 else 0)
  }

  function AppliedCount(results: seq<ActionResult>): nat {
    if results == [] then 0
    else AppliedCount(results[..|results| - 1]) + (if results[|results| - 1].applied then 1 else 0)
  }

  ghost predicate NamesMatch(results: seq<ActionResult>, actions: seq<RepairAction>) {
    |results| == |actions| && forall i | 0 <= i < |results| :: results[i].name == actions[i]
  }

  /** The counts of one context are those of its results. */
  function TotalsOf(entry: RepairEntry): Totals {
    Totals(AppliedCount(entry.results), if entry.backupDir.Some? then 1 else 0, FailedCount(entry.results))
  }

  lemma CountsMore(results: seq<ActionResult>, last: ActionResult)
    ensures FailedCount(results + [last]) == FailedCount(results) + if last.failed then 1 else 0
    ensures AppliedCount(results + [last]) == AppliedCount(results) + if last.applied then 1 else 0
  {
    assert (results + [last])[..|results|] == results;
  }

  class RepairSession {
    const cache: CacheDirectory
    const builder: IndexBuilder
    /** Which operations on files fail, and what the clock says, in the order of the operations. */
    const ioFails: nat -> bool
    const stamps: nat -> string
    var io: nat
    /** The folders in `backups` that repairs have made. */
    var backups: map<string, Snapshot>
    ghost var events: seq<Event>

    constructor (cache: CacheDirectory, builder: IndexBuilder, ioFails: nat -> bool, stamps: nat -> string)
      ensures this.cache == cache && this.builder == builder && backups == map[] && events == []
    {
      this.cache, this.builder, this.ioFails, this.stamps := cache, builder, ioFails, stamps;
      this.io, this.backups, this.events := 0, map[], [];
    }

    ghost predicate Valid()
      reads this, cache.files
    {
      && builder.dir == cache.dir && builder.files == cache.files
      && IsTree(cache.files.nodes) && HasPlainNames(cache.files.nodes)
    }

    function IndexDocument(): Option<Document>
      reads cache.files
    {
      var path := cache.IndexPath();
      if path in cache.files.nodes && cache.files.nodes[path].File?
      then Some(cache.files.nodes[path].document)
      else None
    }

    function Contents(): Snapshot
      reads cache.files, cache.database
    {
      Snapshot(if cache.database.present then Some(cache.database.tables) else None, IndexDocument())
    }

    ghost function State(): SessionState
      reads this, cache.files, cache.database
    {
      SessionState(events, backups, Contents(), cache.files.nodes)
    }

    /** No operation on files fails, no statement fails, and the index can be read and written. */
    ghost predicate Healthy(nodes: Tree) {
      && (forall i: nat :: !ioFails(i)) && cache.database.NeverFails()
      && IsDirectory(nodes, cache.dir)
      && (cache.IndexPath() in nodes ==> nodes[cache.IndexPath()].File?)
    }

    method Operate() returns (ok: bool)
      modifies `io
      ensures ok == !ioFails(old(io)) && io == old(io) + 1
    {
      ok := !ioFails(io);
      io := io + 1;
    }

    /** `createCacheRepairBackup`; None stands for a thrown error, which can leave a partial folder behind. */
    method CreateBackup() returns (name: Option<string>)
      modifies `io, `backups, `events
      ensures name.None? ==> events == old(events)
      ensures name.Some? ==> events == old(events) + [BackupMade(name.value)]
      ensures name.Some? ==> name.value in backups && Saves(backups[name.value], Contents())
      ensures Healthy(cache.files.nodes) ==> name.Some?
    {
      var stamp := stamps(io);
      var ok := Operate();
      if !ok { return None; }
      var copy := if stamp in backups then backups[stamp] else Snapshot(None, None);
      backups := backups[stamp := copy];
      if cache.database.present {
        ok := Operate();
        if !ok { return None; }
        copy := copy.(tables := Some(cache.database.tables));
        backups := backups[stamp := copy];
      }
      if cache.IndexPath() in cache.files.nodes {
        ok := Operate();
        if !ok || !cache.files.nodes[cache.IndexPath()].File? { return None; }
        copy := copy.(index := Some(cache.files.nodes[cache.IndexPath()].document));
        backups := backups[stamp := copy];
      }
      name := Some(stamp);
      events := events + [BackupMade(stamp)];
    }

    /** Writes the index file; a write that fails has no effect. */
    method WriteIndex(entries: seq<IndexEntry>, now: int) returns (ok: bool)
      requires Valid()
      modifies `io, cache.files
      ensures Valid()
      ensures ok ==> IndexDocument() == Some(Json(Present(entries)))
      ensures OnlyIndexDiffers(old(cache.files.nodes), cache.files.nodes, cache.dir)
      ensures !ok ==> cache.files.nodes == old(cache.files.nodes)
      ensures ok <==> !ioFails(old(io)) && IsDirectory(old(cache.files.nodes), cache.dir)
                      && !IsDirectory(old(cache.files.nodes), cache.IndexPath())
      ensures Healthy(old(cache.files.nodes)) ==> ok && Healthy(cache.files.nodes)
    {
      var path := cache.IndexPath();
      ok := Operate();
      if !ok || !IsDirectory(cache.files.nodes, cache.dir) || IsDirectory(cache.files.nodes, path) {
        return false;
      }
      WritingKeepsTree(cache.files.nodes, cache.dir, "cache-index.json", File(now, Json(Present(entries))));
      cache.files.nodes := cache.files.nodes[path := File(now, Json(Present(entries)))];
    }

    /** `repairRebuildIndex`. */
    method Rebuild(apply: bool, now: int) returns (result: Option<ActionResult>)
      requires Valid()
      modifies `io, cache.files
      ensures Valid()
      ensures !apply || result.None? ==> cache.files.nodes == old(cache.files.nodes)
      ensures result.Some? ==> result.value == ActionResult(RebuildIndex, apply, false)
      ensures apply && result.Some? ==> IndexHolds(old(cache.files.nodes), cache.dir, IndexDocument())
      ensures OnlyIndexDiffers(old(cache.files.nodes), cache.files.nodes, cache.dir)
      // It fails if and only if the index is to be written and cannot be.
      ensures result.None? <==>
        apply && (ioFails(old(io)) || !IsDirectory(old(cache.files.nodes), cache.dir)
                  || IsDirectory(old(cache.files.nodes), cache.IndexPath()))
      ensures Healthy(old(cache.files.nodes)) ==> result.Some? && Healthy(cache.files.nodes)
    {
      var entries := builder.BuildIndex();
      if !apply {
        return Some(ActionResult(RebuildIndex, false, false));
      }
      var ok := WriteIndex(entries, now);
      if !ok { return None; }
      return Some(ActionResult(RebuildIndex, true, false));
    }

    /** One action; None stands for a thrown error. */
    method RunAction(action: RepairAction, apply: bool, now: int) returns (result: Option<ActionResult>)
      requires Valid()
      modifies `io, `events, cache.files, cache.database
      ensures Valid()
      ensures events == old(events) + [ActionStarted(action)]
      ensures !apply ==> Contents() == old(Contents())
      ensures result.Some? ==> result.value.name == action && (result.value.applied ==> apply) && !result.value.failed
      ensures cache.database.present ==>
        cache.database.tables ==
          if apply && result.Some? && action.PruneRows? then Prune(action.prune, old(cache.database.tables))
                                 else old(cache.database.tables)
      ensures action.PruneRows? || !apply || result.None? ==> cache.files.nodes == old(cache.files.nodes)
      ensures action.RebuildIndex? && apply && result.Some? ==>
        IndexHolds(old(cache.files.nodes), cache.dir, IndexDocument())
      ensures OnlyIndexDiffers(old(cache.files.nodes), cache.files.nodes, cache.dir)
      ensures result.Some? ==> (result.value.applied <==> apply && HasWork(action, old(Contents())))
      ensures Healthy(old(cache.files.nodes)) ==> result.Some? && Healthy(cache.files.nodes)
    {
      events := events + [ActionStarted(action)];
      match action {
        case RebuildIndex =>
          result := Rebuild(apply, now);
        case PruneRows(prune) =>
          var pruned := cache.database.RepairPrune(prune, apply);
          if pruned.None? {
            return None;
          }
          result := Some(ActionResult(action, pruned.value.applied, pruned.value.skipped.Failed?));
      }
    }

    /** One round of the loop over the actions: makes the backup if there is none yet, then runs the action;
        an error of either is the result of the action. */
    method TryAction(action: RepairAction, apply: bool, now: int, backupDir: Option<string>)
      returns (backup: Option<string>, recorded: ActionResult)
      requires Valid()
      modifies this, cache.files, cache.database
      ensures Valid()
      ensures Tried(cache.dir, old(State()), State(), action, apply, backupDir, backup, recorded)
      ensures Healthy(old(cache.files.nodes)) ==> !recorded.failed && Healthy(cache.files.nodes)
    {
      backup := backupDir;
      recorded := ActionResult(action, false, true);
      assert Completed([recorded]) == [];
      if apply && backup.None? {
        backup := CreateBackup();
        if backup.None? { return; }
      }
      assert events + [] == events;
      var result := RunAction(action, apply, now);
      if result.Some? {
        recorded := result.value;
      }
      CompletedOne(recorded, old(cache.database.tables));
    }

    /** The same round after the others, with the counts of the report. */
    method NextAction(action: RepairAction, apply: bool, now: int, entry: RepairEntry, totals: Totals,
                      ghost start: SessionState, ghost actions: seq<RepairAction>)
      returns (more: RepairEntry, sums: Totals)
      requires Valid()
      requires Underway(cache.dir, start, State(), entry, actions, apply, totals)
      modifies this, cache.files, cache.database
      ensures Valid()
      ensures Underway(cache.dir, start, State(), more, actions + [action], apply, sums)
      ensures Healthy(old(cache.files.nodes)) && totals.errors == 0 ==> sums.errors == 0 && Healthy(cache.files.nodes)
    {
      ghost var before := State();
      var backup, recorded := TryAction(action, apply, now, entry.backupDir);
      RoundUnderway(cache.dir, start, before, State(), entry.backupDir, backup, entry.results, recorded, actions,
                    action, apply, totals);
      more := RepairEntry(backup, entry.results + [recorded]);
      sums := Counted(totals, recorded, entry.backupDir.None? && backup.Some?);
    }

    /** The body that `runCacheRepair` runs under the lock of one context. */
    method RepairContext(actions: seq<RepairAction>, apply: bool, now: int)
      returns (entry: RepairEntry, totals: Totals)
      requires Valid()
      modifies this, cache.files, cache.database
      ensures Valid()
      ensures Repaired(cache.dir, old(State()), State(), entry, actions, apply)
      ensures totals == TotalsOf(entry)
      ensures Healthy(old(cache.files.nodes)) ==> totals.errors == 0
    {
      entry, totals := RepairEntry(None, []), Totals(0, 0, 0);
      ghost var start := State();
      NothingRepaired(cache.dir, start, apply);
      assert actions[..0] == [];
      for i := 0 to |actions|
        invariant Valid()
        invariant Underway(cache.dir, start, State(), entry, actions[..i], apply, totals)
        invariant Healthy(start.nodes) ==> totals.errors == 0 && Healthy(cache.files.nodes)
      {
        assert actions[..i + 1] == actions[..i] + [actions[i]];
        entry, totals := NextAction(actions[i], apply, now, entry, totals, start, actions[..i]);
      }
      assert actions[..|actions|] == actions;
    }
  }

  /** The index file holds the entries of a rebuild of the tree `found`. */
  ghost predicate IndexHolds(found: Tree, dir: Path, index: Option<Document>) {
    exists entries :: IsRebuiltIndex(found, dir, entries) && index == Some(Json(Present(entries)))
  }

  /** What one round of the loop does. */
  ghost predicate Tried(dir: Path, before: SessionState, after: SessionState, action: RepairAction, apply: bool,
                        backupDir: Option<string>, backup: Option<string>, recorded: ActionResult)
  {
    && recorded.name == action
    && (!apply || backupDir.Some? ==> backup == backupDir && after.backups == before.backups)
    && (!apply ==> after.contents == before.contents)
    && (apply && backup.None? ==>
          after.events == before.events && after.contents == before.contents && recorded.failed)
    && (apply && backup.Some? ==>
          after.events
          == before.events + (if backupDir.None? then [BackupMade(backup.value)] else []) + [ActionStarted(action)])
    && (apply && backup.Some? && backupDir.None? ==>
          backup.value in after.backups && Saves(after.backups[backup.value], before.contents))
    && (if apply && before.contents.tables.Some?
        then after.contents.tables == Some(RunActions(Completed([recorded]), before.contents.tables.value))
        else after.contents.tables == before.contents.tables)
    && (recorded.applied <==> apply && !recorded.failed && HasWork(action, before.contents))
    && (if apply && action.RebuildIndex? && !recorded.failed
        then IndexHolds(before.nodes, dir, after.contents.index)
        else after.nodes == before.nodes && after.contents.index == before.contents.index)
    && OnlyIndexDiffers(before.nodes, after.nodes, dir)
  }

  /** What the repair of one context and its report promise. */
  ghost predicate Repaired(dir: Path, before: SessionState, after: SessionState, entry: RepairEntry,
                           actions: seq<RepairAction>, apply: bool)
  {
    && NamesMatch(entry.results, actions)
    && (!apply ==> entry.backupDir.None? && after.contents == before.contents)
    // Without a backup no action has started and every action is reported as failed.
    && (apply && entry.backupDir.None? ==>
          after.events == before.events && after.contents == before.contents && FailedCount(entry.results) == |actions|)
    // With one, it was made before the first action, it is the only one, and it holds what was there.
    && (apply && entry.backupDir.Some? ==>
          && BackedUpFirst(before.events, after.events, entry.backupDir.value)
          && entry.backupDir.value in after.backups
          && Saves(after.backups[entry.backupDir.value], before.contents))
    // The tables are what the prune actions that did not fail make of them, in the order of the list.
    && after.contents.tables == ContentsAfter(entry.results, apply, before.contents).tables
    // An action is applied exactly when it did not fail and had something to do.
    && Truthful(entry.results, apply, before.contents)
    // The index is the rebuilt one if a rebuild did not fail, and no other file changes.
    && (if apply && HasRebuilt(entry.results)
        then IndexHolds(before.nodes, dir, after.contents.index)
        else after.nodes == before.nodes && after.contents.index == before.contents.index)
    && OnlyIndexDiffers(before.nodes, after.nodes, dir)
  }

  lemma {:induction false} RoundTables(before: Snapshot, results: seq<ActionResult>, recorded: ActionResult,
                                       apply: bool)
    ensures ContentsAfter(results + [recorded], apply, before).tables
            == if apply && before.tables.Some?
               then Some(RunActions(Completed([recorded]), ContentsAfter(results, apply, before).tables.value))
               else before.tables
  {
    if before.tables.Some? {
      CompletedMore(results, recorded, before.tables.value);
    }
  }

  lemma {:induction false} RoundTruth(before: Snapshot, results: seq<ActionResult>, recorded: ActionResult, apply: bool,
                                      now: Snapshot)
    requires Truthful(results, apply, before) && now.tables == ContentsAfter(results, apply, before).tables
    requires recorded.applied <==> apply && !recorded.failed && HasWork(recorded.name, now)
    ensures Truthful(results + [recorded], apply, before)
  {
    assert (results + [recorded])[..|results|] == results;
  }

  lemma {:induction false} RoundIndex(dir: Path, start: SessionState, before: SessionState, after: SessionState,
                                      results: seq<ActionResult>, recorded: ActionResult, apply: bool)
    requires OnlyIndexDiffers(start.nodes, before.nodes, dir) && OnlyIndexDiffers(before.nodes, after.nodes, dir)
    requires if apply && HasRebuilt(results) then IndexHolds(start.nodes, dir, before.contents.index)
             else before.nodes == start.nodes && before.contents.index == start.contents.index
    requires if apply && recorded.name.RebuildIndex? && !recorded.failed
             then IndexHolds(before.nodes, dir, after.contents.index)
             else after.nodes == before.nodes && after.contents.index == before.contents.index
    ensures OnlyIndexDiffers(start.nodes, after.nodes, dir)
    ensures if apply && HasRebuilt(results + [recorded]) then IndexHolds(start.nodes, dir, after.contents.index)
            else after.nodes == start.nodes && after.contents.index == start.contents.index
  {
    assert HasRebuilt(results + [recorded])
           <==> HasRebuilt(results) || (recorded.name.RebuildIndex? && !recorded.failed) by {
      assert recorded in results + [recorded] && forall r | r in results :: r in results + [recorded];
    }
    if apply && recorded.name.RebuildIndex? && !recorded.failed {
      var entries :| IsRebuiltIndex(before.nodes, dir, entries)
                     && after.contents.index == Some(Json(Present(entries)));
      IndexFileIsNoItem(before.nodes, start.nodes, dir, entries);
    }
  }

  /** On the way through the list, with the counts so far. */
  ghost predicate Underway(dir: Path, before: SessionState, after: SessionState, entry: RepairEntry,
                           actions: seq<RepairAction>, apply: bool, totals: Totals)
  {
    Repaired(dir, before, after, entry, actions, apply) && totals == TotalsOf(entry)
  }

  lemma NothingRepaired(dir: Path, start: SessionState, apply: bool)
    ensures Underway(dir, start, start, RepairEntry(None, []), [], apply, Totals(0, 0, 0))
  {
  }

  /** The counts after one more result. */
  function Counted(totals: Totals, recorded: ActionResult, backupMade: bool): Totals {
    Totals(
      totals.touched + (if recorded.applied then 1 else 0),
      totals.backups + (if backupMade then 1 else 0),
      totals.errors + (if recorded.failed then 1 else 0))
  }

  lemma {:induction false} RoundCounts(saved: Option<string>, backup: Option<string>, results: seq<ActionResult>,
                                       recorded: ActionResult)
    requires saved.Some? ==> backup.Some?
    ensures TotalsOf(RepairEntry(backup, results + [recorded]))
            == Counted(TotalsOf(RepairEntry(saved, results)), recorded, saved.None? && backup.Some?)
  {
    CountsMore(results, recorded);
  }

  /** One round more. */
  lemma {:induction false} OneRound(dir: Path, start: SessionState, before: SessionState, after: SessionState,
                                    saved: Option<string>, backup: Option<string>, results: seq<ActionResult>,
                                    recorded: ActionResult, actions: seq<RepairAction>, action: RepairAction,
                                    apply: bool)
    requires Repaired(dir, start, before, RepairEntry(saved, results), actions, apply)
    requires Tried(dir, before, after, action, apply, saved, backup, recorded)
    ensures Repaired(dir, start, after, RepairEntry(backup, results + [recorded]), actions + [action], apply)
  {
    StartsAfterBackup(start.events, before.events, after.events, saved, backup, action);
    CountsMore(results, recorded);
    RoundTables(start.contents, results, recorded, apply);
    RoundTruth(start.contents, results, recorded, apply, before.contents);
    RoundIndex(dir, start, before, after, results, recorded, apply);
  }

  lemma {:induction false} BackupStays(dir: Path, start: SessionState, before: SessionState, after: SessionState,
                                       saved: Option<string>, backup: Option<string>, results: seq<ActionResult>,
                                       recorded: ActionResult, actions: seq<RepairAction>, action: RepairAction,
                                       apply: bool)
    requires Repaired(dir, start, before, RepairEntry(saved, results), actions, apply)
    requires Tried(dir, before, after, action, apply, saved, backup, recorded)
    ensures saved.Some? ==> backup.Some?
  {
  }

  /** One round more, with the counts. */
  lemma {:induction false} RoundUnderway(dir: Path, start: SessionState, before: SessionState, after: SessionState,
                                         saved: Option<string>, backup: Option<string>, results: seq<ActionResult>,
                                         recorded: ActionResult, actions: seq<RepairAction>, action: RepairAction,
                                         apply: bool, totals: Totals)
    requires Underway(dir, start, before, RepairEntry(saved, results), actions, apply, totals)
    requires Tried(dir, before, after, action, apply, saved, backup, recorded)
    ensures Underway(dir, start, after, RepairEntry(backup, results + [recorded]), actions + [action], apply,
                     Counted(totals, recorded, saved.None? && backup.Some?))
  {
    BackupStays(dir, start, before, after, saved, backup, results, recorded, actions, action, apply);
    OneRound(dir, start, before, after, saved, backup, results, recorded, actions, action, apply);
    RoundCounts(saved, backup, results, recorded);
  }

  /** A rebuild always writes; a prune has something to do when there are orphans of its kind. */
  predicate HasWork(action: RepairAction, contents: Snapshot) {
    action.PruneRows? ==> contents.tables.Some? && OrphanCount(action.prune, contents.tables.value) > 0
  }

  /** The contents that the action after `results` finds, as far as the tables are concerned. */
  function ContentsAfter(results: seq<ActionResult>, apply: bool, contents: Snapshot): Snapshot {
    if apply && contents.tables.Some?
    then contents.(tables := Some(RunActions(Completed(results), contents.tables.value)))
    else contents
  }

  ghost predicate Truthful(results: seq<ActionResult>, apply: bool, contents: Snapshot) {
    results == []
    || (var n := |results| - 1;
        && Truthful(results[..n], apply, contents)
        && (results[n].applied
            <==> apply && !results[n].failed && HasWork(results[n].name, ContentsAfter(results[..n], apply, contents))))
  }

  /** A rebuild of the index did not fail. */
  ghost predicate HasRebuilt(results: seq<ActionResult>) {
    exists r | r in results :: r.name.RebuildIndex? && !r.failed
  }

  /** The prune actions that did not fail, in order. */
  function Completed(results: seq<ActionResult>): seq<PruneAction> {
    if results == [] then []
    else
      var last := results[|results| - 1];
      Completed(results[..|results| - 1]) + (if last.name.PruneRows? && !last.failed then [last.name.prune] else [])
  }

  lemma CompletedOne(recorded: ActionResult, before: Store)
    ensures RunActions(Completed([recorded]), before)
            == if recorded.name.PruneRows? && !recorded.failed then Prune(recorded.name.prune, before) else before
  {
    assert [recorded][..0] == [];
    assert Completed([recorded]) == if recorded.name.PruneRows? && !recorded.failed then [recorded.name.prune] else [];
    if recorded.name.PruneRows? && !recorded.failed {
      assert RunActions([recorded.name.prune][1..], Prune(recorded.name.prune, before))
             == Prune(recorded.name.prune, before);
    }
  }

  lemma CompletedMore(results: seq<ActionResult>, recorded: ActionResult, s: Store)
    ensures RunActions(Completed(results + [recorded]), s)
            == RunActions(Completed([recorded]), RunActions(Completed(results), s))
  {
    assert (results + [recorded])[..|results|] == results;
    CompletedOne(recorded, RunActions(Completed(results), s));
    if recorded.name.PruneRows? && !recorded.failed {
      RunActionsSnoc(Completed(results), recorded.name.prune, s);
    } else {
      assert Completed(results) + [] == Completed(results);
    }
  }

  /** Whatever file was there is in the copy. */
  predicate Saves(copy: Snapshot, contents: Snapshot) {
    && (contents.tables.Some? ==> copy.tables == contents.tables)
    && (contents.index.Some? ==> copy.index == contents.index)
  }

  /** Since `before`, one backup was made, and then nothing but actions started. */
  ghost predicate BackedUpFirst(before: seq<Event>, after: seq<Event>, name: string) {
    && |after| > |before| && after[..|before|] == before
    && after[|before|] == BackupMade(name)
    && forall k | |before| < k < |after| :: after[k].ActionStarted?
  }

  lemma StartsAfterBackup(start: seq<Event>, before: seq<Event>, after: seq<Event>, saved: Option<string>,
                          backup: Option<string>, action: RepairAction)
    ensures && backup.Some?
            && (if saved.None? then before == start else BackedUpFirst(start, before, backup.value))
            && after == before + (if saved.None? then [BackupMade(backup.value)] else []) + [ActionStarted(action)]
            ==> BackedUpFirst(start, after, backup.value)
  {
    if backup.Some?
       && after == before + (if saved.None? then [BackupMade(backup.value)] else []) + [ActionStarted(action)]
    {
      assert |before| >= |start| && before[..|start|] == start ==> after[..|start|] == start;
    }
  }

  function Present(entries: seq<IndexEntry>): seq<Option<IndexEntry>> {
    seq(|entries|, i requires 0 <= i < |entries| => Some(entries[i]))
  }

  lemma WritingKeepsTree(nodes: Tree, dir: Path, name: string, node: Node)
    requires IsTree(nodes) && HasPlainNames(nodes) && IsDirectory(nodes, dir) && !IsDirectory(nodes, dir + [name])
    requires node.File? && '/' !in name
    ensures IsTree(nodes[dir + [name] := node]) && HasPlainNames(nodes[dir + [name] := node])
  {
    assert Parent(dir + [name]) == dir;
    assert forall s | s in dir :: '/' !in s;
  }

  // ----- All contexts -----

  /** The totals of a report are the sums over its entries. */
  function Summed(entries: seq<RepairEntry>): Totals {
    if entries == [] then Totals(0, 0, 0)
    else Summed(entries[..|entries| - 1]).Plus(TotalsOf(entries[|entries| - 1]))
  }

  lemma SummedMore(entries: seq<RepairEntry>, last: RepairEntry)
    ensures Summed(entries + [last]) == Summed(entries).Plus(TotalsOf(last))
  {
    assert (entries + [last])[..|entries|] == entries;
  }

  /** Each context has files and a database of its own. */
  ghost predicate Apart(sessions: seq<RepairSession>) {
    forall i, j | 0 <= i < j < |sessions| ::
      && sessions[i] != sessions[j]
      && sessions[i].cache.files != sessions[j].cache.files
      && sessions[i].cache.database != sessions[j].cache.database
  }

  lemma OthersApart(sessions: seq<RepairSession>, k: nat)
    requires Apart(sessions) && k < |sessions|
    ensures forall i | 0 <= i < |sessions| && i != k ::
      && sessions[i] != sessions[k]
      && sessions[i].cache.files != sessions[k].cache.files
      && sessions[i].cache.database != sessions[k].cache.database
  {
  }

  /** The repairs of all contexts, given their states before and after. */
  ghost predicate AllRepaired(dirs: seq<Path>, before: seq<SessionState>, after: seq<SessionState>,
                              entries: seq<RepairEntry>, actions: seq<RepairAction>, apply: bool)
  {
    && |dirs| >= |entries| && |before| >= |entries| && |after| == |entries|
    && (entries == []
        || var n := |entries| - 1;
           && Repaired(dirs[n], before[n], after[n], entries[n], actions, apply)
           && AllRepaired(dirs, before, after[..n], entries[..n], actions, apply))
  }

  lemma {:induction false} RepairedAt(dirs: seq<Path>, before: seq<SessionState>, after: seq<SessionState>,
                                      entries: seq<RepairEntry>, actions: seq<RepairAction>, apply: bool, i: nat)
    requires AllRepaired(dirs, before, after, entries, actions, apply) && i < |entries|
    ensures Repaired(dirs[i], before[i], after[i], entries[i], actions, apply)
  {
    var n := |entries| - 1;
    if i < n {
      RepairedAt(dirs, before, after[..n], entries[..n], actions, apply, i);
    }
  }

  lemma AllRepairedMore(dirs: seq<Path>, before: seq<SessionState>, after: seq<SessionState>,
                        entries: seq<RepairEntry>, actions: seq<RepairAction>, apply: bool, now: SessionState,
                        entry: RepairEntry)
    requires AllRepaired(dirs, before, after, entries, actions, apply)
    requires |dirs| > |entries| && |before| > |entries|
    requires Repaired(dirs[|entries|], before[|entries|], now, entry, actions, apply)
    ensures AllRepaired(dirs, before, after + [now], entries + [entry], actions, apply)
  {
    assert (after + [now])[..|entries|] == after && (entries + [entry])[..|entries|] == entries;
  }

  /** The repairs so far, and the totals of their entries. */
  ghost predicate Reported(dirs: seq<Path>, before: seq<SessionState>, after: seq<SessionState>,
                           entries: seq<RepairEntry>, actions: seq<RepairAction>, apply: bool, totals: Totals)
  {
    AllRepaired(dirs, before, after, entries, actions, apply) && totals == Summed(entries)
  }

  lemma {:induction false} ReportMore(dirs: seq<Path>, before: seq<SessionState>, after: seq<SessionState>,
                                      entries: seq<RepairEntry>, actions: seq<RepairAction>, apply: bool,
                                      totals: Totals, now: SessionState, entry: RepairEntry,
                                      states: seq<SessionState>, more: seq<RepairEntry>)
    requires Reported(dirs, before, after, entries, actions, apply, totals)
    requires |dirs| > |entries| == |after| && |before| > |entries|
    requires Repaired(dirs[|entries|], before[|entries|], now, entry, actions, apply)
    requires states == after + [now] && more == entries + [entry]
    ensures Reported(dirs, before, states, more, actions, apply, totals.Plus(TotalsOf(entry)))
  {
    AllRepairedMore(dirs, before, after, entries, actions, apply, now, entry);
    SummedMore(entries, entry);
  }

  /** `runCacheRepair`: every context is repaired as above, and the totals of the report are those of its
      entries. */
  method RunCacheRepair(sessions: seq<RepairSession>, actions: seq<RepairAction>, apply: bool, now: int)
    returns (entries: seq<RepairEntry>, totals: Totals)
    requires Apart(sessions) && forall i | 0 <= i < |sessions| :: sessions[i].Valid()
    modifies sessions, set s | s in sessions :: s.cache.files, set s | s in sessions :: s.cache.database
    ensures |entries| == |sessions|
    ensures forall i | 0 <= i < |sessions| ::
      Repaired(sessions[i].cache.dir, old(sessions[i].State()), sessions[i].State(), entries[i], actions, apply)
    ensures totals == Summed(entries)
  {
    ghost var dirs, before, after;
    entries, totals, dirs, before, after := RepairAll(sessions, actions, apply, now);
    forall i | 0 <= i < |sessions|
      ensures Repaired(sessions[i].cache.dir, old(sessions[i].State()), sessions[i].State(), entries[i], actions, apply)
    {
      RepairedAt(dirs, before, after, entries, actions, apply, i);
    }
  }

  /** One round of its loop. */
  method RepairAt(sessions: seq<RepairSession>, k: nat, entries: seq<RepairEntry>, totals: Totals,
                  actions: seq<RepairAction>, apply: bool, now: int, ghost dirs: seq<Path>,
                  ghost before: seq<SessionState>, ghost after: seq<SessionState>)
    returns (more: seq<RepairEntry>, sums: Totals, ghost states: seq<SessionState>)
    requires Apart(sessions) && k < |sessions| && sessions[k].Valid()
    requires |entries| == |after| == k < |dirs| && k < |before|
    requires dirs[k] == sessions[k].cache.dir && before[k] == sessions[k].State()
    requires Reported(dirs, before, after, entries, actions, apply, totals)
    modifies sessions[k], sessions[k].cache.files, sessions[k].cache.database
    ensures |more| == |states| == k + 1 && states[..k] == after && states[k] == sessions[k].State()
    ensures Reported(dirs, before, states, more, actions, apply, sums)
    ensures forall i | 0 <= i < |sessions| && i != k ::
      unchanged(sessions[i], sessions[i].cache.files, sessions[i].cache.database)
  {
    OthersApart(sessions, k);
    var entry, counts := sessions[k].RepairContext(actions, apply, now);
    ghost var state := sessions[k].State();
    more, sums, states := entries + [entry], totals.Plus(counts), after + [state];
    ReportMore(dirs, before, after, entries, actions, apply, totals, state, entry, states, more);
  }

  /** Its loop. */
  method RepairAll(sessions: seq<RepairSession>, actions: seq<RepairAction>, apply: bool, now: int)
    returns (entries: seq<RepairEntry>, totals: Totals, ghost dirs: seq<Path>, ghost before: seq<SessionState>,
             ghost after: seq<SessionState>)
    requires Apart(sessions) && forall i | 0 <= i < |sessions| :: sessions[i].Valid()
    modifies sessions, set s | s in sessions :: s.cache.files, set s | s in sessions :: s.cache.database
    ensures |entries| == |dirs| == |before| == |sessions|
    ensures forall i | 0 <= i < |sessions| :: dirs[i] == sessions[i].cache.dir && before[i] == old(sessions[i].State())
    ensures Reported(dirs, before, after, entries, actions, apply, totals)
    ensures |after| == |sessions| && forall i | 0 <= i < |sessions| :: after[i] == sessions[i].State()
  {
    entries, totals, after := [], Totals(0, 0, 0), [];
    dirs, before := StartOf(sessions);
    for k := 0 to |sessions|
      invariant |entries| == |after| == k
      invariant forall i | k <= i < |sessions| ::
        unchanged(sessions[i], sessions[i].cache.files, sessions[i].cache.database)
      invariant forall i | 0 <= i < k :: after[i] == sessions[i].State()
      invariant Reported(dirs, before, after, entries, actions, apply, totals)
    {
      assert sessions[k] in sessions;
      ghost var states := after;
      entries, totals, after := RepairAt(sessions, k, entries, totals, actions, apply, now, dirs, before, after);
      assert forall i | 0 <= i < k :: after[i] == states[i];
    }
  }

  ghost method StartOf(sessions: seq<RepairSession>) returns (dirs: seq<Path>, states: seq<SessionState>)
    ensures |dirs| == |states| == |sessions|
    ensures forall i | 0 <= i < |sessions| :: dirs[i] == sessions[i].cache.dir && states[i] == sessions[i].State()
  {
    dirs, states := [], [];
    for i := 0 to |sessions|
      invariant |dirs| == |states| == i
      invariant forall j | 0 <= j < i :: dirs[j] == sessions[j].cache.dir && states[j] == sessions[j].State()
    {
      dirs, states := dirs + [sessions[i].cache.dir], states + [sessions[i].State()];
    }
  }
}
