/** One `cache.sqlite` with the tables as fields, and the maintenance commands that change them.
    No command runs in a transaction, so any statement can be the last one that takes effect. */
module CacheDatabase {
  import opened Wrappers
  import opened CacheTables
  import opened Text
  import opened RepairActions
  import opened Timestamps
  import opened SqlWhere
  import opened ClearRows

  /** A statement either runs, or throws without effect: `Busy` is what `isSqliteBusyError` recognises. */
  datatype StatementOutcome = Completes | Busy | Fails

  const SQLITE_BUSY_MAX_ATTEMPTS := 8

  datatype Counts = Counts(entries: nat, links: nat, bindings: nat, assets: nat)

  /** `CacheClearSqlSummary`: one object for all attempts of a clear. */
  class ClearSummary {
    var cacheEntriesMatched: nat
    var cacheEntriesDeleted: nat
    var sourceLinksMatched: nat
    var sourceLinksDeleted: nat
    var fileBindingsMatched: nat
    var fileBindingsDeleted: nat
    var orphanAssetsMatched: nat
    var orphanAssetsDeleted: nat

    constructor ()
      ensures cacheEntriesMatched == sourceLinksMatched == fileBindingsMatched == orphanAssetsMatched == 0
      ensures NothingDeleted()
    {
      cacheEntriesMatched, sourceLinksMatched, fileBindingsMatched, orphanAssetsMatched := 0, 0, 0, 0;
      cacheEntriesDeleted, sourceLinksDeleted, fileBindingsDeleted, orphanAssetsDeleted := 0, 0, 0, 0;
    }

    ghost predicate NothingDeleted()
      reads this
    {
      Deleted() == Counts(0, 0, 0, 0)
    }

    function Deleted(): Counts
      reads this
    {
      Counts(cacheEntriesDeleted, sourceLinksDeleted, fileBindingsDeleted, orphanAssetsDeleted)
    }

    function Matched(): Counts
      reads this
    {
      Counts(cacheEntriesMatched, sourceLinksMatched, fileBindingsMatched, orphanAssetsMatched)
    }
  }

  /** The four numbers that a preview shows, in terms of the candidate rows it read. */
  function PreviewCounts(s: Store, rows: seq<EntryRow>): Counts {
    Counts(|rows|, |LinksOf(s, ContextIds(SetOf(rows)))|, MatchedBindingCount(s, rows), |OrphanAssets(s)|)
  }

  datatype Skipped = DryRun | NoOp | Failed
  datatype PruneResult = PruneResult(action: PruneAction, applied: bool, skipped: Skipped, rows: nat)

  class Database {
    /** False when the file `cache.sqlite` is absent. */
    const present: bool
    /** What happens to each statement, in the order of issue. */
    const outcomeAt: nat -> StatementOutcome
    var issued: nat
    /** The five tables; a statement replaces the one it writes. */
    var tables: Store

    constructor (present: bool, outcomeAt: nat -> StatementOutcome, s: Store)
      ensures this.present == present && this.outcomeAt == outcomeAt && tables == s && issued == 0
    {
      this.present, this.outcomeAt, this.issued, this.tables := present, outcomeAt, 0, s;
    }

    predicate CompletesAt(i: nat) {
      outcomeAt(i) == Completes
    }

    /** Nothing locks the database and no statement fails. */
    ghost predicate NeverFails() {
      forall i: nat :: CompletesAt(i)
    }

    /** The statement issued last took effect. */
    ghost predicate LastCompleted()
      reads this
    {
      issued > 0 && CompletesAt(issued - 1)
    }

    /** A run of statements that ends where the first of them is busy or fails. */
    ghost predicate Ran(from: nat, outcome: StatementOutcome)
      reads this
    {
      && from <= issued
      && (outcome == Completes ==> forall i | from <= i < issued :: CompletesAt(i))
      && (outcome != Completes ==>
            && from < issued && outcomeAt(issued - 1) == outcome
            && forall i | from <= i < issued - 1 :: CompletesAt(i))
    }

    function BusyBetween(from: nat, to: nat): nat {
      if from >= to then 0 else BusyBetween(from, to - 1) + (if outcomeAt(to - 1) == Busy then 1 else 0)
    }

    /** What a busy retry has issued since `from`: a busy statement is answered by another attempt, unless it
        is the eighth, and a statement that fails is the last. */
    ghost predicate Persisted(from: nat)
      reads this
    {
      && from < issued
      && (forall i | from <= i < issued - 1 :: outcomeAt(i) != Fails)
      && BusyBetween(from, issued - 1) < 8
      && (outcomeAt(issued - 1) == Busy ==> BusyBetween(from, issued - 1) == 7)
    }

    /** So many statements were busy, one attempt each, and none failed. */
    ghost predicate Waited(from: nat, attempts: nat)
      reads this
    {
      from <= issued && BusyBetween(from, issued) == attempts && forall i | from <= i < issued :: outcomeAt(i) != Fails
    }

    /** From statement `from` on nothing fails and at most seven statements are busy. */
    ghost predicate Bearable(from: nat) {
      forall to: nat | to >= from :: outcomeAt(to) != Fails && BusyBetween(from, to) < 8
    }

    /** A retry gets through whatever is bearable. */
    lemma BearableCompletes(from: nat)
      requires Persisted(from) && Bearable(from)
      ensures LastCompleted()
    {
      assert outcomeAt(issued - 1) != Fails;
      assert BusyBetween(from, issued) < 8;
    }

    lemma NeverBusy(from: nat, to: nat)
      ensures NeverFails() ==> BusyBetween(from, to) == 0
    {
      if NeverFails() && from < to {
        forall i | from <= i < to ensures CompletesAt(i) {
        }
        NoneBusy(from, from, to);
      }
    }

    lemma GivingUp(from: nat)
      ensures Persisted(from) && Bearable(from) ==> LastCompleted()
      ensures Persisted(from) && NeverFails() ==> LastCompleted()
    {
      if Persisted(from) && Bearable(from) {
        BearableCompletes(from);
      }
      assert issued > 0 && NeverFails() ==> CompletesAt(issued - 1);
    }

    lemma {:induction false} BusyGrows(from: nat, to: nat, last: nat)
      requires from <= to <= last
      ensures BusyBetween(from, to) <= BusyBetween(from, last)
    {
      if to < last {
        BusyGrows(from, to, last - 1);
      }
    }

    lemma {:induction false} BusyStops(from: nat, last: nat, to: nat)
      requires from <= last && forall i: nat | i >= last :: CompletesAt(i)
      ensures to >= from ==> BusyBetween(from, to) <= BusyBetween(from, last)
    {
      if to > last {
        BusyStops(from, last, to - 1);
        assert CompletesAt(to - 1);
      } else if from <= to {
        BusyGrows(from, to, last);
      }
    }

    /** It is enough that nothing fails, and that the busy statements are fewer than eight and come to an end. */
    lemma {:induction false} FewAreBearable(from: nat, last: nat)
      requires from <= last && BusyBetween(from, last) < 8
      requires forall i | from <= i < last :: outcomeAt(i) != Fails
      requires forall i: nat | i >= last :: CompletesAt(i)
      ensures Bearable(from)
    {
      forall to: nat | to >= from ensures outcomeAt(to) != Fails && BusyBetween(from, to) < 8 {
        BusyStops(from, last, to);
        if to >= last {
          assert CompletesAt(to);
        }
      }
    }

    lemma {:induction false} NoneBusy(from: nat, start: nat, to: nat)
      requires from <= start <= to && forall i | start <= i < to :: CompletesAt(i)
      ensures BusyBetween(from, to) == BusyBetween(from, start)
    {
      if start < to {
        NoneBusy(from, start, to - 1);
        assert CompletesAt(to - 1);
      }
    }

    /** One more attempt, which began at statement `start`. */
    lemma OneMoreAttempt(from: nat, start: nat, attempts: nat, outcome: StatementOutcome)
      requires start < issued && Ran(start, outcome) && attempts < 8
      requires from <= start && BusyBetween(from, start) == attempts
      requires forall i | from <= i < start :: outcomeAt(i) != Fails
      ensures outcomeAt(issued - 1) == outcome && BusyBetween(from, issued - 1) == attempts
      ensures outcome == Busy ==> Waited(from, attempts + 1)
      ensures outcome != Busy || attempts == 7 ==> Persisted(from)
    {
      NoneBusy(from, start, issued - 1);
      assert outcome == Completes ==> CompletesAt(issued - 1);
      forall i | start <= i < issued - 1 ensures outcomeAt(i) != Fails {
        assert CompletesAt(i);
      }
    }

    method Issue() returns (outcome: StatementOutcome)
      modifies `issued
      ensures outcome == outcomeAt(old(issued)) && issued == old(issued) + 1
      ensures Ran(old(issued), outcome)
    {
      outcome := outcomeAt(issued);
      issued := issued + 1;
    }

    // ----- Prune actions of `cache repair` -----

    method PruneAttempt(action: PruneAction, apply: bool) returns (outcome: StatementOutcome, result: PruneResult)
      modifies this
      ensures issued > old(issued) && Ran(old(issued), outcome)
      ensures outcome != Completes ==> tables == old(tables)
      ensures outcome == Completes ==> tables == if apply then Prune(action, old(tables)) else old(tables)
      ensures issued <= old(issued) + 3
      ensures outcome == Completes ==>
        result.action == action && result.rows == OrphanCount(action, old(tables)) &&
        result.skipped == (if apply then NoOp else DryRun) && result.applied == (apply && result.rows > 0)
    {
      result := PruneResult(action, false, Failed, 0);
      outcome := Issue();
      if outcome != Completes { return; }
      outcome := Issue();
      if outcome != Completes { return; }
      var count := OrphanCount(action, tables);
      if !apply {
        result := PruneResult(action, false, DryRun, count);
        return;
      }
      if count <= 0 {
        NothingToPrune(action, tables);
        result := PruneResult(action, false, NoOp, 0);
        return;
      }
      outcome := Issue();
      if outcome != Completes { return; }
      tables := Prune(action, tables);
      result := PruneResult(action, true, NoOp, count);
    }

    /** The four `repairPrune*` functions with their busy retry. A thrown error is the result `None`. */
    method RepairPrune(action: PruneAction, apply: bool) returns (result: Option<PruneResult>)
      modifies this
      ensures NeverFails() ==> result.Some?
      // It fails if and only if its last statement failed, or was the eighth that was busy.
      ensures present ==> Persisted(old(issued)) && (result.None? <==> !LastCompleted())
      ensures present && Bearable(old(issued)) ==> result.Some?
      ensures result.None? ==> tables == old(tables)
      ensures result.Some? && present ==>
        && tables == (if apply then Prune(action, old(tables)) else old(tables))
        && result.value.action == action && result.value.rows == OrphanCount(action, old(tables))
        && result.value.applied == (apply && result.value.rows > 0)
      ensures result.Some? ==> !result.value.skipped.Failed?
      ensures !present ==> result == Some(PruneResult(action, false, NoOp, 0)) && tables == old(tables)
      ensures issued <= old(issued) + 3 * SQLITE_BUSY_MAX_ATTEMPTS
    {
      if !present {
        return Some(PruneResult(action, false, NoOp, 0));
      }
      var attempt := 0;
      ghost var before := tables;
      while true
        invariant 0 <= attempt < SQLITE_BUSY_MAX_ATTEMPTS
        invariant tables == before
        invariant issued <= old(issued) + 3 * attempt
        invariant Waited(old(issued), attempt)
        decreases SQLITE_BUSY_MAX_ATTEMPTS - attempt
      {
        ghost var start := issued;
        var outcome, r := PruneAttempt(action, apply);
        OneMoreAttempt(old(issued), start, attempt, outcome);
        GivingUp(old(issued));
        if outcome == Completes {
          return Some(r);
        }
        if outcome != Busy || attempt >= SQLITE_BUSY_MAX_ATTEMPTS - 1 {
          return None;
        }
        attempt := attempt + 1;
      }
    }

    /** `cache repair --apply` over a list of prune actions: a failing action is skipped, the others run
        in their order. */
    method RepairPruneAll(actions: seq<PruneAction>) returns (results: seq<Option<PruneResult>>)
      requires present
      modifies this
      ensures |results| == |actions|
      ensures forall i | 0 <= i < |results| && results[i].Some? :: results[i].value.action == actions[i]
      ensures tables == RunActions(Succeeded(actions, results), old(tables))
      ensures NeverFails() ==> Succeeded(actions, results) == actions
    {
      results := [];
      for i := 0 to |actions|
        invariant |results| == i
        invariant forall j | 0 <= j < i && results[j].Some? :: results[j].value.action == actions[j]
        invariant tables == RunActions(Succeeded(actions[..i], results), old(tables))
        invariant NeverFails() ==> Succeeded(actions[..i], results) == actions[..i]
      {
        ghost var done := Succeeded(actions[..i], results);
        var result := RepairPrune(actions[i], true);
        SucceededMore(actions[..i], results, actions[i], result);
        assert actions[..i + 1] == actions[..i] + [actions[i]];
        RunActionsSnoc(done, actions[i], old(tables));
        assert done + [] == done;
        results := results + [result];
      }
      assert actions[..|actions|] == actions;
    }

    // ----- The references that protect blob files -----

    /** One run of the callback: opens the database, selects the rows, and spells their paths. */
    method ReferencesAttempt() returns (outcome: StatementOutcome, relpaths: set<string>)
      modifies `issued
      ensures issued > old(issued) && Ran(old(issued), outcome)
      ensures outcome == Completes ==> relpaths == ReferencedRelpaths(tables.assets)
    {
      relpaths := {};
      outcome := Issue();
      if outcome != Completes { return; }
      outcome := Issue();
      if outcome != Completes { return; }
      var rows := BlobAssets(tables.assets);
      ghost var seen: set<FileAssetRow> := {};
      while rows != {}
        invariant issued == old(issued) + 2 && Ran(old(issued), Completes)
        invariant seen + rows == BlobAssets(tables.assets)
        invariant forall r :: r in relpaths <==> r in ReferencedRelpaths(seen)
        decreases rows
      {
        var row :| row in rows;
        assert row in BlobAssets(tables.assets);
        ReferencesOneMore(seen, row);
        LikeIsNotBlank(row.storageRelpath.value);
        var rel := Trim(row.storageRelpath.value);
        if rel != "" {
          relpaths := relpaths + {Slashed(rel)};
        }
        rows, seen := rows - {row}, seen + {row};
      }
      assert BlobAssets(seen) == BlobAssets(tables.assets);
    }

    /** None when the references could not be read: the last statement issued was busy for the eighth time,
        or failed. */
    method ReadReferences() returns (relpaths: Option<set<string>>)
      modifies `issued
      ensures NeverFails() ==> relpaths.Some?
      ensures Persisted(old(issued)) && (relpaths.Some? <==> LastCompleted())
      ensures Bearable(old(issued)) ==> relpaths.Some?
      ensures relpaths.Some? ==> relpaths.value == ReferencedRelpaths(tables.assets)
    {
      var attempt := 0;
      while true
        invariant 0 <= attempt < SQLITE_BUSY_MAX_ATTEMPTS
        invariant Waited(old(issued), attempt)
        decreases SQLITE_BUSY_MAX_ATTEMPTS - attempt
      {
        ghost var start := issued;
        var outcome, read := ReferencesAttempt();
        OneMoreAttempt(old(issued), start, attempt, outcome);
        GivingUp(old(issued));
        if outcome == Completes {
          return Some(read);
        }
        if outcome != Busy || attempt >= SQLITE_BUSY_MAX_ATTEMPTS - 1 {
          return None;
        }
        attempt := attempt + 1;
      }
    }

    // ----- `cache clear` -----

    method SelectCandidates(f: Filter) returns (rows: seq<EntryRow>)
      ensures Enumerates(rows, Candidates(tables, f))
    {
      var left := Candidates(tables, f);
      rows := [];
      while left != {}
        invariant SetOf(rows) !! left
        invariant SetOf(rows) + left == Candidates(tables, f)
        invariant Distinct(rows)
        decreases left
      {
        var e :| e in left;
        left := left - {e};
        assert e !in SetOf(rows);
        ghost var before := rows;
        rows := rows + [e];
        assert SetOf(rows) == SetOf(before) + {e};
      }
    }

    method CountPairs(pairs: seq<EntryKey>) returns (outcome: StatementOutcome, count: nat)
      modifies `issued
      ensures Ran(old(issued), outcome)
      ensures outcome == Completes ==> count == PairCount(pairs, tables)
    {
      outcome, count := Completes, 0;
      assert pairs[0..] == pairs;
      for i := 0 to |pairs|
        invariant outcome == Completes && Ran(old(issued), Completes)
        invariant count + PairCount(pairs[i..], tables) == PairCount(pairs, tables)
      {
        outcome := Issue();
        if outcome != Completes { return; }
        assert pairs[i..][1..] == pairs[i + 1..];
        count := count + |PairBindingsOf(tables, {pairs[i]})|;
      }
    }

    method CountLinks(ids: set<string>, summary: ClearSummary) returns (outcome: StatementOutcome)
      modifies `issued, summary`sourceLinksMatched
      ensures Ran(old(issued), outcome)
      ensures outcome == Completes ==> summary.sourceLinksMatched == |LinksOf(tables, ids)|
    {
      outcome := Completes;
      if ids == {} {
        assert LinksOf(tables, ids) == {};
        summary.sourceLinksMatched := 0;
      } else {
        outcome := Issue();
        if outcome == Completes {
          summary.sourceLinksMatched := |LinksOf(tables, ids)|;
        }
      }
    }

    method CountContextBindings(ids: set<string>) returns (outcome: StatementOutcome, count: nat)
      modifies `issued
      ensures Ran(old(issued), outcome)
      ensures outcome == Completes ==> count == |ContextBindingsOf(tables, ids)|
    {
      outcome, count := Completes, 0;
      if ids == {} {
        assert ContextBindingsOf(tables, ids) == {};
      } else {
        outcome := Issue();
        if outcome == Completes {
          count := |ContextBindingsOf(tables, ids)|;
        }
      }
    }

    method CountBindings(rows: seq<EntryRow>, contextIds: set<string>)
      returns (outcome: StatementOutcome, count: nat)
      requires contextIds == ContextIds(SetOf(rows))
      modifies `issued
      ensures Ran(old(issued), outcome)
      ensures outcome == Completes ==> count == MatchedBindingCount(tables, rows)
    {
      var pairCount, contextCount;
      count := 0;
      outcome, pairCount := CountPairs(PairList(rows));
      if outcome != Completes { return; }
      outcome, contextCount := CountContextBindings(contextIds);
      if outcome != Completes { return; }
      count := pairCount + contextCount;
    }

    /** Reads the candidate rows and the counts; changes no table. */
    method Preview(f: Filter, summary: ClearSummary) returns (outcome: StatementOutcome, rows: seq<EntryRow>)
      modifies `issued, summary
      ensures issued > old(issued) && Ran(old(issued), outcome)
      ensures summary.sourceLinksDeleted == old(summary.sourceLinksDeleted)
      ensures summary.fileBindingsDeleted == old(summary.fileBindingsDeleted)
      ensures summary.cacheEntriesDeleted == old(summary.cacheEntriesDeleted)
      ensures summary.orphanAssetsDeleted == old(summary.orphanAssetsDeleted)
      ensures outcome == Completes ==>
        Enumerates(rows, Candidates(tables, f)) && summary.Matched() == PreviewCounts(tables, rows)
    {
      ghost var s := tables;
      rows := [];
      outcome := Issue();
      if outcome != Completes { return; }
      outcome := Issue();
      if outcome != Completes { return; }
      rows := SelectCandidates(f);
      summary.cacheEntriesMatched := |rows|;
      var contextIds := ContextIds(SetOf(rows));
      outcome := CountLinks(contextIds, summary);
      if outcome != Completes { return; }
      var bindings;
      outcome, bindings := CountBindings(rows, contextIds);
      if outcome != Completes { return; }
      summary.fileBindingsMatched := bindings;
      outcome := Issue();
      if outcome != Completes { return; }
      assert tables == s;
      summary.orphanAssetsMatched := |OrphanAssets(tables)|;
    }

    /** `db.prepare(...).run(...)` for one DELETE, with the number of rows it reports. */
    method Run(statement: Statement) returns (outcome: StatementOutcome, changes: nat)
      modifies this
      ensures Ran(old(issued), outcome)
      ensures outcome != Completes ==> tables == old(tables)
      ensures outcome == Completes ==>
        tables == Execute(statement, old(tables)) && changes == Changes(statement, old(tables))
    {
      changes := 0;
      outcome := Issue();
      if outcome != Completes { return; }
      changes := Changes(statement, tables);
      tables := Execute(statement, tables);
    }

    /** The deletes for the entries and for what hangs on the matched conversations. */
    method DeleteHead(f: Filter, rows: seq<EntryRow>, summary: ClearSummary)
      returns (outcome: StatementOutcome, ghost executed: nat)
      requires Enumerates(rows, Candidates(tables, f)) && summary.cacheEntriesMatched == |rows|
      modifies this, summary`cacheEntriesDeleted, summary`sourceLinksDeleted, summary`fileBindingsDeleted
      ensures Ran(old(issued), outcome)
      ensures executed <= |PlanHead(f, rows)| && (outcome == Completes ==> executed == |PlanHead(f, rows)|)
      ensures tables == ExecuteAll(PlanHead(f, rows)[..executed], old(tables))
      ensures outcome == Completes ==> HeadApplied(old(tables), rows, old(summary.Deleted()), summary.Deleted())
      ensures outcome != Completes && executed == 0 ==> summary.Deleted() == old(summary.Deleted())
    {
      ghost var plan, s := PlanHead(f, rows), tables;
      var contextIds, changes := ContextIds(SetOf(rows)), 0;
      outcome, executed := Completes, 0;
      PlanHeadSteps(f, rows, s);
      if summary.cacheEntriesMatched > 0 {
        outcome, changes := Run(DeleteEntries(f));
        if outcome != Completes { return; }
        summary.cacheEntriesDeleted := summary.cacheEntriesMatched;
        executed := 1;
      }
      if contextIds != {} {
        outcome, changes := Run(DeleteLinks(contextIds));
        if outcome != Completes { return; }
        summary.sourceLinksDeleted := changes;
        executed := 2;
        outcome, changes := Run(DeleteContextBindings(contextIds));
        if outcome != Completes { return; }
        summary.fileBindingsDeleted := summary.fileBindingsDeleted + changes;
        executed := 3;
      } else {
        assert ContextBindingsOf(s, contextIds) == {};
      }
    }

    /** Deletes pair by pair; `done` pairs were deleted when it returns. */
    method DeletePairs(pairs: seq<EntryKey>) returns (outcome: StatementOutcome, deleted: nat, done: nat)
      modifies this
      ensures Ran(old(issued), outcome)
      ensures done <= |pairs| && (outcome == Completes ==> done == |pairs|)
      ensures tables == ExecuteAll(PairStatements(pairs)[..done], old(tables))
      ensures outcome == Completes ==> deleted == |PairBindingsOf(old(tables), SetOf(pairs))|
    {
      ghost var s := tables;
      outcome, deleted, done := Completes, 0, 0;
      ghost var gone: set<EntryKey> := {};
      PairsDeleted(pairs, 0, s);
      while done < |pairs|
        invariant done <= |pairs| && outcome == Completes && Ran(old(issued), Completes)
        invariant tables == ExecuteAll(PairStatements(pairs)[..done], s)
        invariant deleted == |PairBindingsOf(s, SetOf(pairs[..done]))|
      {
        var changes;
        PairsDeleted(pairs, done, s);
        outcome, changes := Run(DeletePair(pairs[done]));
        if outcome != Completes { return; }
        deleted := deleted + changes;
        done := done + 1;
      }
      assert pairs[..done] == pairs;
    }

    /** The deletes for the pairs and for the assets that nothing references any more. */
    method DeleteTail(rows: seq<EntryRow>, summary: ClearSummary) returns (outcome: StatementOutcome, ghost done: nat)
      modifies this, summary`fileBindingsDeleted, summary`orphanAssetsDeleted
      ensures Ran(old(issued), outcome)
      ensures done <= |PlanTail(rows)| && (outcome == Completes ==> done == |PlanTail(rows)|)
      ensures tables == ExecuteAll(PlanTail(rows)[..done], old(tables))
      ensures outcome == Completes ==> TailApplied(old(tables), rows, old(summary.Deleted()), summary.Deleted())
      ensures outcome != Completes && done == 0 ==> summary.Deleted() == old(summary.Deleted())
    {
      ghost var pairs := PairStatements(PairList(rows));
      var deleted, changes, count;
      outcome, deleted, count := DeletePairs(PairList(rows));
      done := count;
      assert PlanTail(rows)[..done] == pairs[..done];
      if outcome != Completes { return; }
      summary.fileBindingsDeleted := summary.fileBindingsDeleted + deleted;
      assert pairs[..done] == pairs;
      outcome, changes := Run(DeleteOrphanAssets);
      if outcome != Completes { return; }
      summary.orphanAssetsDeleted := changes;
      assert PlanTail(rows)[..done + 1][..done] == PlanTail(rows)[..done];
      done := done + 1;
    }

    /** One run of the callback that `withSqliteBusyRetry` repeats. `attempt` says which rows it read and
        how many of its deletes took effect. */
    method ClearAttempt(f: Filter, apply: bool, summary: ClearSummary)
      returns (outcome: StatementOutcome, ghost attempt: Attempt)
      modifies this, summary
      ensures issued > old(issued) && Ran(old(issued), outcome)
      ensures Attempted(f, old(tables), tables, apply, outcome == Completes, attempt,
                        old(summary.Deleted()), summary.Deleted(), summary.Matched())
    {
      ghost var s, before := tables, summary.Deleted();
      var rows;
      outcome, rows := Preview(f, summary);
      if outcome != Completes {
        attempt := UnreadAttempt(f, s, apply, before, summary.Matched());
        return;
      }
      if !apply {
        attempt := Attempt(rows, 0);
        IdleAttempt(f, rows, s, before);
        return;
      }
      outcome, attempt := ApplyClear(f, rows, summary);
    }

    method ApplyClear(f: Filter, rows: seq<EntryRow>, summary: ClearSummary)
      returns (outcome: StatementOutcome, ghost attempt: Attempt)
      requires Enumerates(rows, Candidates(tables, f)) && summary.Matched() == PreviewCounts(tables, rows)
      modifies this, summary`cacheEntriesDeleted, summary`sourceLinksDeleted, summary`fileBindingsDeleted
      modifies summary`orphanAssetsDeleted
      ensures Ran(old(issued), outcome)
      ensures Attempted(f, old(tables), tables, true, outcome == Completes, attempt,
                        old(summary.Deleted()), summary.Deleted(), summary.Matched())
    {
      ghost var s := tables;
      ghost var executed, done;
      ghost var before, matched := summary.Deleted(), summary.Matched();
      outcome, executed := DeleteHead(f, rows, summary);
      attempt := Attempt(rows, executed);
      HeadStopped(f, rows, s, executed, outcome == Completes, before, summary.Deleted(), matched);
      if outcome != Completes { return; }
      assert summary.Matched() == matched;
      ghost var midway := summary.Deleted();
      outcome, done := DeleteTail(rows, summary);
      attempt := Attempt(rows, executed + done);
      assert summary.Matched() == matched;
      TailStopped(f, rows, s, done, outcome == Completes, before, midway, summary.Deleted());
    }

    /** `clearSqlRows`: attempts until one completes, one fails for good, or eight were busy.
        The summary object is shared by all attempts. */
    method ClearSqlRows(dataset: DatasetName, cutoff: Option<Timestamp>, apply: bool)
      returns (available: bool, failed: bool, summary: ClearSummary, ghost attempts: seq<Attempt>)
      requires cutoff.Some? ==> cutoff.value.Valid()
      modifies this
      ensures fresh(summary)
      ensures available == present && (!present || !apply ==> tables == old(tables))
      ensures |attempts| <= SQLITE_BUSY_MAX_ATTEMPTS
      ensures present && NeverFails() ==> !failed && |attempts| == 1
      // Every attempt but the last met a busy statement; the last fails for good, or is the eighth that was busy.
      ensures present ==> Persisted(old(issued)) && |attempts| == BusyBetween(old(issued), issued - 1) + 1
      ensures present ==> (failed <==> !LastCompleted())
      ensures present && Bearable(old(issued)) ==> !failed
      ensures ClearReaches(attempts, FilterFor(dataset, cutoff), old(tables), tables)
      // Whatever fails, no row goes that a remaining entry owns, and two repairs mend the rest.
      ensures UniqueKeys(old(tables).entries) ==> RowsSafe(old(tables), FilterFor(dataset, cutoff), tables)
      ensures UniqueKeys(old(tables).entries) ==>
        || tables == old(tables)
        || Pass(Pass(tables)) == Pass(Pass(Cleared(old(tables), FilterFor(dataset, cutoff))))
      // A clear that completes is the whole clear exactly when the first attempt with an effect left nothing behind.
      ensures present && !failed && apply ==>
        var f := FilterFor(dataset, cutoff);
        (tables == Cleared(old(tables), f) <==> NothingLeft(old(tables), f, FirstStore(attempts, f, old(tables))))
      // So when only attempts without an effect came before the one that completed; then its counts are right, too.
      ensures present ==>
        Ended(attempts, FilterFor(dataset, cutoff), old(tables), tables, apply, !failed, summary.Matched(),
              summary.Deleted())
    {
      ghost var s := tables;
      available, failed, attempts := present, false, [];
      summary := new ClearSummary();
      if !present { return; }
      var f, sql, params := SelectRows(dataset, cutoff);
      failed, attempts := RetryClear(f, apply, summary);
      GivingUp(old(issued));
      NeverBusy(old(issued), issued - 1);
      WhateverHappened(s, f, attempts, tables, !failed && apply);
    }

    /** The WHERE clause of all attempts: it selects what the filter asks for. */
    method SelectRows(dataset: DatasetName, cutoff: Option<Timestamp>)
      returns (f: Filter, sql: string, params: seq<string>)
      requires cutoff.Some? ==> cutoff.value.Valid()
      ensures f == FilterFor(dataset, cutoff)
      ensures Means(sql, params, f.datasets, f.cutoffIso)
    {
      var datasets := ResolveSqlDatasetFilter(dataset);
      var cutoffIso := if cutoff.Some? then Some(IsoText(cutoff.value)) else None;
      sql, params := BuildSqlWhereClause(datasets, cutoffIso);
      f := Filter(datasets, cutoffIso);
    }

    /** `withSqliteBusyRetry` around the attempts. */
    method RetryClear(f: Filter, apply: bool, summary: ClearSummary)
      returns (failed: bool, ghost attempts: seq<Attempt>)
      requires summary.NothingDeleted()
      modifies this, summary
      ensures 0 < |attempts| <= SQLITE_BUSY_MAX_ATTEMPTS
      ensures Persisted(old(issued)) && |attempts| == BusyBetween(old(issued), issued - 1) + 1
      ensures failed <==> !LastCompleted()
      ensures Ended(attempts, f, old(tables), tables, apply, !failed, summary.Matched(), summary.Deleted())
    {
      ghost var s := tables;
      failed, attempts := false, [];
      var attempt := 0;
      while true
        invariant 0 <= attempt < SQLITE_BUSY_MAX_ATTEMPTS && |attempts| == attempt
        invariant Retried(attempts, f, s, tables, apply, summary.Deleted())
        invariant Waited(old(issued), attempt)
        decreases SQLITE_BUSY_MAX_ATTEMPTS - attempt
      {
        ghost var t, before, start := tables, summary.Deleted(), issued;
        var outcome;
        ghost var a;
        outcome, a := ClearAttempt(f, apply, summary);
        OneMoreAttempt(old(issued), start, attempt, outcome);
        AttemptEnds(attempts, f, s, t, tables, apply, outcome == Completes, a, before, summary.Deleted(),
                    summary.Matched());
        attempts := attempts + [a];
        if outcome != Busy || attempt >= SQLITE_BUSY_MAX_ATTEMPTS - 1 {
          failed := outcome != Completes;
          break;
        }
        attempt := attempt + 1;
      }
    }
  }

  /** One attempt that took the tables from `s` to `t`, and the counts from `before` to `after`. */
  ghost predicate Attempted(f: Filter, s: Store, t: Store, apply: bool, completed: bool, a: Attempt,
                            before: Counts, after: Counts, matched: Counts)
  {
    && ValidAttempt(a, f, s) && t == RunAttempt(a, f, s)
    && (!apply ==> t == s)
    && (completed ==> matched == PreviewCounts(s, a.rows))
    && (completed && apply ==>
          a.executed == |ClearPlan(f, a.rows)| && t == Cleared(s, f) && Applied(s, f, a.rows, before, after))
    && (a.executed == 0 ==> t == s && after == before)
  }

  /** Attempts that led from `s` to `t`; as long as none had an effect, nothing is counted. */
  ghost predicate Retried(attempts: seq<Attempt>, f: Filter, s: Store, t: Store, apply: bool, deleted: Counts) {
    && ClearReaches(attempts, f, s, t)
    && (!apply ==> t == s)
    && (NoneActed(attempts) ==> t == s && deleted == Counts(0, 0, 0, 0))
  }

  /** How the attempts ended. If only attempts without an effect came before the one that completed, then its
      preview is right and, on apply, the clear is whole and its counts are those of the rows that went. */
  ghost predicate Ended(attempts: seq<Attempt>, f: Filter, s: Store, t: Store, apply: bool, completed: bool,
                        matched: Counts, deleted: Counts)
  {
    && attempts != [] && ClearReaches(attempts, f, s, t)
    && (!apply ==> t == s)
    && var last := attempts[|attempts| - 1];
       && (completed && apply ==> last.executed == |ClearPlan(f, last.rows)|)
       && (completed && Undisturbed(attempts) ==> Reported(s, f, last.rows, matched))
       && (completed && Undisturbed(attempts) && apply ==> t == Cleared(s, f) && Accounted(s, f, matched, deleted))
  }

  lemma {:induction false} AttemptEnds(attempts: seq<Attempt>, f: Filter, s: Store, t: Store, u: Store, apply: bool,
                                       completed: bool, a: Attempt, before: Counts, after: Counts, matched: Counts)
    requires Retried(attempts, f, s, t, apply, before)
    requires Attempted(f, t, u, apply, completed, a, before, after, matched)
    ensures Retried(attempts + [a], f, s, u, apply, after)
    ensures Ended(attempts + [a], f, s, u, apply, completed, matched, after)
  {
    ReachesOneMore(attempts, f, s, t, a);
    assert (attempts + [a])[..|attempts|] == attempts;
    if NoneActed(attempts) && completed {
      AttemptAccounting(s, f, a.rows, apply, after);
    }
  }

  /** What a preview reports. */
  ghost predicate Reported(s: Store, f: Filter, rows: seq<EntryRow>, matched: Counts) {
    Enumerates(rows, Candidates(s, f)) && matched == PreviewCounts(s, rows)
  }

  /** Confluence and the exact condition, together. */
  lemma {:induction false} WhateverHappened(s: Store, f: Filter, attempts: seq<Attempt>, t: Store, completed: bool)
    requires ClearReaches(attempts, f, s, t) && attempts != []
    requires completed ==> attempts[|attempts| - 1].executed == |ClearPlan(f, attempts[|attempts| - 1].rows)|
    ensures UniqueKeys(s.entries) ==> RowsSafe(s, f, t) && (t == s || Pass(Pass(t)) == Pass(Pass(Cleared(s, f))))
    ensures completed ==> (t == Cleared(s, f) <==> NothingLeft(s, f, FirstStore(attempts, f, s)))
  {
    if UniqueKeys(s.entries) {
      CrashConfluence(s, f, attempts, t);
    }
    if completed {
      CompletedExactlyWhen(attempts, f, s, t);
    }
  }

  lemma {:induction false} HeadIdle(f: Filter, rows: seq<EntryRow>, s: Store, before: Counts, midway: Counts)
    requires HeadApplied(s, rows, before, midway) && PlanHead(f, rows) == []
    ensures midway == before
  {
    assert ContextBindingsOf(s, {}) == {};
    assert rows == [];
  }

  /** The numbers of rows that went between two states of the tables. */
  function RowsGone(s: Store, t: Store): Counts {
    Counts(|s.entries - t.entries|, |s.links - t.links|, |s.bindings - t.bindings|, |s.assets - t.assets|)
  }

  lemma NoIdsNoLinks(s: Store)
    ensures LinksOf(s, {}) == {}
  {
  }

  lemma ClearedTakes(s: Store, f: Filter)
    ensures s.entries - Cleared(s, f).entries == Candidates(s, f)
    ensures s.links - Cleared(s, f).links == LinksOf(s, ContextIds(Candidates(s, f)))
  {
  }

  /** What a whole first attempt reports as deleted has gone. */
  lemma {:induction false} ReportedIsGone(s: Store, f: Filter, rows: seq<EntryRow>, deleted: Counts)
    requires Enumerates(rows, Candidates(s, f))
    requires Applied(s, f, rows, Counts(0, 0, 0, 0), deleted)
    ensures deleted == RowsGone(s, Cleared(s, f))
  {
    DistinctSize(rows);
    ClearedTakes(s, f);
    NoIdsNoLinks(s);
  }

  /** Preview against apply: as many entries and links are deleted as matched, never more bindings and
      with unique keys as many, and the orphan assets plus those that this clear freed. What is reported as
      deleted has gone. */
  ghost predicate Accounted(s: Store, f: Filter, matched: Counts, deleted: Counts) {
    && deleted == RowsGone(s, Cleared(s, f))
    && deleted.entries == matched.entries
    && deleted.links == matched.links
    && deleted.bindings <= matched.bindings
    && (UniqueKeys(s.entries) ==> deleted.bindings == matched.bindings)
    && deleted.assets == matched.assets + |FreedAssets(s, f)|
  }

  /** The counts of a whole first attempt, side by side. */
  lemma AttemptAccounting(s: Store, f: Filter, rows: seq<EntryRow>, apply: bool, deleted: Counts)
    requires Enumerates(rows, Candidates(s, f))
    requires apply ==> Applied(s, f, rows, Counts(0, 0, 0, 0), deleted)
    ensures apply ==> Accounted(s, f, PreviewCounts(s, rows), deleted)
  {
    BindingAccounting(s, f, rows);
    AssetAccounting(s, f);
    if apply {
      ReportedIsGone(s, f, rows, deleted);
    }
    assert ContextIds(SetOf(rows)) == {} ==> LinksOf(s, ContextIds(SetOf(rows))) == {};
  }

  /** The rows that `--dataset` and `--older-than` select. */
  function FilterFor(dataset: DatasetName, cutoff: Option<Timestamp>): Filter
    requires cutoff.Some? ==> cutoff.value.Valid()
  {
    Filter(ResolveSqlDatasetFilter(dataset), if cutoff.Some? then Some(IsoText(cutoff.value)) else None)
  }

  lemma {:induction false} ReachesOneMore(attempts: seq<Attempt>, f: Filter, s: Store, t: Store, last: Attempt)
    requires ClearReaches(attempts, f, s, t) && ValidAttempt(last, f, t)
    ensures ClearReaches(attempts + [last], f, s, RunAttempt(last, f, t))
    decreases attempts
  {
    if attempts == [] {
      assert [last][1..] == [];
    } else {
      assert (attempts + [last])[1..] == attempts[1..] + [last];
      ReachesOneMore(attempts[1..], f, RunAttempt(attempts[0], f, s), t, last);
    }
  }

  /** The number of rows that a DELETE reports. */
  function Changes(statement: Statement, s: Store): nat {
    match statement
    case DeleteEntries(f) => |Candidates(s, f)|
    case DeleteLinks(ids) => |LinksOf(s, ids)|
    case DeleteContextBindings(ids) => |ContextBindingsOf(s, ids)|
    case DeletePair(pair) => |PairBindingsOf(s, {pair})|
    case DeleteOrphanAssets => |OrphanAssets(s)|
  }

  lemma PlanHeadSteps(f: Filter, rows: seq<EntryRow>, s: Store)
    requires Enumerates(rows, Candidates(s, f))
    ensures var plan, ids := PlanHead(f, rows), ContextIds(SetOf(rows));
            && ExecuteAll(plan[..0], s) == s
            && (rows != [] ==> |plan| >= 1 && ExecuteAll(plan[..1], s) == Execute(DeleteEntries(f), s))
            && (rows == [] ==> plan == [] && ids == {})
            && (rows != [] && ids == {} ==> |plan| == 1)
            && (ids != {} ==>
                  && |plan| == 3
                  && ExecuteAll(plan[..2], s) == Execute(DeleteLinks(ids), ExecuteAll(plan[..1], s))
                  && ExecuteAll(plan[..3], s) == Execute(DeleteContextBindings(ids), ExecuteAll(plan[..2], s)))
  {
    var plan, ids := PlanHead(f, rows), ContextIds(SetOf(rows));
    assert plan[..0] == [];
    if rows == [] {
      assert SetOf(rows) == {};
    } else {
      assert plan[..1][..0] == plan[..0];
      if ids != {} {
        assert plan[..2][..1] == plan[..1];
        assert plan[..3][..2] == plan[..2];
      }
    }
  }

  lemma PairsDeleted(pairs: seq<EntryKey>, done: nat, s: Store)
    requires done <= |pairs|
    ensures done == 0 ==> ExecuteAll(PairStatements(pairs)[..0], s) == s && PairBindingsOf(s, SetOf(pairs[..0])) == {}
    ensures var t := ExecuteAll(PairStatements(pairs)[..done], s);
            done < |pairs| ==>
              && ExecuteAll(PairStatements(pairs)[..done + 1], s) == Execute(DeletePair(pairs[done]), t)
              && |PairBindingsOf(s, SetOf(pairs[..done + 1]))|
                 == |PairBindingsOf(s, SetOf(pairs[..done]))| + Changes(DeletePair(pairs[done]), t)
  {
    assert PairStatements(pairs)[..0] == [];
    assert PairStatements(pairs)[..done] == PairStatements(pairs[..done]);
    ExecutePairs(pairs[..done], s);
    var t := ExecuteAll(PairStatements(pairs)[..done], s);
    if done < |pairs| {
      assert PairStatements(pairs)[..done + 1][..done] == PairStatements(pairs)[..done];
      var before, now := PairBindingsOf(s, SetOf(pairs[..done])), PairBindingsOf(t, {pairs[done]});
      assert PairBindingsOf(s, SetOf(pairs[..done + 1])) == before + now;
      assert before !! now;
    }
  }

  lemma HeadPrefix(f: Filter, rows: seq<EntryRow>, s: Store, n: nat)
    requires n <= |PlanHead(f, rows)|
    ensures n <= |ClearPlan(f, rows)| && RunAttempt(Attempt(rows, n), f, s) == ExecuteAll(PlanHead(f, rows)[..n], s)
    ensures n == |PlanHead(f, rows)| ==> PlanHead(f, rows)[..n] == PlanHead(f, rows)
  {
    assert ClearPlan(f, rows)[..n] == PlanHead(f, rows)[..n];
  }

  function PlanTail(rows: seq<EntryRow>): seq<Statement> {
    PairStatements(PairList(rows)) + [DeleteOrphanAssets]
  }

  lemma TailPrefix(f: Filter, rows: seq<EntryRow>, s: Store, n: nat)
    requires n <= |PlanTail(rows)|
    ensures |ClearPlan(f, rows)| == |PlanHead(f, rows)| + |PlanTail(rows)|
    ensures RunAttempt(Attempt(rows, |PlanHead(f, rows)| + n), f, s)
            == ExecuteAll(PlanTail(rows)[..n], ExecuteAll(PlanHead(f, rows), s))
  {
    assert ClearPlan(f, rows)[..|PlanHead(f, rows)| + n] == PlanHead(f, rows) + PlanTail(rows)[..n];
    ExecuteAllConcat(PlanHead(f, rows), PlanTail(rows)[..n], s);
  }

  /** What a whole attempt adds to the counts of the ones before it. */
  ghost predicate Applied(s: Store, f: Filter, rows: seq<EntryRow>, before: Counts, after: Counts) {
    && after.entries == (if rows == [] then before.entries else |rows|)
    && after.links == (if ContextIds(SetOf(rows)) == {} then before.links else |LinksOf(s, ContextIds(SetOf(rows)))|)
    && after.bindings == before.bindings + |DeletedBindings(s, f)|
    && after.assets == |s.assets - Cleared(s, f).assets|
  }

  ghost predicate HeadApplied(s: Store, rows: seq<EntryRow>, before: Counts, after: Counts) {
    var ids := ContextIds(SetOf(rows));
    && after.entries == (if rows == [] then before.entries else |rows|)
    && after.links == (if ids == {} then before.links else |LinksOf(s, ids)|)
    && after.bindings == before.bindings + |ContextBindingsOf(s, ids)|
    && after.assets == before.assets
  }

  ghost predicate TailApplied(s: Store, rows: seq<EntryRow>, before: Counts, after: Counts) {
    && after.entries == before.entries && after.links == before.links
    && after.bindings == before.bindings + |PairBindingsOf(s, SetOf(PairList(rows)))|
    && after.assets == |OrphanAssets(ExecuteAll(PairStatements(PairList(rows)), s))|
  }

  lemma AttemptTotals(f: Filter, rows: seq<EntryRow>, s: Store, before: Counts, midway: Counts, after: Counts)
    requires Enumerates(rows, Candidates(s, f))
    requires HeadApplied(s, rows, before, midway) && TailApplied(ExecuteAll(PlanHead(f, rows), s), rows, midway, after)
    ensures RunAttempt(Attempt(rows, |ClearPlan(f, rows)|), f, s) == Cleared(s, f) && Applied(s, f, rows, before, after)
  {
    ClearTotals(f, rows, s);
  }

  /** An attempt whose preview failed. */
  lemma UnreadAttempt(f: Filter, s: Store, apply: bool, before: Counts, matched: Counts) returns (attempt: Attempt)
    ensures Attempted(f, s, s, apply, false, attempt, before, before, matched)
  {
    var order := SequenceOf(Candidates(s, f));
    attempt := Attempt(order, 0);
    NoStatement(f, order, s);
  }

  /** An attempt that only reads. */
  lemma IdleAttempt(f: Filter, rows: seq<EntryRow>, s: Store, before: Counts)
    requires Enumerates(rows, Candidates(s, f))
    ensures Attempted(f, s, s, false, true, Attempt(rows, 0), before, before, PreviewCounts(s, rows))
  {
    NoStatement(f, rows, s);
  }

  /** An attempt that stopped among the first deletes. */
  lemma {:induction false} HeadStopped(f: Filter, rows: seq<EntryRow>, s: Store, executed: nat, completed: bool,
                                       before: Counts, after: Counts, matched: Counts)
    requires Enumerates(rows, Candidates(s, f)) && executed <= |PlanHead(f, rows)|
    requires completed ==> executed == |PlanHead(f, rows)|
    requires executed == 0 && !completed ==> after == before
    ensures PlanHead(f, rows)[..executed] == PlanHead(f, rows) || !completed
    ensures !completed ==>
      Attempted(f, s, ExecuteAll(PlanHead(f, rows)[..executed], s), true, false, Attempt(rows, executed),
                before, after, matched)
  {
    HeadPrefix(f, rows, s, executed);
    if executed == 0 {
      NoStatement(f, rows, s);
    }
  }

  /** An attempt that stopped later, or ran to the end. */
  lemma {:induction false} TailStopped(f: Filter, rows: seq<EntryRow>, s: Store, done: nat, completed: bool,
                                       before: Counts, midway: Counts, after: Counts)
    requires Enumerates(rows, Candidates(s, f)) && done <= |PlanTail(rows)|
    requires completed ==> done == |PlanTail(rows)|
    requires HeadApplied(s, rows, before, midway)
    requires completed ==> TailApplied(ExecuteAll(PlanHead(f, rows), s), rows, midway, after)
    requires done == 0 && !completed ==> after == midway
    ensures Attempted(f, s, ExecuteAll(PlanTail(rows)[..done], ExecuteAll(PlanHead(f, rows), s)), true, completed,
                      Attempt(rows, |PlanHead(f, rows)| + done), before, after, PreviewCounts(s, rows))
  {
    TailPrefix(f, rows, s, done);
    if |PlanHead(f, rows)| + done == 0 {
      HeadIdle(f, rows, s, before, midway);
      NoStatement(f, rows, s);
    }
    if completed {
      AttemptTotals(f, rows, s, before, midway, after);
    }
  }

  /** The numbers that the statements of a whole attempt report add up to what the tables lost. */
  lemma ClearTotals(f: Filter, rows: seq<EntryRow>, s: Store)
    requires Enumerates(rows, Candidates(s, f))
    ensures var t := ExecuteAll(PlanHead(f, rows), s);
            var u := ExecuteAll(PairStatements(PairList(rows)), t);
            && RunAttempt(Attempt(rows, |ClearPlan(f, rows)|), f, s) == Execute(DeleteOrphanAssets, u) == Cleared(s, f)
            && |ContextBindingsOf(s, ContextIds(SetOf(rows)))| + |PairBindingsOf(t, SetOf(PairList(rows)))|
               == |DeletedBindings(s, f)|
            && OrphanAssets(u) == s.assets - Cleared(s, f).assets
  {
    var t := ExecuteAll(PlanHead(f, rows), s);
    var u := ExecuteAll(PairStatements(PairList(rows)), t);
    var plan := ClearPlan(f, rows);
    WholePlanClears(f, rows, s);
    assert plan[..|plan|] == plan && plan[..|plan| - 1] == PlanHead(f, rows) + PairStatements(PairList(rows));
    ExecuteAllConcat(PlanHead(f, rows), PairStatements(PairList(rows)), s);
    assert Execute(DeleteOrphanAssets, u) == Cleared(s, f);
    ExecuteHead(f, rows, s);
    PairListMembers(rows);
    ExecutePairs(PairList(rows), t);
    BindingTotals(f, s, t);
    OrphanTotals(u, s.assets);
  }

  lemma OrphanTotals(u: Store, assets: set<FileAssetRow>)
    requires u.assets == assets
    ensures OrphanAssets(u) == assets - Execute(DeleteOrphanAssets, u).assets
  {
  }

  lemma BindingTotals(f: Filter, s: Store, t: Store)
    requires t.bindings == s.bindings - ContextBindingsOf(s, ContextIds(Candidates(s, f)))
    ensures |ContextBindingsOf(s, ContextIds(Candidates(s, f)))| + |PairBindingsOf(t, BindingPairs(Candidates(s, f)))|
            == |DeletedBindings(s, f)|
  {
    var ids, pairs := ContextIds(Candidates(s, f)), BindingPairs(Candidates(s, f));
    assert DeletedBindings(s, f) == ContextBindingsOf(s, ids) + PairBindingsOf(t, pairs);
    assert ContextBindingsOf(s, ids) !! PairBindingsOf(t, pairs);
  }

  lemma ReferencesOneMore(seen: set<FileAssetRow>, row: FileAssetRow)
    requires row.storageRelpath.Some? && LikeBlobs(row.storageRelpath.value)
    ensures ReferencedRelpaths(seen + {row}) == ReferencedRelpaths(seen) + {Slashed(Trim(row.storageRelpath.value))}
  {
    assert BlobAssets(seen + {row}) == BlobAssets(seen) + {row};
    assert Spelt(row) == Slashed(Trim(row.storageRelpath.value));
    SpeltMore(BlobAssets(seen), row);
  }

  lemma {:induction false} SpeltMore(rows: set<FileAssetRow>, row: FileAssetRow)
    ensures (set a | a in rows + {row} :: Spelt(a)) == (set a | a in rows :: Spelt(a)) + {Spelt(row)}
  {
  }

  /** The loop over the selected rows skips empty paths; there are none. */
  lemma LikeIsNotBlank(relpath: string)
    requires LikeBlobs(relpath)
    ensures Trim(relpath) != ""
  {
    assert !IsSpace(relpath[0]);
  }

  lemma NothingToPrune(action: PruneAction, s: Store)
    requires OrphanCount(action, s) == 0
    ensures Prune(action, s) == s
  {
  }

  /** The actions that did not throw, in their order. */
  function Succeeded(actions: seq<PruneAction>, results: seq<Option<PruneResult>>): seq<PruneAction>
    requires |results| == |actions|
  {
    if actions == [] then []
    else
      var n := |actions| - 1;
      Succeeded(actions[..n], results[..n]) + (if results[n].Some? then [actions[n]] else [])
  }

  lemma SucceededMore(actions: seq<PruneAction>, results: seq<Option<PruneResult>>, action: PruneAction,
                      result: Option<PruneResult>)
    requires |results| == |actions|
    ensures Succeeded(actions + [action], results + [result])
            == Succeeded(actions, results) + (if result.Some? then [action] else [])
  {
    assert (actions + [action])[..|actions|] == actions && (results + [result])[..|results|] == results;
  }

  lemma {:induction false} RunActionsSnoc(actions: seq<PruneAction>, last: PruneAction, s: Store)
    ensures RunActions(actions + [last], s) == Prune(last, RunActions(actions, s))
  {
    if actions == [] {
      assert RunActions([last][1..], Prune(last, s)) == Prune(last, s);
    } else {
      assert (actions + [last])[1..] == actions[1..] + [last];
      RunActionsSnoc(actions[1..], last, Prune(actions[0], s));
    }
  }

  lemma {:induction false} DistinctSize(rows: seq<EntryRow>)
    requires Distinct(rows)
    ensures |SetOf(rows)| == |rows|
  {
    if rows != [] {
      DistinctSize(rows[1..]);
      assert SetOf(rows) == {rows[0]} + SetOf(rows[1..]);
      assert rows[0] !in SetOf(rows[1..]);
    }
  }
}
