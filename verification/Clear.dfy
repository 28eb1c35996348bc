/** The SQL half of `cache clear`: the statements one attempt runs, what an uninterrupted attempt does
    to the tables, and what repair makes of an attempt that was cut short. */
module ClearRows {
  import opened Wrappers
  import opened CacheTables
  import opened RepairActions
  import opened SqlWhere

  datatype Filter = Filter(datasets: Option<seq<string>>, cutoffIso: Option<string>)

  function Candidates(s: Store, f: Filter): set<EntryRow> {
    set e | e in s.entries && Selected(f.datasets, f.cutoffIso, e)
  }

  function ContextIds(rows: set<EntryRow>): set<string> {
    set e | e in rows && e.dataset == CONTEXT_DATASET :: e.entityId
  }

  /** The rows that become a (dataset, entity id) pair; a pair with an empty half is dropped. */
  predicate HasPair(e: EntryRow) {
    e.dataset != CONTEXT_DATASET && e.dataset != "" && e.entityId != ""
  }

  function BindingPairs(rows: set<EntryRow>): set<EntryKey> {
    set e | e in rows && HasPair(e) :: KeyOf(e)
  }

  function LinksOf(s: Store, ids: set<string>): set<SourceLinkRow> {
    set l | l in s.links && l.conversationId in ids
  }

  function ArtifactsOf(s: Store, ids: set<string>): set<ArtifactBindingRow> {
    set a | a in s.artifacts && a.conversationId in ids
  }

  function ContextBindingsOf(s: Store, ids: set<string>): set<FileBindingRow> {
    set b | b in s.bindings && b.dataset == CONTEXT_DATASET && b.entityId in ids
  }

  function PairBindingsOf(s: Store, pairs: set<EntryKey>): set<FileBindingRow> {
    set b | b in s.bindings && BindingKey(b) in pairs
  }

  /** The tables after an applied clear that nothing interrupts. */
  function Cleared(s: Store, f: Filter): Store {
    var rows := Candidates(s, f);
    var bindings := s.bindings - ContextBindingsOf(s, ContextIds(rows)) - PairBindingsOf(s, BindingPairs(rows));
    s.(entries := s.entries - rows,
       links := s.links - LinksOf(s, ContextIds(rows)),
       bindings := bindings,
       assets := set a | a in s.assets && a.assetId in ReferencedAssets(bindings))
  }

  // ----- Referential integrity -----

  lemma ClearKeepsLinkOwners(s: Store, f: Filter)
    requires OrphanLinks(s) == {}
    ensures OrphanLinks(Cleared(s, f)) == {}
  {
    var t, rows := Cleared(s, f), Candidates(s, f);
    forall l | l in t.links
      ensures LinkKey(l) in Keys(t.entries)
    {
      assert l !in OrphanLinks(s);
      var e :| e in s.entries && KeyOf(e) == LinkKey(l);
      assert e in rows ==> e.entityId in ContextIds(rows);
    }
  }

  /** A clear of a store without orphan bindings strands exactly the bindings whose pair is dropped,
      so none when binding keys have no empty half. */
  lemma ClearStrandsDroppedPairs(s: Store, f: Filter)
    requires UniqueKeys(s.entries) && OrphanBindings(s) == {}
    ensures OrphanBindings(Cleared(s, f))
            == set b | b in s.bindings && b.dataset != CONTEXT_DATASET && (b.dataset == "" || b.entityId == "")
                       && BindingKey(b) in Keys(Candidates(s, f))
  {
    var t, rows := Cleared(s, f), Candidates(s, f);
    RemovedKeysAreGone(s.entries, rows);
    forall b | b in s.bindings
      ensures BindingKey(b) in Keys(s.entries)
      ensures b in ContextBindingsOf(s, ContextIds(rows))
              <==> b.dataset == CONTEXT_DATASET && BindingKey(b) in Keys(rows)
      ensures b in PairBindingsOf(s, BindingPairs(rows))
              <==> b.dataset != CONTEXT_DATASET && b.dataset != "" && b.entityId != "" && BindingKey(b) in Keys(rows)
    {
      assert b !in OrphanBindings(s);
    }
  }

  lemma ClearKeepsBindingOwners(s: Store, f: Filter)
    requires OrphanBindings(s) == {}
    requires forall b | b in s.bindings :: b.dataset != "" && b.entityId != ""
    ensures OrphanBindings(Cleared(s, f)) == {}
  {
    var t, rows := Cleared(s, f), Candidates(s, f);
    forall b | b in t.bindings
      ensures BindingKey(b) in Keys(t.entries)
    {
      assert b !in OrphanBindings(s);
      var e :| e in s.entries && KeyOf(e) == BindingKey(b);
      assert e in rows && e.dataset == CONTEXT_DATASET ==> e.entityId in ContextIds(rows);
      assert e in rows && e.dataset != CONTEXT_DATASET ==> KeyOf(e) in BindingPairs(rows);
    }
  }

  /** `artifact_bindings` is never deleted from: with unique keys its new orphans are the rows of the
      matched conversations and nothing else. */
  lemma ClearStrandsArtifacts(s: Store, f: Filter)
    requires UniqueKeys(s.entries)
    ensures OrphanArtifacts(Cleared(s, f)) == OrphanArtifacts(s) + ArtifactsOf(s, ContextIds(Candidates(s, f)))
  {
    var rows := Candidates(s, f);
    RemovedKeysAreGone(s.entries, rows);
    forall a | a in s.artifacts
      ensures a.conversationId in ContextIds(rows) <==> ArtifactKey(a) in Keys(rows)
    {
    }
  }

  // ----- The statements of an attempt -----

  datatype Statement =
    | DeleteEntries(filter: Filter)
    | DeleteLinks(ids: set<string>)
    | DeleteContextBindings(contextIds: set<string>)
    | DeletePair(pair: EntryKey)
    | DeleteOrphanAssets

  function Execute(statement: Statement, s: Store): Store {
    match statement
    case DeleteEntries(f) => s.(entries := s.entries - Candidates(s, f))
    case DeleteLinks(ids) => s.(links := s.links - LinksOf(s, ids))
    case DeleteContextBindings(ids) => s.(bindings := s.bindings - ContextBindingsOf(s, ids))
    case DeletePair(pair) => s.(bindings := s.bindings - PairBindingsOf(s, {pair}))
    case DeleteOrphanAssets => s.(assets := s.assets - OrphanAssets(s))
  }

  function ExecuteAll(statements: seq<Statement>, s: Store): Store {
    if statements == [] then s else Execute(statements[|statements| - 1], ExecuteAll(statements[..|statements| - 1], s))
  }

  /** The pairs in the order of the candidate rows, duplicates included. */
  function PairList(rows: seq<EntryRow>): seq<EntryKey> {
    if rows == [] then [] else (if HasPair(rows[0]) then [KeyOf(rows[0])] else []) + PairList(rows[1..])
  }

  function PairStatements(pairs: seq<EntryKey>): seq<Statement> {
    seq(|pairs|, i requires 0 <= i < |pairs| => DeletePair(pairs[i]))
  }

  function PlanHead(f: Filter, rows: seq<EntryRow>): seq<Statement> {
    var ids := ContextIds(SetOf(rows));
    (if rows != [] then [DeleteEntries(f)] else [])
    + (if ids != {} then [DeleteLinks(ids), DeleteContextBindings(ids)] else [])
  }

  /** The deletes that one attempt runs after it has read its candidate rows. */
  function ClearPlan(f: Filter, rows: seq<EntryRow>): seq<Statement> {
    PlanHead(f, rows) + PairStatements(PairList(rows)) + [DeleteOrphanAssets]
  }

  lemma {:induction false} PairListMembers(rows: seq<EntryRow>)
    ensures SetOf(PairList(rows)) == BindingPairs(SetOf(rows))
  {
    if rows != [] {
      PairListMembers(rows[1..]);
      assert SetOf(rows) == {rows[0]} + SetOf(rows[1..]);
      forall p ensures p in PairList(rows) <==> (HasPair(rows[0]) && p == KeyOf(rows[0])) || p in PairList(rows[1..]) {
      }
      forall p ensures p in BindingPairs(SetOf(rows))
                   <==> (HasPair(rows[0]) && p == KeyOf(rows[0])) || p in BindingPairs(SetOf(rows[1..])) {
      }
    }
  }

  lemma {:induction false} ExecutePairs(pairs: seq<EntryKey>, s: Store)
    ensures ExecuteAll(PairStatements(pairs), s) == s.(bindings := s.bindings - PairBindingsOf(s, SetOf(pairs)))
  {
    if pairs == [] {
    } else {
      var init := pairs[..|pairs| - 1];
      ExecutePairs(init, s);
      assert PairStatements(pairs)[..|pairs| - 1] == PairStatements(init);
      assert pairs == init + [pairs[|pairs| - 1]];
      assert SetOf(pairs) == SetOf(init) + {pairs[|pairs| - 1]};
    }
  }

  lemma {:induction false} ExecuteAllConcat(first: seq<Statement>, second: seq<Statement>, s: Store)
    ensures ExecuteAll(first + second, s) == ExecuteAll(second, ExecuteAll(first, s))
  {
    if second == [] {
      assert first + second == first;
    } else {
      assert (first + second)[..|first + second| - 1] == first + second[..|second| - 1];
      ExecuteAllConcat(first, second[..|second| - 1], s);
    }
  }

  /** A SELECT returns every matching row once, in an order of its own. */
  ghost predicate Enumerates(rows: seq<EntryRow>, entries: set<EntryRow>) {
    SetOf(rows) == entries && Distinct(rows)
  }

  lemma ExecuteHead(f: Filter, rows: seq<EntryRow>, s: Store)
    requires Enumerates(rows, Candidates(s, f))
    ensures ExecuteAll(PlanHead(f, rows), s)
            == var ids := ContextIds(Candidates(s, f));
               s.(entries := s.entries - Candidates(s, f),
                  links := s.links - LinksOf(s, ids),
                  bindings := s.bindings - ContextBindingsOf(s, ids))
  {
    var ids := ContextIds(Candidates(s, f));
    var head := PlanHead(f, rows);
    if rows == [] {
      assert Candidates(s, f) == {};
      assert head == [];
    } else {
      assert rows[0] in Candidates(s, f);
      var first := [DeleteEntries(f)];
      assert ExecuteAll(first, s) == Execute(first[0], s) by {
        assert first[..0] == [];
      }
      if ids == {} {
        assert head == first;
        assert LinksOf(s, ids) == {} && ContextBindingsOf(s, ids) == {};
      } else {
        assert head[..1] == first && head[..2] == first + [DeleteLinks(ids)];
        assert ExecuteAll(head[..2], s) == Execute(DeleteLinks(ids), ExecuteAll(first, s)) by {
          assert head[..2][..1] == first;
        }
        assert head[..|head| - 1] == head[..2];
      }
    }
  }

  /** The statements of a whole attempt add up to the uninterrupted clear. */
  lemma WholePlanClears(f: Filter, rows: seq<EntryRow>, s: Store)
    requires Enumerates(rows, Candidates(s, f))
    ensures ExecuteAll(ClearPlan(f, rows), s) == Cleared(s, f)
  {
    var head, pairs := PlanHead(f, rows), PairStatements(PairList(rows));
    ExecuteHead(f, rows, s);
    PairListMembers(rows);
    ExecuteAllConcat(head, pairs, s);
    ExecutePairs(PairList(rows), ExecuteAll(head, s));
    var t := ExecuteAll(head + pairs, s);
    assert t.bindings == Cleared(s, f).bindings;
    assert ClearPlan(f, rows)[..|head + pairs|] == head + pairs;
  }

  // ----- Interrupted and retried clears -----

  /** One attempt: the candidate rows it read, and how many of its statements ran before it stopped. */
  datatype Attempt = Attempt(rows: seq<EntryRow>, executed: nat)

  ghost predicate ValidAttempt(a: Attempt, f: Filter, s: Store) {
    Enumerates(a.rows, Candidates(s, f)) && a.executed <= |ClearPlan(f, a.rows)|
  }

  function RunAttempt(a: Attempt, f: Filter, s: Store): Store
    requires a.executed <= |ClearPlan(f, a.rows)|
  {
    ExecuteAll(ClearPlan(f, a.rows)[..a.executed], s)
  }

  /** `t` can be reached from `s` by attempts that each read their candidates afresh and stop anywhere. */
  ghost predicate ClearReaches(attempts: seq<Attempt>, f: Filter, s: Store, t: Store) {
    if attempts == [] then s == t
    else
      && ValidAttempt(attempts[0], f, s)
      && ClearReaches(attempts[1..], f, RunAttempt(attempts[0], f, s), t)
  }

  /** The rows that the remaining entries still own. */
  function LiveLinks(s: Store, entries: set<EntryRow>): set<SourceLinkRow> {
    set l | l in s.links && LinkKey(l) in Keys(entries)
  }

  function LiveBindings(s: Store, entries: set<EntryRow>): set<FileBindingRow> {
    set b | b in s.bindings && BindingKey(b) in Keys(entries)
  }

  function LiveAssets(s: Store, entries: set<EntryRow>): set<FileAssetRow> {
    set a | a in s.assets && a.assetId in ReferencedAssets(LiveBindings(s, entries))
  }

  /** `t` has the entries `entries` and has lost only rows of `s` that these do not own. */
  ghost predicate Between(s: Store, entries: set<EntryRow>, t: Store) {
    && t.entries == entries
    && t.artifacts == s.artifacts
    && LiveLinks(s, entries) <= t.links <= s.links
    && LiveBindings(s, entries) <= t.bindings <= s.bindings
    && LiveAssets(s, entries) <= t.assets <= s.assets
  }

  lemma BetweenRepairsAlike(s: Store, entries: set<EntryRow>, t: Store, u: Store)
    requires Between(s, entries, t) && Between(s, entries, u)
    ensures Pass(Pass(t)) == Pass(Pass(u))
  {
    BetweenSettles(s, entries, t);
    BetweenSettles(s, entries, u);
  }

  lemma BetweenSettles(s: Store, entries: set<EntryRow>, t: Store)
    requires Between(s, entries, t)
    ensures Pass(Pass(t)) == Store(entries, LiveLinks(s, entries), LiveBindings(s, entries), LiveAssets(s, entries),
                                   set a | a in s.artifacts && ArtifactKey(a) in Keys(entries))
  {
    RunActionsOutcome(LISTED_ORDER, t);
    TwoPassesClean(t);
    assert t.bindings - OrphanBindings(t) == LiveBindings(s, entries);
    assert t.links - OrphanLinks(t) == LiveLinks(s, entries);
    assert Pass(Pass(t)).assets == LiveAssets(s, entries);
  }

  /** A statement of the plan removes nothing that a remaining entry owns. */
  lemma StatementStaysBetween(s: Store, f: Filter, t: Store, statement: Statement)
    requires UniqueKeys(s.entries)
    requires Between(s, s.entries - Candidates(s, f), t)
    requires match statement
             case DeleteEntries(g) => g == f
             case DeleteLinks(ids) => ids <= ContextIds(Candidates(s, f))
             case DeleteContextBindings(ids) => ids <= ContextIds(Candidates(s, f))
             case DeletePair(pair) => pair in BindingPairs(Candidates(s, f))
             case DeleteOrphanAssets => true
    ensures Between(s, s.entries - Candidates(s, f), Execute(statement, t))
  {
    var rows := Candidates(s, f);
    var entries := s.entries - rows;
    RemovedKeysAreGone(s.entries, rows);
    match statement {
      case DeleteEntries(g) =>
        assert Candidates(t, f) == {};
      case DeleteLinks(ids) =>
        assert forall l | l in s.links && l.conversationId in ids :: LinkKey(l) in Keys(rows);
      case DeleteContextBindings(ids) =>
        assert forall b | b in ContextBindingsOf(s, ids) :: BindingKey(b) in Keys(rows);
      case DeletePair(pair) =>
        assert pair in Keys(rows);
      case DeleteOrphanAssets =>
        ReferencedAssetsMonotone(LiveBindings(s, entries), t.bindings);
    }
  }

  lemma PlanStatements(f: Filter, rows: seq<EntryRow>, i: nat)
    requires i < |ClearPlan(f, rows)|
    ensures match ClearPlan(f, rows)[i]
            case DeleteEntries(g) => g == f
            case DeleteLinks(ids) => ids == ContextIds(SetOf(rows))
            case DeleteContextBindings(ids) => ids == ContextIds(SetOf(rows))
            case DeletePair(pair) => pair in BindingPairs(SetOf(rows))
            case DeleteOrphanAssets => true
  {
    PairListMembers(rows);
    var head, pairs := PlanHead(f, rows), PairList(rows);
    if |head| <= i < |head| + |pairs| {
      assert ClearPlan(f, rows)[i] == DeletePair(pairs[i - |head|]);
    }
  }

  lemma {:induction false} PrefixStaysBetween(s: Store, f: Filter, rows: seq<EntryRow>, t: Store, n: nat)
    requires UniqueKeys(s.entries) && SetOf(rows) <= Candidates(s, f)
    requires Between(s, s.entries - Candidates(s, f), t)
    requires n <= |ClearPlan(f, rows)|
    ensures Between(s, s.entries - Candidates(s, f), ExecuteAll(ClearPlan(f, rows)[..n], t))
  {
    if n > 0 {
      PrefixStaysBetween(s, f, rows, t, n - 1);
      PlanStatements(f, rows, n - 1);
      assert ClearPlan(f, rows)[..n][..n - 1] == ClearPlan(f, rows)[..n - 1];
      var u := ExecuteAll(ClearPlan(f, rows)[..n - 1], t);
      StatementStaysBetween(s, f, u, ClearPlan(f, rows)[n - 1]);
    }
  }

  /** The first statement that runs either deletes the entries or finds none to delete. */
  lemma FirstAttempt(s: Store, f: Filter, a: Attempt)
    requires UniqueKeys(s.entries) && ValidAttempt(a, f, s) && a.executed > 0
    ensures Between(s, s.entries - Candidates(s, f), RunAttempt(a, f, s))
  {
    var plan := ClearPlan(f, a.rows);
    var entries := s.entries - Candidates(s, f);
    if a.rows == [] {
      assert Candidates(s, f) == {};
      PrefixStaysBetween(s, f, a.rows, s, a.executed);
    } else {
      var t := Execute(plan[0], s);
      assert plan[0] == DeleteEntries(f);
      assert Between(s, entries, t);
      assert plan[..1] == [plan[0]];
      assert ExecuteAll(plan[..1], s) == t by {
        assert plan[..1][..0] == [];
      }
      FromFirst(s, f, a.rows, a.executed);
    }
  }

  lemma {:induction false} FromFirst(s: Store, f: Filter, rows: seq<EntryRow>, n: nat)
    requires UniqueKeys(s.entries) && Enumerates(rows, Candidates(s, f)) && rows != []
    requires 0 < n <= |ClearPlan(f, rows)|
    ensures Between(s, s.entries - Candidates(s, f), ExecuteAll(ClearPlan(f, rows)[..n], s))
  {
    var plan := ClearPlan(f, rows);
    assert plan[..n][..n - 1] == plan[..n - 1];
    if n == 1 {
      assert plan[..0] == [];
      assert plan[0] == DeleteEntries(f);
    } else {
      FromFirst(s, f, rows, n - 1);
      PlanStatements(f, rows, n - 1);
      StatementStaysBetween(s, f, ExecuteAll(plan[..n - 1], s), plan[n - 1]);
    }
  }

  lemma {:induction false} LaterAttempts(s: Store, f: Filter, t: Store, attempts: seq<Attempt>, u: Store)
    requires UniqueKeys(s.entries) && Between(s, s.entries - Candidates(s, f), t)
    requires ClearReaches(attempts, f, t, u)
    ensures Between(s, s.entries - Candidates(s, f), u)
    decreases attempts
  {
    if attempts != [] {
      assert Candidates(t, f) == {};
      PrefixStaysBetween(s, f, attempts[0].rows, t, attempts[0].executed);
      LaterAttempts(s, f, RunAttempt(attempts[0], f, t), attempts[1..], u);
    }
  }

  lemma {:induction false} ReachedIsBetween(s: Store, f: Filter, attempts: seq<Attempt>, t: Store)
    requires UniqueKeys(s.entries) && ClearReaches(attempts, f, s, t)
    ensures t == s || Between(s, s.entries - Candidates(s, f), t)
    decreases attempts
  {
    if attempts != [] {
      if attempts[0].executed == 0 {
        ReachedIsBetween(s, f, attempts[1..], t);
      } else {
        FirstAttempt(s, f, attempts[0]);
        LaterAttempts(s, f, RunAttempt(attempts[0], f, s), attempts[1..], t);
      }
    }
  }

  lemma ClearedIsBetween(s: Store, f: Filter)
    requires UniqueKeys(s.entries)
    ensures Between(s, s.entries - Candidates(s, f), Cleared(s, f))
  {
    var rows := SequenceOf(Candidates(s, f));
    WholePlanClears(f, rows, s);
    var plan := ClearPlan(f, rows);
    assert plan[..|plan|] == plan;
    FirstAttempt(s, f, Attempt(rows, |plan|));
  }

  lemma {:induction false} SequenceOf(entries: set<EntryRow>) returns (rows: seq<EntryRow>)
    ensures Enumerates(rows, entries) && |rows| == |entries|
  {
    if entries == {} {
      rows := [];
    } else {
      var e :| e in entries;
      var rest := SequenceOf(entries - {e});
      DistinctSnoc(rest, e);
      rows := rest + [e];
    }
  }

  /** Whatever fails, rows that a remaining entry owns are safe. */
  ghost predicate RowsSafe(s: Store, f: Filter, t: Store) {
    t == s || Between(s, s.entries - Candidates(s, f), t)
  }

  /** Crash confluence: wherever a clear stops, however often it was retried, two repair passes bring
      the tables to where they bring those of an uninterrupted clear, unless nothing was written. */
  lemma CrashConfluence(s: Store, f: Filter, attempts: seq<Attempt>, t: Store)
    requires UniqueKeys(s.entries) && ClearReaches(attempts, f, s, t)
    ensures RowsSafe(s, f, t)
    ensures t == s || (t.entries == Cleared(s, f).entries && Pass(Pass(t)) == Pass(Pass(Cleared(s, f))))
  {
    ReachedIsBetween(s, f, attempts, t);
    if t != s {
      ClearedIsBetween(s, f);
      BetweenRepairsAlike(s, s.entries - Candidates(s, f), t, Cleared(s, f));
    }
  }

  // ----- Retries that complete -----

  /** `t` is `s` after the entries went and some of what an uninterrupted clear deletes besides. */
  ghost predicate Partly(s: Store, f: Filter, t: Store) {
    && t.entries == s.entries - Candidates(s, f)
    && t.artifacts == s.artifacts
    && Cleared(s, f).links <= t.links <= s.links
    && Cleared(s, f).bindings <= t.bindings <= s.bindings
    && Cleared(s, f).assets <= t.assets <= s.assets
  }

  /** Nothing that hangs on the matched rows is still there. */
  ghost predicate NothingLeft(s: Store, f: Filter, t: Store) {
    var rows := Candidates(s, f);
    && LinksOf(t, ContextIds(rows)) == {}
    && ContextBindingsOf(t, ContextIds(rows)) == {}
    && PairBindingsOf(t, BindingPairs(rows)) == {}
  }

  lemma {:induction false} StatementStaysPartly(s: Store, f: Filter, t: Store, statement: Statement)
    requires Partly(s, f, t)
    requires match statement
             case DeleteEntries(g) => g == f
             case DeleteLinks(ids) => ids <= ContextIds(Candidates(s, f))
             case DeleteContextBindings(ids) => ids <= ContextIds(Candidates(s, f))
             case DeletePair(pair) => pair in BindingPairs(Candidates(s, f))
             case DeleteOrphanAssets => true
    ensures Partly(s, f, Execute(statement, t))
  {
    match statement {
      case DeleteEntries(g) =>
        assert Candidates(t, f) == {};
      case DeleteLinks(ids) =>
      case DeleteContextBindings(ids) =>
      case DeletePair(pair) =>
      case DeleteOrphanAssets =>
        ReferencedAssetsMonotone(Cleared(s, f).bindings, t.bindings);
    }
  }

  /** The first statement of an attempt deletes the entries, or, when there are none, the orphan assets. */
  lemma {:induction false} FirstStatementIsPartly(s: Store, f: Filter, rows: seq<EntryRow>)
    requires Enumerates(rows, Candidates(s, f))
    ensures Partly(s, f, RunAttempt(Attempt(rows, 1), f, s))
  {
    SingleStatement(f, rows, s);
    ReferencedAssetsMonotone(Cleared(s, f).bindings, s.bindings);
    if rows == [] {
      assert Candidates(s, f) == {};
      assert LinksOf(s, {}) == {} && ContextBindingsOf(s, {}) == {} && PairBindingsOf(s, {}) == {};
    }
  }

  lemma {:induction false} AttemptIsPartly(s: Store, f: Filter, rows: seq<EntryRow>, n: nat)
    requires Enumerates(rows, Candidates(s, f)) && 1 <= n <= |ClearPlan(f, rows)|
    ensures Partly(s, f, RunAttempt(Attempt(rows, n), f, s))
  {
    if n == 1 {
      FirstStatementIsPartly(s, f, rows);
    } else {
      var plan := ClearPlan(f, rows);
      AttemptIsPartly(s, f, rows, n - 1);
      PlanStatements(f, rows, n - 1);
      assert plan[..n][..n - 1] == plan[..n - 1];
      StatementStaysPartly(s, f, RunAttempt(Attempt(rows, n - 1), f, s), plan[n - 1]);
    }
  }

  lemma {:induction false} LeftIsUncleared(s: Store, f: Filter, t: Store)
    requires Partly(s, f, t)
    ensures NothingLeft(s, f, t) <==> t.links <= Cleared(s, f).links && t.bindings <= Cleared(s, f).bindings
  {
    var c, rows := Cleared(s, f), Candidates(s, f);
    if NothingLeft(s, f, t) {
      forall l | l in t.links ensures l in c.links {
        assert l !in LinksOf(t, ContextIds(rows));
      }
      forall b | b in t.bindings ensures b in c.bindings {
        assert b !in ContextBindingsOf(t, ContextIds(rows)) && b !in PairBindingsOf(t, BindingPairs(rows));
      }
    }
  }

  lemma {:induction false} PartlyCompletes(s: Store, f: Filter, t: Store)
    requires Partly(s, f, t)
    ensures Execute(DeleteOrphanAssets, t) == Cleared(s, f) <==> NothingLeft(s, f, t)
    ensures Execute(DeleteOrphanAssets, Execute(DeleteOrphanAssets, t)) == Execute(DeleteOrphanAssets, t)
    ensures Candidates(t, f) == {}
  {
    var u := Execute(DeleteOrphanAssets, t);
    LeftIsUncleared(s, f, t);
    if NothingLeft(s, f, t) {
      assert u.assets == Cleared(s, f).assets;
    }
    assert OrphanAssets(u) == {};
  }

  /** When a retry after any stop completes, it has only dropped more orphan assets; so it ends where an
      uninterrupted clear ends if and only if the interrupted attempt had left nothing behind. */
  lemma {:induction false} RetryExactlyWhen(s: Store, f: Filter, rows: seq<EntryRow>, n: nat)
    requires Enumerates(rows, Candidates(s, f)) && 1 <= n <= |ClearPlan(f, rows)|
    ensures var t := RunAttempt(Attempt(rows, n), f, s);
            var u := Execute(DeleteOrphanAssets, t);
            && ClearReaches([Attempt(rows, n), Attempt([], 1)], f, s, u)
            && (u == Cleared(s, f) <==> NothingLeft(s, f, t))
  {
    var first, second := Attempt(rows, n), Attempt([], 1);
    var t := RunAttempt(first, f, s);
    AttemptIsPartly(s, f, rows, n);
    PartlyCompletes(s, f, t);
    SingleStatement(f, [], t);
    assert [first, second][1..] == [second] && [second][1..] == [];
    assert ClearReaches([second], f, t, Execute(DeleteOrphanAssets, t));
  }

  /** The links and the bindings that a statement would delete. */
  function LinksHit(statement: Statement, s: Store): set<SourceLinkRow> {
    if statement.DeleteLinks? then LinksOf(s, statement.ids) else {}
  }

  function BindingsHit(statement: Statement, s: Store): set<FileBindingRow> {
    match statement
    case DeleteContextBindings(ids) => ContextBindingsOf(s, ids)
    case DeletePair(pair) => PairBindingsOf(s, {pair})
    case _ => {}
  }

  /** What is left of the links and bindings after the first statements of a list is what none of them hits. */
  lemma {:induction false} LeftAfter(statements: seq<Statement>, s: Store, n: nat)
    requires n <= |statements|
    ensures var t := ExecuteAll(statements[..n], s);
            && (forall l :: l in t.links <==> l in s.links && forall i | 0 <= i < n :: l !in LinksHit(statements[i], s))
            && (forall b ::
                  b in t.bindings <==> b in s.bindings && forall i | 0 <= i < n :: b !in BindingsHit(statements[i], s))
  {
    if n > 0 {
      LeftAfter(statements, s, n - 1);
      assert statements[..n][..n - 1] == statements[..n - 1];
      var before, last := ExecuteAll(statements[..n - 1], s), statements[n - 1];
      assert LinksHit(last, before) == LinksHit(last, s) * before.links;
      assert BindingsHit(last, before) == BindingsHit(last, s) * before.bindings;
      assert Execute(last, before).links == before.links - LinksHit(last, before);
      assert Execute(last, before).bindings == before.bindings - BindingsHit(last, before);
    }
  }

  /** From the `n`-th statement on, nothing hits a link or a binding of `s`, unless it repeats an earlier one. */
  ghost predicate RestIsIdle(plan: seq<Statement>, n: nat, s: Store)
    requires n <= |plan|
  {
    forall i | n <= i < |plan| && plan[i] !in plan[..n] :: LinksHit(plan[i], s) == {} && BindingsHit(plan[i], s) == {}
  }

  /** Different statements of one plan hit different rows. */
  lemma {:induction false} HitOnce(s: Store, f: Filter, rows: seq<EntryRow>, i: nat, j: nat)
    requires i < |ClearPlan(f, rows)| && j < |ClearPlan(f, rows)|
    ensures var plan := ClearPlan(f, rows);
            plan[i] != plan[j] ==>
              LinksHit(plan[i], s) !! LinksHit(plan[j], s) && BindingsHit(plan[i], s) !! BindingsHit(plan[j], s)
  {
    PlanStatements(f, rows, i);
    PlanStatements(f, rows, j);
  }

  /** Whether anything is left behind can be told from the tables of before and the number of statements that
      ran: the others must have had nothing to delete there. */
  lemma {:induction false} NothingLeftExactlyWhen(s: Store, f: Filter, rows: seq<EntryRow>, n: nat)
    requires Enumerates(rows, Candidates(s, f)) && 1 <= n <= |ClearPlan(f, rows)|
    ensures NothingLeft(s, f, RunAttempt(Attempt(rows, n), f, s)) <==> RestIsIdle(ClearPlan(f, rows), n, s)
  {
    var plan, t, c := ClearPlan(f, rows), RunAttempt(Attempt(rows, n), f, s), Cleared(s, f);
    AttemptIsPartly(s, f, rows, n);
    LeftIsUncleared(s, f, t);
    LeftAfter(plan, s, n);
    LeftAfter(plan, s, |plan|);
    WholePlanClears(f, rows, s);
    assert plan[..|plan|] == plan;
    if NothingLeft(s, f, t) {
      forall i | n <= i < |plan| && plan[i] !in plan[..n]
        ensures LinksHit(plan[i], s) == {} && BindingsHit(plan[i], s) == {}
      {
        forall j | 0 <= j < n ensures plan[j] in plan[..n] && plan[j] != plan[i] {
          assert plan[..n][j] == plan[j];
        }
        forall j | 0 <= j < n
          ensures LinksHit(plan[i], s) !! LinksHit(plan[j], s) && BindingsHit(plan[i], s) !! BindingsHit(plan[j], s)
        {
          HitOnce(s, f, rows, i, j);
        }
        forall l | l in s.links ensures l !in LinksHit(plan[i], s) {
        }
        forall b | b in s.bindings ensures b !in BindingsHit(plan[i], s) {
        }
      }
    }
    if RestIsIdle(plan, n, s) {
      forall l | l in t.links ensures l in c.links {
        forall i | 0 <= i < |plan| ensures l !in LinksHit(plan[i], s) {
        }
      }
      forall b | b in t.bindings ensures b in c.bindings {
        forall i | 0 <= i < |plan| ensures b !in BindingsHit(plan[i], s) {
        }
      }
    }
  }

  /** So a busy error after `n` deletes, and a retry that completes, do the whole clear if and only if the deletes
      that did not run had nothing to delete. */
  lemma StopIsHarmlessExactlyWhen(s: Store, f: Filter, rows: seq<EntryRow>, n: nat)
    requires Enumerates(rows, Candidates(s, f)) && 1 <= n <= |ClearPlan(f, rows)|
    ensures Execute(DeleteOrphanAssets, RunAttempt(Attempt(rows, n), f, s)) == Cleared(s, f)
            <==> RestIsIdle(ClearPlan(f, rows), n, s)
  {
    RetryExactlyWhen(s, f, rows, n);
    NothingLeftExactlyWhen(s, f, rows, n);
  }

  /** The tables after the first attempt in which a delete took effect. */
  function FirstStore(attempts: seq<Attempt>, f: Filter, s: Store): Store
    decreases attempts
  {
    if attempts == [] then s
    else
      var a := attempts[0];
      if 0 < a.executed <= |ClearPlan(f, a.rows)| then RunAttempt(a, f, s) else FirstStore(attempts[1..], f, s)
  }

  /** Retries after a delete took effect. */
  lemma {:induction false} RetriesDropOrphans(attempts: seq<Attempt>, f: Filter, t: Store, u: Store)
    requires Candidates(t, f) == {} && ClearReaches(attempts, f, t, u)
    ensures u == t || u == Execute(DeleteOrphanAssets, t)
    ensures attempts != [] && attempts[|attempts| - 1].executed > 0 ==> u == Execute(DeleteOrphanAssets, t)
    ensures forall a | a in attempts :: a.rows == []
    decreases attempts
  {
    if attempts != [] {
      var a := attempts[0];
      NoElements(a.rows);
      SingleStatement(f, [], t);
      NoStatement(f, [], t);
      var next := RunAttempt(a, f, t);
      assert |ClearPlan(f, [])| == 1;
      assert Candidates(next, f) == {};
      RetriesDropOrphans(attempts[1..], f, next, u);
      OrphansGone(t);
    }
  }

  /** No delete took effect. */
  predicate NoneActed(attempts: seq<Attempt>) {
    attempts == [] || (attempts[|attempts| - 1].executed == 0 && NoneActed(attempts[..|attempts| - 1]))
  }

  /** None did before the last attempt. */
  predicate Undisturbed(attempts: seq<Attempt>) {
    attempts != [] && NoneActed(attempts[..|attempts| - 1])
  }

  lemma OrphansGone(t: Store)
    ensures Execute(DeleteOrphanAssets, Execute(DeleteOrphanAssets, t)) == Execute(DeleteOrphanAssets, t)
  {
    assert OrphanAssets(Execute(DeleteOrphanAssets, t)) == {};
  }

  lemma NoStatement(f: Filter, rows: seq<EntryRow>, s: Store)
    ensures RunAttempt(Attempt(rows, 0), f, s) == s
  {
    assert ClearPlan(f, rows)[..0] == [];
  }

  /** However often a clear was retried: when its last attempt ran to the end, the tables are what the first
      attempt with an effect left, without orphan assets; they are those of an uninterrupted clear if and
      only if that attempt left nothing behind. */
  lemma {:induction false} CompletedExactlyWhen(attempts: seq<Attempt>, f: Filter, s: Store, u: Store)
    requires ClearReaches(attempts, f, s, u) && attempts != []
    requires var last := attempts[|attempts| - 1]; last.executed == |ClearPlan(f, last.rows)|
    ensures var t := FirstStore(attempts, f, s);
            u == Execute(DeleteOrphanAssets, t) && (u == Cleared(s, f) <==> NothingLeft(s, f, t))
    decreases attempts
  {
    var a := attempts[0];
    var t := RunAttempt(a, f, s);
    if a.executed == 0 {
      NoStatement(f, a.rows, s);
      assert |ClearPlan(f, a.rows)| >= 1 by {
        SingleStatement(f, a.rows, s);
      }
      assert attempts[1..] != [] && attempts[1..][|attempts[1..]| - 1] == attempts[|attempts| - 1];
      CompletedExactlyWhen(attempts[1..], f, s, u);
    } else {
      AttemptIsPartly(s, f, a.rows, a.executed);
      PartlyCompletes(s, f, t);
      RetriesDropOrphans(attempts[1..], f, t, u);
      if attempts[1..] == [] {
        WholePlanClears(f, a.rows, s);
        assert ClearPlan(f, a.rows)[..a.executed] == ClearPlan(f, a.rows);
        assert OrphanAssets(Cleared(s, f)) == {};
      } else {
        assert attempts[1..][|attempts[1..]| - 1] == attempts[|attempts| - 1];
        SingleStatement(f, attempts[|attempts| - 1].rows, t);
      }
    }
  }

  /** What a busy error right after the first delete costs: the retry finds no candidates any more and
      finishes, and the links and bindings of the deleted entries all stay behind as orphans. */
  lemma {:induction false} RetryLeavesOrphans(s: Store, f: Filter, rows: seq<EntryRow>)
    requires UniqueKeys(s.entries) && OrphanFree(s) && Enumerates(rows, Candidates(s, f)) && rows != []
    ensures var t := s.(entries := s.entries - Candidates(s, f));
            && ClearReaches([Attempt(rows, 1), Attempt([], 1)], f, s, t)
            && OrphanLinks(t) == LinksOf(s, ContextIds(Candidates(s, f)))
            && OrphanBindings(t) == set b | b in s.bindings && BindingKey(b) in Keys(Candidates(s, f))
  {
    var t := s.(entries := s.entries - Candidates(s, f));
    SingleStatement(f, rows, s);
    RetryExactlyWhen(s, f, rows, 1);
    assert forall a | a in s.assets :: a !in OrphanAssets(s);
    assert OrphanAssets(t) == {} && Execute(DeleteOrphanAssets, t) == t;
    RemovedKeysAreGone(s.entries, Candidates(s, f));
    forall l | l in s.links
      ensures LinkKey(l) in Keys(s.entries)
      ensures l.conversationId in ContextIds(Candidates(s, f)) <==> LinkKey(l) in Keys(Candidates(s, f))
    {
      assert l !in OrphanLinks(s);
    }
    forall b | b in s.bindings ensures BindingKey(b) in Keys(s.entries) {
      assert b !in OrphanBindings(s);
    }
  }

  lemma SingleStatement(f: Filter, rows: seq<EntryRow>, s: Store)
    ensures |ClearPlan(f, rows)| >= 1
    ensures RunAttempt(Attempt(rows, 1), f, s)
            == if rows == [] then Execute(DeleteOrphanAssets, s) else Execute(DeleteEntries(f), s)
  {
    var plan := ClearPlan(f, rows);
    assert rows == [] ==> PairList(rows) == [];
    assert plan[..1] == [plan[0]] && plan[..1][..0] == [];
    assert ExecuteAll(plan[..1], s) == Execute(plan[0], ExecuteAll([], s));
  }

  // ----- What the report counts -----

  /** The sum that `countBindingPairs` adds up, one query per pair. */
  function PairCount(pairs: seq<EntryKey>, s: Store): nat {
    if pairs == [] then 0 else |PairBindingsOf(s, {pairs[0]})| + PairCount(pairs[1..], s)
  }

  lemma {:induction false} PairCountBounds(pairs: seq<EntryKey>, s: Store)
    ensures |PairBindingsOf(s, SetOf(pairs))| <= PairCount(pairs, s)
    ensures Distinct(pairs) ==> |PairBindingsOf(s, SetOf(pairs))| == PairCount(pairs, s)
  {
    if pairs == [] {
      assert PairBindingsOf(s, SetOf(pairs)) == {};
    } else {
      PairCountBounds(pairs[1..], s);
      var first, rest := PairBindingsOf(s, {pairs[0]}), PairBindingsOf(s, SetOf(pairs[1..]));
      assert PairBindingsOf(s, SetOf(pairs)) == first + rest;
      if Distinct(pairs) {
        assert first !! rest;
      }
    }
  }

  lemma FirstPairIsNew(rows: seq<EntryRow>)
    requires rows != [] && Distinct(rows) && UniqueKeys(SetOf(rows))
    ensures KeyOf(rows[0]) !in PairList(rows[1..])
  {
    PairListMembers(rows[1..]);
    forall e | e in SetOf(rows[1..]) ensures KeyOf(e) != KeyOf(rows[0]) {
      var j :| 0 <= j < |rows[1..]| && rows[1..][j] == e;
      assert rows[j + 1] != rows[0];
      assert rows[0] in SetOf(rows) && rows[j + 1] in SetOf(rows);
    }
    assert KeyOf(rows[0]) !in BindingPairs(SetOf(rows[1..]));
  }

  lemma RestIsDistinct(rows: seq<EntryRow>)
    requires rows != [] && Distinct(rows) && UniqueKeys(SetOf(rows))
    ensures Distinct(rows[1..]) && UniqueKeys(SetOf(rows[1..]))
  {
    assert SetOf(rows[1..]) <= SetOf(rows);
  }

  lemma DistinctCons<T>(first: T, rest: seq<T>)
    requires first !in rest && Distinct(rest)
    ensures Distinct([first] + rest)
  {
  }

  lemma {:induction false} PairListDistinct(rows: seq<EntryRow>)
    requires Distinct(rows) && UniqueKeys(SetOf(rows))
    ensures Distinct(PairList(rows))
  {
    if rows != [] {
      RestIsDistinct(rows);
      PairListDistinct(rows[1..]);
      FirstPairIsNew(rows);
      DistinctCons(KeyOf(rows[0]), PairList(rows[1..]));
      assert [] + PairList(rows[1..]) == PairList(rows[1..]);
    }
  }

  /** Bindings deleted by one uninterrupted clear. */
  function DeletedBindings(s: Store, f: Filter): set<FileBindingRow> {
    s.bindings - Cleared(s, f).bindings
  }

  /** Bindings that the preview of the same clear reports. */
  function MatchedBindingCount(s: Store, rows: seq<EntryRow>): nat {
    PairCount(PairList(rows), s) + |ContextBindingsOf(s, ContextIds(SetOf(rows)))|
  }

  /** Preview against apply for file bindings: never fewer are announced than deleted, and exactly as
      many when entry keys are unique. */
  lemma BindingAccounting(s: Store, f: Filter, rows: seq<EntryRow>)
    requires Enumerates(rows, Candidates(s, f))
    ensures |DeletedBindings(s, f)| <= MatchedBindingCount(s, rows)
    ensures UniqueKeys(s.entries) ==> |DeletedBindings(s, f)| == MatchedBindingCount(s, rows)
  {
    var ids, pairs := ContextIds(Candidates(s, f)), BindingPairs(Candidates(s, f));
    assert DeletedBindings(s, f) == ContextBindingsOf(s, ids) + PairBindingsOf(s, pairs);
    assert ContextBindingsOf(s, ids) !! PairBindingsOf(s, pairs);
    PairListMembers(rows);
    PairCountBounds(PairList(rows), s);
    if UniqueKeys(s.entries) {
      PairListDistinct(rows);
    }
  }

  /** Assets that lost every reference in this clear. */
  function FreedAssets(s: Store, f: Filter): set<FileAssetRow> {
    set a | a in s.assets && a.assetId in ReferencedAssets(s.bindings)
            && a.assetId !in ReferencedAssets(Cleared(s, f).bindings)
  }

  /** The preview counts the assets that are orphans already; apply deletes those and the freed ones. */
  lemma AssetAccounting(s: Store, f: Filter)
    ensures s.assets - Cleared(s, f).assets == OrphanAssets(s) + FreedAssets(s, f)
    ensures |s.assets - Cleared(s, f).assets| == |OrphanAssets(s)| + |FreedAssets(s, f)|
  {
    ReferencedAssetsMonotone(Cleared(s, f).bindings, s.bindings);
    assert s.assets - Cleared(s, f).assets == OrphanAssets(s) + FreedAssets(s, f);
    assert OrphanAssets(s) !! FreedAssets(s, f);
  }
}
