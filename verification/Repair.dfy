/** The four prune actions of `cache repair`, as functions on the tables, and what a whole list of
    them leaves behind. */
module RepairActions {
  import opened Wrappers
  import opened CacheTables

  datatype PruneAction = OrphanAssetRows | OrphanSourceLinkRows | OrphanFileBindingRows | OrphanArtifactRows

  /** The order in which `parseCacheRepairActions` lists the prune actions for `all`. */
  const LISTED_ORDER: seq<PruneAction> :=
    [OrphanAssetRows, OrphanSourceLinkRows, OrphanFileBindingRows, OrphanArtifactRows]

  function Prune(a: PruneAction, s: Store): Store {
    match a
    case OrphanAssetRows => s.(assets := s.assets - OrphanAssets(s))
    case OrphanSourceLinkRows => s.(links := s.links - OrphanLinks(s))
    case OrphanFileBindingRows => s.(bindings := s.bindings - OrphanBindings(s))
    case OrphanArtifactRows => s.(artifacts := s.artifacts - OrphanArtifacts(s))
  }

  function OrphanCount(a: PruneAction, s: Store): nat {
    match a
    case OrphanAssetRows => |OrphanAssets(s)|
    case OrphanSourceLinkRows => |OrphanLinks(s)|
    case OrphanFileBindingRows => |OrphanBindings(s)|
    case OrphanArtifactRows => |OrphanArtifacts(s)|
  }

  function RunActions(acts: seq<PruneAction>, s: Store): Store {
    if acts == [] then s else RunActions(acts[1..], Prune(acts[0], s))
  }

  /** One `cache repair` with every prune action, in the listed order. */
  function Pass(s: Store): Store {
    RunActions(LISTED_ORDER, s)
  }

  /** An asset prune runs at some point after a file-binding prune. */
  predicate AssetsAfterBindings(acts: seq<PruneAction>) {
    acts != [] && ((acts[0] == OrphanFileBindingRows && OrphanAssetRows in acts[1..]) || AssetsAfterBindings(acts[1..]))
  }

  /** What any list of prune actions, in any order and with any repetition, leaves in the tables. */
  function Outcome(acts: seq<PruneAction>, s: Store): Store {
    Store(
      s.entries,
      if OrphanSourceLinkRows in acts then s.links - OrphanLinks(s) else s.links,
      if OrphanFileBindingRows in acts then s.bindings - OrphanBindings(s) else s.bindings,
      if AssetsAfterBindings(acts) then
        set a | a in s.assets && a.assetId in ReferencedAssets(s.bindings - OrphanBindings(s))
      else if OrphanAssetRows in acts then s.assets - OrphanAssets(s)
      else s.assets,
      if OrphanArtifactRows in acts then s.artifacts - OrphanArtifacts(s) else s.artifacts)
  }

  lemma ReferencedAssetsMonotone(small: set<FileBindingRow>, large: set<FileBindingRow>)
    requires small <= large
    ensures ReferencedAssets(small) <= ReferencedAssets(large)
  {
  }

  lemma {:induction false} RunActionsOutcome(acts: seq<PruneAction>, s: Store)
    ensures RunActions(acts, s) == Outcome(acts, s)
  {
    if acts == [] {
    } else {
      var t := Prune(acts[0], s);
      RunActionsOutcome(acts[1..], t);
      assert acts == [acts[0]] + acts[1..];
      ReferencedAssetsMonotone(s.bindings - OrphanBindings(s), s.bindings);
      assert t.entries == s.entries;
      assert t.bindings - OrphanBindings(t) == s.bindings - OrphanBindings(s);
      assert t.links - OrphanLinks(t) == s.links - OrphanLinks(s);
      assert t.artifacts - OrphanArtifacts(t) == s.artifacts - OrphanArtifacts(s);
      assert Outcome(acts[1..], t).assets == Outcome(acts, s).assets;
    }
  }

  /** The assets whose every reference comes from a binding that has lost its entry. */
  function StrandedAssets(s: Store): set<FileAssetRow> {
    set a | a in s.assets && a.assetId in ReferencedAssets(s.bindings)
            && a.assetId !in ReferencedAssets(s.bindings - OrphanBindings(s))
  }

  /** One pass in the listed order: rows that point at a missing entry are all gone, and the orphan
      assets still there are exactly the stranded ones. */
  lemma OnePassResidue(s: Store)
    ensures OrphanLinks(Pass(s)) == {} && OrphanBindings(Pass(s)) == {} && OrphanArtifacts(Pass(s)) == {}
    ensures OrphanAssets(Pass(s)) == StrandedAssets(s)
  {
    RunActionsOutcome(LISTED_ORDER, s);
    ReferencedAssetsMonotone(s.bindings - OrphanBindings(s), s.bindings);
  }

  /** The second pass removes exactly the stranded assets, and the store is then clean. */
  lemma TwoPassesClean(s: Store)
    ensures Pass(Pass(s)) == Pass(s).(assets := Pass(s).assets - StrandedAssets(s))
    ensures OrphanFree(Pass(Pass(s)))
    ensures Pass(Pass(s)).assets
            == set a | a in s.assets && a.assetId in ReferencedAssets(s.bindings - OrphanBindings(s))
  {
    OnePassResidue(s);
    RunActionsOutcome(LISTED_ORDER, s);
    RunActionsOutcome(LISTED_ORDER, Pass(s));
    ReferencedAssetsMonotone(s.bindings - OrphanBindings(s), s.bindings);
  }

  /** From a clean store no list of prune actions changes anything; so a third pass is idle. */
  lemma CleanStoreIsFixed(acts: seq<PruneAction>, s: Store)
    requires OrphanFree(s)
    ensures RunActions(acts, s) == s
  {
    RunActionsOutcome(acts, s);
    assert s.bindings - OrphanBindings(s) == s.bindings;
    assert forall a | a in s.assets :: a !in OrphanAssets(s);
  }

  lemma ThirdPassIsIdle(s: Store)
    ensures Pass(Pass(Pass(s))) == Pass(Pass(s))
  {
    TwoPassesClean(s);
    CleanStoreIsFixed(LISTED_ORDER, Pass(Pass(s)));
  }

  ghost predicate CleansEveryStore(acts: seq<PruneAction>) {
    forall s: Store :: OrphanFree(RunActions(acts, s))
  }

  /** A list of prune actions repairs every store exactly when it prunes source links, artifact
      bindings and file bindings, and prunes assets somewhere after file bindings. */
  lemma CleansExactlyWhen(acts: seq<PruneAction>)
    ensures CleansEveryStore(acts)
            <==> OrphanSourceLinkRows in acts && OrphanArtifactRows in acts && AssetsAfterBindings(acts)
  {
    BindingsPrunedFirst(acts);
    var orphaned := Store({}, {SourceLinkRow("s", "c")}, {FileBindingRow("b", "d", "e", Some("x"))},
                          {FileAssetRow("x", None)}, {ArtifactBindingRow("a", "c")});
    RunActionsOutcome(acts, orphaned);
    assert SourceLinkRow("s", "c") in OrphanLinks(orphaned);
    assert ArtifactBindingRow("a", "c") in OrphanArtifacts(orphaned);
    assert FileBindingRow("b", "d", "e", Some("x")) in OrphanBindings(orphaned);
    var after := RunActions(acts, orphaned);
    if OrphanSourceLinkRows !in acts {
      assert SourceLinkRow("s", "c") in OrphanLinks(after);
    } else if OrphanArtifactRows !in acts {
      assert ArtifactBindingRow("a", "c") in OrphanArtifacts(after);
    } else if OrphanFileBindingRows !in acts {
      assert FileBindingRow("b", "d", "e", Some("x")) in OrphanBindings(after);
    } else if !AssetsAfterBindings(acts) {
      assert FileAssetRow("x", None) !in OrphanAssets(orphaned) by {
        assert FileBindingRow("b", "d", "e", Some("x")) in orphaned.bindings;
      }
      assert after.bindings == {};
      assert FileAssetRow("x", None) in OrphanAssets(after);
    } else {
      forall s: Store ensures OrphanFree(RunActions(acts, s)) {
        RunActionsOutcome(acts, s);
      }
    }
  }

  lemma {:induction false} BindingsPrunedFirst(acts: seq<PruneAction>)
    ensures AssetsAfterBindings(acts) ==> OrphanFileBindingRows in acts && OrphanAssetRows in acts
  {
    if acts != [] {
      BindingsPrunedFirst(acts[1..]);
    }
  }

  lemma ListedOrderTwice()
    ensures CleansEveryStore(LISTED_ORDER + LISTED_ORDER)
  {
    var twice := LISTED_ORDER + LISTED_ORDER;
    CleansExactlyWhen(twice);
    assert AssetsAfterBindings(twice[2..]);
    assert AssetsAfterBindings(twice[1..]);
    assert OrphanSourceLinkRows == twice[1] && OrphanArtifactRows == twice[3];
  }

  /** Putting file bindings before assets makes one pass enough; the listed order needs two. */
  lemma BindingsFirstNeedsOnePass()
    ensures CleansEveryStore([OrphanFileBindingRows, OrphanAssetRows, OrphanSourceLinkRows, OrphanArtifactRows])
    ensures !CleansEveryStore(LISTED_ORDER)
    ensures CleansEveryStore(LISTED_ORDER + LISTED_ORDER)
  {
    CleansExactlyWhen([OrphanFileBindingRows, OrphanAssetRows, OrphanSourceLinkRows, OrphanArtifactRows]);
    CleansExactlyWhen(LISTED_ORDER);
    ListedOrderTwice();
  }
}
