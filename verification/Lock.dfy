/** `withCacheMaintenanceLock` and its stale recovery, run by any number of processes on one cache
    directory. Each system call is a step of its own, so that any interleaving is a list of moves. */
module MaintenanceLock {
  import opened Wrappers

  const LOCK_WAIT_MS := 60_000
  const LOCK_STALE_MS := 15 * 60_000

  /** The file that the lock path names; a later file at the same path has another inode. */
  datatype LockFile = LockFile(inode: nat, mtime: nat)

  /** Where one call of `withCacheMaintenanceLock` stands. */
  datatype Phase<L> =
    | Idle
    | Opening(start: nat)                  // about to open the path with flag `wx`
    | Statting(start: nat)                 // the path existed; about to stat it
    | Unlinking(start: nat)                // the stat was stale; about to unlink the path
    | Checking(start: nat)                 // nothing cleared; about to look at the waiting time
    | Writing(inode: nat)                  // the open succeeded; about to write the payload
    | Working(inode: nat, local: L)        // inside the callback
    | Closing(inode: nat)                  // the callback is over; about to unlink the path
    | Finished | Failed | Crashed
  {
    predicate IsHolder() { Writing? || Working? || Closing? }
  }

  /** The callbacks: a local state for each process, and its next atomic step until there is none. */
  datatype Sections<!L, !S> = Sections(init: nat -> L, next: (nat, L, S) -> Option<(L, S)>)

  /** `log` and `turns` record who opened the lock file, in order, and how many steps each took. */
  datatype World<L, S> = World(
    now: nat,
    lock: Option<LockFile>,
    nextInode: nat,
    procs: map<nat, Phase<L>>,
    store: S,
    log: seq<nat>,
    turns: map<nat, nat>)

  datatype Move =
    | Tick(ms: nat)
    | Begin(p: nat) | Open(p: nat) | Stat(p: nat) | Unlink(p: nat) | Check(p: nat)
    | Write(p: nat) | WriteFails(p: nat) | Work(p: nat) | Release(p: nat) | Crash(p: nat)

  /** The code stats and unlinks in two system calls; `AtOnce` is the same recovery as one step. */
  datatype Recovery = Separate | AtOnce

  predicate IsStale<L, S>(w: World<L, S>) {
    w.lock.Some? && w.now - w.lock.value.mtime > LOCK_STALE_MS
  }

  function Enter<L, S>(w: World<L, S>, p: nat, phase: Phase<L>): World<L, S> {
    w.(procs := w.procs[p := phase])
  }

  /** The world after a move, or `None` when the process is not at that point. */
  function Next<L, S>(sections: Sections<L, S>, recovery: Recovery, m: Move, w: World<L, S>): Option<World<L, S>> {
    if m.Tick? then Some(w.(now := w.now + m.ms))
    else if m.p !in w.procs then None
    else
      var p := m.p;
      var phase := w.procs[p];
      match m
      case Begin(_) => if phase.Idle? then Some(Enter(w, p, Opening(w.now))) else None
      case Open(_) =>
        if !phase.Opening? then None
        else if w.lock.Some? then Some(Enter(w, p, Statting(phase.start)))
        else Some(Enter(w, p, Writing(w.nextInode)).(lock := Some(LockFile(w.nextInode, w.now)),
                                                     nextInode := w.nextInode + 1,
                                                     log := w.log + [p], turns := w.turns[p := 0]))
      case Stat(_) =>
        if !phase.Statting? then None
        else if !IsStale(w) then Some(Enter(w, p, Checking(phase.start)))
        else if recovery.AtOnce? then Some(Enter(w, p, Opening(phase.start)).(lock := None))
        else Some(Enter(w, p, Unlinking(phase.start)))
      case Unlink(_) =>
        if !phase.Unlinking? then None
        else if w.lock.Some? then Some(Enter(w, p, Opening(phase.start)).(lock := None))
        else Some(Enter(w, p, Checking(phase.start)))
      case Check(_) =>
        if !phase.Checking? then None
        else if w.now - phase.start > LOCK_WAIT_MS then Some(Enter(w, p, Failed))
        else Some(Enter(w, p, Opening(phase.start)))
      case Write(_) =>
        if !phase.Writing? then None
        else Some(Touch(Enter(w, p, Working(phase.inode, sections.init(p))), phase.inode))
      case WriteFails(_) => if phase.Writing? then Some(Enter(w, p, Failed)) else None
      case Work(_) =>
        if !phase.Working? then None
        else (match sections.next(p, phase.local, w.store)
              case None => Some(Enter(w, p, Closing(phase.inode)))
              case Some((local, store)) =>
                Some(Enter(w, p, Working(phase.inode, local)).(
                     store := store,
                     turns := w.turns[p := (if p in w.turns then w.turns[p] else 0) + 1])))
      case Release(_) => if phase.Closing? then Some(Enter(w, p, Finished).(lock := None)) else None
      case Crash(_) => if phase.Finished? || phase.Failed? then None else Some(Enter(w, p, Crashed))
  }

  /** Writing through an open handle dates the file, if the path still names that file. */
  function Touch<L, S>(w: World<L, S>, inode: nat): World<L, S> {
    if w.lock.Some? && w.lock.value.inode == inode then w.(lock := Some(LockFile(inode, w.now))) else w
  }

  /** A run: every move is possible where it is made. `worlds[i]` is the world before move `i`. */
  ghost predicate IsRun<L, S>(sections: Sections<L, S>, recovery: Recovery, moves: seq<Move>,
                              worlds: seq<World<L, S>>)
  {
    && |worlds| == |moves| + 1
    && Initial(worlds[0])
    && forall i | 0 <= i < |moves| :: Next(sections, recovery, moves[i], worlds[i]) == Some(worlds[i + 1])
  }

  ghost predicate Initial<L, S>(w: World<L, S>) {
    && w.lock == None && w.log == [] && w.turns == map[]
    && forall p | p in w.procs :: w.procs[p] == Idle
  }

  ghost predicate AtMostOneHolder<L, S>(w: World<L, S>) {
    forall p, q | p in w.procs && q in w.procs && w.procs[p].IsHolder() && w.procs[q].IsHolder() :: p == q
  }

  // ----- Serial execution -----

  /** A callback run alone for `k` steps from `s`; it stays where it is once it is over. */
  function Steps<L, S>(sections: Sections<L, S>, p: nat, s: S, k: nat): (L, S) {
    if k == 0 then (sections.init(p), s)
    else
      var (local, store) := Steps(sections, p, s, k - 1);
      match sections.next(p, local, store)
      case None => (local, store)
      case Some(next) => next
  }

  /** The callbacks of `log`, one after the other, each alone. */
  function SerialStore<L, S>(sections: Sections<L, S>, log: seq<nat>, turns: map<nat, nat>, s: S): S {
    if log == [] then s
    else
      var p := log[|log| - 1];
      Steps(sections, p, SerialStore(sections, log[..|log| - 1], turns, s), if p in turns then turns[p] else 0).1
  }

  /** The `i`-th turn ran to the end of its callback. */
  ghost predicate TurnComplete<L, S>(sections: Sections<L, S>, log: seq<nat>, turns: map<nat, nat>, s: S, i: nat)
    requires i < |log|
  {
    var p := log[i];
    var (local, store) :=
      Steps(sections, p, SerialStore(sections, log[..i], turns, s), if p in turns then turns[p] else 0);
    sections.next(p, local, store) == None
  }

  // ----- The invariant -----

  /** Every process inside the lock holds the very file that the lock path names. */
  ghost predicate HoldersLinked<L, S>(w: World<L, S>) {
    forall p | p in w.procs && w.procs[p].IsHolder() :: w.lock.Some? && w.lock.value.inode == w.procs[p].inode
  }

  ghost predicate InodesDistinct<L, S>(w: World<L, S>) {
    && (w.lock.Some? ==> w.lock.value.inode < w.nextInode)
    && (forall p | p in w.procs && w.procs[p].IsHolder() :: w.procs[p].inode < w.nextInode)
    && (forall p, q | p in w.procs && q in w.procs && w.procs[p].IsHolder() && w.procs[q].IsHolder()
                      && w.procs[p].inode == w.procs[q].inode :: p == q)
  }

  ghost predicate Linked<L, S>(w: World<L, S>) {
    HoldersLinked(w) && InodesDistinct(w)
  }

  predicate BeforeOpen<L>(phase: Phase<L>) {
    phase.Idle? || phase.Opening? || phase.Statting? || phase.Unlinking? || phase.Checking?
  }

  /** What the log says of a process in this phase. */
  ghost predicate PhaseMatches<L, S>(sections: Sections<L, S>, p: nat, phase: Phase<L>, log: seq<nat>,
                                     turns: map<nat, nat>, s: S)
  {
    && (BeforeOpen(phase) ==> p !in log)
    && (phase.IsHolder() ==> log != [] && log[|log| - 1] == p && p in turns)
    && (phase.Writing? ==> turns[p] == 0)
    && (phase.Working? ==>
          Steps(sections, p, SerialStore(sections, log[..|log| - 1], turns, s), turns[p]).0 == phase.local)
    && (phase.Closing? ==> TurnComplete(sections, log, turns, s, |log| - 1))
  }

  ghost predicate LogWellFormed(log: seq<nat>, turns: map<nat, nat>) {
    && (forall i, j | 0 <= i < j < |log| :: log[i] != log[j])
    && (forall p | p in log :: p in turns)
  }

  ghost predicate LogMatches<L, S>(sections: Sections<L, S>, w: World<L, S>, s: S) {
    && LogWellFormed(w.log, w.turns)
    && w.store == SerialStore(sections, w.log, w.turns, s)
    && forall p | p in w.procs :: PhaseMatches(sections, p, w.procs[p], w.log, w.turns, s)
  }

  ghost predicate Invariant<L, S>(sections: Sections<L, S>, w: World<L, S>, s: S) {
    Linked(w) && LogMatches(sections, w, s)
  }

  /** The move unlinks the lock file of a process that is still inside, other than the mover. */
  ghost predicate RobsHolder<L, S>(recovery: Recovery, m: Move, w: World<L, S>) {
    && (m.Unlink? || m.Release? || (m.Stat? && recovery.AtOnce? && IsStale(w)))
    && exists q | q in w.procs :: q != m.p && w.procs[q].IsHolder()
  }

  lemma {:induction false} SerialStoreFrame<L, S>(sections: Sections<L, S>, log: seq<nat>, turns: map<nat, nat>,
                                                  turns': map<nat, nat>, s: S)
    requires forall p | p in log :: p in turns && p in turns' && turns[p] == turns'[p]
    ensures SerialStore(sections, log, turns, s) == SerialStore(sections, log, turns', s)
  {
    if log != [] {
      SerialStoreFrame(sections, log[..|log| - 1], turns, turns', s);
    }
  }

  /** Who is inside after a move was inside before, with the same file, unless it has just opened one. */
  lemma {:induction false} StillHolder<L, S>(sections: Sections<L, S>, recovery: Recovery, m: Move, w: World<L, S>,
                                             w': World<L, S>, p: nat)
    requires Next(sections, recovery, m, w) == Some(w')
    requires p in w'.procs && w'.procs[p].IsHolder() && !(m == Open(p) && w.lock.None?)
    ensures p in w.procs && w.procs[p].IsHolder() && w.procs[p].inode == w'.procs[p].inode
  {
  }

  /** The file at the path is the old one, or nobody's, or new. */
  lemma {:induction false} MoveKeepsFile<L, S>(sections: Sections<L, S>, recovery: Recovery, m: Move, w: World<L, S>,
                                               w': World<L, S>)
    requires Next(sections, recovery, m, w) == Some(w')
    ensures if m.Open? && w.lock.None?
            then w'.nextInode == w.nextInode + 1 && w'.lock.Some? && w'.lock.value.inode == w.nextInode
                 && w'.procs[m.p] == Writing(w.nextInode)
            else w'.nextInode == w.nextInode
                 && (w'.lock.Some? ==> w.lock.Some? && w'.lock.value.inode == w.lock.value.inode)
  {
  }

  lemma {:induction false} MoveKeepsInodes<L, S>(sections: Sections<L, S>, recovery: Recovery, m: Move, w: World<L, S>,
                                                 w': World<L, S>)
    requires InodesDistinct(w) && Next(sections, recovery, m, w) == Some(w')
    ensures InodesDistinct(w')
  {
    MoveKeepsFile(sections, recovery, m, w, w');
    forall p | p in w'.procs && w'.procs[p].IsHolder() && !(m == Open(p) && w.lock.None?)
      ensures p in w.procs && w.procs[p].IsHolder() && w.procs[p].inode == w'.procs[p].inode
    {
      StillHolder(sections, recovery, m, w, w', p);
    }
  }

  lemma {:induction false} MoveKeepsHolders<L, S>(sections: Sections<L, S>, recovery: Recovery, m: Move,
                                                  w: World<L, S>, w': World<L, S>)
    requires Linked(w) && Next(sections, recovery, m, w) == Some(w') && !RobsHolder(recovery, m, w)
    ensures HoldersLinked(w')
  {
  }

  lemma {:induction false} MoveKeepsLinked<L, S>(sections: Sections<L, S>, recovery: Recovery, m: Move, w: World<L, S>,
                                                 w': World<L, S>)
    requires Linked(w)
    requires Next(sections, recovery, m, w) == Some(w')
    requires !RobsHolder(recovery, m, w)
    ensures Linked(w')
  {
    MoveKeepsInodes(sections, recovery, m, w, w');
    MoveKeepsHolders(sections, recovery, m, w, w');
  }

  lemma {:induction false} LinkedIsExclusive<L, S>(w: World<L, S>)
    requires Linked(w)
    ensures AtMostOneHolder(w)
  {
  }

  /** Changing the phase of one process keeps what the log says of the others. */
  lemma {:induction false} EnterKeepsLog<L, S>(sections: Sections<L, S>, w: World<L, S>, w': World<L, S>, p: nat,
                                               phase: Phase<L>, s: S)
    requires LogMatches(sections, w, s)
    requires w'.log == w.log && w'.turns == w.turns && w'.store == w.store && w'.procs == w.procs[p := phase]
    requires PhaseMatches(sections, p, phase, w.log, w.turns, s)
    ensures LogMatches(sections, w', s)
  {
  }

  lemma {:induction false} OpenKeepsLog<L, S>(sections: Sections<L, S>, recovery: Recovery, p: nat, w: World<L, S>,
                                              w': World<L, S>, s: S)
    requires Linked(w) && LogMatches(sections, w, s) && w.lock.None?
    requires Next(sections, recovery, Open(p), w) == Some(w')
    ensures LogMatches(sections, w', s)
  {
    assert PhaseMatches(sections, p, w.procs[p], w.log, w.turns, s);
    assert w'.log[..|w'.log| - 1] == w.log;
    SerialStoreFrame(sections, w.log, w.turns, w'.turns, s);
    assert Steps(sections, p, w.store, 0).1 == w.store;
    forall q | q in w'.procs ensures PhaseMatches(sections, q, w'.procs[q], w'.log, w'.turns, s) {
      if q != p {
        assert !w.procs[q].IsHolder();
        assert PhaseMatches(sections, q, w.procs[q], w.log, w.turns, s);
      }
    }
  }

  /** One more step of the callback that has the lock is one more step of its serial turn. */
  lemma {:induction false} StepIsSerial<L, S>(sections: Sections<L, S>, p: nat, phase: Phase<L>, log: seq<nat>,
                                              turns: map<nat, nat>, turns': map<nat, nat>, local: L, store: S,
                                              store': S, s: S)
    requires phase.Working? && PhaseMatches(sections, p, phase, log, turns, s) && LogWellFormed(log, turns)
    requires store == SerialStore(sections, log, turns, s)
    requires sections.next(p, phase.local, store) == Some((local, store'))
    requires turns' == turns[p := turns[p] + 1]
    ensures PhaseMatches(sections, p, Working(phase.inode, local), log, turns', s)
    ensures store' == SerialStore(sections, log, turns', s)
  {
    var before := log[..|log| - 1];
    assert log == before + [p];
    assert p !in before;
    SerialStoreFrame(sections, before, turns, turns', s);
    var start := SerialStore(sections, before, turns, s);
    assert Steps(sections, p, start, turns[p]) == (phase.local, store);
    assert Steps(sections, p, start, turns[p] + 1) == (local, store');
  }

  lemma {:induction false} StepKeepsLog<L, S>(sections: Sections<L, S>, w: World<L, S>, w': World<L, S>, p: nat,
                                              local: L, s: S)
    requires Linked(w) && LogMatches(sections, w, s)
    requires p in w.procs && w.procs[p].Working?
    requires sections.next(p, w.procs[p].local, w.store) == Some((local, w'.store))
    requires p in w.turns && w'.turns == w.turns[p := w.turns[p] + 1]
    requires w'.log == w.log && w'.procs == w.procs[p := Working(w.procs[p].inode, local)]
    ensures LogMatches(sections, w', s)
  {
    assert PhaseMatches(sections, p, w.procs[p], w.log, w.turns, s);
    StepIsSerial(sections, p, w.procs[p], w.log, w.turns, w'.turns, local, w.store, w'.store, s);
    forall q | q in w'.procs ensures PhaseMatches(sections, q, w'.procs[q], w'.log, w'.turns, s) {
      if q != p {
        assert !w.procs[q].IsHolder();
        assert PhaseMatches(sections, q, w.procs[q], w.log, w.turns, s);
      }
    }
  }

  lemma {:induction false} WorkKeepsLog<L, S>(sections: Sections<L, S>, recovery: Recovery, p: nat, w: World<L, S>,
                                              w': World<L, S>, s: S)
    requires Linked(w) && LogMatches(sections, w, s)
    requires Next(sections, recovery, Work(p), w) == Some(w')
    ensures LogMatches(sections, w', s)
  {
    assert PhaseMatches(sections, p, w.procs[p], w.log, w.turns, s);
    match sections.next(p, w.procs[p].local, w.store) {
      case Some((local, store)) =>
        StepKeepsLog(sections, w, w', p, local, s);
      case None =>
        var start := SerialStore(sections, w.log[..|w.log| - 1], w.turns, s);
        assert Steps(sections, p, start, w.turns[p]) == (w.procs[p].local, w.store);
        EnterKeepsLog(sections, w, w', p, Closing(w.procs[p].inode), s);
    }
  }

  lemma {:induction false} MoveKeepsLog<L, S>(sections: Sections<L, S>, recovery: Recovery, m: Move, w: World<L, S>,
                                              w': World<L, S>, s: S)
    requires Linked(w) && LogMatches(sections, w, s)
    requires Next(sections, recovery, m, w) == Some(w')
    ensures LogMatches(sections, w', s)
  {
    if m.Tick? {
    } else if m.Work? {
      WorkKeepsLog(sections, recovery, m.p, w, w', s);
    } else if m.Open? && w.lock.None? {
      OpenKeepsLog(sections, recovery, m.p, w, w', s);
    } else {
      assert PhaseMatches(sections, m.p, w.procs[m.p], w.log, w.turns, s);
      if m.Write? {
        assert Steps(sections, m.p, SerialStore(sections, w.log[..|w.log| - 1], w.turns, s), 0).0 == sections.init(m.p);
      }
      EnterKeepsLog(sections, w, w', m.p, w'.procs[m.p], s);
    }
  }

  /** A move keeps the invariant unless it unlinks the lock file of a live holder. */
  lemma {:induction false} MoveKeepsInvariant<L, S>(sections: Sections<L, S>, recovery: Recovery, m: Move,
                                                    w: World<L, S>, w': World<L, S>, s: S)
    requires Invariant(sections, w, s)
    requires Next(sections, recovery, m, w) == Some(w')
    requires !RobsHolder(recovery, m, w)
    ensures Invariant(sections, w', s)
  {
    MoveKeepsLinked(sections, recovery, m, w, w');
    MoveKeepsLog(sections, recovery, m, w, w', s);
  }

  // ----- Turns -----

  /** A turn is over, or its process died in it, or its process is still inside. */
  ghost predicate TurnAccounted<L, S>(sections: Sections<L, S>, w: World<L, S>, s: S, i: nat)
    requires i < |w.log|
  {
    var p := w.log[i];
    || TurnComplete(sections, w.log, w.turns, s, i)
    || (p in w.procs && (w.procs[p].IsHolder() || w.procs[p].Crashed? || w.procs[p].Failed?))
  }

  ghost predicate TurnsAccounted<L, S>(sections: Sections<L, S>, w: World<L, S>, s: S) {
    forall i | 0 <= i < |w.log| :: TurnAccounted(sections, w, s, i)
  }

  /** Only the latest turn can be unfinished, and then the lock file is still there. */
  ghost predicate TurnsInOrder<L, S>(sections: Sections<L, S>, w: World<L, S>, s: S) {
    forall i | 0 <= i < |w.log| :: TurnComplete(sections, w.log, w.turns, s, i) || (i == |w.log| - 1 && w.lock.Some?)
  }

  lemma {:induction false} TurnFrame<L, S>(sections: Sections<L, S>, log: seq<nat>, log': seq<nat>,
                                           turns: map<nat, nat>, turns': map<nat, nat>, s: S, i: nat)
    requires i < |log| && i < |log'| && log[..i + 1] == log'[..i + 1]
    requires forall p | p in log[..i + 1] :: p in turns && p in turns' && turns[p] == turns'[p]
    ensures TurnComplete(sections, log, turns, s, i) <==> TurnComplete(sections, log', turns', s, i)
  {
    assert log[..i + 1] == log[..i] + [log[i]] && log'[..i + 1] == log'[..i] + [log'[i]];
    assert log[i] == log[..i + 1][i] && log'[i] == log'[..i + 1][i];
    assert log[..i] == log[..i + 1][..i] && log'[..i] == log'[..i + 1][..i];
    SerialStoreFrame(sections, log[..i], turns, turns', s);
  }

  /** Earlier turns are untouched by a move. */
  lemma {:induction false} MoveKeepsTurn<L, S>(sections: Sections<L, S>, recovery: Recovery, m: Move, w: World<L, S>,
                                               w': World<L, S>, s: S, i: nat)
    requires Linked(w) && LogMatches(sections, w, s)
    requires Next(sections, recovery, m, w) == Some(w')
    requires i < |w.log| && (m.Work? ==> w.log[i] != m.p)
    ensures i < |w'.log| && w'.log[i] == w.log[i]
    ensures TurnComplete(sections, w.log, w.turns, s, i) <==> TurnComplete(sections, w'.log, w'.turns, s, i)
  {
    assert w.log <= w'.log;
    assert w'.log[..i + 1] == w.log[..i + 1];
    if !m.Tick? {
      assert PhaseMatches(sections, m.p, w.procs[m.p], w.log, w.turns, s);
    }
    forall p | p in w.log[..i + 1] ensures p in w.turns && p in w'.turns && w.turns[p] == w'.turns[p] {
      var j :| 0 <= j <= i && w.log[..i + 1][j] == p;
      assert w.log[j] == p;
      if m.Work? {
        assert w.log[|w.log| - 1] == m.p;
      }
    }
    TurnFrame(sections, w.log, w'.log, w.turns, w'.turns, s, i);
  }

  lemma {:induction false} MoveKeepsTurnAccounted<L, S>(sections: Sections<L, S>, recovery: Recovery, m: Move,
                                                        w: World<L, S>, w': World<L, S>, s: S, i: nat)
    requires Linked(w) && LogMatches(sections, w, s)
    requires i < |w.log| && TurnAccounted(sections, w, s, i) && !(m.Work? && w.log[i] == m.p)
    requires Next(sections, recovery, m, w) == Some(w')
    ensures i < |w'.log| && TurnAccounted(sections, w', s, i)
  {
    MoveKeepsTurn(sections, recovery, m, w, w', s, i);
    if !m.Tick? && w.log[i] == m.p {
      assert PhaseMatches(sections, m.p, w.procs[m.p], w.log, w.turns, s);
    }
  }

  /** The turn of a callback that works is the latest one, and its process stays inside. */
  lemma {:induction false} WorkKeepsAccount<L, S>(sections: Sections<L, S>, recovery: Recovery, p: nat, w: World<L, S>,
                                                  w': World<L, S>, s: S)
    requires Linked(w) && LogMatches(sections, w, s) && TurnsAccounted(sections, w, s)
    requires Next(sections, recovery, Work(p), w) == Some(w')
    ensures TurnsAccounted(sections, w', s)
  {
    assert w'.log == w.log && p in w'.procs && w'.procs[p].IsHolder();
    forall i | 0 <= i < |w'.log| ensures TurnAccounted(sections, w', s, i) {
      if w.log[i] != p {
        assert TurnAccounted(sections, w, s, i);
        MoveKeepsTurnAccounted(sections, recovery, Work(p), w, w', s, i);
      }
    }
  }

  /** Whoever opens the lock file begins a turn and is inside. */
  lemma {:induction false} OpenKeepsAccount<L, S>(sections: Sections<L, S>, recovery: Recovery, p: nat, w: World<L, S>,
                                                  w': World<L, S>, s: S)
    requires Linked(w) && LogMatches(sections, w, s) && TurnsAccounted(sections, w, s) && w.lock.None?
    requires Next(sections, recovery, Open(p), w) == Some(w')
    ensures TurnsAccounted(sections, w', s)
  {
    assert w'.log == w.log + [p] && p in w'.procs && w'.procs[p].IsHolder();
    forall i | 0 <= i < |w'.log| ensures TurnAccounted(sections, w', s, i) {
      if i < |w.log| {
        assert TurnAccounted(sections, w, s, i);
        MoveKeepsTurnAccounted(sections, recovery, Open(p), w, w', s, i);
      }
    }
  }

  lemma {:induction false} MoveKeepsAccount<L, S>(sections: Sections<L, S>, recovery: Recovery, m: Move, w: World<L, S>,
                                                  w': World<L, S>, s: S)
    requires Linked(w) && LogMatches(sections, w, s) && TurnsAccounted(sections, w, s)
    requires Next(sections, recovery, m, w) == Some(w')
    ensures TurnsAccounted(sections, w', s)
  {
    if m.Work? {
      WorkKeepsAccount(sections, recovery, m.p, w, w', s);
    } else if m.Open? && w.lock.None? {
      OpenKeepsAccount(sections, recovery, m.p, w, w', s);
    } else {
      assert w'.log == w.log;
      forall i | 0 <= i < |w'.log| ensures TurnAccounted(sections, w', s, i) {
        assert TurnAccounted(sections, w, s, i);
        MoveKeepsTurnAccounted(sections, recovery, m, w, w', s, i);
      }
    }
  }

  lemma {:induction false} MoveKeepsOrder<L, S>(sections: Sections<L, S>, recovery: Recovery, m: Move, w: World<L, S>,
                                                w': World<L, S>, s: S)
    requires Linked(w) && LogMatches(sections, w, s) && TurnsInOrder(sections, w, s)
    requires Next(sections, recovery, m, w) == Some(w')
    requires !m.Unlink? && !IsStale(w)
    ensures TurnsInOrder(sections, w', s)
  {
    MoveKeepsLog(sections, recovery, m, w, w', s);
    if m.Release? || m.Work? {
      assert PhaseMatches(sections, m.p, w.procs[m.p], w.log, w.turns, s);
    }
    forall i | 0 <= i < |w'.log|
      ensures TurnComplete(sections, w'.log, w'.turns, s, i) || (i == |w'.log| - 1 && w'.lock.Some?)
    {
      if i < |w.log| && !(m.Work? && w.log[i] == m.p) {
        MoveKeepsTurn(sections, recovery, m, w, w', s, i);
      }
    }
  }

  // ----- Whole runs -----

  ghost predicate NobodyUnlinks<L, S>(w: World<L, S>) {
    forall p | p in w.procs :: !w.procs[p].Unlinking?
  }

  ghost predicate Safe<L, S>(sections: Sections<L, S>, w: World<L, S>, s: S) {
    Invariant(sections, w, s) && TurnsAccounted(sections, w, s)
  }

  /** What a run promises at each of its worlds: one process inside at a time, and a store that is the
      result of the callbacks alone, one after the other, in the order in which the lock was opened. */
  ghost predicate Serialised<L, S>(sections: Sections<L, S>, w: World<L, S>, s: S) {
    && AtMostOneHolder(w)
    && w.store == SerialStore(sections, w.log, w.turns, s)
    && TurnsAccounted(sections, w, s)
  }

  lemma {:induction false} InitialIsSafe<L, S>(sections: Sections<L, S>, w: World<L, S>)
    requires Initial(w)
    ensures Safe(sections, w, w.store) && TurnsInOrder(sections, w, w.store) && NobodyUnlinks(w)
  {
  }

  lemma {:induction false} SafeMove<L, S>(sections: Sections<L, S>, recovery: Recovery, m: Move, w: World<L, S>,
                                          w': World<L, S>, s: S)
    requires Safe(sections, w, s) && Next(sections, recovery, m, w) == Some(w') && !RobsHolder(recovery, m, w)
    ensures Safe(sections, w', s)
  {
    MoveKeepsInvariant(sections, recovery, m, w, w', s);
    MoveKeepsAccount(sections, recovery, m, w, w', s);
  }

  lemma {:induction false} RunIsSafe<L, S>(sections: Sections<L, S>, recovery: Recovery, moves: seq<Move>,
                                           worlds: seq<World<L, S>>, i: nat)
    requires IsRun(sections, recovery, moves, worlds) && i < |worlds|
    requires forall j | 0 <= j < i :: !RobsHolder(recovery, moves[j], worlds[j])
    ensures Safe(sections, worlds[i], worlds[0].store)
  {
    if i == 0 {
      InitialIsSafe(sections, worlds[0]);
    } else {
      RunIsSafe(sections, recovery, moves, worlds, i - 1);
      SafeMove(sections, recovery, moves[i - 1], worlds[i - 1], worlds[i], worlds[0].store);
    }
  }

  /** Mutual exclusion and serial equivalence hold in every run, for as long as no recovery and no
      release unlinks the lock file of a process that is still inside. */
  lemma {:induction false} UnrobbedRunsSerialise<L, S>(sections: Sections<L, S>, recovery: Recovery, moves: seq<Move>,
                                                       worlds: seq<World<L, S>>, i: nat)
    requires IsRun(sections, recovery, moves, worlds) && i < |worlds|
    requires forall j | 0 <= j < i :: !RobsHolder(recovery, moves[j], worlds[j])
    ensures Serialised(sections, worlds[i], worlds[0].store)
  {
    RunIsSafe(sections, recovery, moves, worlds, i);
    LinkedIsExclusive(worlds[i]);
  }

  lemma {:induction false} QuietMove<L, S>(sections: Sections<L, S>, recovery: Recovery, m: Move, w: World<L, S>,
                                           w': World<L, S>)
    requires Linked(w) && NobodyUnlinks(w)
    requires Next(sections, recovery, m, w) == Some(w')
    requires m.Stat? && IsStale(w) ==> recovery == AtOnce && forall p | p in w.procs :: !w.procs[p].IsHolder()
    ensures NobodyUnlinks(w') && !RobsHolder(recovery, m, w)
  {
    LinkedIsExclusive(w);
  }

  lemma {:induction false} FreshMove<L, S>(sections: Sections<L, S>, recovery: Recovery, m: Move, w: World<L, S>,
                                           w': World<L, S>, s: S)
    requires Safe(sections, w, s) && TurnsInOrder(sections, w, s) && NobodyUnlinks(w) && !IsStale(w)
    requires Next(sections, recovery, m, w) == Some(w')
    ensures Safe(sections, w', s) && TurnsInOrder(sections, w', s) && NobodyUnlinks(w')
  {
    QuietMove(sections, recovery, m, w, w');
    MoveKeepsOrder(sections, recovery, m, w, w', s);
    SafeMove(sections, recovery, m, w, w', s);
  }

  lemma {:induction false} FreshRun<L, S>(sections: Sections<L, S>, recovery: Recovery, moves: seq<Move>,
                                          worlds: seq<World<L, S>>, i: nat)
    requires IsRun(sections, recovery, moves, worlds) && i < |worlds|
    requires forall j | 0 <= j < |worlds| :: !IsStale(worlds[j])
    ensures Safe(sections, worlds[i], worlds[0].store) && TurnsInOrder(sections, worlds[i], worlds[0].store)
    ensures NobodyUnlinks(worlds[i])
  {
    if i == 0 {
      InitialIsSafe(sections, worlds[0]);
    } else {
      FreshRun(sections, recovery, moves, worlds, i - 1);
      FreshMove(sections, recovery, moves[i - 1], worlds[i - 1], worlds[i], worlds[0].store);
    }
  }

  /** In a run where no lock file ever reaches the stale age, with any number of crashes, the store is at
      every moment the serial one, and only the latest turn can be unfinished: whoever dies inside keeps
      everybody else out. */
  lemma {:induction false} FreshRunsSerialise<L, S>(sections: Sections<L, S>, recovery: Recovery, moves: seq<Move>,
                                                    worlds: seq<World<L, S>>, i: nat)
    requires IsRun(sections, recovery, moves, worlds) && i < |worlds|
    requires forall j | 0 <= j < |worlds| :: !IsStale(worlds[j])
    ensures Serialised(sections, worlds[i], worlds[0].store)
    ensures TurnsInOrder(sections, worlds[i], worlds[0].store)
  {
    FreshRun(sections, recovery, moves, worlds, i);
    LinkedIsExclusive(worlds[i]);
  }

  /** No process is inside with a lock file that others may call stale. */
  ghost predicate NobodyOverstays<L, S>(w: World<L, S>) {
    IsStale(w) ==> forall p | p in w.procs && w.procs[p].IsHolder() :: w.procs[p].inode != w.lock.value.inode
  }

  lemma {:induction false} AtOnceRun<L, S>(sections: Sections<L, S>, moves: seq<Move>, worlds: seq<World<L, S>>, i: nat)
    requires IsRun(sections, AtOnce, moves, worlds) && i < |worlds|
    requires forall j | 0 <= j < |worlds| :: NobodyOverstays(worlds[j])
    ensures NobodyUnlinks(worlds[i]) && forall j | 0 <= j < i :: !RobsHolder(AtOnce, moves[j], worlds[j])
  {
    if i > 0 {
      AtOnceRun(sections, moves, worlds, i - 1);
      RunIsSafe(sections, AtOnce, moves, worlds, i - 1);
      QuietMove(sections, AtOnce, moves[i - 1], worlds[i - 1], worlds[i]);
    }
  }

  /** With stale recovery as one step, it is enough that no live holder overstays the stale limit. */
  lemma {:induction false} AtOnceRunsSerialise<L, S>(sections: Sections<L, S>, moves: seq<Move>,
                                                     worlds: seq<World<L, S>>, i: nat)
    requires IsRun(sections, AtOnce, moves, worlds) && i < |worlds|
    requires forall j | 0 <= j < |worlds| :: NobodyOverstays(worlds[j])
    ensures Serialised(sections, worlds[i], worlds[0].store)
  {
    AtOnceRun(sections, moves, worlds, i);
    UnrobbedRunsSerialise(sections, AtOnce, moves, worlds, i);
  }

  // ----- The path comes free, and waiters come back -----

  predicate HasLeft<L>(phase: Phase<L>) {
    phase.Crashed? || phase.Failed?
  }

  /** A lock file belongs to the latest opener, who is still inside or has left it behind. */
  ghost predicate PathIsOwned<L, S>(w: World<L, S>) {
    w.lock.Some? ==>
      && w.log != []
      && var p := w.log[|w.log| - 1];
         p in w.procs && (w.procs[p].IsHolder() || HasLeft(w.procs[p]))
  }

  lemma {:induction false} MoveKeepsOwner<L, S>(sections: Sections<L, S>, recovery: Recovery, m: Move, w: World<L, S>,
                                                w': World<L, S>)
    requires PathIsOwned(w) && Next(sections, recovery, m, w) == Some(w')
    ensures PathIsOwned(w')
  {
  }

  lemma {:induction false} RunKeepsOwner<L, S>(sections: Sections<L, S>, recovery: Recovery, moves: seq<Move>,
                                               worlds: seq<World<L, S>>, i: nat)
    requires IsRun(sections, recovery, moves, worlds) && i < |worlds|
    ensures PathIsOwned(worlds[i])
  {
    if i > 0 {
      RunKeepsOwner(sections, recovery, moves, worlds, i - 1);
      MoveKeepsOwner(sections, recovery, moves[i - 1], worlds[i - 1], worlds[i]);
    }
  }

  /** In every run the lock is given back: when all who ever opened it have finished, the next `Open` enters. */
  lemma FinishedLetIn<L, S>(sections: Sections<L, S>, recovery: Recovery, moves: seq<Move>, worlds: seq<World<L, S>>,
                            i: nat, q: nat)
    requires IsRun(sections, recovery, moves, worlds) && i < |worlds|
    requires forall p | p in worlds[i].log :: p in worlds[i].procs && worlds[i].procs[p].Finished?
    ensures worlds[i].lock.None?
    ensures q in worlds[i].procs && worlds[i].procs[q].Opening? ==> Enters(sections, recovery, worlds[i], q)
  {
    RunKeepsOwner(sections, recovery, moves, worlds, i);
  }

  /** `Open` succeeds: `q` is inside, with the file that the path names, and is logged. */
  ghost predicate Enters<L, S>(sections: Sections<L, S>, recovery: Recovery, w: World<L, S>, q: nat) {
    var v := Next(sections, recovery, Open(q), w);
    && v.Some? && q in v.value.procs && v.value.procs[q].Writing?
    && v.value.lock == Some(LockFile(v.value.procs[q].inode, w.now))
    && v.value.log == w.log + [q]
  }

  /** Nobody has the path: either nobody ever had it, or the latest opener has finished. */
  ghost predicate FreeIsFinished<L, S>(w: World<L, S>) {
    w.lock.None? && w.log != [] ==>
      var p := w.log[|w.log| - 1];
      p in w.procs && w.procs[p].Finished?
  }

  lemma {:induction false} FreshMoveFrees<L, S>(sections: Sections<L, S>, recovery: Recovery, m: Move, w: World<L, S>,
                                                w': World<L, S>, s: S)
    requires LogMatches(sections, w, s) && NobodyUnlinks(w) && !IsStale(w)
    requires FreeIsFinished(w) && Next(sections, recovery, m, w) == Some(w')
    ensures FreeIsFinished(w')
  {
    if m.Release? {
      assert PhaseMatches(sections, m.p, w.procs[m.p], w.log, w.turns, s);
    }
  }

  lemma {:induction false} FreshRunFrees<L, S>(sections: Sections<L, S>, recovery: Recovery, moves: seq<Move>,
                                               worlds: seq<World<L, S>>, i: nat)
    requires IsRun(sections, recovery, moves, worlds) && i < |worlds|
    requires forall j | 0 <= j < |worlds| :: !IsStale(worlds[j])
    ensures FreeIsFinished(worlds[i])
  {
    if i > 0 {
      FreshRunFrees(sections, recovery, moves, worlds, i - 1);
      FreshRun(sections, recovery, moves, worlds, i - 1);
      FreshMoveFrees(sections, recovery, moves[i - 1], worlds[i - 1], worlds[i], worlds[0].store);
    }
  }

  /** In a run where no lock file grows stale, an opener gets in if and only if nobody came before or the latest
      one has finished. */
  lemma FreshOpenExactlyWhen<L, S>(sections: Sections<L, S>, recovery: Recovery, moves: seq<Move>,
                                   worlds: seq<World<L, S>>, i: nat, q: nat)
    requires IsRun(sections, recovery, moves, worlds) && i < |worlds|
    requires forall j | 0 <= j < |worlds| :: !IsStale(worlds[j])
    requires q in worlds[i].procs && worlds[i].procs[q].Opening?
    ensures var w := worlds[i];
            Enters(sections, recovery, w, q)
            <==> w.log == []
                 || (w.log[|w.log| - 1] in w.procs && w.procs[w.log[|w.log| - 1]].Finished?)
  {
    RunKeepsOwner(sections, recovery, moves, worlds, i);
    FreshRunFrees(sections, recovery, moves, worlds, i);
  }

  /** The release itself frees the path, in any world. */
  lemma ReleaseLetsIn<L, S>(sections: Sections<L, S>, recovery: Recovery, p: nat, w: World<L, S>, w': World<L, S>,
                            q: nat)
    requires Next(sections, recovery, Release(p), w) == Some(w')
    requires q in w'.procs && w'.procs[q].Opening?
    ensures w'.procs[p].Finished? && Enters(sections, recovery, w', q)
  {
  }

  predicate IsMoveOf(m: Move, p: nat) {
    !m.Tick? && m.p == p
  }

  lemma {:induction false} MoveLeavesOthers<L, S>(sections: Sections<L, S>, recovery: Recovery, m: Move,
                                                  w: World<L, S>, w': World<L, S>, p: nat)
    requires Next(sections, recovery, m, w) == Some(w') && p in w.procs && !IsMoveOf(m, p)
    ensures p in w'.procs && w'.procs[p] == w.procs[p]
  {
  }

  /** A process stays where it is while others move and time passes. */
  lemma {:induction false} Untouched<L, S>(sections: Sections<L, S>, recovery: Recovery, moves: seq<Move>,
                                           worlds: seq<World<L, S>>, p: nat, from: nat, to: nat)
    requires IsRun(sections, recovery, moves, worlds) && from <= to < |worlds| && p in worlds[from].procs
    requires forall k | from <= k < to :: !IsMoveOf(moves[k], p)
    ensures p in worlds[to].procs && worlds[to].procs[p] == worlds[from].procs[p]
  {
    if from < to {
      Untouched(sections, recovery, moves, worlds, p, from, to - 1);
      MoveLeavesOthers(sections, recovery, moves[to - 1], worlds[to - 1], worlds[to], p);
    }
  }

  /** One round of a waiter, whatever happens between its three system calls: it meets a lock file that is not
      stale, and is back at opening unless it has waited for more than a minute; then it fails. */
  lemma {:induction false} WaiterRound<L, S>(sections: Sections<L, S>, recovery: Recovery, moves: seq<Move>,
                                             worlds: seq<World<L, S>>, p: nat, a: nat, b: nat, c: nat)
    requires IsRun(sections, recovery, moves, worlds) && a < b < c < |moves|
    requires moves[a] == Open(p) && moves[b] == Stat(p) && moves[c] == Check(p)
    requires forall k | a < k < c && k != b :: !IsMoveOf(moves[k], p)
    requires worlds[a].lock.Some? && !IsStale(worlds[b])
    requires p in worlds[a].procs && worlds[a].procs[p].Opening?
    ensures p in worlds[c + 1].procs
    ensures var start := worlds[a].procs[p].start;
            worlds[c + 1].procs[p] == if worlds[c].now - start > 60_000 then Failed else Opening(start)
  {
    assert Next(sections, recovery, moves[a], worlds[a]) == Some(worlds[a + 1]);
    Untouched(sections, recovery, moves, worlds, p, a + 1, b);
    assert Next(sections, recovery, moves[b], worlds[b]) == Some(worlds[b + 1]);
    Untouched(sections, recovery, moves, worlds, p, b + 1, c);
    assert Next(sections, recovery, moves[c], worlds[c]) == Some(worlds[c + 1]);
  }

  /** Whoever writes the file that the path names makes it young again. */
  lemma WritingDates<L, S>(sections: Sections<L, S>, recovery: Recovery, p: nat, w: World<L, S>, w': World<L, S>)
    requires Linked(w) && Next(sections, recovery, Write(p), w) == Some(w')
    ensures w'.lock == Some(LockFile(w'.procs[p].inode, w.now)) && w'.procs[p].Working? && !IsStale(w')
  {
  }

  /** A file that is older than fifteen minutes, and no other, sends the waiter to clear it away. */
  lemma StaleExactlyWhen<L, S>(sections: Sections<L, S>, p: nat, w: World<L, S>, w': World<L, S>)
    requires Next(sections, Separate, Stat(p), w) == Some(w')
    ensures w'.procs[p] == if w.lock.Some? && w.now - w.lock.value.mtime > 900_000 then Unlinking(w.procs[p].start)
                           else Checking(w.procs[p].start)
  {
  }

  /** So does its recovery: once it has unlinked a file, the next `Open` enters; if there was none, it waits. */
  lemma RecoveryLetsIn<L, S>(sections: Sections<L, S>, m: Move, recovery: Recovery, w: World<L, S>, w': World<L, S>,
                             q: nat)
    requires m.Unlink? || (m.Stat? && recovery == AtOnce && w.lock.Some? && w.now - w.lock.value.mtime > 900_000)
    requires Next(sections, recovery, m, w) == Some(w')
    ensures w'.procs[m.p] == if w.lock.Some? then Opening(w.procs[m.p].start) else Checking(w.procs[m.p].start)
    ensures q in w'.procs && w'.procs[q].Opening? ==> Enters(sections, recovery, w', q)
  {
  }

  predicate IsWaiting<L>(phase: Phase<L>) {
    phase.Opening? || phase.Statting? || phase.Unlinking? || phase.Checking?
  }

  lemma {:induction false} MoveKeepsStart<L, S>(sections: Sections<L, S>, recovery: Recovery, m: Move, w: World<L, S>,
                                                w': World<L, S>, p: nat)
    requires Next(sections, recovery, m, w) == Some(w') && p in w'.procs && IsWaiting(w'.procs[p])
    ensures m == Begin(p) ==> w'.procs[p].start == w.now
    ensures m != Begin(p) ==> p in w.procs && IsWaiting(w.procs[p]) && w.procs[p].start == w'.procs[p].start
  {
  }

  /** A waiter remembers when it began. */
  lemma {:induction false} WaitsSinceBegin<L, S>(sections: Sections<L, S>, recovery: Recovery, moves: seq<Move>,
                                                 worlds: seq<World<L, S>>, p: nat, i: nat)
    requires IsRun(sections, recovery, moves, worlds) && i < |worlds|
    requires p in worlds[i].procs && IsWaiting(worlds[i].procs[p])
    ensures exists j | 0 <= j < i :: moves[j] == Begin(p) && worlds[j].now == worlds[i].procs[p].start
  {
    if i > 0 {
      MoveKeepsStart(sections, recovery, moves[i - 1], worlds[i - 1], worlds[i], p);
      if moves[i - 1] == Begin(p) {
        assert worlds[i - 1].now == worlds[i].procs[p].start;
      } else {
        WaitsSinceBegin(sections, recovery, moves, worlds, p, i - 1);
        var j :| 0 <= j < i - 1 && moves[j] == Begin(p) && worlds[j].now == worlds[i - 1].procs[p].start;
      }
    }
  }

  /** Nobody who waits for the lock fails before a minute has passed since it began. */
  lemma {:induction false} WaiterFailsLate<L, S>(sections: Sections<L, S>, recovery: Recovery, moves: seq<Move>,
                                                 worlds: seq<World<L, S>>, p: nat, i: nat)
    requires IsRun(sections, recovery, moves, worlds) && i < |moves|
    requires p in worlds[i].procs && IsWaiting(worlds[i].procs[p])
    requires p in worlds[i + 1].procs && worlds[i + 1].procs[p].Failed?
    ensures moves[i] == Check(p)
    ensures exists j | 0 <= j < i :: moves[j] == Begin(p) && worlds[i].now - worlds[j].now > 60_000
  {
    assert Next(sections, recovery, moves[i], worlds[i]) == Some(worlds[i + 1]);
    WaitsSinceBegin(sections, recovery, moves, worlds, p, i);
  }

  // ----- How exclusion is lost -----

  /** Once a move has unlinked the file of a live holder, one newcomer is enough for two holders: no
      weaker condition than the one of `UnrobbedRunsSerialise` keeps later openers out. */
  lemma {:induction false} RobbedHolderIsJoined<L, S>(sections: Sections<L, S>, recovery: Recovery, m: Move,
                                                      w: World<L, S>, w': World<L, S>, newcomer: nat)
    requires Linked(w) && RobsHolder(recovery, m, w) && Next(sections, recovery, m, w) == Some(w')
    requires newcomer in w.procs && w.procs[newcomer].Idle?
    ensures exists u, v ::
      && Next(sections, recovery, Begin(newcomer), w') == Some(u)
      && Next(sections, recovery, Open(newcomer), u) == Some(v)
      && !AtMostOneHolder(v)
  {
    var q :| q in w.procs && q != m.p && w.procs[q].IsHolder();
    RobberyFreesPath(sections, recovery, m, w, w', q);
    OpenJoins(sections, recovery, w', q, newcomer);
  }

  /** And it is lost in no other way: a newcomer can join a holder after a move if and only if that move
      unlinked the lock file of a live holder. */
  lemma {:induction false} JoinedExactlyWhenRobbed<L, S>(sections: Sections<L, S>, recovery: Recovery, m: Move,
                                                         w: World<L, S>, w': World<L, S>, newcomer: nat)
    requires Linked(w) && Next(sections, recovery, m, w) == Some(w')
    requires newcomer in w'.procs && w'.procs[newcomer].Idle?
    ensures RobsHolder(recovery, m, w)
            <==> exists u, v ::
                   && Next(sections, recovery, Begin(newcomer), w') == Some(u)
                   && Next(sections, recovery, Open(newcomer), u) == Some(v)
                   && !AtMostOneHolder(v)
  {
    if RobsHolder(recovery, m, w) {
      assert newcomer in w.procs && w.procs[newcomer].Idle?;
      RobbedHolderIsJoined(sections, recovery, m, w, w', newcomer);
    } else {
      MoveKeepsLinked(sections, recovery, m, w, w');
      forall u, v | Next(sections, recovery, Begin(newcomer), w') == Some(u)
                    && Next(sections, recovery, Open(newcomer), u) == Some(v)
        ensures AtMostOneHolder(v)
      {
        MoveKeepsLinked(sections, recovery, Begin(newcomer), w', u);
        MoveKeepsLinked(sections, recovery, Open(newcomer), u, v);
        LinkedIsExclusive(v);
      }
    }
  }

  lemma {:induction false} RobberyFreesPath<L, S>(sections: Sections<L, S>, recovery: Recovery, m: Move, w: World<L, S>,
                                                  w': World<L, S>, q: nat)
    requires Linked(w) && RobsHolder(recovery, m, w) && Next(sections, recovery, m, w) == Some(w')
    requires q in w.procs && q != m.p && w.procs[q].IsHolder()
    ensures w'.lock.None? && !m.Release? && w'.procs == w.procs[m.p := w'.procs[m.p]]
  {
    LinkedIsExclusive(w);
  }

  lemma {:induction false} OpenJoins<L, S>(sections: Sections<L, S>, recovery: Recovery, w: World<L, S>, q: nat,
                                           newcomer: nat)
    requires w.lock.None? && q in w.procs && w.procs[q].IsHolder()
    requires newcomer in w.procs && w.procs[newcomer].Idle?
    ensures exists u, v ::
      && Next(sections, recovery, Begin(newcomer), w) == Some(u)
      && Next(sections, recovery, Open(newcomer), u) == Some(v)
      && !AtMostOneHolder(v)
  {
    var u := Next(sections, recovery, Begin(newcomer), w).value;
    var v := Next(sections, recovery, Open(newcomer), u).value;
    assert v.procs[q].IsHolder() && v.procs[newcomer].IsHolder();
  }

  const NO_WORK: Sections<int, int> := Sections(p => 0, (p, local, store) => None)

  /** A world of three processes, as far as the lock is concerned. */
  datatype Scene = Scene(now: nat, lock: Option<LockFile>, nextInode: nat, zero: Phase<int>, one: Phase<int>,
                         two: Phase<int>)

  ghost predicate Shows(w: World<int, int>, scene: Scene) {
    && w.procs.Keys == {0, 1, 2}
    && w.now == scene.now && w.lock == scene.lock && w.nextInode == scene.nextInode
    && w.procs[0] == scene.zero && w.procs[1] == scene.one && w.procs[2] == scene.two
  }

  /** A run of the code as it is, in which no live holder overstays, and which ends in this scene. */
  ghost predicate Shown(moves: seq<Move>, worlds: seq<World<int, int>>, scene: Scene) {
    && IsRun(NO_WORK, Separate, moves, worlds)
    && Shows(worlds[|moves|], scene)
    && forall i | 0 <= i < |worlds| :: NobodyOverstays(worlds[i])
  }

  lemma {:induction false} Extend(moves: seq<Move>, worlds: seq<World<int, int>>, scene: Scene, m: Move, now: Scene)
    returns (longer: seq<Move>, more: seq<World<int, int>>)
    requires Shown(moves, worlds, scene)
    requires m.Tick? || m.p < 3
    requires forall w: World<int, int> | Shows(w, scene) ::
      Next(NO_WORK, Separate, m, w).Some? && Shows(Next(NO_WORK, Separate, m, w).value, now)
    requires forall w: World<int, int> | Shows(w, now) :: NobodyOverstays(w)
    ensures Shown(longer, more, now)
  {
    longer, more := moves + [m], worlds + [Next(NO_WORK, Separate, m, worlds[|moves|]).value];
  }

  const LATE: nat := LOCK_STALE_MS + 1
  const NOBODY := Scene(0, None, 0, Idle, Idle, Idle)
  const INSIDE := Scene(0, Some(LockFile(0, 0)), 1, Writing(0), Idle, Idle)
  const ABANDONED := Scene(LATE, Some(LockFile(0, 0)), 1, Crashed, Idle, Idle)
  const QUEUED := ABANDONED.(one := Statting(LATE), two := Statting(LATE))
  const BOTH_STALE := ABANDONED.(one := Unlinking(LATE), two := Unlinking(LATE))
  const ONE_INSIDE := Scene(LATE, Some(LockFile(1, LATE)), 2, Crashed, Writing(1), Unlinking(LATE))
  const TWO_INSIDE := Scene(LATE, Some(LockFile(2, LATE)), 3, Crashed, Writing(1), Writing(2))

  lemma {:induction false} NobodyYet() returns (moves: seq<Move>, worlds: seq<World<int, int>>)
    ensures Shown(moves, worlds, NOBODY)
  {
    moves, worlds := [], [World(0, None, 0, map[0 := Idle, 1 := Idle, 2 := Idle], 0, [], map[])];
  }

  lemma {:induction false} FirstGetsIn() returns (moves: seq<Move>, worlds: seq<World<int, int>>)
    ensures Shown(moves, worlds, INSIDE)
  {
    var opening := NOBODY.(zero := Opening(0));
    moves, worlds := NobodyYet();
    moves, worlds := Extend(moves, worlds, NOBODY, Begin(0), opening);
    moves, worlds := Extend(moves, worlds, opening, Open(0), INSIDE);
  }

  /** Process 0 gets in and dies. */
  lemma {:induction false} DeathInside() returns (moves: seq<Move>, worlds: seq<World<int, int>>)
    ensures Shown(moves, worlds, ABANDONED.(now := 0))
  {
    moves, worlds := FirstGetsIn();
    moves, worlds := Extend(moves, worlds, INSIDE, Crash(0), ABANDONED.(now := 0));
  }

  /** The file it left grows stale, and two others come. */
  lemma {:induction false} TimePasses() returns (moves: seq<Move>, worlds: seq<World<int, int>>)
    ensures Shown(moves, worlds, ABANDONED)
  {
    moves, worlds := DeathInside();
    moves, worlds := Extend(moves, worlds, ABANDONED.(now := 0), Tick(LATE), ABANDONED);
  }

  lemma {:induction false} TwoArrive() returns (moves: seq<Move>, worlds: seq<World<int, int>>)
    ensures Shown(moves, worlds, ABANDONED.(one := Opening(LATE), two := Opening(LATE)))
  {
    var first := ABANDONED.(one := Opening(LATE));
    moves, worlds := TimePasses();
    moves, worlds := Extend(moves, worlds, ABANDONED, Begin(1), first);
    moves, worlds := Extend(moves, worlds, first, Begin(2), first.(two := Opening(LATE)));
  }

  lemma {:induction false} TwoQueue() returns (moves: seq<Move>, worlds: seq<World<int, int>>)
    ensures Shown(moves, worlds, QUEUED)
  {
    var here := ABANDONED.(one := Opening(LATE), two := Opening(LATE));
    moves, worlds := TwoArrive();
    moves, worlds := Extend(moves, worlds, here, Open(1), here.(one := Statting(LATE)));
    moves, worlds := Extend(moves, worlds, here.(one := Statting(LATE)), Open(2), QUEUED);
  }

  lemma {:induction false} BothFindItStale() returns (moves: seq<Move>, worlds: seq<World<int, int>>)
    ensures Shown(moves, worlds, BOTH_STALE)
  {
    moves, worlds := TwoQueue();
    moves, worlds := Extend(moves, worlds, QUEUED, Stat(1), QUEUED.(one := Unlinking(LATE)));
    moves, worlds := Extend(moves, worlds, QUEUED.(one := Unlinking(LATE)), Stat(2), BOTH_STALE);
  }

  /** One clears it and gets in; the other unlinks the file that the first has just created. */
  lemma {:induction false} OneGetsIn() returns (moves: seq<Move>, worlds: seq<World<int, int>>)
    ensures Shown(moves, worlds, ONE_INSIDE)
  {
    var cleared := BOTH_STALE.(lock := None, one := Opening(LATE));
    moves, worlds := BothFindItStale();
    moves, worlds := Extend(moves, worlds, BOTH_STALE, Unlink(1), cleared);
    moves, worlds := Extend(moves, worlds, cleared, Open(1), ONE_INSIDE);
  }

  lemma {:induction false} OtherGetsInToo() returns (moves: seq<Move>, worlds: seq<World<int, int>>)
    ensures Shown(moves, worlds, TWO_INSIDE)
  {
    var cleared := ONE_INSIDE.(lock := None, two := Opening(LATE));
    moves, worlds := OneGetsIn();
    moves, worlds := Extend(moves, worlds, ONE_INSIDE, Unlink(2), cleared);
    moves, worlds := Extend(moves, worlds, cleared, Open(2), TWO_INSIDE);
  }

  /** With stat and unlink apart, as in the code, mutual exclusion fails although no live holder ever
      overstayed: two waiters stat the same abandoned file before either unlinks it. */
  lemma {:induction false} TwoHolders()
    ensures exists moves, worlds: seq<World<int, int>> ::
      && IsRun(NO_WORK, Separate, moves, worlds)
      && (forall i | 0 <= i < |worlds| :: NobodyOverstays(worlds[i]))
      && !AtMostOneHolder(worlds[|moves|])
  {
    var moves, worlds := OtherGetsInToo();
    assert worlds[|moves|].procs[1].IsHolder() && worlds[|moves|].procs[2].IsHolder();
  }
}
