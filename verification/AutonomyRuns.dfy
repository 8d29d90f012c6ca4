/** Whole runs of the curator's passes over a candidate set, live or dry: `run_autonomy_passes`. */
module AutonomyRuns {
  import opened Common
  import opened Memories
  import opened Rollback
  import opened Clusters
  import opened Autonomy

  // ----- The steps of the passes keep the baseline -----------------------

  lemma ClusterKeeps(base: Baseline, w: World, k: nat, db: Db, curator: Curator, cluster: seq<Memory>)
    requires cluster != [] && forall m :: m in cluster ==> m.id in base.targets
    ensures curator.summarize(Texts(cluster)).Some? ==>
              var merge := MergeOf(cluster, curator.summarize(Texts(cluster)).value);
              StillKept(base, w, db.memories, ConsolidateRows(w, k, db, merge, curator.tombstone).db.memories)
  {
    hide ConsolidateRows, StillKept, WellFormed, HighestTier;
    MemberIdsAre(cluster);
    if curator.summarize(Texts(cluster)).Some? {
      var merge := MergeOf(cluster, curator.summarize(Texts(cluster)).value);
      ConsolidateKeeps(base, w, k, db, merge, curator.tombstone);
    }
  }

  lemma LoserKeeps(base: Baseline, w: World, k: nat, db: Db, all: seq<Memory>, m: Memory)
    requires Winner(all, m).Some? ==> m.id in base.targets
    ensures Winner(all, m).Some? ==>
              StillKept(base, w, db.memories, Conserve(w, k, db, m.id, Winner(all, m).value.id).db.memories)
  {
    hide Winner, Conserve, StillKept, WellFormed;
    if Winner(all, m).Some? {
      ConserveKeeps(base, w, k, db, m.id, Winner(all, m).value.id);
    }
  }

  lemma DriftKeeps(base: Baseline, w: World, k: nat, db: Db, curator: Curator, m: Memory)
    requires NextPriority(curator, m) != m.priority ==> m.id in base.targets
    ensures NextPriority(curator, m) != m.priority ==>
              StillKept(base, w, db.memories, SetPriority(w, k, db, m.id, NextPriority(curator, m)).db.memories)
  {
    hide NextPriority, SetPriority, StillKept, WellFormed;
    if NextPriority(curator, m) != m.priority {
      PriorityKeeps(base, w, k, db, m.id, NextPriority(curator, m));
    }
  }

  // ----- All passes ------------------------------------------------------

  function Losers(all: seq<Memory>, some: seq<Memory>): nat {
    if some == [] then 0
    else Losers(all, some[..|some| - 1]) + if Winner(all, some[|some| - 1]).Some? then 1 else 0
  }

  function Drifting(curator: Curator, some: seq<Memory>): nat {
    if some == [] then 0
    else
      var m := some[|some| - 1];
      Drifting(curator, some[..|some| - 1]) + if NextPriority(curator, m) != m.priority then 1 else 0
  }

  predicate AllSummarized(curator: Curator, clusters: seq<seq<Memory>>) {
    forall c :: c in clusters ==> curator.summarize(Texts(c)).Some?
  }

  function ClustersFor(curator: Curator, candidates: seq<Memory>, order: seq<string>, skip: bool): seq<seq<Memory>> {
    if skip then [] else ClustersIn(curator.lens, candidates, order)
  }

  /** How many of the errors are of one kind. */
  function Count(errors: seq<PassError>, e: PassError): nat {
    multiset(errors)[e]
  }

  lemma CountSnoc(errors: seq<PassError>, x: PassError)
    ensures forall e :: Count(errors + [x], e) == Count(errors, e) + if e == x then 1 else 0
  {}

  lemma NothingYet()
    ensures forall e :: Count([], e) == 0
    ensures TotalSize([]) == 0
  {}

  /** Report conservation: nothing the passes attempt goes uncounted. */
  predicate Conserves(r: Report) {
    r.rollbackEntriesWritten + |r.errors| ==
    r.clustersFormed + r.memoriesForgotten + r.priorityAdjustments
    + Count(r.errors, ForgetFailed) + Count(r.errors, PriorityFailed)
  }

  /** What the report of a run says about its inputs. */
  ghost predicate Outcome(
    curator: Curator, clusters: seq<seq<Memory>>, candidates: seq<Memory>, dryRun: bool, r: Report)
  {
    && Conserves(r)
    && r.clustersFormed == |clusters|
    && r.memoriesForgotten + Count(r.errors, ForgetFailed) == Losers(candidates, candidates)
    && r.priorityAdjustments + Count(r.errors, PriorityFailed) == Drifting(curator, candidates)
    && r.memoriesConsolidated <= TotalSize(clusters)
    && (Count(r.errors, ConsolidateFailed) == 0 ==>
          r.memoriesConsolidated == TotalSize(clusters) && AllSummarized(curator, clusters))
    && (dryRun ==>
          Count(r.errors, ForgetFailed) == Count(r.errors, PriorityFailed)
          == Count(r.errors, RollbackLogWriteFailed) == 0)
    && (dryRun && AllSummarized(curator, clusters) ==> r.errors == [])
  }

  // ----- A run as a function of what it starts from ----------------------

  datatype Run = Run(tick: nat, db: Db, report: Report)

  function Logged(w: World, curator: Curator, entry: RollbackEntry, dryRun: bool, s: Run): Run {
    var written := s.report.(rollbackEntriesWritten := s.report.rollbackEntriesWritten + 1);
    if dryRun then s.(report := written)
    else
      var step := InsertRow(w, s.tick, s.db, RollbackRow(w, s.tick, curator, entry));
      Run(s.tick + 1, step.db,
          if step.value.Ok? then written else s.report.(errors := s.report.errors + [RollbackLogWriteFailed]))
  }

  function ConsolidateOne(w: World, curator: Curator, cluster: seq<Memory>, dryRun: bool, s: Run): Run {
    var a := TryConsolidate(w, curator, cluster, dryRun, s.tick, s.db);
    match a.decision
    case Err(_) => Run(a.tick, a.db, s.report.(errors := s.report.errors + [ConsolidateFailed]))
    case Ok(None) => Run(a.tick, a.db, s.report)
    case Ok(Some(entry)) =>
      var l := Logged(w, curator, entry, dryRun, Run(a.tick, a.db, s.report));
      l.(report := l.report.(memoriesConsolidated := l.report.memoriesConsolidated + |cluster|))
  }

  function ForgetOne(w: World, curator: Curator, all: seq<Memory>, m: Memory, dryRun: bool, s: Run): Run {
    var a := TryForget(w, all, m, dryRun, s.tick, s.db);
    match a.decision
    case Err(_) => Run(a.tick, a.db, s.report.(errors := s.report.errors + [ForgetFailed]))
    case Ok(None) => Run(a.tick, a.db, s.report)
    case Ok(Some(entry)) =>
      var l := Logged(w, curator, entry, dryRun, Run(a.tick, a.db, s.report));
      l.(report := l.report.(memoriesForgotten := l.report.memoriesForgotten + 1))
  }

  function AdjustOne(w: World, curator: Curator, m: Memory, dryRun: bool, s: Run): Run {
    var a := TryAdjust(w, curator, m, dryRun, s.tick, s.db);
    match a.decision
    case Err(_) => Run(a.tick, a.db, s.report.(errors := s.report.errors + [PriorityFailed]))
    case Ok(None) => Run(a.tick, a.db, s.report)
    case Ok(Some(entry)) =>
      var l := Logged(w, curator, entry, dryRun, Run(a.tick, a.db, s.report));
      l.(report := l.report.(priorityAdjustments := l.report.priorityAdjustments + 1))
  }

  function ConsolidateRun(w: World, curator: Curator, clusters: seq<seq<Memory>>, dryRun: bool, s: Run): Run {
    if clusters == [] then s
    else
      var n := |clusters| - 1;
      ConsolidateOne(w, curator, clusters[n], dryRun, ConsolidateRun(w, curator, clusters[..n], dryRun, s))
  }

  function ForgetRun(w: World, curator: Curator, all: seq<Memory>, some: seq<Memory>, dryRun: bool, s: Run): Run
    decreases |some|
  {
    if some == [] then s
    else
      var n := |some| - 1;
      ForgetOne(w, curator, all, some[n], dryRun, ForgetRun(w, curator, all, some[..n], dryRun, s))
  }

  function AdjustRun(w: World, curator: Curator, some: seq<Memory>, dryRun: bool, s: Run): Run {
    if some == [] then s
    else
      var n := |some| - 1;
      AdjustOne(w, curator, some[n], dryRun, AdjustRun(w, curator, some[..n], dryRun, s))
  }

  /** The three passes, one after the other. */
  function RunPasses(
    w: World, curator: Curator, candidates: seq<Memory>, clusters: seq<seq<Memory>>, dryRun: bool, tick: nat, db: Db):
    Run
  {
    var start := Run(tick, db, Report(|clusters|, 0, 0, 0, 0, []));
    var consolidated := ConsolidateRun(w, curator, clusters, dryRun, start);
    var forgotten := ForgetRun(w, curator, candidates, candidates, dryRun, consolidated);
    AdjustRun(w, curator, candidates, dryRun, forgotten)
  }

  // ----- Every loser ends up marked --------------------------------------

  /** No row but a log row is new in `b`, none has moved, and no marker is lost. */
  predicate MarksGrow(a: Table, b: Table) {
    forall id :: id in b && b[id].namespace != ROLLBACK_NAMESPACE ==>
      && id in a && a[id].namespace == b[id].namespace
      && (Conserved(a[id]) ==> Conserved(b[id]))
  }

  lemma GrowConserve(w: World, k: nat, db: Db, loser: Id, winner: Id)
    ensures MarksGrow(db.memories, Conserve(w, k, db, loser, winner).db.memories)
  {
    hide WellFormed, CanonicalPair;
  }

  lemma GrowAdjust(w: World, k: nat, db: Db, id: Id, priority: int)
    ensures MarksGrow(db.memories, SetPriority(w, k, db, id, priority).db.memories)
  {
    hide WellFormed;
  }

  lemma GrowInsert(w: World, k: nat, db: Db, row: Memory)
    requires row.namespace == ROLLBACK_NAMESPACE
    ensures MarksGrow(db.memories, InsertRow(w, k, db, row).db.memories)
  {
    hide WellFormed;
  }

  lemma GrowLogged(w: World, curator: Curator, entry: RollbackEntry, dryRun: bool, s: Run)
    ensures MarksGrow(s.db.memories, Logged(w, curator, entry, dryRun, s).db.memories)
    ensures s.report.errors <= Logged(w, curator, entry, dryRun, s).report.errors
  {
    var row := RollbackRow(w, s.tick, curator, entry);
    assert row.namespace == ROLLBACK_NAMESPACE;
    hide WellFormed, InsertRow, RollbackRow;
    GrowInsert(w, s.tick, s.db, row);
  }

  lemma GrowTwice(a: Table, b: Table, c: Table)
    requires MarksGrow(a, b) && MarksGrow(b, c)
    ensures MarksGrow(a, c)
  {
    hide WellFormed, Conserved;
  }

  lemma FewerErrors(a: seq<PassError>, b: seq<PassError>)
    requires a <= b
    ensures forall e :: Count(a, e) <= Count(b, e)
  {
    assert b == a + b[|a|..];
  }

  lemma ForgetOneMarks(w: World, curator: Curator, all: seq<Memory>, m: Memory, s: Run)
    ensures var r := ForgetOne(w, curator, all, m, false, s);
      && MarksGrow(s.db.memories, r.db.memories)
      && s.report.errors <= r.report.errors
      && (Winner(all, m).Some? && Count(r.report.errors, ForgetFailed) == 0
          && m.id in r.db.memories && r.db.memories[m.id].namespace != ROLLBACK_NAMESPACE ==>
            Conserved(r.db.memories[m.id]))
  {
    hide WellFormed, Winner, Conserve, Logged, Conserved, Count, CanonicalPair, MarksGrow;
    var r := ForgetOne(w, curator, all, m, false, s);
    if Winner(all, m).None? {
      KeepsAll(s.db.memories);
    } else {
      var winner := Winner(all, m).value.id;
      var step := Conserve(w, s.tick, s.db, m.id, winner);
      GrowConserve(w, s.tick, s.db, m.id, winner);
      ConserveMarks(w, s.tick, s.db, m.id, winner);
      CountSnoc(s.report.errors, ForgetFailed);
      if step.value.Ok? {
        var entry := ConserveContradiction(m.id, winner, CanonicalPair(m.id, winner));
        GrowLogged(w, curator, entry, false, Run(s.tick + 1, step.db, s.report));
        GrowTwice(s.db.memories, step.db.memories, r.db.memories);
        if m.id in r.db.memories && r.db.memories[m.id].namespace != ROLLBACK_NAMESPACE {
          GrowAt(step.db.memories, r.db.memories, m.id);
        }
      }
    }
  }

  lemma KeepsAll(t: Table)
    ensures MarksGrow(t, t)
  {
    hide WellFormed;
  }

  lemma GrowAt(a: Table, b: Table, id: Id)
    requires MarksGrow(a, b) && id in b && b[id].namespace != ROLLBACK_NAMESPACE
    ensures id in a && (Conserved(a[id]) ==> Conserved(b[id]))
  {
    hide WellFormed, Conserved;
  }

  lemma AdjustOneMarks(w: World, curator: Curator, m: Memory, s: Run)
    ensures var r := AdjustOne(w, curator, m, false, s);
      MarksGrow(s.db.memories, r.db.memories) && s.report.errors <= r.report.errors
  {
    hide WellFormed, NextPriority, SetPriority, Logged, MarksGrow;
    var r := AdjustOne(w, curator, m, false, s);
    var after := NextPriority(curator, m);
    var step := SetPriority(w, s.tick, s.db, m.id, after);
    KeepsAll(s.db.memories);
    GrowAdjust(w, s.tick, s.db, m.id, after);
    if after != m.priority && step.value.Ok? {
      GrowLogged(w, curator, PriorityAdjust(m.id, m.priority, after), false, Run(s.tick + 1, step.db, s.report));
      GrowTwice(s.db.memories, step.db.memories, r.db.memories);
    }
  }

  predicate LosersMarked(all: seq<Memory>, some: seq<Memory>, t: Table) {
    forall m :: m in some && Winner(all, m).Some? && m.id in t && t[m.id].namespace != ROLLBACK_NAMESPACE ==>
      Conserved(t[m.id])
  }

  lemma MarkedStaysMarked(all: seq<Memory>, some: seq<Memory>, a: Table, b: Table)
    requires LosersMarked(all, some, a) && MarksGrow(a, b)
    ensures LosersMarked(all, some, b)
  {
    hide WellFormed, Conserved, Winner;
  }

  lemma {:induction false} ForgetRunMarks(
    w: World, curator: Curator, all: seq<Memory>, some: seq<Memory>, s: Run)
    requires Count(ForgetRun(w, curator, all, some, false, s).report.errors, ForgetFailed) == 0
    ensures LosersMarked(all, some, ForgetRun(w, curator, all, some, false, s).db.memories)
    decreases |some|
  {
    hide WellFormed, Conserved, Winner, Count, ForgetOne, MarksGrow;
    if some != [] {
      var n := |some| - 1;
      var before := ForgetRun(w, curator, all, some[..n], false, s);
      var after := ForgetOne(w, curator, all, some[n], false, before);
      ForgetOneMarks(w, curator, all, some[n], before);
      FewerErrors(before.report.errors, after.report.errors);
      ForgetRunMarks(w, curator, all, some[..n], s);
      MarkedStaysMarked(all, some[..n], before.db.memories, after.db.memories);
      assert some == some[..n] + [some[n]];
    }
  }

  lemma {:induction false} AdjustRunMarks(w: World, curator: Curator, some: seq<Memory>, s: Run)
    ensures var r := AdjustRun(w, curator, some, false, s);
      MarksGrow(s.db.memories, r.db.memories) && s.report.errors <= r.report.errors
    decreases |some|
  {
    hide WellFormed, AdjustOne, MarksGrow;
    if some == [] {
      KeepsAll(s.db.memories);
    } else {
      var n := |some| - 1;
      var before := AdjustRun(w, curator, some[..n], false, s);
      AdjustRunMarks(w, curator, some[..n], s);
      AdjustOneMarks(w, curator, some[n], before);
      GrowTwice(s.db.memories, before.db.memories, AdjustRun(w, curator, some, false, s).db.memories);
    }
  }

  /**
   * A live run that reports no failed forget leaves every losing candidate
   * that is still in the table marked as conserved, whatever else failed.
   */
  lemma LosersEndMarked(
    w: World, curator: Curator, candidates: seq<Memory>, clusters: seq<seq<Memory>>, tick: nat, db: Db)
    requires var r := RunPasses(w, curator, candidates, clusters, false, tick, db);
      Count(r.report.errors, ForgetFailed) == 0
    ensures var r := RunPasses(w, curator, candidates, clusters, false, tick, db);
      LosersMarked(candidates, candidates, r.db.memories)
  {
    hide WellFormed, ForgetRun, AdjustRun, ConsolidateRun, LosersMarked, MarksGrow, Count;
    var consolidated := ConsolidateRun(w, curator, clusters, false, Run(tick, db, Report(|clusters|, 0, 0, 0, 0, [])));
    var forgotten := ForgetRun(w, curator, candidates, candidates, false, consolidated);
    var r := AdjustRun(w, curator, candidates, false, forgotten);
    AdjustRunMarks(w, curator, candidates, forgotten);
    FewerErrors(forgotten.report.errors, r.report.errors);
    ForgetRunMarks(w, curator, candidates, candidates, consolidated);
    MarkedStaysMarked(candidates, candidates, forgotten.db.memories, r.db.memories);
  }

  lemma NoClusters(w: World, curator: Curator, dryRun: bool, s: Run)
    ensures ConsolidateRun(w, curator, [], dryRun, s) == s
  {}

  /** The rows a run has a reason to touch: cluster members, losers, and rows whose priority drifts. */
  function Targets(curator: Curator, candidates: seq<Memory>, clusters: seq<seq<Memory>>): set<Id> {
    (set c, m | c in clusters && m in c :: m.id)
    + (set m | m in candidates && Winner(candidates, m).Some? :: m.id)
    + (set m | m in candidates && NextPriority(curator, m) != m.priority :: m.id)
  }

  lemma TargetsCover(curator: Curator, candidates: seq<Memory>, clusters: seq<seq<Memory>>)
    ensures var targets := Targets(curator, candidates, clusters);
      && (forall c, m :: c in clusters && m in c ==> m.id in targets)
      && (forall m :: m in candidates && Winner(candidates, m).Some? ==> m.id in targets)
      && (forall m :: m in candidates && NextPriority(curator, m) != m.priority ==> m.id in targets)
  {
    hide Winner, NextPriority;
  }

  /**
   * All passes. The report conserves what was attempted; a dry run writes
   * nothing; and a live run, whatever statements fail, leaves every row it
   * has no reason to touch as it was and every marker in place.
   */
  method RunAutonomyPasses(
    conn: Connection, curator: Curator, candidates: seq<Memory>, order: seq<string>, dryRun: bool, skip: bool)
    returns (report: Report)
    requires IsOrder(candidates, order)
    modifies conn
    ensures Run(conn.tick, conn.db, report)
         == RunPasses(conn.world, curator, candidates, ClustersFor(curator, candidates, order, skip), dryRun,
                      old(conn.tick), old(conn.db))
    ensures dryRun ==> conn.db == old(conn.db)
    ensures Outcome(curator, ClustersFor(curator, candidates, order, skip), candidates, dryRun, report)
    ensures Unminted(old(conn.db).memories, conn.world) ==>
              && MarksKept(old(conn.db).memories, conn.db.memories)
              && Spared(old(conn.db).memories,
                        Targets(curator, candidates, ClustersFor(curator, candidates, order, skip)),
                        conn.db.memories)
  {
    hide WellFormed, InsertRow, ConsolidateRows, Conserve, SetPriority, RollbackRow, ClustersIn, Match, MarksKept;
    hide Unminted, Spared, Winner, NextPriority, Count, TotalSize, Targets, GoodCluster, IsOrder, Losers, Drifting;
    hide ConsolidateRun, ForgetRun, AdjustRun;
    report := Report(0, 0, 0, 0, 0, []);
    NothingYet();
    ghost var clusters := ClustersFor(curator, candidates, order, skip);
    TargetsCover(curator, candidates, clusters);
    ghost var base := Baseline(conn.db.memories, Targets(curator, candidates, clusters));
    KeptAtStart(base);
    if !skip {
      var found := FindConsolidationClusters(curator.lens, candidates, order);
      OrderIsUnreserved(candidates, order);
      ClustersAreGood(curator.lens, candidates, order);
      report := report.(clustersFormed := |found|);
      report := ConsolidatePass(conn, curator, candidates, found, dryRun, report, base);
    } else {
      NoClusters(conn.world, curator, dryRun, Run(conn.tick, conn.db, report));
    }
    report := ForgetPass(conn, curator, candidates, dryRun, report, base);
    report := PriorityPass(conn, curator, candidates, dryRun, report, base);
  }

  /** One pass's step: log the entry, and count it as written or as an error. */
  method Record(conn: Connection, curator: Curator, entry: RollbackEntry, dryRun: bool, report: Report)
    returns (r: Report)
    modifies conn
    ensures Run(conn.tick, conn.db, r)
         == Logged(conn.world, curator, entry, dryRun, Run(old(conn.tick), old(conn.db), report))
    ensures dryRun ==> conn.db == old(conn.db) && conn.tick == old(conn.tick)
    ensures !dryRun ==>
              conn.db == InsertRow(conn.world, old(conn.tick), old(conn.db),
                                   RollbackRow(conn.world, old(conn.tick), curator, entry)).db
    ensures var written := dryRun
              || InsertRow(conn.world, old(conn.tick), old(conn.db),
                           RollbackRow(conn.world, old(conn.tick), curator, entry)).value.Ok?;
      r == if written then report.(rollbackEntriesWritten := report.rollbackEntriesWritten + 1)
           else report.(errors := report.errors + [RollbackLogWriteFailed])
  {
    hide InsertRow, RollbackRow, WellFormed;
    r := report;
    if !dryRun {
      var s := PersistRollbackEntry(conn, curator, entry);
      if s.Err? {
        r := report.(errors := report.errors + [RollbackLogWriteFailed]);
        return;
      }
    }
    r := report.(rollbackEntriesWritten := report.rollbackEntriesWritten + 1);
  }

  lemma SizeSnoc(clusters: seq<seq<Memory>>, i: nat)
    requires i < |clusters|
    ensures TotalSize(clusters[..i + 1]) == TotalSize(clusters[..i]) + |clusters[i]|
  {
    assert clusters[..i + 1][..i] == clusters[..i];
  }

  method ConsolidatePass(
    conn: Connection, curator: Curator, candidates: seq<Memory>, clusters: seq<seq<Memory>>, dryRun: bool,
    start: Report, ghost base: Baseline)
    returns (report: Report)
    requires start == Report(|clusters|, 0, 0, 0, 0, [])
    requires forall c :: c in clusters ==> GoodCluster(curator.lens, candidates, c)
    requires forall c, m :: c in clusters && m in c ==> m.id in base.targets
    modifies conn
    ensures Run(conn.tick, conn.db, report)
         == ConsolidateRun(conn.world, curator, clusters, dryRun, Run(old(conn.tick), old(conn.db), start))
    ensures StillKept(base, conn.world, old(conn.db).memories, conn.db.memories)
    ensures dryRun ==> conn.db == old(conn.db)
    ensures report.clustersFormed == |clusters| && report.memoriesForgotten == report.priorityAdjustments == 0
    ensures report.rollbackEntriesWritten + |report.errors| == |clusters|
    ensures Count(report.errors, ForgetFailed) == Count(report.errors, PriorityFailed) == 0
      && (dryRun ==> Count(report.errors, RollbackLogWriteFailed) == 0)
      && (Count(report.errors, ConsolidateFailed) == 0 ==>
            report.memoriesConsolidated == TotalSize(clusters) && AllSummarized(curator, clusters))
    ensures report.memoriesConsolidated <= TotalSize(clusters)
    ensures dryRun && AllSummarized(curator, clusters) ==> report.errors == []
  {
    hide TryConsolidate, Logged, WellFormed, InsertRow, ConsolidateRows, RollbackRow, Match, Texts, MergeOf;
    hide Kept, Unminted, Count, TotalSize, NearDuplicates, Summarized;
    NothingYet();
    assert clusters[..0] == [];
    report := start;
    for i := 0 to |clusters|
      invariant Run(conn.tick, conn.db, report)
             == ConsolidateRun(conn.world, curator, clusters[..i], dryRun, Run(old(conn.tick), old(conn.db), start))
      invariant StillKept(base, conn.world, old(conn.db).memories, conn.db.memories)
      invariant dryRun ==> conn.db == old(conn.db)
      invariant report.clustersFormed == |clusters| && report.memoriesForgotten == report.priorityAdjustments == 0
      invariant report.rollbackEntriesWritten + |report.errors| == i
      invariant Count(report.errors, ForgetFailed) == Count(report.errors, PriorityFailed) == 0
      invariant dryRun ==> Count(report.errors, RollbackLogWriteFailed) == 0
      invariant report.memoriesConsolidated <= TotalSize(clusters[..i])
      invariant Count(report.errors, ConsolidateFailed) == 0 ==>
                  report.memoriesConsolidated == TotalSize(clusters[..i]) && AllSummarized(curator, clusters[..i])
      invariant dryRun && AllSummarized(curator, clusters) ==> report.errors == []
    {
      assert clusters[..i + 1] == clusters[..i] + [clusters[i]];
      assert clusters[..i + 1][..i] == clusters[..i];
      var cluster := clusters[i];
      SizeSnoc(clusters, i);
      assert cluster in clusters && GoodCluster(curator.lens, candidates, cluster);
      ghost var k, before := conn.tick, conn.db;
      var d := ConsolidateCluster(conn, curator, cluster, dryRun);
      ClusterKeeps(base, conn.world, k, before, curator, cluster);
      assert d != Ok(None);
      if d.Ok? {
        if d.value.Some? {
          LogKeeps(base, conn.world, conn.tick, conn.db, curator, d.value.value);
          CountSnoc(report.errors, RollbackLogWriteFailed);
          report := Record(conn, curator, d.value.value, dryRun, report);
          report := report.(memoriesConsolidated := report.memoriesConsolidated + |cluster|);
        }
      } else {
        CountSnoc(report.errors, ConsolidateFailed);
        report := report.(errors := report.errors + [ConsolidateFailed]);
      }
    }
    assert clusters[..|clusters|] == clusters;
  }

  method ForgetPass(
    conn: Connection, curator: Curator, candidates: seq<Memory>, dryRun: bool, start: Report, ghost base: Baseline)
    returns (report: Report)
    requires forall m :: m in candidates && Winner(candidates, m).Some? ==> m.id in base.targets
    modifies conn
    ensures Run(conn.tick, conn.db, report)
         == ForgetRun(conn.world, curator, candidates, candidates, dryRun, Run(old(conn.tick), old(conn.db), start))
    ensures StillKept(base, conn.world, old(conn.db).memories, conn.db.memories)
    ensures dryRun ==> conn.db == old(conn.db)
    ensures Conserves(start) ==> Conserves(report)
    ensures report.clustersFormed == start.clustersFormed && report.memoriesConsolidated == start.memoriesConsolidated
    ensures report.priorityAdjustments == start.priorityAdjustments
    ensures report.memoriesForgotten + Count(report.errors, ForgetFailed)
         == start.memoriesForgotten + Count(start.errors, ForgetFailed) + Losers(candidates, candidates)
      && Count(report.errors, PriorityFailed) == Count(start.errors, PriorityFailed)
      && Count(report.errors, ConsolidateFailed) == Count(start.errors, ConsolidateFailed)
    ensures dryRun ==> report.errors == start.errors
  {
    hide TryForget, Logged, WellFormed, InsertRow, Conserve, RollbackRow, Winner, Kept, Unminted, Count;
    hide Loses, LosesTo, Conservation, Conserved;
    report := start;
    for i := 0 to |candidates|
      invariant Run(conn.tick, conn.db, report)
             == ForgetRun(conn.world, curator, candidates, candidates[..i], dryRun,
                          Run(old(conn.tick), old(conn.db), start))
      invariant StillKept(base, conn.world, old(conn.db).memories, conn.db.memories)
      invariant dryRun ==> conn.db == old(conn.db) && report.errors == start.errors
      invariant Conserves(start) ==> Conserves(report)
      invariant report.clustersFormed == start.clustersFormed
      invariant report.memoriesConsolidated == start.memoriesConsolidated
      invariant report.priorityAdjustments == start.priorityAdjustments
      invariant report.memoriesForgotten + Count(report.errors, ForgetFailed)
             == start.memoriesForgotten + Count(start.errors, ForgetFailed) + Losers(candidates, candidates[..i])
      invariant Count(report.errors, PriorityFailed) == Count(start.errors, PriorityFailed)
      invariant Count(report.errors, ConsolidateFailed) == Count(start.errors, ConsolidateFailed)
    {
      assert candidates[..i + 1][..i] == candidates[..i];
      ghost var k, before := conn.tick, conn.db;
      var d := ForgetIfSuperseded(conn, candidates[i], candidates, dryRun);
      LoserKeeps(base, conn.world, k, before, candidates, candidates[i]);
      if d.Ok? {
        if d.value.Some? {
          LogKeeps(base, conn.world, conn.tick, conn.db, curator, d.value.value);
          CountSnoc(report.errors, RollbackLogWriteFailed);
          report := Record(conn, curator, d.value.value, dryRun, report);
          report := report.(memoriesForgotten := report.memoriesForgotten + 1);
        }
      } else {
        CountSnoc(report.errors, ForgetFailed);
        report := report.(errors := report.errors + [ForgetFailed]);
      }
    }
    assert candidates[..|candidates|] == candidates;
  }

  method PriorityPass(
    conn: Connection, curator: Curator, candidates: seq<Memory>, dryRun: bool, start: Report, ghost base: Baseline)
    returns (report: Report)
    requires forall m :: m in candidates && NextPriority(curator, m) != m.priority ==> m.id in base.targets
    modifies conn
    ensures Run(conn.tick, conn.db, report)
         == AdjustRun(conn.world, curator, candidates, dryRun, Run(old(conn.tick), old(conn.db), start))
    ensures StillKept(base, conn.world, old(conn.db).memories, conn.db.memories)
    ensures dryRun ==> conn.db == old(conn.db)
    ensures Conserves(start) ==> Conserves(report)
    ensures report.clustersFormed == start.clustersFormed && report.memoriesConsolidated == start.memoriesConsolidated
    ensures report.memoriesForgotten == start.memoriesForgotten
    ensures report.priorityAdjustments + Count(report.errors, PriorityFailed)
         == start.priorityAdjustments + Count(start.errors, PriorityFailed) + Drifting(curator, candidates)
      && Count(report.errors, ForgetFailed) == Count(start.errors, ForgetFailed)
      && Count(report.errors, ConsolidateFailed) == Count(start.errors, ConsolidateFailed)
    ensures dryRun ==> report.errors == start.errors
  {
    hide TryAdjust, Logged, WellFormed, InsertRow, SetPriority, RollbackRow, NextPriority, Kept, Unminted, Count;
    hide InUse, GoneCold, OnlyRow, Reprioritized;
    report := start;
    for i := 0 to |candidates|
      invariant Run(conn.tick, conn.db, report)
             == AdjustRun(conn.world, curator, candidates[..i], dryRun, Run(old(conn.tick), old(conn.db), start))
      invariant StillKept(base, conn.world, old(conn.db).memories, conn.db.memories)
      invariant dryRun ==> conn.db == old(conn.db) && report.errors == start.errors
      invariant Conserves(start) ==> Conserves(report)
      invariant report.clustersFormed == start.clustersFormed
      invariant report.memoriesConsolidated == start.memoriesConsolidated
      invariant report.memoriesForgotten == start.memoriesForgotten
      invariant report.priorityAdjustments + Count(report.errors, PriorityFailed)
             == start.priorityAdjustments + Count(start.errors, PriorityFailed) + Drifting(curator, candidates[..i])
      invariant Count(report.errors, ForgetFailed) == Count(start.errors, ForgetFailed)
      invariant Count(report.errors, ConsolidateFailed) == Count(start.errors, ConsolidateFailed)
    {
      assert candidates[..i + 1][..i] == candidates[..i];
      ghost var k, before := conn.tick, conn.db;
      var d := ApplyPriorityFeedback(conn, curator, candidates[i], dryRun);
      DriftKeeps(base, conn.world, k, before, curator, candidates[i]);
      if d.Ok? {
        if d.value.Some? {
          LogKeeps(base, conn.world, conn.tick, conn.db, curator, d.value.value);
          CountSnoc(report.errors, RollbackLogWriteFailed);
          report := Record(conn, curator, d.value.value, dryRun, report);
          report := report.(priorityAdjustments := report.priorityAdjustments + 1);
        }
      } else {
        CountSnoc(report.errors, PriorityFailed);
        report := report.(errors := report.errors + [PriorityFailed]);
      }
    }
    assert candidates[..|candidates|] == candidates;
  }

  /**
   * A dry run predicts the live run: on the same snapshot, clock and
   * summariser, if the live run reports no errors then both reports are
   * equal, whatever order each visited the namespaces in.
   */
  lemma DryRunPredictsLive(
    curator: Curator, candidates: seq<Memory>, o: seq<string>, p: seq<string>, skip: bool, dry: Report, live: Report)
    requires IsOrder(candidates, o) && IsOrder(candidates, p)
    requires Outcome(curator, ClustersFor(curator, candidates, o, skip), candidates, true, dry)
    requires Outcome(curator, ClustersFor(curator, candidates, p, skip), candidates, false, live)
    requires live.errors == []
    ensures dry == live
  {
    hide ClustersIn, Texts, Losers, Drifting, TotalSize;
    var a, b := ClustersFor(curator, candidates, o, skip), ClustersFor(curator, candidates, p, skip);
    OrderIrrelevant(curator.lens, candidates, o, p);
    assert multiset(a) == multiset(b);
    forall c | c in a ensures curator.summarize(Texts(c)).Some? {
      assert c in multiset(a) && c in multiset(b) && c in b;
    }
  }
}
