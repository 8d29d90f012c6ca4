/**
 * Undo of a whole live run: its entries reversed over rusqlite, the last one
 * first, against the table the run started from.
 */
module RunUndo {
  import opened Common
  import opened Memories
  import opened Rollback
  import opened Undo
  import opened Clusters
  import opened Autonomy
  import opened AutonomyRuns
  import opened CuratorLog
  import opened EntryUndo

  // ----- A list of entries, the last one first ---------------------------

  /** How many statements the reversal of an entry issues. */
  function Cost(entry: RollbackEntry): nat {
    match entry
    case ConsolidateEntry(originals, _) => |originals| + 1 + |originals|
    case ForgetEntry(_) => 2
    case _ => 1
  }

  function ReverseAll(w: World, k: nat, db: Db, log: seq<Written>): Step<()>
    decreases |log|
  {
    if log == [] then Step(db, Ok(()))
    else
      var last := log[|log| - 1].entry;
      var s := ReverseSqlite(w, k, db, last);
      if s.value.Err? then Step(s.db, Err(s.value.error))
      else ReverseAll(w, k + Cost(last), s.db, log[..|log| - 1])
  }

  function CostAll(log: seq<Written>): nat {
    if log == [] then 0 else Cost(log[|log| - 1].entry) + CostAll(log[..|log| - 1])
  }

  lemma {:induction false} ReverseAppended(w: World, k: nat, db: Db, a: seq<Written>, b: seq<Written>)
    ensures var s := ReverseAll(w, k, db, b);
      ReverseAll(w, k, db, a + b) == if s.value.Err? then s else ReverseAll(w, k + CostAll(b), s.db, a)
    decreases |b|
  {
    hide WellFormed, ReverseSqlite, Cost;
    if b == [] {
      assert a + b == a;
    } else {
      var n := |b| - 1;
      var s := ReverseSqlite(w, k, db, b[n].entry);
      assert (a + b)[..|a| + n] == a + b[..n];
      if s.value.Ok? {
        ReverseAppended(w, k + Cost(b[n].entry), s.db, a, b[..n]);
      }
    }
  }

  /** From any table alike to `after`, reversing `log` gives one alike to `before`. */
  ghost predicate Undoes(ids: set<Id>, log: seq<Written>, after: Table, before: Table) {
    forall w: World, k: nat, x: Db ::
      NoFailures(w) && OffLog(ids, x.memories) && SameOrdinary(x.memories, after) ==>
        var r := ReverseAll(w, k, x, log);
        r.value.Ok? && OffLog(ids, r.db.memories) && SameOrdinary(r.db.memories, before)
  }

  lemma UndoesNothing(ids: set<Id>, t: Table)
    ensures Undoes(ids, [], t, t)
  {
    hide WellFormed, SameOrdinary, OffLog;
  }

  lemma UndoesBoth(ids: set<Id>, a: seq<Written>, b: seq<Written>, after: Table, mid: Table, before: Table)
    requires Undoes(ids, a, mid, before) && Undoes(ids, b, after, mid)
    ensures Undoes(ids, a + b, after, before)
  {
    hide WellFormed, SameOrdinary, OffLog, ReverseAll;
    forall w: World, k: nat, x: Db | NoFailures(w) && OffLog(ids, x.memories) && SameOrdinary(x.memories, after)
      ensures var r := ReverseAll(w, k, x, a + b);
        r.value.Ok? && OffLog(ids, r.db.memories) && SameOrdinary(r.db.memories, before)
    {
      ReverseAppended(w, k, x, a, b);
      var s := ReverseAll(w, k, x, b);
      var r := ReverseAll(w, k + CostAll(b), s.db, a);
    }
  }

  /** The same for one entry. */
  ghost predicate EntryUndoes(ids: set<Id>, entry: RollbackEntry, after: Table, before: Table) {
    forall w: World, k: nat, x: Db ::
      NoFailures(w) && OffLog(ids, x.memories) && SameOrdinary(x.memories, after) ==>
        var r := ReverseSqlite(w, k, x, entry);
        r.value.Ok? && OffLog(ids, r.db.memories) && SameOrdinary(r.db.memories, before)
  }

  /** An attempt's entry, once logged, undoes the attempt. */
  lemma LoggedUndoes(ids: set<Id>, w: World, curator: Curator, a: Attempt, report: Report, before: Table)
    requires a.decision.Ok? && a.decision.value.Some?
    requires EntryUndoes(ids, a.decision.value.value, a.db.memories, before)
    requires Logged(w, curator, a.decision.value.value, false, Run(a.tick, a.db, report)).report.errors == []
    ensures Undoes(ids, Wrote(w, curator, a),
                   Logged(w, curator, a.decision.value.value, false, Run(a.tick, a.db, report)).db.memories, before)
  {
    var entry := a.decision.value.value;
    var row := RollbackRow(w, a.tick, curator, entry);
    LoggingIsNoChange(w, a.tick, a.db, row);
    hide WellFormed, SameOrdinary, OffLog, InsertRow, RollbackRow, ReverseSqlite;
    var after := InsertRow(w, a.tick, a.db, row).db.memories;
    var log := Wrote(w, curator, a);
    assert log == [Written(entry, w.now(a.tick))];
    OneEntryUndoes(ids, log, entry, after, a.db.memories, before);
  }

  lemma OneEntryUndoes(
    ids: set<Id>, log: seq<Written>, entry: RollbackEntry, after: Table, t: Table, before: Table)
    requires |log| == 1 && log[0].entry == entry
    requires SameOrdinary(after, t) && EntryUndoes(ids, entry, t, before)
    ensures Undoes(ids, log, after, before)
  {
    hide WellFormed, SameOrdinary, OffLog, ReverseSqlite;
    forall w: World, k: nat, x: Db | NoFailures(w) && OffLog(ids, x.memories) && SameOrdinary(x.memories, after)
      ensures var r := ReverseAll(w, k, x, log);
        r.value.Ok? && OffLog(ids, r.db.memories) && SameOrdinary(r.db.memories, before)
    {
      SameOrdinaryTwice(x.memories, after, t);
      var s := ReverseSqlite(w, k, x, entry);
      assert log[..0] == [];
    }
  }

  // ----- The steps of a run ----------------------------------------------

  /** The members are the rows they stand for when their cluster is merged. */
  predicate ClusterCurrent(t: Table, cluster: seq<Memory>) {
    && Snapshots(cluster)
    && forall m :: m in cluster && m.id in t ==> SameRow(m, t[m.id])
  }

  lemma ConsolidateOneUndoes(
    w: World, curator: Curator, cluster: seq<Memory>, s: Run, ids: set<Id>)
    requires !curator.tombstone && OffLog(ids, s.db.memories)
    requires forall m :: m in cluster ==> m.id in ids
    requires ClusterCurrent(s.db.memories, cluster)
    requires ConsolidateOne(w, curator, cluster, false, s).report.errors == []
    ensures Undoes(ids, Wrote(w, curator, TryConsolidate(w, curator, cluster, false, s.tick, s.db)),
                   ConsolidateOne(w, curator, cluster, false, s).db.memories, s.db.memories)
  {
    hide WellFormed, SameOrdinary, OffLog, ConsolidateRows, Undoes, EntryUndoes, Logged, MergeOf, ClusterCurrent, Texts;
    var a := TryConsolidate(w, curator, cluster, false, s.tick, s.db);
    if a.decision == Ok(None) {
      UndoesNothing(ids, s.db.memories);
    } else {
      var merge := MergeOf(cluster, curator.summarize(Texts(cluster)).value);
      MergeEntryUndoes(w, s.tick, s.db, cluster, curator.summarize(Texts(cluster)).value, ids);
      LoggedUndoes(ids, w, curator, a, s.report, s.db.memories);
    }
  }

  lemma MergeEntryUndoes(w0: World, k0: nat, d: Db, cluster: seq<Memory>, summary: string, ids: set<Id>)
    requires |cluster| >= 2 && OffLog(ids, d.memories)
    requires forall m :: m in cluster ==> m.id in ids && !Reserved(m.namespace)
    requires ClusterCurrent(d.memories, cluster)
    requires ConsolidateRows(w0, k0, d, MergeOf(cluster, summary), false).value.Ok?
    ensures var c := ConsolidateRows(w0, k0, d, MergeOf(cluster, summary), false);
      EntryUndoes(ids, ConsolidateEntry(cluster, c.value.value), c.db.memories, d.memories)
  {
    var merge := MergeOf(cluster, summary);
    MergeIsOrdinary(cluster, summary, ids);
    MemberIdsAre(cluster);
    assert (set id | id in merge.ids) == Ids(cluster);
    CurrentKeys(w0, k0, d, cluster, merge);
    hide WellFormed, SameOrdinary, OffLog, ConsolidateRows, MergeOf, ReverseSqlite, Snapshots, KeysOf, SameRow;
    var c := ConsolidateRows(w0, k0, d, merge, false);
    forall w: World, k: nat, x: Db | NoFailures(w) && OffLog(ids, x.memories) && SameOrdinary(x.memories, c.db.memories)
      ensures var r := ReverseSqlite(w, k, x, ConsolidateEntry(cluster, c.value.value));
        r.value.Ok? && OffLog(ids, r.db.memories) && SameOrdinary(r.db.memories, d.memories)
    {
      MergeUndoneIff(w0, k0, d, merge, cluster, w, k, x, ids);
    }
  }

  lemma CurrentKeys(w: World, k: nat, d: Db, cluster: seq<Memory>, merge: Merge)
    requires ClusterCurrent(d.memories, cluster) && (set id | id in merge.ids) == Ids(cluster)
    requires forall m :: m in cluster ==> !Reserved(m.namespace)
    requires ConsolidateRows(w, k, d, merge, false).value.Ok?
    ensures KeysOf(d.memories, cluster) && forall m :: m in cluster ==> SameRow(m, d.memories[m.id])
  {
    ConsolidateSucceedsIff(w, k, d, merge, false);
    hide WellFormed, ConsolidateRows, Owner;
    assert Reserved(ROLLBACK_NAMESPACE);
    forall m | m in cluster ensures m.id in d.memories {
      assert m.id in Ids(cluster);
    }
  }

  lemma ForgetOneUndoes(
    w: World, curator: Curator, all: seq<Memory>, m: Memory, s: Run, ids: set<Id>)
    requires OffLog(ids, s.db.memories) && m.id in ids
    requires Winner(all, m).Some? && m.id in s.db.memories ==> MARKERS !! s.db.memories[m.id].metadata.Keys
    requires ForgetOne(w, curator, all, m, false, s).report.errors == []
    ensures Undoes(ids, Wrote(w, curator, TryForget(w, all, m, false, s.tick, s.db)),
                   ForgetOne(w, curator, all, m, false, s).db.memories, s.db.memories)
  {
    hide WellFormed, SameOrdinary, OffLog, Conserve, Undoes, EntryUndoes, Logged, Winner, CanonicalPair;
    var a := TryForget(w, all, m, false, s.tick, s.db);
    if Winner(all, m).None? {
      UndoesNothing(ids, s.db.memories);
    } else {
      ConserveEntryUndoes(w, s.tick, s.db, m.id, Winner(all, m).value.id, ids);
      LoggedUndoes(ids, w, curator, a, s.report, s.db.memories);
    }
  }

  lemma ConserveEntryUndoes(w0: World, k0: nat, d: Db, loser: Id, winner: Id, ids: set<Id>)
    requires OffLog(ids, d.memories) && loser in ids
    requires loser in d.memories ==> MARKERS !! d.memories[loser].metadata.Keys
    requires Conserve(w0, k0, d, loser, winner).value.Ok?
    ensures EntryUndoes(ids, ConserveContradiction(loser, winner, CanonicalPair(loser, winner)),
                        Conserve(w0, k0, d, loser, winner).db.memories, d.memories)
  {
    hide WellFormed, SameOrdinary, OffLog, Conserve, ReverseSqlite, CanonicalPair;
    var entry := ConserveContradiction(loser, winner, CanonicalPair(loser, winner));
    forall w: World, k: nat, x: Db |
      NoFailures(w) && OffLog(ids, x.memories)
      && SameOrdinary(x.memories, Conserve(w0, k0, d, loser, winner).db.memories)
      ensures var r := ReverseSqlite(w, k, x, entry);
        r.value.Ok? && OffLog(ids, r.db.memories) && SameOrdinary(r.db.memories, d.memories)
    {
      ConserveUndoneIff(w0, k0, d, loser, winner, w, k, x, ids);
    }
  }

  lemma AdjustOneUndoes(w: World, curator: Curator, m: Memory, s: Run, ids: set<Id>)
    requires OffLog(ids, s.db.memories) && m.id in ids
    requires NextPriority(curator, m) != m.priority && m.id in s.db.memories ==>
               s.db.memories[m.id].priority == m.priority
    requires AdjustOne(w, curator, m, false, s).report.errors == []
    ensures Undoes(ids, Wrote(w, curator, TryAdjust(w, curator, m, false, s.tick, s.db)),
                   AdjustOne(w, curator, m, false, s).db.memories, s.db.memories)
  {
    var a := TryAdjust(w, curator, m, false, s.tick, s.db);
    var after := NextPriority(curator, m);
    hide WellFormed, SameOrdinary, OffLog, Undoes, EntryUndoes, Logged, NextPriority;
    if after == m.priority {
      UndoesNothing(ids, s.db.memories);
    } else {
      AdjustSucceeds(w, s.tick, s.db, m.id, after);
      hide SetPriority;
      AdjustEntryUndoes(w, s.tick, s.db, m.id, m.priority, after, ids);
      LoggedUndoes(ids, w, curator, a, s.report, s.db.memories);
    }
  }

  lemma AdjustSucceeds(w: World, k: nat, db: Db, id: Id, priority: int)
    ensures SetPriority(w, k, db, id, priority).value.Ok? <==> !w.fails(k)
  {
    hide WellFormed;
  }

  lemma AdjustEntryUndoes(w0: World, k0: nat, d: Db, id: Id, before: int, after: int, ids: set<Id>)
    requires OffLog(ids, d.memories) && id in ids && !w0.fails(k0)
    requires id in d.memories ==> d.memories[id].priority == before
    ensures EntryUndoes(ids, PriorityAdjust(id, before, after),
                        SetPriority(w0, k0, d, id, after).db.memories, d.memories)
  {
    hide WellFormed, SameOrdinary, OffLog, SetPriority, ReverseSqlite;
    var entry := PriorityAdjust(id, before, after);
    forall w: World, k: nat, x: Db |
      NoFailures(w) && OffLog(ids, x.memories)
      && SameOrdinary(x.memories, SetPriority(w0, k0, d, id, after).db.memories)
      ensures var r := ReverseSqlite(w, k, x, entry);
        r.value.Ok? && OffLog(ids, r.db.memories) && SameOrdinary(r.db.memories, d.memories)
    {
      AdjustUndoneIff(w0, k0, d, id, before, after, w, k, x, ids);
    }
  }

  // ----- The passes ------------------------------------------------------

  /** Every cluster is current when its turn comes. */
  predicate ClustersCurrent(w: World, curator: Curator, clusters: seq<seq<Memory>>, s: Run) {
    clusters == [] ||
    var n := |clusters| - 1;
    && ClustersCurrent(w, curator, clusters[..n], s)
    && ClusterCurrent(ConsolidateRun(w, curator, clusters[..n], false, s).db.memories, clusters[n])
  }

  /** Every loser's row, if still there, is unmarked when its turn comes. */
  predicate LosersUnmarked(w: World, curator: Curator, all: seq<Memory>, some: seq<Memory>, s: Run)
    decreases |some|
  {
    some == [] ||
    var n := |some| - 1;
    var t := ForgetRun(w, curator, all, some[..n], false, s).db.memories;
    && LosersUnmarked(w, curator, all, some[..n], s)
    && (Winner(all, some[n]).Some? && some[n].id in t ==> MARKERS !! t[some[n].id].metadata.Keys)
  }

  /** Every priority to be moved, if its row is still there, is the row's when its turn comes. */
  predicate PrioritiesCurrent(w: World, curator: Curator, some: seq<Memory>, s: Run) {
    some == [] ||
    var n := |some| - 1;
    var t := AdjustRun(w, curator, some[..n], false, s).db.memories;
    && PrioritiesCurrent(w, curator, some[..n], s)
    && (NextPriority(curator, some[n]) != some[n].priority && some[n].id in t ==>
          t[some[n].id].priority == some[n].priority)
  }

  lemma LoggedErrors(w: World, curator: Curator, entry: RollbackEntry, s: Run)
    ensures s.report.errors <= Logged(w, curator, entry, false, s).report.errors
  {
    hide WellFormed, InsertRow, RollbackRow;
  }

  lemma ConsolidateErrors(w: World, curator: Curator, cluster: seq<Memory>, s: Run)
    ensures s.report.errors <= ConsolidateOne(w, curator, cluster, false, s).report.errors
  {
    hide WellFormed, TryConsolidate, Logged;
    var a := TryConsolidate(w, curator, cluster, false, s.tick, s.db);
    if a.decision.Ok? && a.decision.value.Some? {
      LoggedErrors(w, curator, a.decision.value.value, Run(a.tick, a.db, s.report));
    }
  }

  lemma {:induction false} ConsolidateRunUndoes(
    w: World, curator: Curator, clusters: seq<seq<Memory>>, s: Run, ids: set<Id>)
    requires !curator.tombstone && MintsOutside(w, ids) && OffLog(ids, s.db.memories)
    requires forall c, m :: c in clusters && m in c ==> m.id in ids
    requires ClustersCurrent(w, curator, clusters, s)
    requires ConsolidateRun(w, curator, clusters, false, s).report.errors == []
    ensures Undoes(ids, ConsolidateLog(w, curator, clusters, s),
                   ConsolidateRun(w, curator, clusters, false, s).db.memories, s.db.memories)
    decreases |clusters|
  {
    hide WellFormed, OffLog, Undoes, MintsOutside, Wrote, TryConsolidate, ConsolidateOne, ClusterCurrent, LogGrows;
    if clusters == [] {
      UndoesNothing(ids, s.db.memories);
    } else {
      var n := |clusters| - 1;
      var before := ConsolidateRun(w, curator, clusters[..n], false, s);
      assert clusters[n] in clusters;
      ConsolidateErrors(w, curator, clusters[n], before);
      ConsolidateRunUndoes(w, curator, clusters[..n], s, ids);
      ConsolidateRunLogs(w, curator, ids, clusters[..n], s);
      ConsolidateOneUndoes(w, curator, clusters[n], before, ids);
      UndoesBoth(ids, ConsolidateLog(w, curator, clusters[..n], s),
        Wrote(w, curator, TryConsolidate(w, curator, clusters[n], false, before.tick, before.db)),
        ConsolidateRun(w, curator, clusters, false, s).db.memories, before.db.memories, s.db.memories);
    }
  }

  lemma {:induction false} ForgetRunUndoes(
    w: World, curator: Curator, all: seq<Memory>, some: seq<Memory>, s: Run, ids: set<Id>)
    requires MintsOutside(w, ids) && OffLog(ids, s.db.memories)
    requires forall m :: m in some ==> m.id in ids
    requires LosersUnmarked(w, curator, all, some, s)
    requires ForgetRun(w, curator, all, some, false, s).report.errors == []
    ensures Undoes(ids, ForgetLog(w, curator, all, some, s),
                   ForgetRun(w, curator, all, some, false, s).db.memories, s.db.memories)
    decreases |some|
  {
    hide WellFormed, OffLog, Undoes, MintsOutside, Wrote, TryForget, ForgetOne, LogGrows, Winner, Count, MarksGrow;
    if some == [] {
      UndoesNothing(ids, s.db.memories);
    } else {
      var n := |some| - 1;
      var before := ForgetRun(w, curator, all, some[..n], false, s);
      assert some[n] in some;
      ForgetOneMarks(w, curator, all, some[n], before);
      ForgetRunUndoes(w, curator, all, some[..n], s, ids);
      ForgetRunLogs(w, curator, ids, all, some[..n], s);
      ForgetOneUndoes(w, curator, all, some[n], before, ids);
      UndoesBoth(ids, ForgetLog(w, curator, all, some[..n], s),
        Wrote(w, curator, TryForget(w, all, some[n], false, before.tick, before.db)),
        ForgetRun(w, curator, all, some, false, s).db.memories, before.db.memories, s.db.memories);
    }
  }

  lemma {:induction false} AdjustRunUndoes(
    w: World, curator: Curator, some: seq<Memory>, s: Run, ids: set<Id>)
    requires MintsOutside(w, ids) && OffLog(ids, s.db.memories)
    requires forall m :: m in some ==> m.id in ids
    requires PrioritiesCurrent(w, curator, some, s)
    requires AdjustRun(w, curator, some, false, s).report.errors == []
    ensures Undoes(ids, AdjustLog(w, curator, some, s),
                   AdjustRun(w, curator, some, false, s).db.memories, s.db.memories)
    decreases |some|
  {
    hide WellFormed, OffLog, Undoes, MintsOutside, Wrote, TryAdjust, AdjustOne, LogGrows, NextPriority, MarksGrow;
    if some == [] {
      UndoesNothing(ids, s.db.memories);
    } else {
      var n := |some| - 1;
      var before := AdjustRun(w, curator, some[..n], false, s);
      assert some[n] in some;
      AdjustOneMarks(w, curator, some[n], before);
      AdjustRunUndoes(w, curator, some[..n], s, ids);
      AdjustRunLogs(w, curator, ids, some[..n], s);
      AdjustOneUndoes(w, curator, some[n], before, ids);
      UndoesBoth(ids, AdjustLog(w, curator, some[..n], s),
        Wrote(w, curator, TryAdjust(w, curator, some[n], false, before.tick, before.db)),
        AdjustRun(w, curator, some, false, s).db.memories, before.db.memories, s.db.memories);
    }
  }

  // ----- A whole run -----------------------------------------------------

  function CandidateIds(candidates: seq<Memory>, clusters: seq<seq<Memory>>): set<Id> {
    MemberSet(clusters) + Ids(candidates)
  }

  /** What the run acts on is the table's own state whenever it does. */
  predicate RunCurrent(
    w: World, curator: Curator, candidates: seq<Memory>, clusters: seq<seq<Memory>>, tick: nat, db: Db)
  {
    var start := Run(tick, db, Report(|clusters|, 0, 0, 0, 0, []));
    var consolidated := ConsolidateRun(w, curator, clusters, false, start);
    var forgotten := ForgetRun(w, curator, candidates, candidates, false, consolidated);
    && ClustersCurrent(w, curator, clusters, start)
    && LosersUnmarked(w, curator, candidates, candidates, consolidated)
    && PrioritiesCurrent(w, curator, candidates, forgotten)
  }

  /**
   * Undo of a whole run. When a hard-deleting live run reported no error and
   * acted on current state throughout, reversing its entries, the last one
   * first, succeeds and leaves every row outside the log as it was before
   * the run in every column but update time, version, clock and expiry, and
   * no other such row.
   */
  lemma RunIsUndone(
    w: World, curator: Curator, candidates: seq<Memory>, clusters: seq<seq<Memory>>, tick: nat, db: Db,
    w2: World, k2: nat)
    requires !curator.tombstone && NoFailures(w2)
    requires MintsOutside(w, CandidateIds(candidates, clusters))
    requires OffLog(CandidateIds(candidates, clusters), db.memories)
    requires RunCurrent(w, curator, candidates, clusters, tick, db)
    requires RunPasses(w, curator, candidates, clusters, false, tick, db).report.errors == []
    ensures var r := RunPasses(w, curator, candidates, clusters, false, tick, db);
      var u := ReverseAll(w2, k2, r.db, RunLog(w, curator, candidates, clusters, tick, db));
      u.value.Ok? && SameOrdinary(u.db.memories, db.memories)
  {
    hide WellFormed, OffLog, Undoes, MintsOutside, ConsolidateRun, ForgetRun, AdjustRun, LogGrows;
    hide SameOrdinary, MarksGrow;
    hide ConsolidateLog, ForgetLog, AdjustLog, ClustersCurrent, LosersUnmarked, PrioritiesCurrent, Count, NoFailures;
    var ids := CandidateIds(candidates, clusters);
    var start := Run(tick, db, Report(|clusters|, 0, 0, 0, 0, []));
    var consolidated := ConsolidateRun(w, curator, clusters, false, start);
    var forgotten := ForgetRun(w, curator, candidates, candidates, false, consolidated);
    var r := AdjustRun(w, curator, candidates, false, forgotten);
    AdjustRunMarks(w, curator, candidates, forgotten);
    ForgetRunErrors(w, curator, candidates, candidates, consolidated);
    ConsolidateRunLogs(w, curator, ids, clusters, start);
    ForgetRunLogs(w, curator, ids, candidates, candidates, consolidated);
    ConsolidateRunUndoes(w, curator, clusters, start, ids);
    ForgetRunUndoes(w, curator, candidates, candidates, consolidated, ids);
    AdjustRunUndoes(w, curator, candidates, forgotten, ids);
    var x := ConsolidateLog(w, curator, clusters, start);
    var y := ForgetLog(w, curator, candidates, candidates, consolidated);
    var z := AdjustLog(w, curator, candidates, forgotten);
    UndoesBoth(ids, x, y, forgotten.db.memories, consolidated.db.memories, db.memories);
    UndoesBoth(ids, x + y, z, r.db.memories, forgotten.db.memories, db.memories);
    AdjustRunLogs(w, curator, ids, candidates, forgotten);
    Apply(ids, x + y + z, r.db, db.memories, w2, k2);
  }

  lemma Apply(ids: set<Id>, log: seq<Written>, r: Db, before: Table, w: World, k: nat)
    requires Undoes(ids, log, r.memories, before) && NoFailures(w) && OffLog(ids, r.memories)
    ensures var u := ReverseAll(w, k, r, log); u.value.Ok? && SameOrdinary(u.db.memories, before)
  {
    hide WellFormed, OffLog, ReverseAll;
    assert SameOrdinary(r.memories, r.memories);
  }

  lemma {:induction false} ForgetRunErrors(w: World, curator: Curator, all: seq<Memory>, some: seq<Memory>, s: Run)
    ensures s.report.errors <= ForgetRun(w, curator, all, some, false, s).report.errors
    decreases |some|
  {
    hide WellFormed, ForgetOne, MarksGrow, Count, Winner;
    if some != [] {
      var n := |some| - 1;
      ForgetRunErrors(w, curator, all, some[..n], s);
      ForgetOneMarks(w, curator, all, some[n], ForgetRun(w, curator, all, some[..n], false, s));
    }
  }
}
