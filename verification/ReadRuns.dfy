/** Live runs on the very table their candidates were read from can be undone. */
module ReadRuns {
  import opened Common
  import opened Memories
  import opened Rollback
  import opened Undo
  import opened Clusters
  import opened Autonomy
  import opened AutonomyRuns
  import opened CuratorLog
  import opened EntryUndo
  import opened RunUndo

  // ----- From the table the candidates were read from --------------------

  /** Of the rows `ids` none is new in `b`, and outside `touched` none has changed. */
  predicate FrameOf(ids: set<Id>, touched: set<Id>, a: Table, b: Table) {
    && (forall id :: id in ids && id in b ==> id in a)
    && (forall id :: id in ids && id !in touched && id in b ==> b[id] == a[id])
  }

  predicate PrioritiesKept(ids: set<Id>, a: Table, b: Table) {
    forall id :: id in ids && id in b ==> id in a && b[id].priority == a[id].priority
  }

  lemma FrameTwice(ids: set<Id>, x: set<Id>, y: set<Id>, a: Table, b: Table, c: Table)
    requires FrameOf(ids, x, a, b) && FrameOf(ids, y, b, c)
    ensures FrameOf(ids, x + y, a, c)
  {
    hide WellFormed;
  }

  lemma PrioritiesTwice(ids: set<Id>, a: Table, b: Table, c: Table)
    requires PrioritiesKept(ids, a, b) && PrioritiesKept(ids, b, c)
    ensures PrioritiesKept(ids, a, c)
  {
    hide WellFormed;
  }

  lemma NoFrame(ids: set<Id>, touched: set<Id>, t: Table)
    ensures FrameOf(ids, touched, t, t) && PrioritiesKept(ids, t, t)
  {
    hide WellFormed;
  }

  lemma LoggedFrame(w: World, curator: Curator, entry: RollbackEntry, s: Run, ids: set<Id>)
    requires MintsOutside(w, ids) && OffLog(ids, s.db.memories)
    ensures var t := Logged(w, curator, entry, false, s).db.memories;
      FrameOf(ids, {}, s.db.memories, t) && PrioritiesKept(ids, s.db.memories, t)
  {
    var row := RollbackRow(w, s.tick, curator, entry);
    assert row.namespace == ROLLBACK_NAMESPACE && row.id == w.uuid(s.tick);
    hide WellFormed, RollbackRow, InsertRow;
    LogRowFrame(w, s.tick, s.db, row, ids);
  }

  lemma LogRowFrame(w: World, k: nat, db: Db, row: Memory, ids: set<Id>)
    requires row.namespace == ROLLBACK_NAMESPACE && row.id !in ids && OffLog(ids, db.memories)
    ensures var t := InsertRow(w, k, db, row).db.memories;
      FrameOf(ids, {}, db.memories, t) && PrioritiesKept(ids, db.memories, t)
  {
    hide WellFormed, Upserted, Fresh;
  }

  lemma MergeFrame(w: World, k: nat, db: Db, merge: Merge, ids: set<Id>, touched: set<Id>)
    requires MintsOutside(w, ids) && (set id | id in merge.ids) == touched
    ensures var s := ConsolidateRows(w, k, db, merge, false);
      && FrameOf(ids, touched, db.memories, s.db.memories)
      && (s.value.Ok? ==> forall id :: id in touched && id in ids ==> id !in s.db.memories)
  {
    hide WellFormed, Owner, MergeRows;
    ConsolidateSucceedsIff(w, k, db, merge, false);
    NoFrame(ids, touched, db.memories);
    var s := ConsolidateRows(w, k, db, merge, false);
    if s.value.Ok? {
      var summary := SummaryRow(w, k, db.memories, merge);
      SummaryId(w, k, db.memories, merge);
      MergedFrame(db, touched, summary, w.now(k), ids);
    }
  }

  lemma SummaryId(w: World, k: nat, t: Table, merge: Merge)
    requires forall id :: id in merge.ids ==> id in t
    ensures SummaryRow(w, k, t, merge).id == w.uuid(k)
  {
    hide WellFormed;
  }

  lemma MergedFrame(db: Db, touched: set<Id>, summary: Memory, now: string, ids: set<Id>)
    requires MergeRows(db, touched, summary, false, now).value.Ok? && summary.id !in ids
    ensures var t := MergeRows(db, touched, summary, false, now).db.memories;
      FrameOf(ids, touched, db.memories, t) && forall id :: id in touched && id in ids ==> id !in t
  {
    hide WellFormed;
  }

  lemma ConserveFrame(w: World, k: nat, db: Db, loser: Id, winner: Id, ids: set<Id>)
    ensures var t := Conserve(w, k, db, loser, winner).db.memories;
      FrameOf(ids, {loser}, db.memories, t) && PrioritiesKept(ids, db.memories, t)
  {
    hide WellFormed, CanonicalPair;
  }

  lemma AdjustFrame(w: World, k: nat, db: Db, id: Id, priority: int, ids: set<Id>)
    ensures FrameOf(ids, {id}, db.memories, SetPriority(w, k, db, id, priority).db.memories)
  {
    hide WellFormed;
  }

  lemma ConsolidateOneFrame(w: World, curator: Curator, cluster: seq<Memory>, s: Run, ids: set<Id>)
    requires !curator.tombstone && MintsOutside(w, ids) && OffLog(ids, s.db.memories)
    requires |cluster| >= 2 && forall m :: m in cluster ==> !Reserved(m.namespace) && m.id in ids
    requires ConsolidateOne(w, curator, cluster, false, s).report.errors == []
    ensures var t := ConsolidateOne(w, curator, cluster, false, s).db.memories;
      FrameOf(ids, Ids(cluster), s.db.memories, t) && forall m :: m in cluster ==> m.id !in t
  {
    hide WellFormed, ConsolidateRows, MergeOf, Texts, FrameOf, OffLog, Logged, MintsOutside;
    var a := TryConsolidate(w, curator, cluster, false, s.tick, s.db);
    var summary := curator.summarize(Texts(cluster)).value;
    var merge := MergeOf(cluster, summary);
    MembersMerged(cluster, summary);
    MergeIsOrdinary(cluster, summary, ids);
    MergeFrame(w, s.tick, s.db, merge, ids, Ids(cluster));
    ConsolidateOffLog(curator, ids, w, s.tick, s.db, merge, false);
    var l := Logged(w, curator, a.decision.value.value, false, Run(a.tick, a.db, s.report));
    LoggedFrame(w, curator, a.decision.value.value, Run(a.tick, a.db, s.report), ids);
    FrameTwice(ids, Ids(cluster), {}, s.db.memories, a.db.memories, l.db.memories);
    assert Ids(cluster) + {} == Ids(cluster);
    forall m | m in cluster ensures m.id !in l.db.memories {
      assert m.id in Ids(cluster);
      StillGone(ids, a.db.memories, l.db.memories, m.id);
    }
  }

  lemma MembersMerged(cluster: seq<Memory>, summary: string)
    requires cluster != []
    ensures (set id | id in MergeOf(cluster, summary).ids) == Ids(cluster)
  {
    hide HighestTier;
    MemberIdsAre(cluster);
  }

  lemma StillGone(ids: set<Id>, a: Table, b: Table, id: Id)
    requires FrameOf(ids, {}, a, b) && id in ids && id !in a
    ensures id !in b
  {}

  lemma ForgetOneFrame(w: World, curator: Curator, all: seq<Memory>, m: Memory, s: Run, ids: set<Id>)
    requires MintsOutside(w, ids) && OffLog(ids, s.db.memories)
    ensures var t := ForgetOne(w, curator, all, m, false, s).db.memories;
      FrameOf(ids, {m.id}, s.db.memories, t) && PrioritiesKept(ids, s.db.memories, t)
  {
    hide WellFormed, Conserve, FrameOf, PrioritiesKept, OffLog, Logged, MintsOutside, Winner, CanonicalPair, LogGrows;
    NoFrame(ids, {m.id}, s.db.memories);
    if Winner(all, m).Some? {
      var a := TryForget(w, all, m, false, s.tick, s.db);
      var winner := Winner(all, m).value.id;
      ConserveFrame(w, s.tick, s.db, m.id, winner, ids);
      ConserveOffLog(curator, ids, w, s.tick, s.db, m.id, winner);
      if a.decision.Ok? {
        var l := Logged(w, curator, a.decision.value.value, false, Run(a.tick, a.db, s.report));
        LoggedFrame(w, curator, a.decision.value.value, Run(a.tick, a.db, s.report), ids);
        FrameTwice(ids, {m.id}, {}, s.db.memories, a.db.memories, l.db.memories);
        PrioritiesTwice(ids, s.db.memories, a.db.memories, l.db.memories);
        assert {m.id} + {} == {m.id};
      }
    }
  }

  lemma AdjustOneFrame(w: World, curator: Curator, m: Memory, s: Run, ids: set<Id>)
    requires MintsOutside(w, ids) && OffLog(ids, s.db.memories)
    ensures FrameOf(ids, {m.id}, s.db.memories, AdjustOne(w, curator, m, false, s).db.memories)
  {
    hide WellFormed, SetPriority, FrameOf, OffLog, Logged, MintsOutside, NextPriority, LogGrows;
    NoFrame(ids, {m.id}, s.db.memories);
    var after := NextPriority(curator, m);
    if after != m.priority {
      var a := TryAdjust(w, curator, m, false, s.tick, s.db);
      AdjustFrame(w, s.tick, s.db, m.id, after, ids);
      AdjustOffLog(curator, ids, w, s.tick, s.db, m.id, after);
      if a.decision.Ok? {
        var l := Logged(w, curator, a.decision.value.value, false, Run(a.tick, a.db, s.report));
        LoggedFrame(w, curator, a.decision.value.value, Run(a.tick, a.db, s.report), ids);
        FrameTwice(ids, {m.id}, {}, s.db.memories, a.db.memories, l.db.memories);
        assert {m.id} + {} == {m.id};
      }
    }
  }

  /** Clusters of candidates: of 2 or more rows, outside reserved namespaces, no row in two. */
  predicate GoodClusters(candidates: seq<Memory>, clusters: seq<seq<Memory>>) {
    && (forall i :: 0 <= i < |clusters| ==> |clusters[i]| >= 2)
    && (forall i, m :: 0 <= i < |clusters| && m in clusters[i] ==> m in candidates && !Reserved(m.namespace))
    && (forall i :: 0 <= i < |clusters| ==> DistinctIds(clusters[i]))
    && (forall i, j, m, m' :: 0 <= i < j < |clusters| && m in clusters[i] && m' in clusters[j] ==> m.id != m'.id)
  }

  /** The candidates are rows of the table, each once, and no loser among them carries a marker. */
  predicate ReadFrom(db: Table, candidates: seq<Memory>) {
    && (forall m :: m in candidates ==> m.id in db && db[m.id] == m)
    && (forall i, j :: 0 <= i < j < |candidates| ==> candidates[i].id != candidates[j].id)
  }

  predicate LosersClean(candidates: seq<Memory>) {
    forall m :: m in candidates && Winner(candidates, m).Some? ==> MARKERS !! m.metadata.Keys
  }

  lemma FirstClustersGood(candidates: seq<Memory>, clusters: seq<seq<Memory>>)
    requires GoodClusters(candidates, clusters) && clusters != []
    ensures var n := |clusters| - 1;
      && GoodClusters(candidates, clusters[..n])
      && (forall m :: m in clusters[n] ==> m.id !in MemberSet(clusters[..n]))
      && MemberSet(clusters) == MemberSet(clusters[..n]) + Ids(clusters[n])
  {
    var n := |clusters| - 1;
    assert clusters == clusters[..n] + [clusters[n]];
    forall c, x, m | c in clusters[..n] && x in c && m in clusters[n] ensures x.id != m.id {
      var i :| 0 <= i < n && clusters[i] == c;
    }
  }

  lemma ClusterOfRows(db: Table, candidates: seq<Memory>, clusters: seq<seq<Memory>>, n: nat)
    requires ReadFrom(db, candidates) && GoodClusters(candidates, clusters) && n < |clusters|
    ensures Snapshots(clusters[n]) && forall m :: m in clusters[n] ==> m.id in db && db[m.id] == m
  {
    var c := clusters[n];
    forall j, k | 0 <= j < k < |c| ensures c[j].id != c[k].id && !SameKey(c[j], c[k]) {
      assert c[j] in c && c[k] in c;
      KeyIsId(db, c[j], c[k]);
    }
  }

  lemma KeyIsId(db: Table, a: Memory, b: Memory)
    requires a.id in db && db[a.id] == a && b.id in db && db[b.id] == b
    ensures SameKey(a, b) ==> a.id == b.id
  {}

  lemma {:induction false} ConsolidateRunCurrent(
    w: World, curator: Curator, candidates: seq<Memory>, clusters: seq<seq<Memory>>, s: Run, ids: set<Id>)
    requires !curator.tombstone && MintsOutside(w, ids) && OffLog(ids, s.db.memories)
    requires ReadFrom(s.db.memories, candidates) && GoodClusters(candidates, clusters)
    requires forall m :: m in candidates ==> m.id in ids
    requires ConsolidateRun(w, curator, clusters, false, s).report.errors == []
    ensures ClustersCurrent(w, curator, clusters, s)
    ensures var t := ConsolidateRun(w, curator, clusters, false, s).db.memories;
      && FrameOf(ids, MemberSet(clusters), s.db.memories, t)
      && (forall id :: id in MemberSet(clusters) ==> id !in t)
    decreases |clusters|
  {
    hide WellFormed, OffLog, MintsOutside, ConsolidateOne, FrameOf, LogGrows, Reserved, SameKey, ReadFrom, GoodClusters;
    hide MemberSet;
    if clusters == [] {
      NoFrame(ids, MemberSet(clusters), s.db.memories);
      NoMembers();
    } else {
      var n := |clusters| - 1;
      var before := ConsolidateRun(w, curator, clusters[..n], false, s);
      var after := ConsolidateRun(w, curator, clusters, false, s);
      FirstClustersGood(candidates, clusters);
      ClusterOfRows(s.db.memories, candidates, clusters, n);
      LastClusterGood(candidates, clusters);
      ConsolidateErrors(w, curator, clusters[n], before);
      ConsolidateRunCurrent(w, curator, candidates, clusters[..n], s, ids);
      MembersInside(candidates, clusters[..n], ids);
      ConsolidateRunLogs(w, curator, ids, clusters[..n], s);
      NowCurrent(s.db.memories, before.db.memories, clusters[n], ids, MemberSet(clusters[..n]));
      ConsolidateOneFrame(w, curator, clusters[n], before, ids);
      FrameTwice(ids, MemberSet(clusters[..n]), Ids(clusters[n]), s.db.memories, before.db.memories, after.db.memories);
      BothGone(ids, candidates, clusters, before.db.memories, after.db.memories);
    }
  }

  lemma NoMembers()
    ensures MemberSet([]) == {}
  {}

  lemma LastClusterGood(candidates: seq<Memory>, clusters: seq<seq<Memory>>)
    requires GoodClusters(candidates, clusters) && clusters != []
    ensures var c := clusters[|clusters| - 1];
      |c| >= 2 && forall m :: m in c ==> !Reserved(m.namespace) && m in candidates
  {
    hide Reserved;
  }

  lemma MembersInside(candidates: seq<Memory>, clusters: seq<seq<Memory>>, ids: set<Id>)
    requires GoodClusters(candidates, clusters) && forall m :: m in candidates ==> m.id in ids
    ensures forall c, m :: c in clusters && m in c ==> m.id in ids
    ensures MemberSet(clusters) <= ids
  {
    hide Reserved;
    forall c, m | c in clusters && m in c ensures m.id in ids {
      var i :| 0 <= i < |clusters| && clusters[i] == c;
    }
  }

  lemma NowCurrent(db: Table, t: Table, cluster: seq<Memory>, ids: set<Id>, touched: set<Id>)
    requires FrameOf(ids, touched, db, t) && Snapshots(cluster)
    requires forall m :: m in cluster ==> m.id in ids && m.id !in touched && m.id in db && db[m.id] == m
    ensures ClusterCurrent(t, cluster)
  {
    hide WellFormed, Snapshots;
  }

  lemma BothGone(
    ids: set<Id>, candidates: seq<Memory>, clusters: seq<seq<Memory>>, before: Table, after: Table)
    requires clusters != [] && MemberSet(clusters[..|clusters| - 1]) <= ids
    requires MemberSet(clusters) == MemberSet(clusters[..|clusters| - 1]) + Ids(clusters[|clusters| - 1])
    requires forall id :: id in MemberSet(clusters[..|clusters| - 1]) ==> id !in before
    requires FrameOf(ids, Ids(clusters[|clusters| - 1]), before, after)
    requires forall m :: m in clusters[|clusters| - 1] ==> m.id !in after
    ensures forall id :: id in MemberSet(clusters) ==> id !in after
  {
    hide WellFormed, MemberSet;
    var last := clusters[|clusters| - 1];
    forall id | id in Ids(last) ensures id !in after {
      var m := SnapshotById(last, id);
    }
  }

  lemma FirstCandidates(some: seq<Memory>)
    requires some != [] && forall i, j :: 0 <= i < j < |some| ==> some[i].id != some[j].id
    ensures var n := |some| - 1; some[n].id !in Ids(some[..n]) && Ids(some) == Ids(some[..n]) + {some[n].id}
  {
    var n := |some| - 1;
    IdsSnoc(some);
    forall m | m in some[..n] ensures m.id != some[n].id {
      var i :| 0 <= i < n && some[i] == m;
    }
  }

  /** `m`'s row, if still in `t`, is `m` itself. */
  predicate Untouched(m: Memory, t: Table) {
    m.id in t ==> t[m.id] == m
  }

  lemma {:induction false} ForgetRunCurrent(
    w: World, curator: Curator, all: seq<Memory>, some: seq<Memory>, s: Run, ids: set<Id>)
    requires MintsOutside(w, ids) && OffLog(ids, s.db.memories)
    requires forall m :: m in some ==> m.id in ids && Untouched(m, s.db.memories)
    requires forall m :: m in some && Winner(all, m).Some? ==> MARKERS !! m.metadata.Keys
    requires forall i, j :: 0 <= i < j < |some| ==> some[i].id != some[j].id
    ensures LosersUnmarked(w, curator, all, some, s)
    ensures var t := ForgetRun(w, curator, all, some, false, s).db.memories;
      FrameOf(ids, Ids(some), s.db.memories, t) && PrioritiesKept(ids, s.db.memories, t)
    decreases |some|
  {
    hide WellFormed, OffLog, MintsOutside, ForgetOne, LogGrows, Winner, PrioritiesKept;
    if some == [] {
      NoFrame(ids, {}, s.db.memories);
      assert Ids(some) == {};
    } else {
      var n := |some| - 1;
      var before := ForgetRun(w, curator, all, some[..n], false, s);
      var after := ForgetRun(w, curator, all, some, false, s);
      FirstCandidates(some);
      ForgetRunCurrent(w, curator, all, some[..n], s, ids);
      ForgetRunLogs(w, curator, ids, all, some[..n], s);
      ForgetOneFrame(w, curator, all, some[n], before, ids);
      assert some[n] in some;
      assert Untouched(some[n], before.db.memories);
      FrameTwice(ids, Ids(some[..n]), {some[n].id}, s.db.memories, before.db.memories, after.db.memories);
      PrioritiesTwice(ids, s.db.memories, before.db.memories, after.db.memories);
    }
  }

  lemma {:induction false} AdjustRunCurrent(
    w: World, curator: Curator, some: seq<Memory>, s: Run, ids: set<Id>)
    requires MintsOutside(w, ids) && OffLog(ids, s.db.memories)
    requires forall m :: m in some ==> m.id in ids
    requires forall m :: m in some && m.id in s.db.memories ==> s.db.memories[m.id].priority == m.priority
    requires forall i, j :: 0 <= i < j < |some| ==> some[i].id != some[j].id
    ensures PrioritiesCurrent(w, curator, some, s)
    ensures FrameOf(ids, Ids(some), s.db.memories, AdjustRun(w, curator, some, false, s).db.memories)
    decreases |some|
  {
    hide WellFormed, OffLog, MintsOutside, AdjustOne, LogGrows, NextPriority;
    if some == [] {
      NoFrame(ids, {}, s.db.memories);
      assert Ids(some) == {};
    } else {
      var n := |some| - 1;
      var before := AdjustRun(w, curator, some[..n], false, s);
      var after := AdjustRun(w, curator, some, false, s);
      FirstCandidates(some);
      AdjustRunCurrent(w, curator, some[..n], s, ids);
      AdjustRunLogs(w, curator, ids, some[..n], s);
      AdjustOneFrame(w, curator, some[n], before, ids);
      assert some[n] in some;
      FrameTwice(ids, Ids(some[..n]), {some[n].id}, s.db.memories, before.db.memories, after.db.memories);
    }
  }

  /**
   * A run whose candidates were read from the table it starts on acts on
   * current state throughout.
   */
  lemma ReadRunIsCurrent(
    w: World, curator: Curator, candidates: seq<Memory>, clusters: seq<seq<Memory>>, tick: nat, db: Db)
    requires !curator.tombstone && Unminted(db.memories, w)
    requires ReadFrom(db.memories, candidates) && LosersClean(candidates) && GoodClusters(candidates, clusters)
    requires forall m :: m in candidates ==> m.namespace != ROLLBACK_NAMESPACE
    requires RunPasses(w, curator, candidates, clusters, false, tick, db).report.errors == []
    ensures RunCurrent(w, curator, candidates, clusters, tick, db)
    ensures var ids := CandidateIds(candidates, clusters); MintsOutside(w, ids) && OffLog(ids, db.memories)
  {
    hide WellFormed, ConsolidateRun, ForgetRun, AdjustRun, LogGrows, MarksGrow, GoodClusters, Winner, NextPriority;
    hide ClustersCurrent, LosersUnmarked, PrioritiesCurrent, Count, MemberSet;
    var ids := CandidateIds(candidates, clusters);
    forall m | m in candidates ensures m.id in Ids(candidates) {
    }
    MembersInside(candidates, clusters, Ids(candidates));
    assert ids == Ids(candidates);
    forall id | id in ids ensures id in db.memories && db.memories[id].namespace != ROLLBACK_NAMESPACE {
      var m := SnapshotById(candidates, id);
    }
    var start := Run(tick, db, Report(|clusters|, 0, 0, 0, 0, []));
    var consolidated := ConsolidateRun(w, curator, clusters, false, start);
    var forgotten := ForgetRun(w, curator, candidates, candidates, false, consolidated);
    AdjustRunMarks(w, curator, candidates, forgotten);
    ForgetRunErrors(w, curator, candidates, candidates, consolidated);
    hide Unminted, MintsOutside, OffLog;
    ConsolidateRunCurrent(w, curator, candidates, clusters, start, ids);
    ConsolidateRunLogs(w, curator, ids, clusters, start);
    ForgetRunLogs(w, curator, ids, candidates, candidates, consolidated);
    ForgetRunCurrent(w, curator, candidates, candidates, consolidated, ids);
    AdjustRunCurrent(w, curator, candidates, forgotten, ids);
  }

  // ----- The clusters the pass forms -------------------------------------

  predicate DistinctIds(some: seq<Memory>) {
    forall i, j :: 0 <= i < j < |some| ==> some[i].id != some[j].id
  }

  lemma SameIdSame(some: seq<Memory>, a: Memory, b: Memory)
    requires DistinctIds(some) && a in some && b in some
    ensures a.id == b.id ==> a == b
  {
    var i :| 0 <= i < |some| && some[i] == a;
    var j :| 0 <= j < |some| && some[j] == b;
    if i < j {} else if j < i {}
  }

  lemma {:induction false} GroupDistinct(candidates: seq<Memory>, ns: string)
    requires DistinctIds(candidates)
    ensures DistinctIds(Group(candidates, ns))
    decreases |candidates|
  {
    if candidates != [] {
      var n := |candidates| - 1;
      GroupDistinct(candidates[..n], ns);
      var g := Group(candidates[..n], ns);
      forall i | 0 <= i < |g| ensures g[i].id != candidates[n].id {
        assert g[i] in candidates[..n];
        var x :| 0 <= x < n && candidates[x] == g[i];
      }
    }
  }

  /** The clusters of one namespace. */
  lemma GroupFormsGood(lens: Lens, candidates: seq<Memory>, ns: string)
    requires DistinctIds(candidates) && !Reserved(ns)
    ensures var cs := GroupClusters(lens, Group(candidates, ns));
      GoodClusters(candidates, cs) && forall c, m :: c in cs && m in c ==> m.namespace == ns
  {
    var g := Group(candidates, ns);
    GroupDistinct(candidates, ns);
    assert forall m :: m in g ==> m in candidates && m.namespace == ns;
    hide Group, Reserved, DistinctIds, GroupClusters, GoodClusters;
    forall i | 0 <= i < |GroupClusters(lens, g)|
      ensures var c := GroupClusters(lens, g)[i]; |c| >= 2 && DistinctIds(c) && forall m :: m in c ==> m in g
    {
      OneFormed(lens, g, i);
    }
    forall i: int, j: int, m: Memory, m': Memory |
      0 <= i < j < |GroupClusters(lens, g)| && m in GroupClusters(lens, g)[i] && m' in GroupClusters(lens, g)[j]
      ensures m.id != m'.id
    {
      TwoFormed(lens, g, i, j, m, m');
    }
    GoodIn(candidates, g, GroupClusters(lens, g), ns);
  }

  lemma GoodIn(candidates: seq<Memory>, g: seq<Memory>, cs: seq<seq<Memory>>, ns: string)
    requires !Reserved(ns) && forall m :: m in g ==> m in candidates && m.namespace == ns
    requires forall i :: 0 <= i < |cs| ==> |cs[i]| >= 2 && DistinctIds(cs[i]) && forall m :: m in cs[i] ==> m in g
    requires forall i: int, j: int, m: Memory, m': Memory ::
               0 <= i < j < |cs| && m in cs[i] && m' in cs[j] ==> m.id != m'.id
    ensures GoodClusters(candidates, cs) && forall c, m :: c in cs && m in c ==> m.namespace == ns
  {
    hide Reserved, DistinctIds;
    forall c, m | c in cs && m in c ensures m.namespace == ns {
      var i :| 0 <= i < |cs| && cs[i] == c;
      assert m in g;
    }
    forall i, m | 0 <= i < |cs| && m in cs[i] ensures m in candidates && !Reserved(m.namespace) {
      assert m in g;
    }
  }

  lemma OneFormed(lens: Lens, g: seq<Memory>, i: nat)
    requires DistinctIds(g) && i < |GroupClusters(lens, g)|
    ensures var c := GroupClusters(lens, g)[i]; |c| >= 2 && DistinctIds(c) && forall m :: m in c ==> m in g
  {
    WalkClusters(lens, g, 0, {});
    WalkWithin(lens, g);
    hide Match, Walk, DistinctIds, Pick;
    var ps := Walk(lens, g, 0, {});
    assert |ps[i]| >= 2 && Star(lens, g, ps[i]);
    hide Clustering, Star;
    PickDistinct(lens, g, ps[i]);
  }

  lemma TwoFormed(lens: Lens, g: seq<Memory>, i: nat, j: nat, m: Memory, m': Memory)
    requires DistinctIds(g) && i < j < |GroupClusters(lens, g)|
    requires m in GroupClusters(lens, g)[i] && m' in GroupClusters(lens, g)[j]
    ensures m.id != m'.id
  {
    WalkWithin(lens, g);
    hide Match, Walk, DistinctIds, Pick;
    var ps := Walk(lens, g, 0, {});
    assert ps[i] in ps && ps[j] in ps;
    ApartInWalk(lens, g, i, j);
    PickApart(g, ps[i], ps[j], m, m');
  }

  lemma ApartInWalk(lens: Lens, g: seq<Memory>, i: nat, j: nat)
    requires i < j < |Walk(lens, g, 0, {})|
    ensures var ps := Walk(lens, g, 0, {}); forall x :: x in ps[i] ==> x !in ps[j]
  {
    WalkClusters(lens, g, 0, {});
    hide Match, Walk, Star;
  }

  /** Distinct positions hold distinct ids. */
  lemma PickDistinct(lens: Lens, g: seq<Memory>, c: seq<nat>)
    requires DistinctIds(g) && Star(lens, g, c)
    ensures DistinctIds(Pick(g, c)) && forall m :: m in Pick(g, c) ==> m in g
  {
    hide Match;
    var ms := Pick(g, c);
    forall j, k | 0 <= j < k < |ms| ensures ms[j].id != ms[k].id {
      assert c[j] < c[k];
    }
    forall m | m in ms ensures m in g {
      PickedFrom(g, c, m);
    }
  }

  lemma PickApart(g: seq<Memory>, c: seq<nat>, d: seq<nat>, m: Memory, m': Memory)
    requires DistinctIds(g) && Within(c, |g|) && Within(d, |g|)
    requires forall x :: x in c ==> x !in d
    requires m in Pick(g, c) && m' in Pick(g, d)
    ensures m.id != m'.id
  {
    PickedFrom(g, c, m);
    PickedFrom(g, d, m');
    var x :| x in c && x < |g| && g[x] == m;
    var y :| y in d && y < |g| && g[y] == m';
    assert x != y;
  }

  lemma PickedFrom(g: seq<Memory>, c: seq<nat>, m: Memory)
    requires Within(c, |g|) && m in Pick(g, c)
    ensures m in g && exists x :: x in c && x < |g| && g[x] == m
  {
    var i :| 0 <= i < |c| && Pick(g, c)[i] == m;
    assert c[i] in c && g[c[i]] == m;
  }

  lemma GoodAppend(candidates: seq<Memory>, a: seq<seq<Memory>>, b: seq<seq<Memory>>)
    requires GoodClusters(candidates, a) && GoodClusters(candidates, b)
    requires forall c, d, m, m' :: c in a && d in b && m in c && m' in d ==> m.id != m'.id
    ensures GoodClusters(candidates, a + b)
  {
    hide Reserved;
    var cs := a + b;
    forall i, j, m: Memory, m': Memory | 0 <= i < j < |cs| && m in cs[i] && m' in cs[j] ensures m.id != m'.id {
      if j < |a| {
        assert m in a[i] && m' in a[j];
      } else if |a| <= i {
        assert m in b[i - |a|] && m' in b[j - |a|];
      } else {
        assert cs[i] in a && cs[j] in b;
      }
    }
  }

  /** What the clusterer forms of distinct candidates is what the undo asks of clusters. */
  lemma {:induction false} FormedClustersGood(lens: Lens, candidates: seq<Memory>, order: seq<string>)
    requires DistinctIds(candidates) && (forall ns :: ns in order ==> !Reserved(ns))
    requires forall i, j :: 0 <= i < j < |order| ==> order[i] != order[j]
    ensures var cs := ClustersIn(lens, candidates, order);
      GoodClusters(candidates, cs) && forall c, m :: c in cs && m in c ==> m.namespace in order && m in candidates
    decreases |order|
  {
    hide GroupClusters, Group, Reserved, GoodClusters, DistinctIds;
    if order == [] {
      NoClustersGood(candidates);
    } else {
      var n := |order| - 1;
      var a, b := ClustersIn(lens, candidates, order[..n]), GroupClusters(lens, Group(candidates, order[n]));
      FormedClustersGood(lens, candidates, order[..n]);
      GroupFormsGood(lens, candidates, order[n]);
      MembersAreCandidates(candidates, b);
      forall c, d, m, m' | c in a && d in b && m in c && m' in d ensures m.id != m'.id {
        assert m.namespace in order[..n] && m'.namespace == order[n];
        SameIdSame(candidates, m, m');
      }
      GoodAppend(candidates, a, b);
      assert order == order[..n] + [order[n]];
    }
  }

  lemma NoClustersGood(candidates: seq<Memory>)
    ensures GoodClusters(candidates, [])
  {}

  lemma MembersAreCandidates(candidates: seq<Memory>, clusters: seq<seq<Memory>>)
    requires GoodClusters(candidates, clusters)
    ensures forall c, m :: c in clusters && m in c ==> m in candidates
  {
    hide Reserved;
    forall c, m | c in clusters && m in c ensures m in candidates {
      var i :| 0 <= i < |clusters| && clusters[i] == c;
    }
  }

  /**
   * So a hard-deleting live run without errors, on the very table its
   * candidates were read from, can be undone as a whole.
   */
  lemma ReadRunIsUndone(
    w: World, curator: Curator, candidates: seq<Memory>, order: seq<string>, skip: bool, tick: nat, db: Db,
    w2: World, k2: nat)
    requires !curator.tombstone && Unminted(db.memories, w) && NoFailures(w2)
    requires IsOrder(candidates, order) && ReadFrom(db.memories, candidates) && LosersClean(candidates)
    requires forall m :: m in candidates ==> m.namespace != ROLLBACK_NAMESPACE
    requires var clusters := ClustersFor(curator, candidates, order, skip);
      RunPasses(w, curator, candidates, clusters, false, tick, db).report.errors == []
    ensures var clusters := ClustersFor(curator, candidates, order, skip);
      var r := RunPasses(w, curator, candidates, clusters, false, tick, db);
      var u := ReverseAll(w2, k2, r.db, RunLog(w, curator, candidates, clusters, tick, db));
      u.value.Ok? && SameOrdinary(u.db.memories, db.memories)
  {
    OrderIsUnreserved(candidates, order);
    hide WellFormed, RunPasses, RunLog, ReverseAll, SameOrdinary, ClustersIn, LosersClean, GoodClusters, Reserved;
    FormedClustersGood(curator.lens, candidates, order);
    NoClustersGood(candidates);
    var clusters := ClustersFor(curator, candidates, order, skip);
    ReadRunIsCurrent(w, curator, candidates, clusters, tick, db);
    RunIsUndone(w, curator, candidates, clusters, tick, db, w2, k2);
  }
}
