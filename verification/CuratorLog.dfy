/** What the rollback log holds after a whole live run of the curator's passes. */
module CuratorLog {
  import opened Common
  import opened Memories
  import opened Rollback
  import opened Clusters
  import opened Autonomy
  import opened AutonomyRuns

  // ----- The entries a run writes ----------------------------------------

  datatype Written = Written(entry: RollbackEntry, at: string)

  function TitleOf(x: Written): string {
    LogTitle(ActionTag(x.entry), x.at)
  }

  function Wrote(w: World, curator: Curator, a: Attempt): seq<Written> {
    if a.decision.Ok? && a.decision.value.Some?
       && InsertRow(w, a.tick, a.db, RollbackRow(w, a.tick, curator, a.decision.value.value)).value.Ok?
    then [Written(a.decision.value.value, w.now(a.tick))] else []
  }

  function ConsolidateLog(w: World, curator: Curator, clusters: seq<seq<Memory>>, s: Run): seq<Written> {
    if clusters == [] then []
    else
      var n := |clusters| - 1;
      var before := ConsolidateRun(w, curator, clusters[..n], false, s);
      ConsolidateLog(w, curator, clusters[..n], s)
      + Wrote(w, curator, TryConsolidate(w, curator, clusters[n], false, before.tick, before.db))
  }

  function ForgetLog(w: World, curator: Curator, all: seq<Memory>, some: seq<Memory>, s: Run): seq<Written>
    decreases |some|
  {
    if some == [] then []
    else
      var n := |some| - 1;
      var before := ForgetRun(w, curator, all, some[..n], false, s);
      ForgetLog(w, curator, all, some[..n], s)
      + Wrote(w, curator, TryForget(w, all, some[n], false, before.tick, before.db))
  }

  function AdjustLog(w: World, curator: Curator, some: seq<Memory>, s: Run): seq<Written> {
    if some == [] then []
    else
      var n := |some| - 1;
      var before := AdjustRun(w, curator, some[..n], false, s);
      AdjustLog(w, curator, some[..n], s)
      + Wrote(w, curator, TryAdjust(w, curator, some[n], false, before.tick, before.db))
  }

  /** The entries a live run writes, in order. */
  function RunLog(
    w: World, curator: Curator, candidates: seq<Memory>, clusters: seq<seq<Memory>>, tick: nat, db: Db): seq<Written>
  {
    var start := Run(tick, db, Report(|clusters|, 0, 0, 0, 0, []));
    var consolidated := ConsolidateRun(w, curator, clusters, false, start);
    var forgotten := ForgetRun(w, curator, candidates, candidates, false, consolidated);
    ConsolidateLog(w, curator, clusters, start)
    + ForgetLog(w, curator, candidates, candidates, consolidated)
    + AdjustLog(w, curator, candidates, forgotten)
  }

  /** The text last written under `title`, or what was there before. */
  function LastText(curator: Curator, log: seq<Written>, title: string, before: Option<string>): Option<string> {
    if log == [] then before
    else if TitleOf(log[|log| - 1]) == title then Some(curator.entryJson(log[|log| - 1].entry))
    else LastText(curator, log[..|log| - 1], title, before)
  }

  lemma {:induction false} LastTextAppend(
    curator: Curator, a: seq<Written>, b: seq<Written>, title: string, before: Option<string>)
    ensures LastText(curator, a + b, title, before)
         == LastText(curator, b, title, LastText(curator, a, title, before))
    decreases |b|
  {
    hide TitleOf;
    if b == [] {
      assert a + b == a;
    } else {
      var n := |b| - 1;
      assert (a + b)[..|a| + n] == a + b[..n];
      LastTextAppend(curator, a, b[..n], title, before);
    }
  }

  // ----- One step --------------------------------------------------------

  /** The log of `after` is that of `before` with `new` written. */
  ghost predicate LogGrows(curator: Curator, before: Table, added: seq<Written>, after: Table) {
    forall title :: LogText(after, title) == LastText(curator, added, title, LogText(before, title))
  }

  lemma LogGrowsTwice(curator: Curator, a: Table, x: seq<Written>, b: Table, y: seq<Written>, c: Table)
    requires LogGrows(curator, a, x, b) && LogGrows(curator, b, y, c)
    ensures LogGrows(curator, a, x + y, c)
  {
    hide WellFormed, LogText, LastText;
    forall title ensures LogText(c, title) == LastText(curator, x + y, title, LogText(a, title)) {
      LastTextAppend(curator, x, y, title, LogText(a, title));
    }
  }

  /** None of the ids is a log row. */
  predicate OffLog(ids: set<Id>, t: Table) {
    forall id :: id in ids && id in t ==> t[id].namespace != ROLLBACK_NAMESPACE
  }

  /** The log rows of both tables are the same up to columns the log is not read by. */
  predicate SameLog(a: Table, b: Table) {
    && (forall id :: id in a && a[id].namespace == ROLLBACK_NAMESPACE ==>
          id in b && SameKey(a[id], b[id]) && a[id].content == b[id].content)
    && (forall id :: id in b && b[id].namespace == ROLLBACK_NAMESPACE ==>
          id in a && SameKey(a[id], b[id]))
  }

  lemma SameLogText(curator: Curator, a: Table, b: Table)
    requires SameLog(a, b)
    ensures LogGrows(curator, a, [], b)
  {
    forall title ensures LogText(b, title) == LogText(a, title) {
      OwnerCarries(a, b, title);
      OwnerCarriesBack(a, b, title);
    }
  }

  lemma OwnerCarries(a: Table, b: Table, title: string)
    requires SameLog(a, b)
    ensures var x := Owner(a, title, ROLLBACK_NAMESPACE);
      x.Some? ==> Owner(b, title, ROLLBACK_NAMESPACE) == x && b[x.value].content == a[x.value].content
  {
    var x := Owner(a, title, ROLLBACK_NAMESPACE);
    if x.Some? {
      OwnerIs(b, x.value);
    }
  }

  lemma OwnerCarriesBack(a: Table, b: Table, title: string)
    requires SameLog(a, b)
    ensures var y := Owner(b, title, ROLLBACK_NAMESPACE);
      y.Some? ==> Owner(a, title, ROLLBACK_NAMESPACE) == y
  {
    var y := Owner(b, title, ROLLBACK_NAMESPACE);
    if y.Some? {
      OwnerIs(a, y.value);
    }
  }

  lemma ConserveOffLog(curator: Curator, ids: set<Id>, w: World, k: nat, db: Db, loser: Id, winner: Id)
    requires OffLog(ids, db.memories)
    ensures var t := Conserve(w, k, db, loser, winner).db.memories;
      OffLog(ids, t) && LogGrows(curator, db.memories, [], t)
  {
    hide WellFormed, CanonicalPair, LogGrows;
    SameLogText(curator, db.memories, Conserve(w, k, db, loser, winner).db.memories);
  }

  lemma AdjustOffLog(curator: Curator, ids: set<Id>, w: World, k: nat, db: Db, id: Id, priority: int)
    requires OffLog(ids, db.memories)
    ensures var t := SetPriority(w, k, db, id, priority).db.memories;
      OffLog(ids, t) && LogGrows(curator, db.memories, [], t)
  {
    hide WellFormed, LogGrows;
    SameLogText(curator, db.memories, SetPriority(w, k, db, id, priority).db.memories);
  }

  lemma MergeOffLog(
    curator: Curator, members: set<Id>, db: Db, ids: set<Id>, summary: Memory, tombstone: bool, now: string)
    requires OffLog(members, db.memories) && ids <= members && summary.namespace != ROLLBACK_NAMESPACE
    ensures var t := MergeRows(db, ids, summary, tombstone, now).db.memories;
      OffLog(members, t) && LogGrows(curator, db.memories, [], t)
  {
    hide WellFormed, LogGrows;
    SameLogText(curator, db.memories, MergeRows(db, ids, summary, tombstone, now).db.memories);
  }

  lemma ConsolidateOffLog(
    curator: Curator, members: set<Id>, w: World, k: nat, db: Db, merge: Merge, tombstone: bool)
    requires OffLog(members, db.memories) && merge.namespace != ROLLBACK_NAMESPACE
    requires forall id :: id in merge.ids ==> id in members
    ensures var t := ConsolidateRows(w, k, db, merge, tombstone).db.memories;
      OffLog(members, t) && LogGrows(curator, db.memories, [], t)
  {
    hide WellFormed, LogGrows, MergeRows;
    SameLogText(curator, db.memories, db.memories);
    if !w.fails(k) && forall id :: id in merge.ids ==> id in db.memories {
      var ids := set id | id in merge.ids;
      var summary := SummaryRow(w, k, db.memories, merge);
      SummaryNamespace(w, k, db.memories, merge);
      MergeOffLog(curator, members, db, ids, summary, tombstone, w.now(k));
    }
  }

  lemma SummaryNamespace(w: World, k: nat, t: Table, merge: Merge)
    requires forall id :: id in merge.ids ==> id in t
    ensures SummaryRow(w, k, t, merge).namespace == merge.namespace
  {
    hide WellFormed;
  }

  /** No id minted is one of `ids`. */
  ghost predicate MintsOutside(w: World, ids: set<Id>) {
    forall k: nat :: w.uuid(k) !in ids
  }

  /** Logging an attempt's entry. */
  lemma LoggedGrows(w: World, curator: Curator, members: set<Id>, a: Attempt, report: Report)
    requires OffLog(members, a.db.memories) && MintsOutside(w, members)
    requires a.decision.Ok? && a.decision.value.Some?
    ensures var l := Logged(w, curator, a.decision.value.value, false, Run(a.tick, a.db, report));
      && OffLog(members, l.db.memories)
      && LogGrows(curator, a.db.memories, Wrote(w, curator, a), l.db.memories)
      && l.report.rollbackEntriesWritten == report.rollbackEntriesWritten + |Wrote(w, curator, a)|
  {
    var entry := a.decision.value.value;
    var row := RollbackRow(w, a.tick, curator, entry);
    var s := InsertRow(w, a.tick, a.db, row);
    LogRowStored(w, a.tick, a.db, row);
    LogRowOffLog(w, a.tick, a.db, row, members);
    SameLogText(curator, a.db.memories, a.db.memories);
    hide WellFormed, InsertRow, RollbackRow, OffLog, MintsOutside;
    if s.value.Ok? {
      var x := Written(entry, w.now(a.tick));
      assert Wrote(w, curator, a) == [x];
      RowOfEntry(w, a.tick, curator, entry);
      OneWritten(curator, a.db.memories, x, s.db.memories);
    }
  }

  lemma RowOfEntry(w: World, k: nat, curator: Curator, entry: RollbackEntry)
    ensures var row := RollbackRow(w, k, curator, entry);
      row.title == TitleOf(Written(entry, w.now(k))) && row.content == curator.entryJson(entry)
  {}

  lemma OneWritten(curator: Curator, before: Table, x: Written, after: Table)
    requires LogGains(before, TitleOf(x), curator.entryJson(x.entry), after)
    ensures LogGrows(curator, before, [x], after)
  {
    hide WellFormed, LogText, TitleOf;
    forall title ensures LogText(after, title) == LastText(curator, [x], title, LogText(before, title)) {
      assert [x][..0] == [];
    }
  }

  lemma LogRowOffLog(w: World, k: nat, db: Db, row: Memory, members: set<Id>)
    requires OffLog(members, db.memories) && row.namespace == ROLLBACK_NAMESPACE && row.id !in members
    ensures OffLog(members, InsertRow(w, k, db, row).db.memories)
  {
    hide WellFormed;
  }

  // ----- The passes ------------------------------------------------------

  /** What a step or a pass does to the log, and to the count of entries written. */
  ghost predicate LogStep(curator: Curator, members: set<Id>, s: Run, added: seq<Written>, r: Run) {
    && OffLog(members, r.db.memories)
    && LogGrows(curator, s.db.memories, added, r.db.memories)
    && r.report.rollbackEntriesWritten == s.report.rollbackEntriesWritten + |added|
  }

  lemma LogSteps(
    curator: Curator, members: set<Id>, s: Run, x: seq<Written>, mid: Run, y: seq<Written>, r: Run)
    requires LogStep(curator, members, s, x, mid) && LogStep(curator, members, mid, y, r)
    ensures LogStep(curator, members, s, x + y, r)
  {
    hide WellFormed, LogGrows, OffLog;
    LogGrowsTwice(curator, s.db.memories, x, mid.db.memories, y, r.db.memories);
  }

  lemma NoLogStep(curator: Curator, members: set<Id>, s: Run)
    requires OffLog(members, s.db.memories)
    ensures LogStep(curator, members, s, [], s)
  {
    SameLogText(curator, s.db.memories, s.db.memories);
    hide WellFormed, LogGrows, OffLog;
  }

  /** An attempt that leaves the log alone, followed by its entry if it has one. */
  lemma AttemptLogged(w: World, curator: Curator, members: set<Id>, s: Run, a: Attempt)
    requires MintsOutside(w, members) && OffLog(members, a.db.memories)
    requires LogGrows(curator, s.db.memories, [], a.db.memories)
    ensures var r := Run(a.tick, a.db, s.report);
      && (a.decision.Ok? && a.decision.value.Some? ==>
            LogStep(curator, members, s, Wrote(w, curator, a),
                    Logged(w, curator, a.decision.value.value, false, r)))
      && (!(a.decision.Ok? && a.decision.value.Some?) ==>
            Wrote(w, curator, a) == [] && LogStep(curator, members, s, [], r))
  {
    hide WellFormed, LogGrows, OffLog, Logged, MintsOutside, InsertRow, RollbackRow;
    if a.decision.Ok? && a.decision.value.Some? {
      LoggedGrows(w, curator, members, a, s.report);
      hide Wrote;
      var l := Logged(w, curator, a.decision.value.value, false, Run(a.tick, a.db, s.report));
      LogGrowsTwice(curator, s.db.memories, [], a.db.memories, Wrote(w, curator, a), l.db.memories);
      assert [] + Wrote(w, curator, a) == Wrote(w, curator, a);
    }
  }

  lemma ConsolidateOneLogs(w: World, curator: Curator, members: set<Id>, cluster: seq<Memory>, s: Run)
    requires MintsOutside(w, members) && OffLog(members, s.db.memories)
    requires forall m :: m in cluster ==> m.id in members
    ensures LogStep(curator, members, s, Wrote(w, curator, TryConsolidate(w, curator, cluster, false, s.tick, s.db)),
                    ConsolidateOne(w, curator, cluster, false, s))
  {
    hide WellFormed, OffLog, LogGrows, Logged, MintsOutside, Wrote, ConsolidateRows, MergeOf, Texts;
    var a := TryConsolidate(w, curator, cluster, false, s.tick, s.db);
    SameLogText(curator, s.db.memories, s.db.memories);
    if !(|cluster| < 2 || exists m :: m in cluster && Reserved(m.namespace)) {
      if curator.summarize(Texts(cluster)).Some? {
        var merge := MergeOf(cluster, curator.summarize(Texts(cluster)).value);
        MergeIsOrdinary(cluster, curator.summarize(Texts(cluster)).value, members);
        ConsolidateOffLog(curator, members, w, s.tick, s.db, merge, curator.tombstone);
      }
    }
    AttemptLogged(w, curator, members, s, a);
  }

  lemma MergeIsOrdinary(cluster: seq<Memory>, summary: string, members: set<Id>)
    requires |cluster| >= 2 && forall m :: m in cluster ==> m.id in members && !Reserved(m.namespace)
    ensures var merge := MergeOf(cluster, summary);
      merge.namespace != ROLLBACK_NAMESPACE && forall id :: id in merge.ids ==> id in members
  {
    MemberIdsAre(cluster);
    hide HighestTier;
    assert cluster[0] in cluster;
    assert Reserved(ROLLBACK_NAMESPACE);
  }

  lemma ForgetOneLogs(w: World, curator: Curator, members: set<Id>, all: seq<Memory>, m: Memory, s: Run)
    requires MintsOutside(w, members) && OffLog(members, s.db.memories)
    ensures LogStep(curator, members, s, Wrote(w, curator, TryForget(w, all, m, false, s.tick, s.db)),
                    ForgetOne(w, curator, all, m, false, s))
  {
    hide WellFormed, OffLog, LogGrows, Logged, MintsOutside, Wrote, Conserve, Winner, CanonicalPair;
    SameLogText(curator, s.db.memories, s.db.memories);
    if Winner(all, m).Some? {
      ConserveOffLog(curator, members, w, s.tick, s.db, m.id, Winner(all, m).value.id);
    }
    AttemptLogged(w, curator, members, s, TryForget(w, all, m, false, s.tick, s.db));
  }

  lemma AdjustOneLogs(w: World, curator: Curator, members: set<Id>, m: Memory, s: Run)
    requires MintsOutside(w, members) && OffLog(members, s.db.memories)
    ensures LogStep(curator, members, s, Wrote(w, curator, TryAdjust(w, curator, m, false, s.tick, s.db)),
                    AdjustOne(w, curator, m, false, s))
  {
    hide WellFormed, OffLog, LogGrows, Logged, MintsOutside, Wrote, SetPriority, NextPriority;
    SameLogText(curator, s.db.memories, s.db.memories);
    AdjustOffLog(curator, members, w, s.tick, s.db, m.id, NextPriority(curator, m));
    AttemptLogged(w, curator, members, s, TryAdjust(w, curator, m, false, s.tick, s.db));
  }

  lemma {:induction false} ConsolidateRunLogs(
    w: World, curator: Curator, members: set<Id>, clusters: seq<seq<Memory>>, s: Run)
    requires MintsOutside(w, members) && OffLog(members, s.db.memories)
    requires forall c, m :: c in clusters && m in c ==> m.id in members
    ensures LogStep(curator, members, s, ConsolidateLog(w, curator, clusters, s),
                    ConsolidateRun(w, curator, clusters, false, s))
    decreases |clusters|
  {
    hide WellFormed, OffLog, LogGrows, MintsOutside, Wrote, TryConsolidate, ConsolidateOne;
    if clusters == [] {
      NoLogStep(curator, members, s);
    } else {
      var n := |clusters| - 1;
      var before := ConsolidateRun(w, curator, clusters[..n], false, s);
      ConsolidateRunLogs(w, curator, members, clusters[..n], s);
      assert clusters[n] in clusters;
      ConsolidateOneLogs(w, curator, members, clusters[n], before);
      LogSteps(curator, members, s, ConsolidateLog(w, curator, clusters[..n], s), before,
        Wrote(w, curator, TryConsolidate(w, curator, clusters[n], false, before.tick, before.db)),
        ConsolidateRun(w, curator, clusters, false, s));
    }
  }

  lemma {:induction false} ForgetRunLogs(
    w: World, curator: Curator, members: set<Id>, all: seq<Memory>, some: seq<Memory>, s: Run)
    requires MintsOutside(w, members) && OffLog(members, s.db.memories)
    ensures LogStep(curator, members, s, ForgetLog(w, curator, all, some, s),
                    ForgetRun(w, curator, all, some, false, s))
    decreases |some|
  {
    hide WellFormed, OffLog, LogGrows, MintsOutside, Wrote, TryForget, ForgetOne;
    if some == [] {
      NoLogStep(curator, members, s);
    } else {
      var n := |some| - 1;
      var before := ForgetRun(w, curator, all, some[..n], false, s);
      ForgetRunLogs(w, curator, members, all, some[..n], s);
      ForgetOneLogs(w, curator, members, all, some[n], before);
      LogSteps(curator, members, s, ForgetLog(w, curator, all, some[..n], s), before,
        Wrote(w, curator, TryForget(w, all, some[n], false, before.tick, before.db)),
        ForgetRun(w, curator, all, some, false, s));
    }
  }

  lemma {:induction false} AdjustRunLogs(
    w: World, curator: Curator, members: set<Id>, some: seq<Memory>, s: Run)
    requires MintsOutside(w, members) && OffLog(members, s.db.memories)
    ensures LogStep(curator, members, s, AdjustLog(w, curator, some, s), AdjustRun(w, curator, some, false, s))
    decreases |some|
  {
    hide WellFormed, OffLog, LogGrows, MintsOutside, Wrote, TryAdjust, AdjustOne;
    if some == [] {
      NoLogStep(curator, members, s);
    } else {
      var n := |some| - 1;
      var before := AdjustRun(w, curator, some[..n], false, s);
      AdjustRunLogs(w, curator, members, some[..n], s);
      AdjustOneLogs(w, curator, members, some[n], before);
      LogSteps(curator, members, s, AdjustLog(w, curator, some[..n], s), before,
        Wrote(w, curator, TryAdjust(w, curator, some[n], false, before.tick, before.db)),
        AdjustRun(w, curator, some, false, s));
    }
  }

  // ----- A whole run -----------------------------------------------------

  function MemberSet(clusters: seq<seq<Memory>>): set<Id> {
    set c, m | c in clusters && m in c :: m.id
  }

  /**
   * What the log holds after a live run: under every title the text last
   * written there, or what it held before. As many entries are counted as
   * were written.
   */
  lemma RunFillsLog(
    w: World, curator: Curator, candidates: seq<Memory>, clusters: seq<seq<Memory>>, tick: nat, db: Db)
    requires MintsOutside(w, MemberSet(clusters)) && OffLog(MemberSet(clusters), db.memories)
    ensures var r := RunPasses(w, curator, candidates, clusters, false, tick, db);
      var log := RunLog(w, curator, candidates, clusters, tick, db);
      && r.report.rollbackEntriesWritten == |log|
      && LogGrows(curator, db.memories, log, r.db.memories)
  {
    hide WellFormed, OffLog, LogGrows, MintsOutside, ConsolidateRun, ForgetRun, AdjustRun;
    hide ConsolidateLog, ForgetLog, AdjustLog;
    var members := MemberSet(clusters);
    var start := Run(tick, db, Report(|clusters|, 0, 0, 0, 0, []));
    var consolidated := ConsolidateRun(w, curator, clusters, false, start);
    var forgotten := ForgetRun(w, curator, candidates, candidates, false, consolidated);
    var x := ConsolidateLog(w, curator, clusters, start);
    var y := ForgetLog(w, curator, candidates, candidates, consolidated);
    var z := AdjustLog(w, curator, candidates, forgotten);
    var r := AdjustRun(w, curator, candidates, false, forgotten);
    ConsolidateRunLogs(w, curator, members, clusters, start);
    ForgetRunLogs(w, curator, members, candidates, candidates, consolidated);
    AdjustRunLogs(w, curator, members, candidates, forgotten);
    LogSteps(curator, members, start, x, consolidated, y, forgotten);
    LogSteps(curator, members, start, x + y, forgotten, z, r);
  }

  /** Of entries of one kind written at one moment all have the same text. */
  predicate NoneClash(curator: Curator, log: seq<Written>) {
    forall i, j ::
      0 <= i < j < |log| && ActionTag(log[i].entry) == ActionTag(log[j].entry) && log[i].at == log[j].at ==>
      curator.entryJson(log[i].entry) == curator.entryJson(log[j].entry)
  }

  ghost predicate AllThere(curator: Curator, log: seq<Written>, t: Table) {
    forall i :: 0 <= i < |log| ==> LogText(t, TitleOf(log[i])) == Some(curator.entryJson(log[i].entry))
  }

  /**
   * Every entry a live run counts as written can be read back from the log
   * iff no two of them that differ are of one kind and written at one moment:
   * the log's titles hold nothing else, and the later one overwrites the
   * earlier.
   */
  lemma EntriesKeptIff(
    w: World, curator: Curator, candidates: seq<Memory>, clusters: seq<seq<Memory>>, tick: nat, db: Db)
    requires MintsOutside(w, MemberSet(clusters)) && OffLog(MemberSet(clusters), db.memories)
    ensures var r := RunPasses(w, curator, candidates, clusters, false, tick, db);
      var log := RunLog(w, curator, candidates, clusters, tick, db);
      AllThere(curator, log, r.db.memories) <==> NoneClash(curator, log)
  {
    hide WellFormed, OffLog, MintsOutside, RunPasses, RunLog, LogText, TitleOf, ActionTag;
    RunFillsLog(w, curator, candidates, clusters, tick, db);
    var t := RunPasses(w, curator, candidates, clusters, false, tick, db).db.memories;
    var log := RunLog(w, curator, candidates, clusters, tick, db);
    ReadBack(curator, log, db.memories, t);
  }

  lemma ReadBack(curator: Curator, log: seq<Written>, before: Table, after: Table)
    requires LogGrows(curator, before, log, after)
    ensures AllThere(curator, log, after) <==> NoneClash(curator, log)
  {
    hide WellFormed, LogText, LogGrows, ActionTag, LastText;
    if AllThere(curator, log, after) {
      forall i, j | 0 <= i < j < |log| && ActionTag(log[i].entry) == ActionTag(log[j].entry) && log[i].at == log[j].at
        ensures curator.entryJson(log[i].entry) == curator.entryJson(log[j].entry)
      {
        assert TitleOf(log[i]) == TitleOf(log[j]);
      }
    }
    if NoneClash(curator, log) {
      forall i | 0 <= i < |log| ensures LogText(after, TitleOf(log[i])) == Some(curator.entryJson(log[i].entry)) {
        EntryThere(curator, log, before, after, i);
      }
    }
  }

  lemma EntryThere(curator: Curator, log: seq<Written>, before: Table, after: Table, i: nat)
    requires LogGrows(curator, before, log, after) && NoneClash(curator, log) && i < |log|
    ensures LogText(after, TitleOf(log[i])) == Some(curator.entryJson(log[i].entry))
  {
    hide WellFormed, LogText, ActionTag, LastText, LogTitle;
    var j := LastUnder(curator, log, TitleOf(log[i]), LogText(before, TitleOf(log[i])), i);
    LogTitlesDiffer(log[i].entry, log[i].at, log[j].entry, log[j].at);
  }

  lemma {:induction false} LastUnder(
    curator: Curator, log: seq<Written>, title: string, before: Option<string>, i: nat)
    returns (j: nat)
    requires i < |log| && TitleOf(log[i]) == title
    ensures i <= j < |log| && TitleOf(log[j]) == title
    ensures LastText(curator, log, title, before) == Some(curator.entryJson(log[j].entry))
    ensures forall x :: j < x < |log| ==> TitleOf(log[x]) != title
    decreases |log|
  {
    hide TitleOf;
    var n := |log| - 1;
    if TitleOf(log[n]) == title {
      j := n;
    } else {
      j := LastUnder(curator, log[..n], title, before, i);
    }
  }
}
