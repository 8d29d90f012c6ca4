/** What the curator's three passes decide and do for one cluster or one memory, `src/autonomy.rs`. */
module Autonomy {
  import opened Common
  import opened JsonValues
  import opened Memories
  import opened Rollback
  import opened Clusters
  import opened Summaries
  import Undo

  /** What the passes consult besides the database. */
  datatype Curator = Curator(
    lens: Lens,
    summarize: seq<(string, string)> -> Option<string>,
    daysSince: string -> Option<int>,            // None when the time does not parse
    entryJson: RollbackEntry -> string,
    tombstone: bool)

  datatype PassError = ConsolidateFailed | ForgetFailed | PriorityFailed | RollbackLogWriteFailed

  datatype Report = Report(
    clustersFormed: nat,
    memoriesConsolidated: nat,
    memoriesForgotten: nat,
    priorityAdjustments: nat,
    rollbackEntriesWritten: nat,
    errors: seq<PassError>)

  type Decision = Result<Option<RollbackEntry>, DbError>

  // ----- Pass 1: consolidate ---------------------------------------------

  function Texts(cluster: seq<Memory>): seq<(string, string)> {
    if cluster == [] then []
    else Texts(cluster[..|cluster| - 1]) + [(cluster[|cluster| - 1].title, cluster[|cluster| - 1].content)]
  }

  function MemberIds(cluster: seq<Memory>): seq<Id> {
    if cluster == [] then [] else MemberIds(cluster[..|cluster| - 1]) + [cluster[|cluster| - 1].id]
  }

  function TierRank(t: Tier): nat {
    match t case Short => 0 case Mid => 1 case Long => 2
  }

  function HighestTier(cluster: seq<Memory>): Tier
    requires cluster != []
  {
    var last := cluster[|cluster| - 1].tier;
    if |cluster| == 1 then last
    else
      var before := HighestTier(cluster[..|cluster| - 1]);
      if TierRank(before) <= TierRank(last) then last else before
  }

  /** Consolidation never downgrades: the merged tier is some member's and outranks none above it. */
  lemma {:induction false} TierNeverDowngrades(cluster: seq<Memory>)
    requires cluster != []
    ensures exists m :: m in cluster && m.tier == HighestTier(cluster)
    ensures forall m :: m in cluster ==> TierRank(m.tier) <= TierRank(HighestTier(cluster))
    decreases |cluster|
  {
    var n := |cluster| - 1;
    if n == 0 {
      assert cluster[0] in cluster;
    } else {
      TierNeverDowngrades(cluster[..n]);
      var m :| m in cluster[..n] && m.tier == HighestTier(cluster[..n]);
      assert m in cluster && cluster[n] in cluster;
      assert cluster == cluster[..n] + [cluster[n]];
    }
  }

  function SummaryTitle(cluster: seq<Memory>): string
    requires cluster != []
  {
    "[consolidated] " + cluster[0].title
  }

  function MergeOf(cluster: seq<Memory>, summary: string): Merge
    requires cluster != []
  {
    Merge(
      MemberIds(cluster), SummaryTitle(cluster), summary, cluster[0].namespace, HighestTier(cluster))
  }

  /** What one attempt of a pass leaves: statements issued, the database, the decision. */
  datatype Attempt = Attempt(tick: nat, db: Db, decision: Decision)

  function TryConsolidate(w: World, curator: Curator, cluster: seq<Memory>, dryRun: bool, tick: nat, db: Db): Attempt {
    if |cluster| < 2 || exists m :: m in cluster && Reserved(m.namespace) then Attempt(tick, db, Ok(None))
    else match curator.summarize(Texts(cluster))
      case None => Attempt(tick, db, Err(Refused))
      case Some(summary) =>
        if dryRun then Attempt(tick, db, Ok(Some(ConsolidateEntry(cluster, "dry-run"))))
        else
          var step := ConsolidateRows(w, tick, db, MergeOf(cluster, summary), curator.tombstone);
          Attempt(tick + 1, step.db,
                  match step.value case Ok(id) => Ok(Some(ConsolidateEntry(cluster, id))) case Err(e) => Err(e))
  }

  /** All that a live consolidation of `cluster` needs besides a summary text. */
  predicate Consolidable(w: World, cluster: seq<Memory>, tick: nat, db: Db)
    requires cluster != []
  {
    && !w.fails(tick)
    && (forall m :: m in cluster ==> m.id in db.memories)
    && Owner(db.memories, SummaryTitle(cluster), cluster[0].namespace).None?
    && w.uuid(tick) !in db.memories
  }

  lemma ConsolidableMeans(w: World, k: nat, db: Db, curator: Curator, cluster: seq<Memory>, summary: string)
    requires cluster != []
    ensures ConsolidateRows(w, k, db, MergeOf(cluster, summary), curator.tombstone).value.Ok? <==>
            Consolidable(w, cluster, k, db)
    ensures !w.fails(k) && (forall m :: m in cluster ==> m.id in db.memories)
            && Owner(db.memories, SummaryTitle(cluster), cluster[0].namespace).Some? ==>
              ConsolidateRows(w, k, db, MergeOf(cluster, summary), curator.tombstone) == Step(db, Err(KeyTaken))
  {
    hide WellFormed, ConsolidateRows, HighestTier, Owner;
    var merge := MergeOf(cluster, summary);
    ConsolidateSucceedsIff(w, k, db, merge, curator.tombstone);
    MemberIdsAre(cluster);
  }

  lemma {:induction false} MemberIdsAre(cluster: seq<Memory>)
    ensures forall id :: id in MemberIds(cluster) ==> exists m :: m in cluster && m.id == id
    ensures forall m :: m in cluster ==> m.id in MemberIds(cluster)
    decreases |cluster|
  {
    if cluster != [] {
      var n := |cluster| - 1;
      MemberIdsAre(cluster[..n]);
      assert cluster[n] in cluster && forall m :: m in cluster[..n] ==> m in cluster;
      assert cluster == cluster[..n] + [cluster[n]];
    }
  }

  /**
   * The prefix does not keep the summary's title off its sources' titles. A
   * cluster one of whose rows is titled "[consolidated] X" where the first is
   * titled "X" is never merged: the insert hits that row's key, the attempt
   * fails and changes nothing, although a dry run announces it.
   */
  lemma PrefixedTitleBlocks(
    w: World, curator: Curator, cluster: seq<Memory>, tick: nat, db: Db, b: Memory)
    requires |cluster| >= 2 && b in cluster && (forall m :: m in cluster ==> m.id in db.memories)
    requires forall m :: m in cluster ==> !Reserved(m.namespace)
    requires curator.summarize(Texts(cluster)).Some? && !w.fails(tick)
    requires db.memories[b.id].title == SummaryTitle(cluster)
    requires db.memories[b.id].namespace == cluster[0].namespace
    ensures TryConsolidate(w, curator, cluster, false, tick, db) == Attempt(tick + 1, db, Err(KeyTaken))
    ensures TryConsolidate(w, curator, cluster, true, tick, db).decision.Ok?
  {
    hide WellFormed, ConsolidateRows, Texts;
    OwnerIs(db.memories, b.id);
    ConsolidableMeans(w, tick, db, curator, cluster, curator.summarize(Texts(cluster)).value);
  }

  /** The smallest such cluster: two rows of one namespace, "X" and "[consolidated] X". */
  lemma PrefixedPairIsNeverMerged(w: World, curator: Curator, a: Memory, b: Memory, tick: nat, db: Db)
    requires a.id in db.memories && db.memories[a.id] == a && b.id in db.memories && db.memories[b.id] == b
    requires b.title == "[consolidated] " + a.title && b.namespace == a.namespace && !Reserved(a.namespace)
    requires curator.summarize(Texts([a, b])).Some? && !w.fails(tick)
    ensures TryConsolidate(w, curator, [a, b], false, tick, db) == Attempt(tick + 1, db, Err(KeyTaken))
  {
    PrefixedTitleBlocks(w, curator, [a, b], tick, db, b);
  }

  /** The title and content of every member, in order. */
  predicate TextsOf(cluster: seq<Memory>, texts: seq<(string, string)>) {
    |texts| == |cluster| && forall i :: 0 <= i < |texts| ==> texts[i] == (cluster[i].title, cluster[i].content)
  }

  predicate IdsOf(cluster: seq<Memory>, ids: seq<Id>) {
    |ids| == |cluster| && forall i :: 0 <= i < |ids| ==> ids[i] == cluster[i].id
  }

  /** What is merged is the cluster: its ids in order, the first title marked, a tier no member's exceeds. */
  ghost predicate MergesCluster(curator: Curator, cluster: seq<Memory>, merge: Merge)
    requires cluster != []
  {
    && IdsOf(cluster, merge.ids)
    && merge.title == "[consolidated] " + cluster[0].title
    && merge.namespace == cluster[0].namespace
    && (exists texts :: TextsOf(cluster, texts) && curator.summarize(texts) == Some(merge.summary))
    && (merge.tier == Long <==> exists m :: m in cluster && m.tier == Long)
    && (merge.tier == Short <==> forall m :: m in cluster ==> m.tier == Short)
  }

  /** `rows` are the stored rows of the cluster's members. */
  predicate StoredRows(cluster: seq<Memory>, t: Table, rows: seq<Memory>) {
    |rows| == |cluster| && forall i :: 0 <= i < |rows| ==> cluster[i].id in t && rows[i] == t[cluster[i].id]
  }

  /** The table after a merge: the row `id` summarizes the cluster, whose own rows are retired. */
  ghost predicate Summarized(
    w: World, curator: Curator, cluster: seq<Memory>, tick: nat, before: Db, after: Db, id: Id)
  {
    && cluster != []
    && id in after.memories && after.memories[id].id == id
    && exists merge, rows ::
         && MergesCluster(curator, cluster, merge)
         && StoredRows(cluster, before.memories, rows)
         && SummaryOf(w, w.now(tick), after.memories[id], rows, merge)
         && SourcesRetired(before, after, merge.ids, id, curator.tombstone, w.now(tick))
  }

  lemma {:induction false} ClusterParts(cluster: seq<Memory>)
    ensures TextsOf(cluster, Texts(cluster)) && IdsOf(cluster, MemberIds(cluster))
    decreases |cluster|
  {
    if cluster != [] {
      ClusterParts(cluster[..|cluster| - 1]);
    }
  }

  lemma MergeIsOfCluster(curator: Curator, cluster: seq<Memory>)
    requires cluster != [] && curator.summarize(Texts(cluster)).Some?
    ensures MergesCluster(curator, cluster, MergeOf(cluster, curator.summarize(Texts(cluster)).value))
  {
    ClusterParts(cluster);
    TierNeverDowngrades(cluster);
    hide Texts, MemberIds, HighestTier, TextsOf, IdsOf;
  }

  lemma SummarizedBy(
    w: World, curator: Curator, cluster: seq<Memory>, tick: nat, before: Db, after: Db, id: Id,
    merge: Merge, rows: seq<Memory>)
    requires cluster != [] && id in after.memories && after.memories[id].id == id
    requires MergesCluster(curator, cluster, merge) && StoredRows(cluster, before.memories, rows)
    requires SummaryOf(w, w.now(tick), after.memories[id], rows, merge)
    requires SourcesRetired(before, after, merge.ids, id, curator.tombstone, w.now(tick))
    ensures Summarized(w, curator, cluster, tick, before, after, id)
  {
    hide WellFormed, MergesCluster, StoredRows, SummaryOf, SourcesRetired;
  }

  lemma ConsolidationSummarizes(w: World, curator: Curator, cluster: seq<Memory>, tick: nat, db: Db)
    requires cluster != [] && curator.summarize(Texts(cluster)).Some?
    requires var merge := MergeOf(cluster, curator.summarize(Texts(cluster)).value);
             ConsolidateRows(w, tick, db, merge, curator.tombstone).value.Ok?
    ensures var merge := MergeOf(cluster, curator.summarize(Texts(cluster)).value);
      var s := ConsolidateRows(w, tick, db, merge, curator.tombstone);
      Summarized(w, curator, cluster, tick, db, s.db, s.value.value)
  {
    var merge := MergeOf(cluster, curator.summarize(Texts(cluster)).value);
    MergeIsOfCluster(curator, cluster);
    hide WellFormed, ConsolidateRows, MergeOf, Texts, MergesCluster, SummaryOf, SourcesRetired, Rows, StoredRows;
    ConsolidationLeaves(w, tick, db, merge, curator.tombstone);
    RowsOfCluster(curator, cluster, db.memories, merge);
    var s := ConsolidateRows(w, tick, db, merge, curator.tombstone);
    SummarizedBy(w, curator, cluster, tick, db, s.db, s.value.value, merge, Rows(db.memories, merge.ids));
  }

  lemma RowsOfCluster(curator: Curator, cluster: seq<Memory>, t: Table, merge: Merge)
    requires cluster != [] && MergesCluster(curator, cluster, merge)
    requires forall id :: id in merge.ids ==> id in t
    ensures StoredRows(cluster, t, Rows(t, merge.ids))
  {
    hide WellFormed, Rows;
    RowsAre(t, merge.ids);
    MergedIds(curator, cluster, merge);
    hide MergesCluster;
  }

  lemma MergedIds(curator: Curator, cluster: seq<Memory>, merge: Merge)
    requires cluster != [] && MergesCluster(curator, cluster, merge)
    ensures IdsOf(cluster, merge.ids)
  {}

  method ConsolidateCluster(conn: Connection, curator: Curator, cluster: seq<Memory>, dryRun: bool)
    returns (r: Decision)
    modifies conn
    ensures Attempt(conn.tick, conn.db, r)
         == TryConsolidate(conn.world, curator, cluster, dryRun, old(conn.tick), old(conn.db))
    ensures r == Ok(None) <==> |cluster| < 2 || exists m :: m in cluster && Reserved(m.namespace)
    ensures r.Ok? && r.value.Some? ==>
              && curator.summarize(Texts(cluster)).Some?
              && r.value.value.ConsolidateEntry? && r.value.value.originals == cluster
    ensures dryRun || r == Ok(None) || curator.summarize(Texts(cluster)).None? ==> conn.db == old(conn.db)
    ensures dryRun && curator.summarize(Texts(cluster)).Some? ==> r.Ok?
    ensures dryRun && r.Ok? && r.value.Some? ==> r.value == Some(ConsolidateEntry(cluster, "dry-run"))
    ensures r != Ok(None) && curator.summarize(Texts(cluster)).Some? && !dryRun ==>
              var merge := MergeOf(cluster, curator.summarize(Texts(cluster)).value);
              var step := ConsolidateRows(conn.world, old(conn.tick), old(conn.db), merge, curator.tombstone);
              && conn.db == step.db
              && r == (match step.value case Ok(id) => Ok(Some(ConsolidateEntry(cluster, id))) case Err(e) => Err(e))
    ensures r != Ok(None) && curator.summarize(Texts(cluster)).Some? && !dryRun ==>
              && (r.Ok? <==> Consolidable(conn.world, cluster, old(conn.tick), old(conn.db)))
              && (r.Err? ==> conn.db == old(conn.db))
    ensures r.Ok? && r.value.Some? && !dryRun ==>
              && r.value.value.ConsolidateEntry?
              && Summarized(conn.world, curator, cluster, old(conn.tick), old(conn.db), conn.db, r.value.value.resultId)
  {
    hide ConsolidateRows, WellFormed, HighestTier, Consolidable, Summarized;
    if |cluster| < 2 {
      return Ok(None);
    }
    if exists m :: m in cluster && Reserved(m.namespace) {
      return Ok(None);
    }
    var summary := curator.summarize(Texts(cluster));
    if summary.None? {
      return Err(Refused);
    }
    if dryRun {
      return Ok(Some(ConsolidateEntry(cluster, "dry-run")));
    }
    var step := ConsolidateRows(conn.world, conn.tick, conn.db, MergeOf(cluster, summary.value), curator.tombstone);
    ConsolidableMeans(conn.world, conn.tick, conn.db, curator, cluster, summary.value);
    ConsolidateSucceedsIff(
      conn.world, conn.tick, conn.db, MergeOf(cluster, summary.value), curator.tombstone);
    if step.value.Ok? {
      ConsolidationSummarizes(conn.world, curator, cluster, conn.tick, conn.db);
    }
    conn.db, conn.tick := step.db, conn.tick + 1;
    r := match step.value case Ok(id) => Ok(Some(ConsolidateEntry(cluster, id))) case Err(e) => Err(e);
  }

  // ----- Pass 2: conserve contradictions ---------------------------------

  const CONFIRMED := "confirmed_contradictions"

  function Contradictions(m: Memory): seq<Json> {
    if CONFIRMED in m.metadata && m.metadata[CONFIRMED].JArray? then m.metadata[CONFIRMED].items else []
  }

  predicate Conserved(m: Memory) {
    CONSERVED in m.metadata && m.metadata[CONSERVED] == JBool(true)
  }

  /** The id index over the candidates: a repeated id keeps its last row. */
  function ById(all: seq<Memory>, id: Id): (o: Option<Memory>)
    ensures o.Some? ==> o.value in all && o.value.id == id
  {
    if all == [] then None
    else if all[|all| - 1].id == id then Some(all[|all| - 1])
    else ById(all[..|all| - 1], id)
  }

  /** Newer and at least as trusted. */
  predicate Beats(other: Memory, m: Memory) {
    Below(m.updatedAt, other.updatedAt) && other.confidence >= m.confidence
  }

  predicate NamesWinner(all: seq<Memory>, m: Memory, v: Json) {
    v.JString? && ById(all, v.text).Some? && Beats(ById(all, v.text).value, m)
  }

  function FirstWinner(all: seq<Memory>, m: Memory, ids: seq<Json>): Option<Memory> {
    if ids == [] then None
    else if NamesWinner(all, m, ids[0]) then ById(all, ids[0].text)
    else FirstWinner(all, m, ids[1..])
  }

  /** Who `m` loses to, if anyone. */
  function Winner(all: seq<Memory>, m: Memory): Option<Memory> {
    if Conserved(m) then None else FirstWinner(all, m, Contradictions(m))
  }

  // Who loses to whom, in the columns of the rows themselves.

  /** The row the id index keeps for `id`: the last candidate that has it. */
  predicate LastWithId(all: seq<Memory>, k: nat, id: Id)
    requires k < |all|
  {
    all[k].id == id && forall l :: k < l < |all| ==> all[l].id != id
  }

  /** The candidate known as `id` is newer than `m` and no less trusted. */
  predicate OutrankedBy(all: seq<Memory>, m: Memory, id: Id) {
    exists k :: 0 <= k < |all| && LastWithId(all, k, id)
      && Below(m.updatedAt, all[k].updatedAt) && all[k].confidence >= m.confidence
  }

  /** Entry `i` of the memory's confirmed contradictions is `id`. */
  predicate Lists(m: Memory, i: nat, id: Id) {
    && "confirmed_contradictions" in m.metadata && m.metadata["confirmed_contradictions"].JArray?
    && i < |m.metadata["confirmed_contradictions"].items|
    && m.metadata["confirmed_contradictions"].items[i] == JString(id)
  }

  predicate MarkedAsLoser(m: Memory) {
    "contradiction_conserved" in m.metadata && m.metadata["contradiction_conserved"] == JBool(true)
  }

  ghost predicate ListsWinner(all: seq<Memory>, m: Memory, i: nat, id: Id) {
    Lists(m, i, id) && OutrankedBy(all, m, id)
  }

  /** `id` is the first listed contradiction that outranks `m`, which is not yet marked. */
  ghost predicate LosesTo(all: seq<Memory>, m: Memory, id: Id) {
    && !MarkedAsLoser(m)
    && exists i: nat :: ListsWinner(all, m, i, id) && forall j: nat, other :: j < i ==> !ListsWinner(all, m, j, other)
  }

  ghost predicate Loses(all: seq<Memory>, m: Memory) {
    !MarkedAsLoser(m) && exists i: nat, id :: ListsWinner(all, m, i, id)
  }

  lemma {:induction false} IndexKeepsLast(all: seq<Memory>, id: Id)
    ensures var o := ById(all, id);
      && (o.Some? ==> exists k :: 0 <= k < |all| && LastWithId(all, k, id) && all[k] == o.value)
      && (o.None? ==> forall k :: 0 <= k < |all| ==> all[k].id != id)
    decreases |all|
  {
    if all != [] {
      var n := |all| - 1;
      if all[n].id == id {
        assert LastWithId(all, n, id);
      } else {
        IndexKeepsLast(all[..n], id);
        if k :| 0 <= k < n && LastWithId(all[..n], k, id) && all[k] == ById(all[..n], id).value {
          assert LastWithId(all, k, id);
        }
      }
    }
  }

  lemma OneLastRow(all: seq<Memory>, k: nat, l: nat, id: Id)
    requires k < |all| && l < |all| && LastWithId(all, k, id) && LastWithId(all, l, id)
    ensures k == l
  {
    if k < l {} else if l < k {}
  }

  lemma NamedMeansOutranked(all: seq<Memory>, m: Memory, id: Id)
    ensures NamesWinner(all, m, JString(id)) <==> OutrankedBy(all, m, id)
  {
    IndexKeepsLast(all, id);
    if OutrankedBy(all, m, id) && ById(all, id).Some? {
      var k :| 0 <= k < |all| && LastWithId(all, k, id)
        && Below(m.updatedAt, all[k].updatedAt) && all[k].confidence >= m.confidence;
      var l :| 0 <= l < |all| && LastWithId(all, l, id) && all[l] == ById(all, id).value;
      OneLastRow(all, k, l, id);
    }
  }

  lemma {:induction false} FirstInList(all: seq<Memory>, m: Memory, ids: seq<Json>) returns (i: nat)
    ensures i <= |ids|
    ensures FirstWinner(all, m, ids) ==
            if i == |ids| then None else if ids[i].JString? then ById(all, ids[i].text) else None
    ensures i < |ids| ==> NamesWinner(all, m, ids[i])
    ensures forall j :: 0 <= j < i ==> !NamesWinner(all, m, ids[j])
    decreases |ids|
  {
    if ids == [] || NamesWinner(all, m, ids[0]) {
      i := 0;
    } else {
      var rest := FirstInList(all, m, ids[1..]);
      i := rest + 1;
      hide NamesWinner;
      forall j | 0 <= j < i ensures !NamesWinner(all, m, ids[j]) {
        if j > 0 {
          assert ids[1..][j - 1] == ids[j];
        }
      }
    }
  }

  /** The winner is the first listed contradiction that outranks an unmarked memory, if there is one. */
  lemma WinnerOutranks(all: seq<Memory>, m: Memory)
    ensures Winner(all, m).Some? <==> Loses(all, m)
    ensures Winner(all, m).Some? ==>
              && Winner(all, m).value in all
              && LosesTo(all, m, Winner(all, m).value.id)
  {
    var ids := Contradictions(m);
    var i := FirstInList(all, m, ids);
    forall j: nat, id
      ensures ListsWinner(all, m, j, id) <==> j < |ids| && ids[j] == JString(id) && NamesWinner(all, m, ids[j])
    {
      NamedMeansOutranked(all, m, id);
    }
    hide ListsWinner;
    if i < |ids| {
      assert ListsWinner(all, m, i, ids[i].text);
    }
  }

  function TryForget(w: World, all: seq<Memory>, m: Memory, dryRun: bool, tick: nat, db: Db): Attempt {
    match Winner(all, m)
    case None => Attempt(tick, db, Ok(None))
    case Some(winner) =>
      var entry := ConserveContradiction(m.id, winner.id, CanonicalPair(m.id, winner.id));
      if dryRun then Attempt(tick, db, Ok(Some(entry)))
      else
        var step := Conserve(w, tick, db, m.id, winner.id);
        Attempt(tick + 1, step.db, if step.value.Ok? then Ok(Some(entry)) else Err(step.value.error))
  }

  method ForgetIfSuperseded(conn: Connection, m: Memory, all: seq<Memory>, dryRun: bool)
    returns (r: Decision)
    modifies conn
    ensures Attempt(conn.tick, conn.db, r)
         == TryForget(conn.world, all, m, dryRun, old(conn.tick), old(conn.db))
    ensures r.Ok? && r.value.Some? && !dryRun && m.id in conn.db.memories ==> Conserved(conn.db.memories[m.id])
    ensures r == Ok(None) <==> Winner(all, m).None?
    ensures dryRun ==> r.Ok?
    ensures dryRun || r == Ok(None) ==> conn.db == old(conn.db)
    ensures !dryRun && Winner(all, m).Some? ==>
              var step := Conserve(conn.world, old(conn.tick), old(conn.db), m.id, Winner(all, m).value.id);
              && conn.db == step.db
              && (r.Ok? <==> step.value.Ok?) && (r.Err? ==> r.error == step.value.error)
    ensures r.Ok? && r.value.Some? ==>
              var w := Winner(all, m).value;
              r.value.value == ConserveContradiction(m.id, w.id, CanonicalPair(m.id, w.id))
    ensures r == Ok(None) <==> !Loses(all, m)
    ensures r.Ok? && r.value.Some? ==>
              && r.value.value.ConserveContradiction? && r.value.value.loserId == m.id
              && LosesTo(all, m, r.value.value.winnerId)
              && r.value.value.edge in {(m.id, r.value.value.winnerId), (r.value.value.winnerId, m.id)}
              && !Below(r.value.value.edge.1, r.value.value.edge.0)
    ensures r.Ok? && r.value.Some? && !dryRun ==>
              if m.id in old(conn.db).memories
              then Conservation(old(conn.db), conn.db, m.id, r.value.value.winnerId)
              else conn.db == old(conn.db)
    ensures r.Err? ==> conn.db == old(conn.db)
  {
    WinnerOutranks(all, m);
    hide Conserve, WellFormed, Beats, CanonicalPair, Loses, LosesTo, Conservation;
    var contradictions := Contradictions(m);
    if contradictions == [] {
      return Ok(None);
    }
    if Conserved(m) {
      return Ok(None);
    }
    var winner: Option<Memory> := None;
    var i := 0;
    while i < |contradictions| && winner.None?
      invariant i <= |contradictions|
      invariant Winner(all, m) ==
                if winner.Some? then winner else FirstWinner(all, m, contradictions[i..])
    {
      assert contradictions[i..][1..] == contradictions[i + 1..];
      var v := contradictions[i];
      if NamesWinner(all, m, v) {
        winner := ById(all, v.text);
      }
      i := i + 1;
    }
    if winner.None? {
      return Ok(None);
    }
    var entry := ConserveContradiction(m.id, winner.value.id, CanonicalPair(m.id, winner.value.id));
    var _ := SortedPair(m.id, winner.value.id);
    if dryRun {
      return Ok(Some(entry));
    }
    LoserConserved(conn.world, conn.tick, conn.db, m.id, winner.value.id);
    var step := Conserve(conn.world, conn.tick, conn.db, m.id, winner.value.id);
    ConserveMarks(conn.world, conn.tick, conn.db, m.id, winner.value.id);
    conn.db, conn.tick := step.db, conn.tick + 1;
    r := if step.value.Ok? then Ok(Some(entry)) else Err(step.value.error);
  }

  lemma {:induction false} FirstWinnerBeats(all: seq<Memory>, m: Memory, ids: seq<Json>)
    ensures var w := FirstWinner(all, m, ids); w.Some? ==> w.value in all && Beats(w.value, m)
    decreases |ids|
  {
    if ids != [] {
      FirstWinnerBeats(all, m, ids[1..]);
    }
  }

  /** The loser-to-winner relation has no cycle: along every chain the update time strictly rises. */
  lemma {:induction false} LosersFormNoCycle(all: seq<Memory>, chain: seq<Memory>)
    requires |chain| >= 2
    requires forall i :: 0 <= i < |chain| - 1 ==> Winner(all, chain[i]) == Some(chain[i + 1])
    ensures Below(chain[0].updatedAt, chain[|chain| - 1].updatedAt)
    ensures chain[0] != chain[|chain| - 1]
    decreases |chain|
  {
    var n := |chain| - 1;
    FirstWinnerBeats(all, chain[n - 1], Contradictions(chain[n - 1]));
    assert Winner(all, chain[n - 1]) == Some(chain[n]);
    if n > 1 {
      LosersFormNoCycle(all, chain[..n]);
      BelowTransitive(chain[0].updatedAt, chain[n - 1].updatedAt, chain[n].updatedAt);
    }
    BelowIrreflexive(chain[0].updatedAt);
  }

  /** So a newest candidate exists and never loses. */
  lemma NewestNeverLoses(all: seq<Memory>) returns (newest: Memory)
    requires all != []
    ensures newest in all && Winner(all, newest).None?
  {
    newest := Newest(all);
    FirstWinnerBeats(all, newest, Contradictions(newest));
  }

  lemma {:induction false} Newest(all: seq<Memory>) returns (newest: Memory)
    requires all != []
    ensures newest in all
    ensures forall m :: m in all ==> !Below(newest.updatedAt, m.updatedAt)
    decreases |all|
  {
    var n := |all| - 1;
    var last := all[n];
    BelowIrreflexive(last.updatedAt);
    if n == 0 {
      newest := last;
    } else {
      var before := Newest(all[..n]);
      newest := if Below(before.updatedAt, last.updatedAt) then last else before;
      forall m | m in all ensures !Below(newest.updatedAt, m.updatedAt) {
        if m in all[..n] && newest == last && Below(last.updatedAt, m.updatedAt) {
          BelowTransitive(before.updatedAt, last.updatedAt, m.updatedAt);
        }
      }
    }
  }

  // ----- Pass 3: priority feedback ---------------------------------------

  function NextPriority(curator: Curator, m: Memory): int {
    var recent := m.lastAccessedAt.Some?
      && curator.daysSince(m.lastAccessedAt.value).Some? && curator.daysSince(m.lastAccessedAt.value).value <= 7;
    var cold := curator.daysSince(m.createdAt).Some? && curator.daysSince(m.createdAt).value >= 30;
    if m.accessCount >= 10 && recent && m.priority < 10 then m.priority + 1
    else if m.accessCount == 0 && cold && m.priority > 1 then m.priority - 1
    else m.priority
  }

  /** Raised: ten accesses or more, the last one within 7 days, and not yet at 10. */
  predicate InUse(curator: Curator, m: Memory) {
    && m.accessCount >= 10 && m.priority < 10
    && m.lastAccessedAt.Some? && curator.daysSince(m.lastAccessedAt.value).Some?
    && curator.daysSince(m.lastAccessedAt.value).value <= 7
  }

  /** Lowered: never accessed, 30 days old or more, and not yet at 1. */
  predicate GoneCold(curator: Curator, m: Memory) {
    && m.accessCount == 0 && m.priority > 1
    && curator.daysSince(m.createdAt).Some? && curator.daysSince(m.createdAt).value >= 30
  }

  function TryAdjust(w: World, curator: Curator, m: Memory, dryRun: bool, tick: nat, db: Db): Attempt {
    var after := NextPriority(curator, m);
    if after == m.priority then Attempt(tick, db, Ok(None))
    else if dryRun then Attempt(tick, db, Ok(Some(PriorityAdjust(m.id, m.priority, after))))
    else
      var step := SetPriority(w, tick, db, m.id, after);
      Attempt(tick + 1, step.db,
              if step.value.Ok? then Ok(Some(PriorityAdjust(m.id, m.priority, after))) else Err(step.value.error))
  }

  method ApplyPriorityFeedback(conn: Connection, curator: Curator, m: Memory, dryRun: bool)
    returns (r: Decision)
    modifies conn
    ensures Attempt(conn.tick, conn.db, r)
         == TryAdjust(conn.world, curator, m, dryRun, old(conn.tick), old(conn.db))
    ensures r == Ok(None) <==> NextPriority(curator, m) == m.priority
    ensures dryRun ==> r.Ok?
    ensures dryRun || r == Ok(None) ==> conn.db == old(conn.db)
    ensures r != Ok(None) && !dryRun ==>
              var step := SetPriority(conn.world, old(conn.tick), old(conn.db), m.id, NextPriority(curator, m));
              conn.db == step.db && (r.Ok? <==> step.value.Ok?)
    ensures r.Ok? && r.value.Some? ==>
              && r.value.value == PriorityAdjust(m.id, m.priority, NextPriority(curator, m))
              && (1 <= m.priority <= 10 ==> 1 <= NextPriority(curator, m) <= 10)
    ensures r == Ok(None) <==> !InUse(curator, m) && !GoneCold(curator, m)
    ensures r.Ok? && r.value.Some? ==>
              && r.value.value.PriorityAdjust? && r.value.value.memoryId == m.id
              && r.value.value.before == m.priority
              && (InUse(curator, m) ==> r.value.value.after == m.priority + 1)
              && (GoneCold(curator, m) ==> r.value.value.after == m.priority - 1)
    ensures r.Ok? && r.value.Some? && !dryRun ==>
              var was, id := old(conn.db).memories, m.id;
              if id in was then
                && conn.db.links == old(conn.db).links && OnlyRow(was, conn.db.memories, id)
                && Reprioritized(was[id], conn.db.memories[id], r.value.value.after, conn.world.now(old(conn.tick)))
              else conn.db == old(conn.db)
    ensures r.Err? ==> conn.db == old(conn.db)
  {
    hide SetPriority, WellFormed, OnlyRow, Reprioritized;
    var after := NextPriority(curator, m);
    if after == m.priority {
      return Ok(None);
    }
    if !dryRun {
      var s := conn.UpdatePriority(m.id, after);
      if s.Err? {
        return Err(s.error);
      }
    }
    r := Ok(Some(PriorityAdjust(m.id, m.priority, after)));
  }

  // ----- The rollback log ------------------------------------------------

  function ActionTag(entry: RollbackEntry): string {
    match entry
    case ConsolidateEntry(_, _) => "consolidate"
    case ForgetEntry(_) => "forget"
    case PriorityAdjust(_, _, _) => "priority_adjust"
    case ConserveContradiction(_, _, _) => "conserve_contradiction"
  }

  const ROLLBACK_NAMESPACE := "_curator/rollback"

  function LogTitle(tag: string, at: string): string {
    "curator " + tag + " @ " + at
  }

  /** What the log holds under a title. */
  function LogText(t: Table, title: string): Option<string> {
    match Owner(t, title, ROLLBACK_NAMESPACE)
    case Some(o) => Some(t[o].content)
    case None => None
  }

  /** Two entries go by one title iff they are of one kind and were written at one moment. */
  lemma LogTitlesDiffer(e: RollbackEntry, x: string, f: RollbackEntry, y: string)
    ensures LogTitle(ActionTag(e), x) == LogTitle(ActionTag(f), y) <==> ActionTag(e) == ActionTag(f) && x == y
  {
    var a, b := ActionTag(e), ActionTag(f);
    if LogTitle(a, x) == LogTitle(b, y) {
      SpaceEndsTag(a, x, b, y);
      SpaceEndsTag(b, y, a, x);
      TagHasNoSpace(e);
      TagHasNoSpace(f);
      var s, n := LogTitle(a, x), |"curator "|;
      assert a == s[n..n + |a|] && b == s[n..n + |b|];
      assert x == s[n + |a| + 3..] && y == s[n + |b| + 3..];
    }
  }

  lemma SpaceEndsTag(a: string, x: string, b: string, y: string)
    requires LogTitle(a, x) == LogTitle(b, y)
    ensures |a| < |b| ==> b[|a|] == ' '
  {
    if |a| < |b| {
      var n := |"curator "|;
      assert LogTitle(a, x)[n + |a|] == ' ' && LogTitle(b, y)[n + |a|] == b[|a|];
    }
  }

  lemma TagHasNoSpace(e: RollbackEntry)
    ensures forall i :: 0 <= i < |ActionTag(e)| ==> ActionTag(e)[i] != ' '
  {}

  function RollbackRow(w: World, k: nat, curator: Curator, entry: RollbackEntry): Memory {
    var ts, tag := w.now(k), ActionTag(entry);
    Memory(
      w.uuid(k), Long, ROLLBACK_NAMESPACE, LogTitle(tag, ts), curator.entryJson(entry),
      ["_curator", "_rollback", tag], 3, 1.0, CURATOR_SOURCE_LABEL, 0, ts, ts, None, None,
      map["agent_id" := JString(AI_CURATOR), "action" := JString(tag)], map[], 1, Open)
  }

  /** What storing a log row does to the table. */
  ghost predicate LogGains(before: Table, title: string, text: string, after: Table) {
    && LogText(after, title) == Some(text)
    && (forall other :: other != title ==> LogText(after, other) == LogText(before, other))
    && (forall id :: id in before ==>
          id in after
          && (after[id] != before[id] <==>
                before[id].namespace == ROLLBACK_NAMESPACE && before[id].title == title))
  }

  lemma LogRowStored(w: World, k: nat, db: Db, row: Memory)
    requires row.namespace == ROLLBACK_NAMESPACE
    ensures var s := InsertRow(w, k, db, row);
      && (s.value.Ok? <==>
            !w.fails(k) && (Owner(db.memories, row.title, ROLLBACK_NAMESPACE).Some? || row.id !in db.memories))
      && (s.value.Err? ==> s.db == db)
      && (s.value.Ok? ==> LogGains(db.memories, row.title, row.content, s.db.memories))
  {
    hide WellFormed, Upserted, Fresh;
    var s := InsertRow(w, k, db, row);
    Undo.FirstInserted(w, k, db, [row]);
    if s.value.Ok? {
      forall other | other != row.title
        ensures LogText(s.db.memories, other) == LogText(db.memories, other)
      {
        OtherLogText(db.memories, row, s.db.memories, other);
      }
      OverwrittenRow(w, db.memories, row, s.db.memories);
    }
  }

  lemma OtherLogText(t: Table, row: Memory, t': Table, other: string)
    requires row.namespace == ROLLBACK_NAMESPACE && other != row.title
    requires Undo.PutOne(t, row, t')
    ensures LogText(t', other) == LogText(t, other)
  {
    Undo.OtherOwners(t, row, t', row.(title := other));
    Undo.OwnerHasKey(t, row.(title := other));
    Undo.OwnerHasKey(t', row);
    hide WellFormed, Owner;
  }

  lemma OverwrittenRow(w: World, t: Table, row: Memory, t': Table)
    requires row.namespace == ROLLBACK_NAMESPACE && Upsert(w, t, row) == Ok(t')
    ensures forall id :: id in t ==>
              id in t'
              && (t'[id] != t[id] <==> t[id].namespace == ROLLBACK_NAMESPACE && t[id].title == row.title)
  {
    forall id | id in t && t[id].namespace == ROLLBACK_NAMESPACE && t[id].title == row.title
      ensures Owner(t, row.title, row.namespace) == Some(id)
    {
      OwnerIs(t, id);
    }
    hide WellFormed, Fresh;
  }

  predicate KindOf(entry: RollbackEntry, tag: string) {
    && (entry.ConsolidateEntry? ==> tag == "consolidate")
    && (entry.ForgetEntry? ==> tag == "forget")
    && (entry.PriorityAdjust? ==> tag == "priority_adjust")
    && (entry.ConserveContradiction? ==> tag == "conserve_contradiction")
  }

  /** The row of a log entry, column by column. */
  ghost predicate LogRow(row: Memory, id: Id, at: string, entry: RollbackEntry, text: string) {
    && row.id == id && row.tier == Long && row.namespace == "_curator/rollback" && row.content == text
    && (exists tag ::
          && KindOf(entry, tag) && row.title == "curator " + tag + " @ " + at
          && row.tags == ["_curator", "_rollback", tag]
          && row.metadata == map["agent_id" := JString("ai:curator"), "action" := JString(tag)])
    && row.priority == 3 && row.confidence == 1.0 && row.source == "ai-memory curator (autonomy)"
    && row.accessCount == 0 && row.createdAt == at && row.updatedAt == at
    && row.lastAccessedAt == None && row.expiresAt == None
    && row.clock == map[] && row.lifecycle == Open
  }

  lemma RollbackRowIs(w: World, k: nat, curator: Curator, entry: RollbackEntry)
    ensures LogRow(RollbackRow(w, k, curator, entry), w.uuid(k), w.now(k), entry, curator.entryJson(entry))
  {
    assert KindOf(entry, ActionTag(entry));
  }

  /**
   * Writing an entry succeeds iff the statement does and its title is taken
   * or its id new. Then the log holds the entry's text under its title, no
   * other title's text has changed, and the one row that has, if any, is an
   * earlier entry of the same kind written at the same moment.
   */
  method PersistRollbackEntry(conn: Connection, curator: Curator, entry: RollbackEntry)
    returns (r: Result<(), DbError>)
    modifies conn
    ensures Step(conn.db, r) ==
            InsertRow(conn.world, old(conn.tick), old(conn.db), RollbackRow(conn.world, old(conn.tick), curator, entry))
    ensures conn.tick == old(conn.tick) + 1
    ensures var title := LogTitle(ActionTag(entry), conn.world.now(old(conn.tick)));
      && (r.Ok? <==>
            && !conn.world.fails(old(conn.tick))
            && (LogText(old(conn.db).memories, title).Some?
                || conn.world.uuid(old(conn.tick)) !in old(conn.db).memories))
      && (r.Err? ==> conn.db == old(conn.db))
      && (r.Ok? ==> LogGains(old(conn.db).memories, title, curator.entryJson(entry), conn.db.memories))
    ensures r.Ok? ==>
              exists row ::
                && LogRow(row, conn.world.uuid(old(conn.tick)), conn.world.now(old(conn.tick)), entry,
                          curator.entryJson(entry))
                && StoredAs(conn.world, old(conn.db).memories, conn.db.memories, row)
  {
    RollbackRowIs(conn.world, conn.tick, curator, entry);
    LogRowStored(conn.world, conn.tick, conn.db, RollbackRow(conn.world, conn.tick, curator, entry));
    hide InsertRow, WellFormed, LogGains, LogRow, StoredAs;
    r := conn.Insert(RollbackRow(conn.world, conn.tick, curator, entry));
  }

  // ----- Markers last ----------------------------------------------------

  /** No id the world mints is already a row of `was`. */
  ghost predicate Unminted(was: Table, w: World) {
    forall k: nat :: w.uuid(k) !in was
  }

  /** Rows of `was` marked as conserved losers and still there are still marked; log rows aside. */
  predicate MarksKept(was: Table, now: Table) {
    forall id :: id in was && id in now && Conserved(was[id]) && was[id].namespace != ROLLBACK_NAMESPACE ==>
      Conserved(now[id]) && now[id].namespace == was[id].namespace
  }

  /** Rows of `was` outside `targets` are there exactly as they were; log rows aside. */
  predicate Spared(was: Table, targets: set<Id>, now: Table) {
    forall id :: id in was && id !in targets && was[id].namespace != ROLLBACK_NAMESPACE ==>
      id in now && now[id] == was[id]
  }

  /** The table a run starts from, and the rows it has a reason to touch. */
  datatype Baseline = Baseline(was: Table, targets: set<Id>)

  predicate Kept(base: Baseline, now: Table) {
    MarksKept(base.was, now) && Spared(base.was, base.targets, now)
  }

  ghost predicate StillKept(base: Baseline, w: World, before: Table, after: Table) {
    Unminted(base.was, w) && Kept(base, before) ==> Kept(base, after)
  }

  lemma KeptAtStart(base: Baseline)
    ensures Kept(base, base.was)
  {
    hide WellFormed;
  }

  lemma ConsolidateKeeps(base: Baseline, w: World, k: nat, db: Db, merge: Merge, tombstone: bool)
    requires forall id :: id in merge.ids ==> id in base.targets
    ensures StillKept(base, w, db.memories, ConsolidateRows(w, k, db, merge, tombstone).db.memories)
  {
    hide WellFormed, Kept, MergeRows, SummaryRow;
    if Unminted(base.was, w) && Kept(base, db.memories) && !w.fails(k)
       && forall id :: id in merge.ids ==> id in db.memories {
      SummaryIsNew(base.was, w, k, db.memories, merge);
      var ids := set id | id in merge.ids;
      MergeKeeps(base, db, ids, SummaryRow(w, k, db.memories, merge), tombstone, w.now(k));
    }
  }

  lemma SummaryIsNew(was: Table, w: World, k: nat, t: Table, merge: Merge)
    requires Unminted(was, w)
    requires forall id :: id in merge.ids ==> id in t
    ensures SummaryRow(w, k, t, merge).id !in was
  {
    hide WellFormed;
  }

  lemma MergeKeeps(base: Baseline, db: Db, ids: set<Id>, summary: Memory, tombstone: bool, now: string)
    requires Kept(base, db.memories) && summary.id !in base.was && ids <= base.targets
    ensures Kept(base, MergeRows(db, ids, summary, tombstone, now).db.memories)
  {
    hide WellFormed;
  }

  lemma ConserveKeeps(base: Baseline, w: World, k: nat, db: Db, loser: Id, winner: Id)
    requires loser in base.targets
    ensures StillKept(base, w, db.memories, Conserve(w, k, db, loser, winner).db.memories)
  {
    hide WellFormed, CanonicalPair;
  }

  lemma ConserveMarks(w: World, k: nat, db: Db, loser: Id, winner: Id)
    ensures var s := Conserve(w, k, db, loser, winner);
      s.value.Ok? && loser in s.db.memories ==> Conserved(s.db.memories[loser])
  {
    hide WellFormed, CanonicalPair;
  }

  lemma PriorityKeeps(base: Baseline, w: World, k: nat, db: Db, id: Id, priority: int)
    requires id in base.targets
    ensures StillKept(base, w, db.memories, SetPriority(w, k, db, id, priority).db.memories)
  {
    hide WellFormed;
  }

  lemma LogKeeps(base: Baseline, w: World, k: nat, db: Db, curator: Curator, entry: RollbackEntry)
    ensures StillKept(base, w, db.memories, InsertRow(w, k, db, RollbackRow(w, k, curator, entry)).db.memories)
  {
    var row := RollbackRow(w, k, curator, entry);
    assert row.id == w.uuid(k) && row.namespace == ROLLBACK_NAMESPACE;
    hide WellFormed, RollbackRow, Kept, InsertRow;
    if Unminted(base.was, w) && Kept(base, db.memories) {
      InsertKeeps(base, w, k, db, row);
    }
  }

  lemma InsertKeeps(base: Baseline, w: World, k: nat, db: Db, row: Memory)
    requires Kept(base, db.memories) && row.id !in base.was && row.namespace == ROLLBACK_NAMESPACE
    ensures Kept(base, InsertRow(w, k, db, row).db.memories)
  {
    hide WellFormed, Conserved;
  }

  /**
   * Over any number of cycles, in which each table is what a run left of the
   * one before, a row read back with its marker never loses again: a loser is
   * conserved once until a reversal clears the marker.
   */
  lemma {:induction false} ConservedOnce(tables: seq<Table>, id: Id, all: seq<Memory>)
    requires tables != []
    requires forall i :: 0 <= i < |tables| ==> id in tables[i]
    requires forall i :: 0 <= i < |tables| - 1 ==> MarksKept(tables[i], tables[i + 1])
    requires Conserved(tables[0][id]) && tables[0][id].namespace != ROLLBACK_NAMESPACE
    ensures Winner(all, tables[|tables| - 1][id]).None?
    ensures var last := tables[|tables| - 1][id]; Conserved(last) && last.namespace != ROLLBACK_NAMESPACE
    decreases |tables|
  {
    hide WellFormed;
    var n := |tables| - 1;
    if n > 0 {
      ConservedOnce(tables[..n], id, all);
      assert MarksKept(tables[n - 1], tables[n]);
    }
  }

  // ----- A summary inherits its sources' markers -------------------------

  /** The last source that carries the marker key says "conserved". */
  predicate LastMarkIsSet(rows: seq<Memory>) {
    exists i :: 0 <= i < |rows| && Conserved(rows[i]) && forall j :: i < j < |rows| ==> CONSERVED !in rows[j].metadata
  }

  /**
   * Consolidation copies the marker: the summary of a cluster is itself a
   * conserved loser iff the last source carrying the key is one, and then the
   * summary never loses to anyone, whatever contradictions it inherits.
   */
  lemma SummaryInheritsMark(w: World, k: nat, t: Table, merge: Merge, all: seq<Memory>)
    requires forall id :: id in merge.ids ==> id in t
    ensures var summary := SummaryRow(w, k, t, merge);
      && (Conserved(summary) <==> LastMarkIsSet(Rows(t, merge.ids)))
      && (LastMarkIsSet(Rows(t, merge.ids)) ==> Winner(all, summary).None?)
  {
    MergedMark(Rows(t, merge.ids));
    hide WellFormed, LastMarkIsSet, MergedMetadata, MergedTags, MergedClock, SourceAgents, TotalAccess, MaxPriority;
  }

  lemma {:induction false} MergedMark(rows: seq<Memory>)
    ensures var m := MergedMetadata(rows);
      CONSERVED in m && m[CONSERVED] == JBool(true) <==> LastMarkIsSet(rows)
    decreases |rows|
  {
    if rows != [] {
      var n := |rows| - 1;
      MergedMark(rows[..n]);
      LastMarkSnoc(rows);
      hide LastMarkIsSet;
    }
  }

  lemma LastMarkSnoc(rows: seq<Memory>)
    requires rows != []
    ensures var n := |rows| - 1;
      LastMarkIsSet(rows) <==>
        if CONSERVED in rows[n].metadata then Conserved(rows[n]) else LastMarkIsSet(rows[..n])
  {
    var n := |rows| - 1;
    var before := rows[..n];
    assert forall j :: 0 <= j < n ==> before[j] == rows[j];
    hide Conserved;
    if CONSERVED !in rows[n].metadata && LastMarkIsSet(before) {
      var i :| 0 <= i < n && Conserved(before[i]) && forall j :: i < j < n ==> CONSERVED !in before[j].metadata;
      assert Conserved(rows[i]);
    }
  }
}
