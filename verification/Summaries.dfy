/** What a consolidation leaves in the table: the summary column by column, and its retired sources. */
module Summaries {
  import opened Common
  import opened JsonValues
  import opened Memories

  // ----- The merged columns, each by its own law -------------------------

  /** The highest priority of the sources, and no less than 5. */
  predicate TopPriority(p: int, rows: seq<Memory>) {
    && p >= 5
    && (forall i :: 0 <= i < |rows| ==> p >= rows[i].priority)
    && (p == 5 || exists i :: 0 <= i < |rows| && rows[i].priority == p)
  }

  /** The sources' tags in ascending order, each once. */
  ghost predicate TagUnion(tags: seq<string>, rows: seq<Memory>) {
    && (forall i :: 1 <= i < |tags| ==> Below(tags[i - 1], tags[i]))
    && (forall tag :: tag in tags <==> exists i :: 0 <= i < |rows| && tag in rows[i].tags)
  }

  /** The exact sum of the access counts. */
  function AccessSum(rows: seq<Memory>): int {
    if rows == [] then 0 else AccessSum(rows[..|rows| - 1]) + rows[|rows| - 1].accessCount
  }

  predicate NoNegativeAccess(rows: seq<Memory>) {
    forall i :: 0 <= i < |rows| ==> rows[i].accessCount >= 0
  }

  predicate AccessStaysInRange(rows: seq<Memory>) {
    forall n :: 0 <= n <= |rows| ==>
      -0x8000_0000_0000_0000 <= AccessSum(rows[..n]) <= 0x7fff_ffff_ffff_ffff
  }

  /** The sum while it stays in 64 bits; of counts that are not negative, the sum cut at the top. */
  predicate AccessTotal(count: int, rows: seq<Memory>) {
    && (AccessStaysInRange(rows) ==> count == AccessSum(rows))
    && (NoNegativeAccess(rows) ==> count <= 0x7fff_ffff_ffff_ffff)
    && (NoNegativeAccess(rows) && count < 0x7fff_ffff_ffff_ffff ==> count == AccessSum(rows))
    && (NoNegativeAccess(rows) ==> count <= AccessSum(rows))
  }

  /** `clock` is that of the last source that has one. */
  predicate LastClock(clock: map<string, string>, rows: seq<Memory>) {
    if forall i :: 0 <= i < |rows| ==> rows[i].clock == map[] then clock == map[]
    else exists i :: 0 <= i < |rows| && LastClockAt(clock, rows, i)
  }

  predicate LastClockAt(clock: map<string, string>, rows: seq<Memory>, i: nat)
    requires i < |rows|
  {
    rows[i].clock != map[] && clock == rows[i].clock && forall j :: i < j < |rows| ==> rows[j].clock == map[]
  }

  predicate HasAgent(m: Memory) {
    "agent_id" in m.metadata && m.metadata["agent_id"].JString?
  }

  predicate IsAgentOf(agent: Json, m: Memory) {
    HasAgent(m) && m.metadata["agent_id"] == agent
  }

  /** `agents[k]` is the agent of source `at[k]` and of none before it. */
  predicate FirstSeenAt(agents: seq<Json>, rows: seq<Memory>, at: seq<nat>) {
    && |at| == |agents|
    && (forall k :: 0 <= k < |at| ==> at[k] < |rows| && IsAgentOf(agents[k], rows[at[k]]))
    && (forall k, i :: 0 <= k < |at| && 0 <= i < at[k] ==> !IsAgentOf(agents[k], rows[i]))
    && (forall j, k :: 0 <= j < k < |at| ==> at[j] < at[k])
  }

  /** The sources' agents, each once, in the order of their first appearance. */
  ghost predicate AgentsInOrder(agents: seq<Json>, rows: seq<Memory>) {
    && (exists at :: FirstSeenAt(agents, rows, at))
    && (forall i :: 0 <= i < |rows| && HasAgent(rows[i]) ==> rows[i].metadata["agent_id"] in agents)
  }

  predicate LastValue(metadata: map<string, Json>, key: string, rows: seq<Memory>, i: nat)
    requires i < |rows|
  {
    && key in metadata && key in rows[i].metadata && metadata[key] == rows[i].metadata[key]
    && forall j :: i < j < |rows| ==> key !in rows[j].metadata
  }

  /** `key` holds the last source's value for it, and is missing when no source has it. */
  predicate FromLastSource(metadata: map<string, Json>, key: string, rows: seq<Memory>) {
    if forall i :: 0 <= i < |rows| ==> key !in rows[i].metadata then key !in metadata
    else exists i :: 0 <= i < |rows| && LastValue(metadata, key, rows, i)
  }

  /** The source ids and agents are recorded, the curator signs, and all else is the last source's. */
  ghost predicate Provenance(metadata: map<string, Json>, rows: seq<Memory>, ids: seq<Id>) {
    && "derived_from" in metadata && metadata["derived_from"].JArray?
    && |metadata["derived_from"].items| == |ids|
    && (forall i :: 0 <= i < |ids| ==> metadata["derived_from"].items[i] == JString(ids[i]))
    && "agent_id" in metadata && metadata["agent_id"] == JString("ai:curator")
    && (if exists i :: 0 <= i < |rows| && HasAgent(rows[i]) then
          && "consolidated_from_agents" in metadata && metadata["consolidated_from_agents"].JArray?
          && AgentsInOrder(metadata["consolidated_from_agents"].items, rows)
        else FromLastSource(metadata, "consolidated_from_agents", rows))
    && (forall key :: key !in {"derived_from", "agent_id", "consolidated_from_agents"} ==>
          FromLastSource(metadata, key, rows))
  }

  /** The summary of `rows`, inserted at `at`, apart from its id. */
  ghost predicate SummaryOf(w: World, at: string, row: Memory, rows: seq<Memory>, merge: Merge) {
    && row.title == merge.title && row.namespace == merge.namespace
    && row.content == merge.summary && row.tier == merge.tier
    && TagUnion(row.tags, rows)
    && TopPriority(row.priority, rows)
    && row.confidence == 1.0
    && row.source == "ai-memory curator (autonomy)"
    && AccessTotal(row.accessCount, rows)
    && row.createdAt == at && row.updatedAt == at && row.lastAccessedAt == None
    && (row.expiresAt == None <==> merge.tier == Long)
    && (merge.tier != Long ==> row.expiresAt == Some(w.ttl(merge.tier, at)))
    && Provenance(row.metadata, rows, merge.ids)
    && LastClock(row.clock, rows)
    && row.version == 1
    && row.lifecycle == Open
  }

  // ----- The stored summary obeys them -----------------------------------

  lemma TopOfSources(rows: seq<Memory>)
    ensures TopPriority(MaxPriority(rows), rows)
  {
    MaxPriorityIsMax(rows);
  }

  lemma UnionOfTags(rows: seq<Memory>)
    ensures TagUnion(MergedTags(rows), rows)
  {
    MergedTagsAreUnion(rows);
    forall tag ensures tag in MergedTags(rows) <==> exists i :: 0 <= i < |rows| && tag in rows[i].tags {
      if m :| m in rows && tag in m.tags {
        var i :| 0 <= i < |rows| && rows[i] == m;
      }
    }
  }

  lemma {:induction false} TotalOfAccess(rows: seq<Memory>)
    ensures AccessTotal(TotalAccess(rows), rows)
    ensures NoNegativeAccess(rows) ==> TotalAccess(rows) >= 0
    decreases |rows|
  {
    if rows != [] {
      var n := |rows| - 1;
      TotalOfAccess(rows[..n]);
      assert rows[..n + 1] == rows;
      forall k | 0 <= k <= n ensures rows[..n][..k] == rows[..k] {}
    }
  }

  lemma {:induction false} ClockOfLast(rows: seq<Memory>)
    ensures LastClock(MergedClock(rows), rows)
    decreases |rows|
  {
    if rows != [] {
      var n := |rows| - 1;
      ClockOfLast(rows[..n]);
      if rows[n].clock != map[] {
        assert LastClockAt(MergedClock(rows), rows, n);
      } else if i :| 0 <= i < n && LastClockAt(MergedClock(rows[..n]), rows[..n], i) {
        assert LastClockAt(MergedClock(rows), rows, i);
      }
    }
  }

  lemma {:induction false} ValueOfLast(rows: seq<Memory>, key: string)
    requires key != "agent_id"
    ensures FromLastSource(MergedMetadata(rows), key, rows)
    decreases |rows|
  {
    if rows != [] {
      var n := |rows| - 1;
      ValueOfLast(rows[..n], key);
      if key in rows[n].metadata {
        assert LastValue(MergedMetadata(rows), key, rows, n);
      } else if i :| 0 <= i < n && LastValue(MergedMetadata(rows[..n]), key, rows[..n], i) {
        assert LastValue(MergedMetadata(rows), key, rows, i);
      }
    }
  }

  lemma AgentOf(m: Memory)
    ensures HasAgent(m) ==> IsAgentOf(m.metadata["agent_id"], m)
  {}

  lemma SeenOneMore(agents: seq<Json>, rows: seq<Memory>, at: seq<nat>, m: Memory)
    requires FirstSeenAt(agents, rows, at)
    ensures FirstSeenAt(agents, rows + [m], at)
    ensures HasAgent(m) && (forall i :: 0 <= i < |rows| ==> !IsAgentOf(m.metadata["agent_id"], rows[i])) ==>
              FirstSeenAt(agents + [m.metadata["agent_id"]], rows + [m], at + [|rows|])
  {
    AgentOf(m);
    hide IsAgentOf, HasAgent;
  }

  lemma {:induction false} AgentsOfSources(rows: seq<Memory>) returns (at: seq<nat>)
    ensures FirstSeenAt(SourceAgents(rows), rows, at)
    ensures forall i :: 0 <= i < |rows| && HasAgent(rows[i]) ==> rows[i].metadata["agent_id"] in SourceAgents(rows)
    decreases |rows|
  {
    if rows == [] {
      at := [];
    } else {
      var n := |rows| - 1;
      at := AgentsOfSources(rows[..n]);
      assert forall i :: 0 <= i < n ==> rows[..n][i] == rows[i];
      assert rows == rows[..n] + [rows[n]];
      SeenOneMore(SourceAgents(rows[..n]), rows[..n], at, rows[n]);
      hide FirstSeenAt;
      if HasAgent(rows[n]) && rows[n].metadata["agent_id"] !in SourceAgents(rows[..n]) {
        at := at + [n];
      }
    }
  }

  lemma AgentsAreInOrder(rows: seq<Memory>)
    ensures AgentsInOrder(SourceAgents(rows), rows)
    ensures SourceAgents(rows) == [] <==> !exists i :: 0 <= i < |rows| && HasAgent(rows[i])
  {
    var at := AgentsOfSources(rows);
    hide SourceAgents;
    if SourceAgents(rows) != [] {
      assert HasAgent(rows[at[0]]);
    }
  }

  lemma OtherKey(a: map<string, Json>, b: map<string, Json>, key: string, rows: seq<Memory>)
    requires FromLastSource(a, key, rows)
    requires key in a <==> key in b
    requires key in a ==> a[key] == b[key]
    ensures FromLastSource(b, key, rows)
  {
    if i :| 0 <= i < |rows| && LastValue(a, key, rows, i) {
      assert LastValue(b, key, rows, i);
    }
  }

  lemma SummaryProvenance(w: World, k: nat, t: Table, merge: Merge)
    requires forall id :: id in merge.ids ==> id in t
    ensures Provenance(SummaryRow(w, k, t, merge).metadata, Rows(t, merge.ids), merge.ids)
  {
    var rows := Rows(t, merge.ids);
    var merged, metadata := MergedMetadata(rows), SummaryRow(w, k, t, merge).metadata;
    AgentsAreInOrder(rows);
    hide WellFormed, AgentsInOrder, SourceAgents, MergedMetadata, MergedTags, MergedClock, TotalAccess, MaxPriority;
    hide FromLastSource, HasAgent;
    ValueOfLast(rows, "consolidated_from_agents");
    if SourceAgents(rows) == [] {
      OtherKey(merged, metadata, "consolidated_from_agents", rows);
    }
    forall key | key !in {"derived_from", "agent_id", "consolidated_from_agents"}
      ensures FromLastSource(metadata, key, rows)
    {
      ValueOfLast(rows, key);
      OtherKey(merged, metadata, key, rows);
    }
  }

  /** The row a consolidation inserts is the summary of its sources' rows. */
  lemma SummaryIsOfSources(w: World, k: nat, t: Table, merge: Merge)
    requires forall id :: id in merge.ids ==> id in t
    ensures SummaryOf(w, w.now(k), SummaryRow(w, k, t, merge), Rows(t, merge.ids), merge)
  {
    var rows := Rows(t, merge.ids);
    SummaryProvenance(w, k, t, merge);
    TopOfSources(rows);
    UnionOfTags(rows);
    TotalOfAccess(rows);
    ClockOfLast(rows);
    hide WellFormed, SourceAgents, MergedMetadata, MergedTags, MergedClock, TotalAccess, MaxPriority;
    hide Provenance, TopPriority, TagUnion, AccessTotal, LastClock, Rows;
  }

  lemma {:induction false} RowsAre(t: Table, ids: seq<Id>)
    requires forall id :: id in ids ==> id in t
    ensures |Rows(t, ids)| == |ids| && forall i :: 0 <= i < |ids| ==> Rows(t, ids)[i] == t[ids[i]]
    decreases |ids|
  {
    if ids != [] {
      RowsAre(t, ids[1..]);
    }
  }

  // ----- The table around it ---------------------------------------------

  predicate AllColumnsBut(a: Memory, b: Memory) {
    && a.id == b.id && a.tier == b.tier && a.namespace == b.namespace && a.title == b.title
    && a.content == b.content && a.tags == b.tags && a.priority == b.priority && a.confidence == b.confidence
    && a.source == b.source && a.accessCount == b.accessCount && a.createdAt == b.createdAt
    && a.lastAccessedAt == b.lastAccessedAt && a.expiresAt == b.expiresAt && a.metadata == b.metadata
    && a.clock == b.clock && a.version == b.version
  }

  /**
   * The sources are gone with every edge of theirs, or are kept, hidden, with
   * all else as it was; the rest of the table gains the summary and nothing else.
   */
  ghost predicate SourcesRetired(before: Db, after: Db, ids: seq<Id>, summary: Id, tombstone: bool, at: string) {
    && summary !in before.memories && summary in after.memories
    && (forall id :: id in before.memories && id !in ids ==>
          id in after.memories && after.memories[id] == before.memories[id])
    && (forall id :: id in after.memories ==> id == summary || id in before.memories)
    && (if tombstone then
          && after.links == before.links
          && (forall id :: id in ids ==>
                && id in after.memories && id in before.memories
                && AllColumnsBut(after.memories[id], before.memories[id])
                && after.memories[id].lifecycle == Tombstoned && after.memories[id].updatedAt == at)
        else
          && (forall id :: id in ids ==> id !in after.memories)
          && (forall e :: e in after.links <==> e in before.links && e.0 !in ids && e.1 !in ids)
          && (forall e :: e in after.links ==> after.links[e] == before.links[e]))
  }

  /** A successful consolidation stores the summary under the id it returns and retires the sources. */
  lemma ConsolidationLeaves(w: World, k: nat, db: Db, merge: Merge, tombstone: bool)
    requires ConsolidateRows(w, k, db, merge, tombstone).value.Ok?
    ensures var s := ConsolidateRows(w, k, db, merge, tombstone);
      && (forall id :: id in merge.ids ==> id in db.memories)
      && SourcesRetired(db, s.db, merge.ids, s.value.value, tombstone, w.now(k))
      && s.value.value == w.uuid(k) && s.db.memories[s.value.value].id == w.uuid(k)
      && SummaryOf(w, w.now(k), s.db.memories[s.value.value], Rows(db.memories, merge.ids), merge)
  {
    ConsolidateSucceedsIff(w, k, db, merge, tombstone);
    SummaryIsOfSources(w, k, db.memories, merge);
    var summary := SummaryRow(w, k, db.memories, merge);
    assert summary.id == w.uuid(k);
    hide WellFormed, SummaryRow, SummaryOf, Rows, SourcesRetired, MergeRows, Owner;
    MergeLeaves(db, merge.ids, summary, tombstone, w.now(k));
  }

  lemma MergeLeaves(db: Db, ids: seq<Id>, summary: Memory, tombstone: bool, at: string)
    requires forall id :: id in ids ==> id in db.memories
    requires summary.id !in db.memories
    requires MergeRows(db, (set id | id in ids), summary, tombstone, at).value.Ok?
    ensures var s := MergeRows(db, (set id | id in ids), summary, tombstone, at);
      && s.value.value == summary.id
      && SourcesRetired(db, s.db, ids, summary.id, tombstone, at)
      && s.db.memories[summary.id] == summary
  {
    hide WellFormed, Owner;
  }
}
