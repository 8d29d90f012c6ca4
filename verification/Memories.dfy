/**
 * The memory table the curator works on: rows by id with a unique
 * (title, namespace), and the storage statements the autonomy passes issue.
 */
module Memories {
  import opened Common
  import opened JsonValues

  type Id = string

  datatype Tier = Short | Mid | Long

  datatype Lifecycle = Open | Active | Blocked | Done | Abandoned | Tombstoned | Quarantined

  datatype Memory = Memory(
    id: Id,
    tier: Tier,
    namespace: string,
    title: string,
    content: string,
    tags: seq<string>,
    priority: int,
    confidence: real,
    source: string,
    accessCount: int,
    createdAt: string,
    updatedAt: string,
    lastAccessedAt: Option<string>,
    expiresAt: Option<string>,
    metadata: map<string, Json>,
    clock: map<string, string>,        // metadata.version_vector
    version: int,
    lifecycle: Lifecycle)

  predicate SameKey(a: Memory, b: Memory) {
    a.title == b.title && a.namespace == b.namespace
  }

  predicate WellFormed(t: map<Id, Memory>) {
    && (forall id :: id in t ==> t[id].id == id)
    && (forall id, other :: id in t && other in t && SameKey(t[id], t[other]) ==> id == other)
  }

  type Table = t: map<Id, Memory> | WellFormed(t) witness map[]

  /** Links maps a `contradicts` edge to whether it is still valid. */
  datatype Db = Db(memories: Table, links: map<(Id, Id), bool>)

  datatype DbError =
    | Refused                          // I/O error, record stop, governance
    | IdTaken
    | KeyTaken
    | NotFound
    | Collision(owner: Id)

  /**
   * What the surroundings decide: local node, tier expiry, failures, fresh
   * ids, the clock, and whether the store's key lookup reports a failing
   * statement as "no owner", as the SQLite store's does and the Postgres
   * store's does not.
   */
  datatype World = World(
    lookupHidesErrors: bool,
    node: string,
    ttl: (Tier, string) -> string,
    fails: nat -> bool,
    uuid: nat -> Id,
    now: nat -> string)

  datatype Step<+T> = Step(db: Db, value: Result<T, DbError>)

  // ----- Rows ------------------------------------------------------------

  function Stamp(w: World, clock: map<string, string>, at: string): map<string, string> {
    if w.node == "" then clock
    else clock[w.node := if w.node in clock then Later(clock[w.node], at) else at]
  }

  function EffectiveExpiry(w: World, m: Memory): Option<string> {
    if m.expiresAt.Some? then m.expiresAt
    else if m.tier.Long? then None
    else Some(w.ttl(m.tier, m.createdAt))
  }

  const PROVENANCE_KEYS: set<string> := {"agent_id", "derived_from", "consolidated_from_agents"}

  /** The row a plain INSERT of `m` leaves: version 1, clock stamped, expiry filled in. */
  function Fresh(w: World, m: Memory): Memory {
    m.(version := 1, clock := Stamp(w, m.clock, m.updatedAt), expiresAt := EffectiveExpiry(w, m))
  }

  /** The row `ON CONFLICT(title, namespace) DO UPDATE` leaves of `prior` when `m` is stored. */
  function Upserted(w: World, prior: Memory, m: Memory): Memory {
    var incoming := EffectiveExpiry(w, m);
    prior.(
      content := m.content,
      tags := m.tags,
      priority := if prior.priority < m.priority then m.priority else prior.priority,
      confidence := if prior.confidence < m.confidence then m.confidence else prior.confidence,
      source := m.source,
      tier := if m.tier.Long? then Long else if prior.tier.Long? then Long else if m.tier.Mid? then Mid else prior.tier,
      updatedAt := m.updatedAt,
      expiresAt :=
        if m.tier.Long? || prior.tier.Long? then None
        else if incoming.Some? then incoming else prior.expiresAt,
      metadata := m.metadata + (map k | k in PROVENANCE_KEYS && k in prior.metadata :: prior.metadata[k]),
      clock := Stamp(w, m.clock, m.updatedAt),
      version := prior.version + 1)
  }

  // What the two say column by column.

  /** The clock of `from` with this node's entry brought up to `at`, unless it is ahead of it. */
  predicate ClockAdvanced(w: World, clock: map<string, string>, from: map<string, string>, at: string) {
    && (w.node == "" ==> clock == from)
    && (w.node != "" ==>
          && clock.Keys == from.Keys + {w.node}
          && (forall node :: node in from && node != w.node ==> clock[node] == from[node])
          && (w.node !in from || Below(from[w.node], at) ==> clock[w.node] == at)
          && (w.node in from && !Below(from[w.node], at) ==> clock[w.node] == from[w.node]))
  }

  /** `row` is `m` as a new row: all columns but version, clock and expiry are the given ones. */
  predicate InsertedFrom(w: World, row: Memory, m: Memory) {
    && row.id == m.id && row.tier == m.tier && row.namespace == m.namespace && row.title == m.title
    && row.content == m.content && row.tags == m.tags && row.priority == m.priority
    && row.confidence == m.confidence && row.source == m.source && row.accessCount == m.accessCount
    && row.createdAt == m.createdAt && row.updatedAt == m.updatedAt && row.lastAccessedAt == m.lastAccessedAt
    && row.metadata == m.metadata && row.lifecycle == m.lifecycle
    && row.version == 1
    && ClockAdvanced(w, row.clock, m.clock, m.updatedAt)
    && (m.expiresAt.Some? ==> row.expiresAt == m.expiresAt)
    && (m.expiresAt.None? && m.tier == Long ==> row.expiresAt == None)
    && (m.expiresAt.None? && m.tier != Long ==> row.expiresAt == Some(w.ttl(m.tier, m.createdAt)))
  }

  /**
   * `row` is what storing `m` over `prior` leaves. Identity, key, access
   * history and lifecycle stay the row's; text, tags, source and times follow
   * the stored memory; priority, confidence and tier take the higher; of the
   * metadata the provenance keys stay the row's where it has them.
   */
  ghost predicate MergedFrom(w: World, row: Memory, prior: Memory, m: Memory) {
    && row.id == prior.id && row.namespace == prior.namespace && row.title == prior.title
    && row.accessCount == prior.accessCount && row.createdAt == prior.createdAt
    && row.lastAccessedAt == prior.lastAccessedAt && row.lifecycle == prior.lifecycle
    && row.version == prior.version + 1
    && row.content == m.content && row.tags == m.tags && row.source == m.source && row.updatedAt == m.updatedAt
    && row.priority in {prior.priority, m.priority} && row.priority >= prior.priority && row.priority >= m.priority
    && row.confidence in {prior.confidence, m.confidence}
    && row.confidence >= prior.confidence && row.confidence >= m.confidence
    && (row.tier == Long <==> m.tier == Long || prior.tier == Long)
    && (row.tier == Short <==> m.tier == Short && prior.tier == Short)
    && ClockAdvanced(w, row.clock, m.clock, m.updatedAt)
    && (row.tier == Long ==> row.expiresAt == None)
    && (row.tier != Long && m.expiresAt.Some? ==> row.expiresAt == m.expiresAt)
    && (row.tier != Long && m.expiresAt.None? ==> row.expiresAt == Some(w.ttl(m.tier, m.createdAt)))
    && (forall key :: key in {"agent_id", "derived_from", "consolidated_from_agents"} && key in prior.metadata ==>
          key in row.metadata && row.metadata[key] == prior.metadata[key])
    && (forall key :: key in row.metadata ==> key in m.metadata || key in prior.metadata)
    && (forall key :: key !in {"agent_id", "derived_from", "consolidated_from_agents"} || key !in prior.metadata ==>
          (key in row.metadata <==> key in m.metadata)
          && (key in m.metadata ==> row.metadata[key] == m.metadata[key]))
  }

  lemma FreshColumns(w: World, m: Memory)
    ensures InsertedFrom(w, Fresh(w, m), m)
  {
    StampAdvances(w, m.clock, m.updatedAt);
    hide Stamp, ClockAdvanced;
  }

  lemma UpsertedColumns(w: World, prior: Memory, m: Memory)
    ensures MergedFrom(w, Upserted(w, prior, m), prior, m)
  {
    StampAdvances(w, m.clock, m.updatedAt);
    hide Stamp, ClockAdvanced;
  }

  lemma StampAdvances(w: World, clock: map<string, string>, at: string)
    ensures ClockAdvanced(w, Stamp(w, clock, at), clock, at)
  {}

  function Owner(t: Table, title: string, namespace: string): (o: Option<Id>)
    ensures o.Some? ==> o.value in t && t[o.value].title == title && t[o.value].namespace == namespace
    ensures o.None? ==> forall id :: id in t ==> t[id].title != title || t[id].namespace != namespace
  {
    if id :| id in t && t[id].title == title && t[id].namespace == namespace then Some(id) else None
  }

  lemma OwnerIs(t: Table, id: Id)
    requires id in t
    ensures Owner(t, t[id].title, t[id].namespace) == Some(id)
  {
    var o := Owner(t, t[id].title, t[id].namespace);
    assert SameKey(t[id], t[o.value]);
  }

  // ----- Statements ------------------------------------------------------

  /** `db::insert` without failures: an upsert on (title, namespace). */
  function Upsert(w: World, t: Table, m: Memory): Result<Table, DbError> {
    match Owner(t, m.title, m.namespace)
    case Some(o) => Ok(t[o := Upserted(w, t[o], m)])
    case None => if m.id in t then Err(IdTaken) else Ok(t[m.id := Fresh(w, m)])
  }

  /** Where storing `m` puts it, and the row it leaves there; no other row changes. */
  ghost predicate StoredAs(w: World, before: Table, after: Table, m: Memory) {
    var o := Owner(before, m.title, m.namespace);
    && (o.None? ==>
          m.id !in before && after.Keys == before.Keys + {m.id} && InsertedFrom(w, after[m.id], m))
    && (o.Some? ==> after.Keys == before.Keys && MergedFrom(w, after[o.value], before[o.value], m))
    && (forall id :: id in before && o != Some(id) ==> id in after && after[id] == before[id])
  }

  lemma StoredRow(w: World, t: Table, m: Memory)
    ensures Upsert(w, t, m).Ok? ==> StoredAs(w, t, Upsert(w, t, m).value, m)
    ensures Upsert(w, t, m).Ok? <==> Owner(t, m.title, m.namespace).Some? || m.id !in t
  {
    FreshColumns(w, m);
    var o := Owner(t, m.title, m.namespace);
    if o.Some? {
      UpsertedColumns(w, t[o.value], m);
    }
    hide WellFormed, Fresh, Upserted, InsertedFrom, MergedFrom, Owner;
  }

  function InsertRow(w: World, k: nat, db: Db, m: Memory): Step<()> {
    if w.fails(k) then Step(db, Err(Refused))
    else match Upsert(w, db.memories, m)
      case Ok(t) => Step(db.(memories := t), Ok(()))
      case Err(e) => Step(db, Err(e))
  }

  /** Deleting rows takes their edges with them. */
  function Without(db: Db, ids: set<Id>): Db {
    Db(db.memories - ids, map e | e in db.links && e.0 !in ids && e.1 !in ids :: db.links[e])
  }

  /** `db::delete`: whether a row was there. */
  function DeleteRow(w: World, k: nat, db: Db, id: Id): Step<bool> {
    if w.fails(k) then Step(db, Err(Refused)) else Step(Without(db, {id}), Ok(id in db.memories))
  }

  /** `db::update` with only a priority. */
  function SetPriority(w: World, k: nat, db: Db, id: Id, priority: int): Step<bool> {
    if w.fails(k) then Step(db, Err(Refused))
    else if id !in db.memories then Step(db, Ok(false))
    else
      var row := db.memories[id].(
        priority := priority, updatedAt := w.now(k), version := db.memories[id].version + 1);
      Step(db.(memories := db.memories[id := row]), Ok(true))
  }

  // ----- Contradictions --------------------------------------------------

  const CONSERVED := "contradiction_conserved"
  const SOFT_LOSER := "contradiction_soft_loser"
  const WINNER_ID := "contradiction_winner_id"
  const MARKERS: set<string> := {CONSERVED, SOFT_LOSER, WINNER_ID}

  function CanonicalPair(a: Id, b: Id): (Id, Id) {
    if Below(b, a) then (b, a) else (a, b)
  }

  /** `db::conserve_contradiction`, one transaction. A vanished loser is a no-op. */
  function Conserve(w: World, k: nat, db: Db, loser: Id, winner: Id): Step<()> {
    if w.fails(k) then Step(db, Err(Refused))
    else if loser !in db.memories then Step(db, Ok(()))
    else
      var edge := CanonicalPair(loser, winner);
      if edge !in db.links && winner !in db.memories then Step(db, Err(NotFound))
      else
        var row := db.memories[loser];
        var marked := row.(metadata :=
          row.metadata[CONSERVED := JBool(true)][SOFT_LOSER := JBool(true)][WINNER_ID := JString(winner)]);
        Step(
          Db(db.memories[loser := marked], if edge in db.links then db.links else db.links[edge := true]),
          Ok(()))
  }

  /** `db::reverse_conserve_contradiction`, one transaction. */
  function ReverseConserve(w: World, k: nat, db: Db, loser: Id, edge: (Id, Id)): Step<()> {
    if w.fails(k) then Step(db, Err(Refused))
    else
      var links := db.links - {edge};
      if loser !in db.memories then Step(db.(links := links), Ok(()))
      else
        var row := db.memories[loser];
        Step(Db(db.memories[loser := row.(metadata := row.metadata - MARKERS)], links), Ok(()))
  }

  // What these statements leave of the row they name, column by column.

  /** All columns but priority, update time, version and metadata are as they were. */
  predicate SameOtherwise(a: Memory, b: Memory) {
    && a.id == b.id && a.tier == b.tier && a.namespace == b.namespace && a.title == b.title
    && a.content == b.content && a.tags == b.tags && a.confidence == b.confidence && a.source == b.source
    && a.accessCount == b.accessCount && a.createdAt == b.createdAt && a.lastAccessedAt == b.lastAccessedAt
    && a.expiresAt == b.expiresAt && a.clock == b.clock && a.lifecycle == b.lifecycle
  }

  /** Only the row `id` of the table may differ. */
  predicate OnlyRow(before: Table, after: Table, id: Id) {
    after.Keys == before.Keys && forall other :: other in before && other != id ==> after[other] == before[other]
  }

  predicate Reprioritized(before: Memory, after: Memory, priority: int, at: string) {
    && SameOtherwise(before, after) && after.metadata == before.metadata
    && after.priority == priority && after.updatedAt == at && after.version == before.version + 1
  }

  ghost predicate MarkedLoser(before: Memory, after: Memory, winner: Id) {
    && SameOtherwise(before, after) && after.priority == before.priority
    && after.updatedAt == before.updatedAt && after.version == before.version
    && after.metadata.Keys ==
       before.metadata.Keys
       + {"contradiction_conserved", "contradiction_soft_loser", "contradiction_winner_id"}
    && after.metadata["contradiction_conserved"] == JBool(true)
    && after.metadata["contradiction_soft_loser"] == JBool(true)
    && after.metadata["contradiction_winner_id"] == JString(winner)
    && (forall key ::
          key in before.metadata
          && key !in {"contradiction_conserved", "contradiction_soft_loser", "contradiction_winner_id"} ==>
            after.metadata[key] == before.metadata[key])
  }

  ghost predicate UnmarkedLoser(before: Memory, after: Memory) {
    && SameOtherwise(before, after) && after.priority == before.priority
    && after.updatedAt == before.updatedAt && after.version == before.version
    && after.metadata.Keys ==
       before.metadata.Keys
       - {"contradiction_conserved", "contradiction_soft_loser", "contradiction_winner_id"}
    && forall key :: key in after.metadata ==> after.metadata[key] == before.metadata[key]
  }

  lemma PrioritySet(w: World, k: nat, db: Db, id: Id, priority: int)
    ensures var s := SetPriority(w, k, db, id, priority);
      && (s.value == Ok(true) <==> !w.fails(k) && id in db.memories)
      && (s.value != Ok(true) ==> s.db == db)
      && (s.value == Ok(false) <==> !w.fails(k) && id !in db.memories)
      && (s.value == Ok(true) ==>
            && s.db.links == db.links && OnlyRow(db.memories, s.db.memories, id)
            && Reprioritized(db.memories[id], s.db.memories[id], priority, w.now(k)))
  {
    hide WellFormed;
  }

  /**
   * The loser is marked and nothing else of it changes; the edge between the
   * two, smaller id first, is there and no edge that was there is touched.
   */
  ghost predicate Conservation(before: Db, after: Db, loser: Id, winner: Id) {
    && loser in before.memories && OnlyRow(before.memories, after.memories, loser)
    && MarkedLoser(before.memories[loser], after.memories[loser], winner)
    && (exists e ::
          && (e == (loser, winner) || e == (winner, loser)) && !Below(e.1, e.0)
          && after.links.Keys == before.links.Keys + {e}
          && (e !in before.links ==> after.links[e]))
    && (forall e :: e in before.links ==> e in after.links && after.links[e] == before.links[e])
  }

  lemma LoserConserved(w: World, k: nat, db: Db, loser: Id, winner: Id)
    ensures var s := Conserve(w, k, db, loser, winner);
      && (s.value.Err? ==> s.db == db)
      && (s.value.Ok? && loser !in db.memories ==> s.db == db)
      && (s.value.Ok? && loser in db.memories ==>
            loser in s.db.memories && Conservation(db, s.db, loser, winner))
  {
    var edge := SortedPair(loser, winner);
    hide WellFormed, CanonicalPair;
    var s := Conserve(w, k, db, loser, winner);
    if s.value.Ok? && loser in db.memories {
      assert s.db.links.Keys == db.links.Keys + {edge};
    }
  }

  lemma SortedPair(a: Id, b: Id) returns (edge: (Id, Id))
    ensures edge == CanonicalPair(a, b)
    ensures (edge == (a, b) || edge == (b, a)) && !Below(edge.1, edge.0)
  {
    edge := CanonicalPair(a, b);
    BelowTotal(a, b);
    BelowIrreflexive(a);
    if Below(b, a) && Below(a, b) {
      BelowTransitive(a, b, a);
    }
  }

  lemma LoserReleased(w: World, k: nat, db: Db, loser: Id, edge: (Id, Id))
    ensures var s := ReverseConserve(w, k, db, loser, edge);
      && (s.value.Ok? <==> !w.fails(k))
      && (s.value.Err? ==> s.db == db)
      && (s.value.Ok? ==>
            && s.db.links.Keys == db.links.Keys - {edge}
            && (forall e :: e in s.db.links ==> s.db.links[e] == db.links[e])
            && OnlyRow(db.memories, s.db.memories, loser)
            && (loser in db.memories ==> UnmarkedLoser(db.memories[loser], s.db.memories[loser])))
  {
    hide WellFormed;
  }

  // ----- Consolidation ---------------------------------------------------

  const I64_MAX: int := 0x7fff_ffff_ffff_ffff

  function Rows(t: Table, ids: seq<Id>): seq<Memory>
    requires forall id :: id in ids ==> id in t
  {
    if ids == [] then [] else [t[ids[0]]] + Rows(t, ids[1..])
  }

  function MaxPriority(rows: seq<Memory>): int {
    if rows == [] then 5
    else
      var rest := MaxPriority(rows[1..]);
      if rest < rows[0].priority then rows[0].priority else rest
  }

  /** A saturating 64-bit sum. */
  function TotalAccess(rows: seq<Memory>): int {
    if rows == [] then 0
    else
      var n := |rows| - 1;
      var sum := TotalAccess(rows[..n]) + rows[n].accessCount;
      if sum > I64_MAX then I64_MAX else if sum < -I64_MAX - 1 then -I64_MAX - 1 else sum
  }

  function AddTag(tags: seq<string>, tag: string): seq<string> {
    if tags == [] then [tag]
    else if tags[0] == tag then tags
    else if Below(tag, tags[0]) then [tag] + tags
    else [tags[0]] + AddTag(tags[1..], tag)
  }

  function AddTags(tags: seq<string>, more: seq<string>): seq<string>
    decreases |more|
  {
    if more == [] then tags else AddTags(AddTag(tags, more[0]), more[1..])
  }

  function MergedTags(rows: seq<Memory>): seq<string> {
    if rows == [] then [] else AddTags(MergedTags(rows[1..]), rows[0].tags)
  }

  // What the merged columns are, whatever order the sources come in.

  lemma {:induction false} MaxPriorityIsMax(rows: seq<Memory>)
    ensures MaxPriority(rows) == 5 || exists m :: m in rows && m.priority == MaxPriority(rows)
    ensures 5 <= MaxPriority(rows) && forall m :: m in rows ==> m.priority <= MaxPriority(rows)
    decreases |rows|
  {
    if rows != [] {
      MaxPriorityIsMax(rows[1..]);
      assert rows == [rows[0]] + rows[1..];
    }
  }

  /** Strictly ascending, so sorted and without repeats. */
  predicate Ascending(tags: seq<string>) {
    forall i :: 1 <= i < |tags| ==> Below(tags[i - 1], tags[i])
  }

  lemma {:induction false} AddTagKeepsOrder(tags: seq<string>, tag: string)
    requires Ascending(tags)
    ensures Ascending(AddTag(tags, tag))
    ensures forall t :: t in AddTag(tags, tag) <==> t in tags || t == tag
    ensures AddTag(tags, tag)[0] == if tags != [] && !Below(tag, tags[0]) then tags[0] else tag
    decreases |tags|
  {
    if tags != [] && tags[0] != tag && !Below(tag, tags[0]) {
      BelowTotal(tag, tags[0]);
      var rest := tags[1..];
      assert tags == [tags[0]] + rest;
      assert forall i :: 1 <= i < |rest| ==> Below(tags[i], tags[i + 1]);
      AddTagKeepsOrder(rest, tag);
      assert rest != [] ==> Below(tags[0], rest[0]);
    } else if tags != [] {
      BelowIrreflexive(tag);
    }
  }

  lemma {:induction false} AddTagsKeepsOrder(tags: seq<string>, more: seq<string>)
    requires Ascending(tags)
    ensures Ascending(AddTags(tags, more))
    ensures forall t :: t in AddTags(tags, more) <==> t in tags || t in more
    decreases |more|
  {
    if more != [] {
      AddTagKeepsOrder(tags, more[0]);
      AddTagsKeepsOrder(AddTag(tags, more[0]), more[1..]);
      assert more == [more[0]] + more[1..];
    }
  }

  /** The summary carries every source tag exactly once, in order. */
  lemma {:induction false} MergedTagsAreUnion(rows: seq<Memory>)
    ensures Ascending(MergedTags(rows))
    ensures forall t :: t in MergedTags(rows) <==> exists m :: m in rows && t in m.tags
    decreases |rows|
  {
    if rows != [] {
      MergedTagsAreUnion(rows[1..]);
      AddTagsKeepsOrder(MergedTags(rows[1..]), rows[0].tags);
      forall t ensures t in MergedTags(rows) <==> exists m :: m in rows && t in m.tags {
        if t in rows[0].tags {
          assert rows[0] in rows;
        } else if m :| m in rows && t in m.tags {
          assert m in rows[1..];
        } else {
          assert forall m :: m in rows[1..] ==> m in rows;
        }
      }
    }
  }

  /** Later sources overwrite earlier ones; `agent_id` is never copied. */
  function MergedMetadata(rows: seq<Memory>): map<string, Json> {
    if rows == [] then map[]
    else
      var n := |rows| - 1;
      MergedMetadata(rows[..n]) + (rows[n].metadata - {"agent_id"})
  }

  function MergedClock(rows: seq<Memory>): map<string, string> {
    if rows == [] then map[]
    else
      var n := |rows| - 1;
      if rows[n].clock == map[] then MergedClock(rows[..n]) else rows[n].clock
  }

  function SourceAgents(rows: seq<Memory>): seq<Json> {
    if rows == [] then []
    else
      var n := |rows| - 1;
      var before := SourceAgents(rows[..n]);
      if "agent_id" in rows[n].metadata && rows[n].metadata["agent_id"].JString?
         && rows[n].metadata["agent_id"] !in before
      then before + [rows[n].metadata["agent_id"]] else before
  }

  const CURATOR_SOURCE_LABEL := "ai-memory curator (autonomy)"
  const AI_CURATOR := "ai:curator"

  /** The text asked for: title, summary, namespace and tier of a consolidation. */
  datatype Merge = Merge(ids: seq<Id>, title: string, summary: string, namespace: string, tier: Tier)

  function SummaryRow(w: World, k: nat, t: Table, merge: Merge): Memory
    requires forall id :: id in merge.ids ==> id in t
  {
    var rows := Rows(t, merge.ids);
    var agents := SourceAgents(rows);
    var ids := seq(|merge.ids|, i requires 0 <= i < |merge.ids| => JString(merge.ids[i]));
    var base := MergedMetadata(rows)["derived_from" := JArray(ids)]["agent_id" := JString(AI_CURATOR)];
    Memory(
      w.uuid(k), merge.tier, merge.namespace, merge.title, merge.summary, MergedTags(rows),
      MaxPriority(rows), 1.0, CURATOR_SOURCE_LABEL, TotalAccess(rows), w.now(k), w.now(k), None,
      if merge.tier.Long? then None else Some(w.ttl(merge.tier, w.now(k))),
      if agents == [] then base else base["consolidated_from_agents" := JArray(agents)],
      MergedClock(rows), 1, Open)
  }

  /** The retained sources of a tombstoning consolidation. */
  function Tombstone(t: Table, ids: set<Id>, now: string): (t': Table)
    ensures t'.Keys == t.Keys
    ensures forall id :: id in t && id !in ids ==> t'[id] == t[id]
    ensures forall id :: id in t && id in ids ==> t'[id] == t[id].(lifecycle := Tombstoned, updatedAt := now)
  {
    map id | id in t :: if id in ids then t[id].(lifecycle := Tombstoned, updatedAt := now) else t[id]
  }

  /** A plain INSERT: both the id and the key must be free. */
  function AddRow(t: Table, row: Memory): Result<Table, DbError> {
    if Owner(t, row.title, row.namespace).Some? then Err(KeyTaken)
    else if row.id in t then Err(IdTaken)
    else Ok(t[row.id := row])
  }

  /**
   * `db::consolidate`, one transaction: every source must exist, the summary
   * is inserted (not upserted), then the sources are deleted, or with
   * `tombstone` retained and hidden.
   */
  function ConsolidateRows(w: World, k: nat, db: Db, merge: Merge, tombstone: bool): Step<Id> {
    if w.fails(k) then Step(db, Err(Refused))
    else if exists id :: id in merge.ids && id !in db.memories then Step(db, Err(NotFound))
    else MergeRows(db, (set id | id in merge.ids), SummaryRow(w, k, db.memories, merge), tombstone, w.now(k))
  }

  function MergeRows(db: Db, ids: set<Id>, summary: Memory, tombstone: bool, now: string): Step<Id> {
    match AddRow(db.memories, summary)
    case Err(e) => Step(db, Err(e))
    case Ok(t) =>
      if tombstone then Step(db.(memories := Tombstone(t, ids, now)), Ok(summary.id))
      else Step(Without(db.(memories := t), ids), Ok(summary.id))
  }

  /**
   * A consolidation succeeds iff its statement does not fail, every source is
   * there, nobody owns the summary's key, sources included, and its id is new.
   */
  lemma ConsolidateSucceedsIff(w: World, k: nat, db: Db, merge: Merge, tombstone: bool)
    ensures ConsolidateRows(w, k, db, merge, tombstone).value.Ok? <==>
              && !w.fails(k)
              && (forall id :: id in merge.ids ==> id in db.memories)
              && Owner(db.memories, merge.title, merge.namespace).None?
              && w.uuid(k) !in db.memories
    ensures ConsolidateRows(w, k, db, merge, tombstone).value.Err? ==>
              ConsolidateRows(w, k, db, merge, tombstone).db == db
    ensures !w.fails(k) && (forall id :: id in merge.ids ==> id in db.memories)
            && Owner(db.memories, merge.title, merge.namespace).Some? ==>
              ConsolidateRows(w, k, db, merge, tombstone).value == Err(KeyTaken)
  {
    hide WellFormed;
  }
}
