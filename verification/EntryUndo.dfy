/** When reversing one entry of the rollback log restores what its step changed. */
module EntryUndo {
  import opened Common
  import opened JsonValues
  import opened Memories
  import opened Rollback
  import opened Undo
  import opened Clusters
  import opened Autonomy
  import opened AutonomyRuns
  import opened CuratorLog

  // ----- What is compared ------------------------------------------------

  /** Every column but the update time, version, clock and expiry. */
  predicate SameRow(a: Memory, b: Memory) {
    SameUnmarked(a, b) && a.metadata == b.metadata
  }

  /** Alike in all that is compared but the metadata. */
  predicate SameUnmarked(a: Memory, b: Memory) {
    && SameKey(a, b) && a.id == b.id && a.content == b.content && a.priority == b.priority
    && a.tier == b.tier && a.tags == b.tags && a.confidence == b.confidence && a.source == b.source
    && a.accessCount == b.accessCount && a.createdAt == b.createdAt
    && a.lastAccessedAt == b.lastAccessedAt && a.lifecycle == b.lifecycle
  }

  /** A row that is not one of the rollback log. */
  predicate Ordinary(t: Table, id: Id) {
    id in t && t[id].namespace != ROLLBACK_NAMESPACE
  }

  /** The log aside, the tables hold the same rows. */
  ghost predicate SameOrdinary(a: Table, b: Table) {
    forall id ::
      (Ordinary(a, id) <==> Ordinary(b, id)) && (Ordinary(b, id) ==> SameRow(a[id], b[id]))
  }

  lemma SameOrdinaryTwice(a: Table, b: Table, c: Table)
    requires SameOrdinary(a, b) && SameOrdinary(b, c)
    ensures SameOrdinary(a, c)
  {
    hide WellFormed, Ordinary;
  }

  lemma LoggingIsNoChange(w: World, k: nat, db: Db, row: Memory)
    requires row.namespace == ROLLBACK_NAMESPACE
    ensures SameOrdinary(InsertRow(w, k, db, row).db.memories, db.memories)
  {
    hide WellFormed;
  }

  // ----- One entry -------------------------------------------------------

  /** At most the row `id` differs, and not in its key. */
  predicate ChangedAt(a: Table, b: Table, id: Id) {
    && a.Keys == b.Keys
    && (forall i :: i in b && i != id ==> a[i] == b[i])
    && (id in b ==> SameKey(a[id], b[id]))
  }

  /** Change one row forth in `t` and back in `r`: what was is back iff that row is. */
  lemma OneRowUndoneIff(d: Table, t: Table, x: Table, r: Table, id: Id)
    requires ChangedAt(t, d, id) && ChangedAt(r, x, id) && SameOrdinary(x, t)
    requires OffLog({id}, d) && OffLog({id}, x)
    ensures id in x <==> id in d
    ensures SameOrdinary(r, d) <==> (id in d ==> SameRow(r[id], d[id]))
  {
    hide WellFormed, SameRow;
    assert Ordinary(x, id) <==> Ordinary(t, id);
    assert Ordinary(r, id) <==> Ordinary(d, id);
    if id in d ==> SameRow(r[id], d[id]) {
      forall i
        ensures (Ordinary(r, i) <==> Ordinary(d, i)) && (Ordinary(d, i) ==> SameRow(r[i], d[i]))
      {
        assert Ordinary(x, i) <==> Ordinary(t, i);
      }
    }
  }

  /**
   * A priority change is undone iff the priority recorded was that of the
   * row, which a stale candidate's need not be.
   */
  lemma AdjustUndoneIff(
    w0: World, k0: nat, d: Db, id: Id, before: int, after: int, w: World, k: nat, x: Db, ids: set<Id>)
    requires NoFailures(w) && !w0.fails(k0) && id in ids && OffLog(ids, d.memories) && OffLog(ids, x.memories)
    requires SameOrdinary(x.memories, SetPriority(w0, k0, d, id, after).db.memories)
    ensures var r := ReverseSqlite(w, k, x, PriorityAdjust(id, before, after));
      && r.value.Ok? && OffLog(ids, r.db.memories)
      && (SameOrdinary(r.db.memories, d.memories) <==> (id in d.memories ==> d.memories[id].priority == before))
  {
    hide WellFormed, SetPriority, ReverseSqlite, SameOrdinary, OffLog, ChangedAt;
    AdjustEntryReversed(w, k, x, id, before, after);
    var r, t := SetPriority(w, k, x, id, before).db.memories, SetPriority(w0, k0, d, id, after).db.memories;
    AdjustChanges(w0, k0, d, id, after);
    AdjustChanges(w, k, x, id, before);
    OffLogStays(ids, r, x.memories, id);
    OffLogAt(ids, d.memories, id);
    OffLogAt(ids, x.memories, id);
    OneRowUndoneIff(d.memories, t, x.memories, r, id);
    RowOf(x.memories, t, id);
  }

  lemma AdjustEntryReversed(w: World, k: nat, x: Db, id: Id, before: int, after: int)
    requires NoFailures(w)
    ensures !w.fails(k)
    ensures ReverseSqlite(w, k, x, PriorityAdjust(id, before, after))
         == Step(SetPriority(w, k, x, id, before).db, Ok(true))
  {
    hide WellFormed;
  }

  lemma AdjustChanges(w: World, k: nat, db: Db, id: Id, priority: int)
    requires !w.fails(k)
    ensures var t := SetPriority(w, k, db, id, priority).db.memories;
      && ChangedAt(t, db.memories, id)
      && (id in db.memories ==> id in t && SameRow(t[id], db.memories[id].(priority := priority)))
  {
    hide WellFormed;
  }

  lemma OffLogStays(ids: set<Id>, t: Table, d: Table, id: Id)
    requires OffLog(ids, d) && ChangedAt(t, d, id)
    ensures OffLog(ids, t)
  {
    hide WellFormed;
  }

  lemma OffLogAt(ids: set<Id>, t: Table, id: Id)
    requires OffLog(ids, t) && id in ids
    ensures OffLog({id}, t)
  {
    hide WellFormed;
  }

  lemma RowOf(x: Table, t: Table, id: Id)
    requires SameOrdinary(x, t) && OffLog({id}, x)
    ensures id in x ==> id in t && SameRow(x[id], t[id])
  {
    hide WellFormed, SameRow;
    assert Ordinary(x, id) <==> Ordinary(t, id);
  }

  /** A conserved contradiction is undone iff the loser carried no marker before. */
  lemma ConserveUndoneIff(
    w0: World, k0: nat, d: Db, loser: Id, winner: Id, w: World, k: nat, x: Db, ids: set<Id>)
    requires NoFailures(w) && loser in ids && OffLog(ids, d.memories) && OffLog(ids, x.memories)
    requires Conserve(w0, k0, d, loser, winner).value.Ok?
    requires SameOrdinary(x.memories, Conserve(w0, k0, d, loser, winner).db.memories)
    ensures var r := ReverseSqlite(w, k, x, ConserveContradiction(loser, winner, CanonicalPair(loser, winner)));
      && r.value.Ok? && OffLog(ids, r.db.memories)
      && (SameOrdinary(r.db.memories, d.memories) <==>
            (loser in d.memories ==> MARKERS !! d.memories[loser].metadata.Keys))
  {
    hide WellFormed, Conserve, ReverseSqlite, ReverseConserve, SameOrdinary, OffLog, ChangedAt, CanonicalPair;
    var edge := CanonicalPair(loser, winner);
    ConserveEntryReversed(w, k, x, loser, winner, edge);
    var r, t := ReverseConserve(w, k, x, loser, edge).db.memories, Conserve(w0, k0, d, loser, winner).db.memories;
    ConserveChanges(w0, k0, d, loser, winner);
    ClearingChanges(w, k, x, loser, edge);
    OffLogStays(ids, r, x.memories, loser);
    OffLogAt(ids, d.memories, loser);
    OffLogAt(ids, x.memories, loser);
    OneRowUndoneIff(d.memories, t, x.memories, r, loser);
    RowOf(x.memories, t, loser);
    if loser in d.memories {
      MarksCleared(d.memories[loser].metadata, t[loser].metadata);
      MarksDecide(d.memories[loser], t[loser], x.memories[loser], r[loser]);
    }
  }

  /** Conserved and then cleared, the row is back iff its metadata is. */
  lemma MarksDecide(d: Memory, t: Memory, x: Memory, r: Memory)
    requires SameUnmarked(t, d) && SameRow(x, t) && SameUnmarked(r, x)
    requires r.metadata == x.metadata - MARKERS
    ensures SameRow(r, d) <==> t.metadata - MARKERS == d.metadata
  {}

  lemma ConserveEntryReversed(w: World, k: nat, x: Db, loser: Id, winner: Id, edge: (Id, Id))
    requires NoFailures(w)
    ensures !w.fails(k)
    ensures ReverseSqlite(w, k, x, ConserveContradiction(loser, winner, edge))
         == Step(ReverseConserve(w, k, x, loser, edge).db, Ok(true))
  {
    hide WellFormed;
  }

  lemma ConserveChanges(w: World, k: nat, db: Db, loser: Id, winner: Id)
    requires Conserve(w, k, db, loser, winner).value.Ok?
    ensures var t := Conserve(w, k, db, loser, winner).db.memories;
      && ChangedAt(t, db.memories, loser)
      && (loser in db.memories ==>
            && loser in t && SameUnmarked(t[loser], db.memories[loser])
            && MarkedFrom(db.memories[loser].metadata, t[loser].metadata))
  {
    LoserConserved(w, k, db, loser, winner);
    hide WellFormed, CanonicalPair, Conserve, SameOtherwise;
    if loser in db.memories {
      SameIsUnmarked(db.memories[loser], Conserve(w, k, db, loser, winner).db.memories[loser]);
    }
  }

  lemma SameIsUnmarked(a: Memory, b: Memory)
    requires SameOtherwise(a, b) && a.priority == b.priority
    ensures SameUnmarked(b, a) && SameKey(b, a)
  {}

  /** The markers added, the rest as it was. */
  ghost predicate MarkedFrom(was: map<string, Json>, now: map<string, Json>) {
    && now.Keys == was.Keys + MARKERS
    && forall key :: key in was && key !in MARKERS ==> now[key] == was[key]
  }

  lemma ClearingChanges(w: World, k: nat, db: Db, loser: Id, edge: (Id, Id))
    requires !w.fails(k)
    ensures var t := ReverseConserve(w, k, db, loser, edge).db.memories;
      && ChangedAt(t, db.memories, loser)
      && (loser in db.memories ==>
            && loser in t && SameUnmarked(t[loser], db.memories[loser])
            && t[loser].metadata == db.memories[loser].metadata - MARKERS)
  {
    hide WellFormed;
  }

  lemma MarksCleared(was: map<string, Json>, marked: map<string, Json>)
    requires MarkedFrom(was, marked)
    ensures marked - MARKERS == was <==> MARKERS !! was.Keys
  {
    assert forall key :: key in marked - MARKERS <==> key in was && key !in MARKERS;
    if MARKERS !! was.Keys {
      assert marked - MARKERS == was;
    }
  }

  // ----- A merge ---------------------------------------------------------

  /** The table a hard-deleting merge leaves. */
  predicate MergedInto(d: Table, ids: set<Id>, summary: Memory, t: Table) {
    && summary.id !in d && summary.namespace != ROLLBACK_NAMESPACE
    && Owner(d, summary.title, summary.namespace).None?
    && t == d[summary.id := summary] - ids
  }

  lemma MergeShape(w: World, k: nat, d: Db, merge: Merge, ids: set<Id>)
    requires (set id | id in merge.ids) == ids && merge.namespace != ROLLBACK_NAMESPACE
    requires ConsolidateRows(w, k, d, merge, false).value.Ok?
    ensures var s := ConsolidateRows(w, k, d, merge, false);
      && (forall id :: id in ids ==> id in d.memories)
      && exists summary :: MergedInto(d.memories, ids, summary, s.db.memories) && summary.id == s.value.value
  {
    hide WellFormed, MergedInto;
    ConsolidateSucceedsIff(w, k, d, merge, false);
    assert forall id :: id in ids ==> id in merge.ids;
    var summary := SummaryRow(w, k, d.memories, merge);
    SummaryKey(w, k, d.memories, merge);
    hide SummaryRow, Owner;
    MergedShape(d, ids, summary, w.now(k));
  }

  lemma SummaryKey(w: World, k: nat, t: Table, merge: Merge)
    requires forall id :: id in merge.ids ==> id in t
    ensures var s := SummaryRow(w, k, t, merge); s.title == merge.title && s.namespace == merge.namespace
  {
    hide WellFormed;
  }

  lemma MergedShape(d: Db, ids: set<Id>, summary: Memory, now: string)
    requires MergeRows(d, ids, summary, false, now).value.Ok? && summary.namespace != ROLLBACK_NAMESPACE
    ensures var s := MergeRows(d, ids, summary, false, now);
      s.value.value == summary.id && MergedInto(d.memories, ids, summary, s.db.memories)
  {
    hide WellFormed;
  }

  /** Snapshots of rows of `d`, at least by key, outside the log. */
  predicate KeysOf(d: Table, ms: seq<Memory>) {
    forall m :: m in ms ==> m.id in d && SameKey(m, d[m.id]) && m.namespace != ROLLBACK_NAMESPACE
  }

  /** After the merge, and alike after it, every member can be put back. */
  lemma MemberRestorable(
    d: Table, ms: seq<Memory>, summary: Memory, t: Table, x: Table, ids: set<Id>, m: Memory)
    requires KeysOf(d, ms) && MergedInto(d, Ids(ms), summary, t) && SameOrdinary(x, t)
    requires OffLog(ids, x) && Ids(ms) <= ids && m in ms
    ensures Restorable(x, m) && m.id !in x && m.id != summary.id
  {
    assert m.id in Ids(ms) && m.id !in t;
    hide SameRow;
    assert Ordinary(x, m.id) <==> Ordinary(t, m.id);
    assert m.id in x ==> Ordinary(x, m.id);
    var o := Owner(x, m.title, m.namespace);
    if o.Some? {
      OwnerHasKey(x, m);
      assert Ordinary(x, o.value) && Ordinary(t, o.value);
      KeyInMerged(d, ms, summary, t, x, o.value, m);
    }
  }

  lemma KeyInMerged(d: Table, ms: seq<Memory>, summary: Memory, t: Table, x: Table, o: Id, m: Memory)
    requires KeysOf(d, ms) && MergedInto(d, Ids(ms), summary, t) && m in ms
    requires o in t && o in x && SameRow(x[o], t[o])
    ensures !SameKey(x[o], m)
  {
    assert m.id in Ids(ms);
    if o == summary.id {
      OwnerIs(d, m.id);
    } else {
      assert t[o] == d[o];
      assert SameKey(d[o], d[m.id]) ==> o == m.id;
    }
  }

  /** What the reversal leaves is the table before the merge iff the snapshots are its rows. */
  lemma MergeBackIff(
    w: World, d: Table, ms: seq<Memory>, summary: Memory, t: Table, x: Db, ids: set<Id>, r: Db)
    requires Snapshots(ms) && KeysOf(d, ms) && MergedInto(d, Ids(ms), summary, t) && SameOrdinary(x.memories, t)
    requires OffLog(ids, x.memories) && OffLog(ids, d) && Ids(ms) <= ids
    requires forall m :: m in ms ==> m.id !in x.memories
    requires Reversed(PutInto(w, x.memories), x, ms, summary.id, r)
    ensures OffLog(ids, r.memories)
    ensures SameOrdinary(r.memories, d) <==> forall m :: m in ms ==> SameRow(m, d[m.id])
  {
    hide PutInto, WellFormed, SameRow, SameKey, Snapshots, SameOrdinary, MergedInto, OffLog, Reversed;
    forall m | m in ms
      ensures m.id in r.memories && SameRow(r.memories[m.id], m) && Ordinary(r.memories, m.id) && Ordinary(d, m.id)
    {
      MemberBackAs(w, d, x, ms, summary.id, r, m);
    }
    ReversedOffLog(PutInto(w, x.memories), x, ms, summary.id, r, ids);
    forall id | id !in Ids(ms)
      ensures Ordinary(r.memories, id) <==> Ordinary(d, id)
      ensures Ordinary(d, id) ==> SameRow(r.memories[id], d[id])
    {
      OtherBack(PutInto(w, x.memories), d, ms, summary, t, x, r, id);
    }
    MembersDecide(d, ms, r.memories);
  }

  lemma MemberBackAs(w: World, d: Table, x: Db, ms: seq<Memory>, rid: Id, r: Db, m: Memory)
    requires KeysOf(d, ms) && m in ms && m.id !in x.memories
    requires Reversed(PutInto(w, x.memories), x, ms, rid, r)
    ensures m.id in r.memories && SameRow(r.memories[m.id], m)
    ensures Ordinary(r.memories, m.id) && Ordinary(d, m.id)
  {
    FreshIsSame(w, x.memories, m);
    MemberBack(PutInto(w, x.memories), x, ms, rid, r, m);
    hide PutInto, WellFormed, Reversed;
  }

  /** With all other rows the same, the tables are iff each member's is. */
  lemma MembersDecide(d: Table, ms: seq<Memory>, r: Table)
    requires forall m :: m in ms ==>
               m.id in d && m.id in r && SameRow(r[m.id], m) && Ordinary(r, m.id) && Ordinary(d, m.id)
    requires forall id :: id !in Ids(ms) ==>
               (Ordinary(r, id) <==> Ordinary(d, id)) && (Ordinary(d, id) ==> SameRow(r[id], d[id]))
    ensures SameOrdinary(r, d) <==> forall m :: m in ms ==> SameRow(m, d[m.id])
  {
    hide WellFormed, SameRow, SameKey;
    if forall m :: m in ms ==> SameRow(m, d[m.id]) {
      forall id
        ensures (Ordinary(r, id) <==> Ordinary(d, id)) && (Ordinary(d, id) ==> SameRow(r[id], d[id]))
      {
        if id in Ids(ms) {
          var m := SnapshotById(ms, id);
          SameRowTwice(r[id], m, d[id]);
        }
      }
    }
    if SameOrdinary(r, d) {
      forall m | m in ms ensures SameRow(m, d[m.id]) {
        SameRowTwice(m, r[m.id], d[m.id]);
      }
    }
  }

  lemma FreshIsSame(w: World, t: Table, m: Memory)
    requires m.id !in t
    ensures SameRow(PutInto(w, t)(m), m) && PutInto(w, t)(m).namespace == m.namespace
  {}

  lemma SameRowTwice(a: Memory, b: Memory, c: Memory)
    requires SameRow(a, b) || SameRow(b, a)
    requires SameRow(b, c)
    ensures SameRow(a, c)
  {}

  lemma ReversedOffLog(put: Memory -> Memory, x: Db, ms: seq<Memory>, rid: Id, r: Db, ids: set<Id>)
    requires Reversed(put, x, ms, rid, r) && OffLog(ids, x.memories)
    requires forall m :: m in ms ==> Ordinary(r.memories, m.id)
    ensures OffLog(ids, r.memories)
  {
    hide WellFormed;
  }

  lemma OtherBack(
    put: Memory -> Memory, d: Table, ms: seq<Memory>, summary: Memory, t: Table, x: Db, r: Db, id: Id)
    requires MergedInto(d, Ids(ms), summary, t) && SameOrdinary(x.memories, t)
    requires Reversed(put, x, ms, summary.id, r) && id !in Ids(ms)
    ensures Ordinary(r.memories, id) <==> Ordinary(d, id)
    ensures Ordinary(d, id) ==> SameRow(r.memories[id], d[id])
  {
    hide WellFormed, SameRow, Owner;
    assert Ordinary(x.memories, id) <==> Ordinary(t, id);
  }

  /** A merge is undone iff its snapshots were the rows they stand for. */
  lemma MergeUndoneIff(
    w0: World, k0: nat, d: Db, merge: Merge, ms: seq<Memory>, w: World, k: nat, x: Db, ids: set<Id>)
    requires NoFailures(w) && Snapshots(ms) && KeysOf(d.memories, ms)
    requires (set id | id in merge.ids) == Ids(ms) <= ids && merge.namespace != ROLLBACK_NAMESPACE
    requires OffLog(ids, d.memories) && OffLog(ids, x.memories)
    requires ConsolidateRows(w0, k0, d, merge, false).value.Ok?
    requires SameOrdinary(x.memories, ConsolidateRows(w0, k0, d, merge, false).db.memories)
    ensures var r := ReverseSqlite(w, k, x, ConsolidateEntry(ms, ConsolidateRows(w0, k0, d, merge, false).value.value));
      && r.value.Ok? && OffLog(ids, r.db.memories)
      && (SameOrdinary(r.db.memories, d.memories) <==> forall m :: m in ms ==> SameRow(m, d.memories[m.id]))
  {
    hide WellFormed, ConsolidateRows, SameOrdinary, OffLog, MergedInto, Reversed, PutInto, SameRow, Snapshots;
    hide KeysOf, Restorable, UndoMergeSqlite;
    MergeShape(w0, k0, d, merge, Ids(ms));
    var s := ConsolidateRows(w0, k0, d, merge, false);
    var rid, t := s.value.value, s.db.memories;
    var summary :| MergedInto(d.memories, Ids(ms), summary, t) && summary.id == rid;
    forall m | m in ms ensures Restorable(x.memories, m) && m.id !in x.memories && m.id != rid {
      MemberRestorable(d.memories, ms, summary, t, x.memories, ids, m);
    }
    forall id | id in Ids(ms) ensures id != rid {
      var m := SnapshotById(ms, id);
    }
    SqliteReversalCompletes(w, k, x, ms, rid);
    var r := UndoMergeSqlite(w, k, x, ms, rid).db;
    MergeBackIff(w, d.memories, ms, summary, t, x, ids, r);
    assert ReverseSqlite(w, k, x, ConsolidateEntry(ms, rid)) == UndoMergeSqlite(w, k, x, ms, rid);
  }
}
