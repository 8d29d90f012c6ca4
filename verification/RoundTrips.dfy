/**
 * A pass and its reversal, end to end: when the undo gives the starting table
 * back, when the two twins agree, and the exact conditions where they do not.
 */
module RoundTrips {
  import opened Common
  import opened JsonValues
  import opened Memories
  import opened Rollback
  import opened Undo

  // ----- Consolidate, then reverse ---------------------------------------

  predicate LinksOk(db: Db) {
    forall e :: e in db.links ==> e.0 in db.memories && e.1 in db.memories
  }

  /** Snapshots taken from the table as it is. */
  predicate TakenFrom(t: Table, ms: seq<Memory>) {
    forall m :: m in ms ==> m.id in t && t[m.id] == m
  }

  ghost predicate Merges(ms: seq<Memory>, merge: Merge) {
    (set id | id in merge.ids) == Ids(ms)
  }

  /** Everything as it was, except that the members are written afresh and their edges are gone. */
  ghost predicate Undone(w: World, db0: Db, ms: seq<Memory>, db': Db) {
    && db'.memories.Keys == db0.memories.Keys
    && (forall id :: id in db0.memories && id !in Ids(ms) ==> db'.memories[id] == db0.memories[id])
    && (forall m :: m in ms ==> m.id in db'.memories && db'.memories[m.id] == Fresh(w, m))
    && db'.links == Without(db0, Ids(ms)).links
  }

  /** Every snapshot's row holds the snapshot, column by column. */
  ghost predicate AllBack(w: World, ms: seq<Memory>, t: Table) {
    forall m :: m in ms ==> m.id in t && InsertedFrom(w, t[m.id], m)
  }

  lemma UndoneColumns(w: World, db0: Db, ms: seq<Memory>, db': Db)
    requires Undone(w, db0, ms, db')
    ensures AllBack(w, ms, db'.memories)
  {
    hide WellFormed, InsertedFrom, Fresh;
    forall m | m in ms ensures InsertedFrom(w, Fresh(w, m), m) {
      FreshColumns(w, m);
    }
  }

  /**
   * Undo round trip. A hard-deleting consolidation that succeeded is undone
   * by either twin: the summary is gone, rows outside the cluster are as they
   * were, and each member is back with every column of its snapshot but the
   * version, which restarts at 1, this node's clock entry, and a missing
   * expiry, which is its tier's default.
   */
  lemma ConsolidateThenReverse(
    w0: World, k0: nat, db0: Db, merge: Merge, ms: seq<Memory>, w: World, k: nat, exact: bool)
    requires LinksOk(db0) && Snapshots(ms) && TakenFrom(db0.memories, ms) && Merges(ms, merge)
    requires ConsolidateRows(w0, k0, db0, merge, false).value.Ok?
    requires NoFailures(w)
    ensures var c := ConsolidateRows(w0, k0, db0, merge, false);
      var r := if exact then UndoMergeStore(w, k, c.db, ms, c.value.value)
               else UndoMergeSqlite(w, k, c.db, ms, c.value.value);
      r.value == Ok(true) && Undone(w, db0, ms, r.db) && AllBack(w, ms, r.db.memories)
  {
    hide SummaryRow, PutInto, Reversed, Restorable, UndoMergeStore, UndoMergeSqlite, Fresh, OriginalsBack;
    hide AllBack, Undone;
    var c := ConsolidateRows(w0, k0, db0, merge, false);
    var rid := c.value.value;
    var summary := SummaryRow(w0, k0, db0.memories, merge);
    AfterMerge(db0, ms, summary, w0.now(k0));
    forall m | m in ms
      ensures Restorable(c.db.memories, m) && PutInto(w, c.db.memories)(m) == Fresh(w, m)
    {
      GoneIsRestorable(w, db0.memories, ms, summary, c.db.memories, m);
    }
    if exact {
      StoreReversalCompletes(w, k, c.db, ms, rid);
      UndoneFrom(w, db0, ms, summary, c.db, UndoMergeStore(w, k, c.db, ms, rid).db);
      UndoneColumns(w, db0, ms, UndoMergeStore(w, k, c.db, ms, rid).db);
    } else {
      SqliteReversalCompletes(w, k, c.db, ms, rid);
      UndoneFrom(w, db0, ms, summary, c.db, UndoMergeSqlite(w, k, c.db, ms, rid).db);
      UndoneColumns(w, db0, ms, UndoMergeSqlite(w, k, c.db, ms, rid).db);
    }
  }

  /** The database after a hard-deleting merge. */
  ghost predicate Merged(db0: Db, ms: seq<Memory>, summary: Memory, db: Db) {
    && summary.id !in db0.memories && summary.id !in Ids(ms)
    && Owner(db0.memories, summary.title, summary.namespace).None?
    && db.memories == db0.memories[summary.id := summary] - Ids(ms)
    && db.links == Without(db0, Ids(ms)).links
  }

  lemma AfterMerge(db0: Db, ms: seq<Memory>, summary: Memory, now: string)
    requires TakenFrom(db0.memories, ms)
    requires MergeRows(db0, Ids(ms), summary, false, now).value.Ok?
    ensures Merged(db0, ms, summary, MergeRows(db0, Ids(ms), summary, false, now).db)
  {
    hide WellFormed;
  }

  lemma GoneIsRestorable(w: World, t0: Table, ms: seq<Memory>, summary: Memory, t: Table, m: Memory)
    requires TakenFrom(t0, ms) && m in ms
    requires Owner(t0, summary.title, summary.namespace).None?
    requires t == t0[summary.id := summary] - Ids(ms) && summary.id !in t0
    ensures Restorable(t, m)
    ensures PutInto(w, t)(m) == Fresh(w, m)
  {
    hide Fresh, Upserted;
    assert m.id in Ids(ms) && m.id !in t;
    forall id | id in t ensures !SameKey(t[id], m) {
      if id != summary.id {
        assert SameKey(t0[id], m) ==> id == m.id;
      }
    }
  }

  lemma UndoneFrom(w: World, db0: Db, ms: seq<Memory>, summary: Memory, db: Db, db': Db)
    requires LinksOk(db0) && TakenFrom(db0.memories, ms)
    requires Merged(db0, ms, summary, db)
    requires forall m :: m in ms ==> PutInto(w, db.memories)(m) == Fresh(w, m)
    requires Reversed(PutInto(w, db.memories), db, ms, summary.id, db')
    ensures Undone(w, db0, ms, db')
  {
    hide WellFormed, PutInto, Fresh, Without, Owner;
    forall id | id in Ids(ms) ensures id in db0.memories {
      var m := SnapshotById(ms, id);
    }
    assert db'.memories.Keys == db0.memories.Keys;
    SummaryHadNoEdge(db0, ms, summary.id, db);
  }

  lemma SummaryHadNoEdge(db0: Db, ms: seq<Memory>, id: Id, db: Db)
    requires LinksOk(db0) && id !in db0.memories
    requires db.links == Without(db0, Ids(ms)).links
    ensures Without(db, {id}).links == Without(db0, Ids(ms)).links
  {
    hide WellFormed;
  }

  /**
   * The round trip is exact, giving the very database back, iff every member
   * is already what a fresh insert of it would be (version 1, clock stamped
   * by this node, expiry filled in) and had no edge.
   */
  lemma UndoIsExactIff(w: World, db0: Db, ms: seq<Memory>, db': Db)
    requires TakenFrom(db0.memories, ms) && Undone(w, db0, ms, db')
    ensures db' == db0 <==>
            && (forall m :: m in ms ==> Fresh(w, m) == m)
            && (forall e :: e in db0.links ==> e.0 !in Ids(ms) && e.1 !in Ids(ms))
  {
    hide WellFormed, Fresh;
    if (forall m :: m in ms ==> Fresh(w, m) == m)
       && (forall e :: e in db0.links ==> e.0 !in Ids(ms) && e.1 !in Ids(ms)) {
      forall id | id in db0.memories ensures db'.memories[id] == db0.memories[id] {
        if id in Ids(ms) {
          var m := SnapshotById(ms, id);
        }
      }
      assert db'.memories == db0.memories;
      assert db'.links == db0.links;
    }
    if db' == db0 {
      forall e | e in db0.links ensures e.0 !in Ids(ms) && e.1 !in Ids(ms) {
        assert e in Without(db0, Ids(ms)).links;
      }
    }
  }

  /**
   * With tombstoning on, the undo does not bring the sources back: either twin
   * succeeds and deletes the summary, but every source stays Tombstoned,
   * because an upsert keeps the stored lifecycle, so no listing shows it.
   */
  lemma TombstonedSourcesStayHidden(
    w0: World, k0: nat, db0: Db, merge: Merge, ms: seq<Memory>, w: World, k: nat, exact: bool, now: string)
    requires Snapshots(ms) && TakenFrom(db0.memories, ms) && Merges(ms, merge)
    requires ConsolidateRows(w0, k0, db0, merge, true).value.Ok?
    requires NoFailures(w)
    ensures var c := ConsolidateRows(w0, k0, db0, merge, true);
      var r := if exact then UndoMergeStore(w, k, c.db, ms, c.value.value)
               else UndoMergeSqlite(w, k, c.db, ms, c.value.value);
      && r.value == Ok(true)
      && c.value.value !in r.db.memories
      && forall m :: m in ms ==> m.id in r.db.memories && !Visible(r.db.memories[m.id], now)
  {
    hide SummaryRow, PutInto, Reversed, Restorable, UndoMergeStore, UndoMergeSqlite, Visible;
    var c := ConsolidateRows(w0, k0, db0, merge, true);
    var rid := c.value.value;
    var summary := SummaryRow(w0, k0, db0.memories, merge);
    forall m | m in ms
      ensures Restorable(c.db.memories, m) && !Visible(PutInto(w, c.db.memories)(m), now)
    {
      TombstoneRow(w, db0, ms, summary, w0.now(k0), m, now);
    }
    forall id | id in Ids(ms) ensures id != rid {
      var m := SnapshotById(ms, id);
    }
    if exact {
      StoreReversalCompletes(w, k, c.db, ms, rid);
      HiddenAfter(PutInto(w, c.db.memories), c.db, ms, rid, UndoMergeStore(w, k, c.db, ms, rid).db, now);
    } else {
      SqliteReversalCompletes(w, k, c.db, ms, rid);
      HiddenAfter(PutInto(w, c.db.memories), c.db, ms, rid, UndoMergeSqlite(w, k, c.db, ms, rid).db, now);
    }
  }

  lemma HiddenAfter(put: Memory -> Memory, db: Db, ms: seq<Memory>, rid: Id, db': Db, now: string)
    requires Reversed(put, db, ms, rid, db')
    requires forall m :: m in ms ==> !Visible(put(m), now)
    ensures rid !in db'.memories
    ensures forall m :: m in ms ==> m.id in db'.memories && !Visible(db'.memories[m.id], now)
  {
    hide WellFormed, Visible;
  }

  lemma TombstoneRow(w: World, db0: Db, ms: seq<Memory>, summary: Memory, stamp: string, m: Memory, now: string)
    requires TakenFrom(db0.memories, ms) && m in ms
    requires MergeRows(db0, Ids(ms), summary, true, stamp).value.Ok?
    ensures var t := MergeRows(db0, Ids(ms), summary, true, stamp).db.memories;
      Restorable(t, m) && !Visible(PutInto(w, t)(m), now)
    ensures summary.id !in db0.memories
    ensures MergeRows(db0, Ids(ms), summary, true, stamp).value.value in
            MergeRows(db0, Ids(ms), summary, true, stamp).db.memories
  {
    var t := MergeRows(db0, Ids(ms), summary, true, stamp).db.memories;
    assert m.id in Ids(ms);
    assert t[m.id].lifecycle == Tombstoned && SameKey(t[m.id], m);
    OwnerIs(t, m.id);
  }

  // ----- The twins on one entry ------------------------------------------

  /** The first snapshot whose key another row owns. */
  predicate FirstClaimed(t: Table, ms: seq<Memory>, j: nat) {
    && j < |ms| && !Unclaimed(t, ms[j])
    && forall i :: 0 <= i < j ==> Unclaimed(t, ms[i])
  }

  function ClaimantOf(t: Table, m: Memory): Id
    requires !Unclaimed(t, m)
  {
    Owner(t, m.title, m.namespace).value
  }

  /** The guard of `ms[i]` is the first that finds another row on the key. */
  predicate GuardStops(w: World, k: nat, db: Db, ms: seq<Memory>, exact: bool, i: nat) {
    && i < |ms| && Offender(db.memories, w.now(k + i), ms[i], exact).Some?
    && forall x :: 0 <= x < i ==> Offender(db.memories, w.now(k + x), ms[x], exact).None?
  }

  lemma {:induction false} GuardStopValue(w: World, k: nat, db: Db, ms: seq<Memory>, exact: bool, i: nat)
    requires NoFailures(w) && GuardStops(w, k, db, ms, exact, i)
    ensures GuardAll(w, k, db, ms, exact)
         == Err(Collision(Offender(db.memories, w.now(k + i), ms[i], exact).value))
    decreases i
  {
    hide WellFormed, Offender;
    assert !w.fails(k);
    if i > 0 {
      assert k + 1 + (i - 1) == k + i;
      assert Offender(db.memories, w.now(k + 0), ms[0], exact).None?;
      forall x | 0 <= x < i - 1 ensures Offender(db.memories, w.now(k + 1 + x), ms[1..][x], exact).None? {
        assert k + 1 + x == k + (x + 1) && ms[1..][x] == ms[x + 1];
      }
      GuardStopValue(w, k + 1, db, ms[1..], exact, i - 1);
    }
  }

  /**
   * The twins on the entry the curator writes for a merge. When the store
   * twin succeeds they do the same. It refuses for a collision iff a key is
   * claimed by another row; then rusqlite does the same iff the first such
   * row is in the window of its guard's listing at that moment. When it fails
   * for an id in use under another key, so does rusqlite, with the summary
   * gone besides.
   */
  lemma TwinsAgreeOnMerges(w: World, k: nat, db: Db, ms: seq<Memory>, rid: Id)
    requires Snapshots(ms) && NoFailures(w) && rid !in Ids(ms)
    ensures var a, b := UndoMergeSqlite(w, k, db, ms, rid), UndoMergeStore(w, k, db, ms, rid);
      && (b.value.Ok? ==> a == b)
      && (b.value.Ok? || b.value == Err(IdTaken) <==> forall m :: m in ms ==> Unclaimed(db.memories, m))
      && (b.value == Err(IdTaken) ==> a == Step(Without(b.db, {rid}), b.value))
      && forall j: nat :: FirstClaimed(db.memories, ms, j) ==>
           var owner := ClaimantOf(db.memories, ms[j]);
           && b == Step(db, Err(Collision(owner)))
           && (a == b <==> InWindow(db.memories, w.now(k + j), owner))
  {
    hide WellFormed, Unclaimed, UndoMergeSqlite, UndoMergeStore, InWindow, ClaimantOf, Without;
    if forall m :: m in ms ==> Unclaimed(db.memories, m) {
      UnclaimedMerges(w, k, db, ms, rid);
      forall j: nat ensures !FirstClaimed(db.memories, ms, j) {
        assert j < |ms| ==> ms[j] in ms;
      }
    } else {
      var j := SomeFirstClaimed(db.memories, ms);
      forall j: nat | FirstClaimed(db.memories, ms, j)
        ensures var owner := ClaimantOf(db.memories, ms[j]);
          && UndoMergeStore(w, k, db, ms, rid) == Step(db, Err(Collision(owner)))
          && (UndoMergeSqlite(w, k, db, ms, rid) == UndoMergeStore(w, k, db, ms, rid) <==>
                InWindow(db.memories, w.now(k + j), owner))
      {
        ClaimedMerges(w, k, db, ms, rid, j);
      }
      assert FirstClaimed(db.memories, ms, j);
    }
  }

  lemma {:induction false} SomeFirstClaimed(t: Table, ms: seq<Memory>) returns (j: nat)
    requires exists m :: m in ms && !Unclaimed(t, m)
    ensures FirstClaimed(t, ms, j)
    decreases |ms|
  {
    hide Unclaimed;
    if !Unclaimed(t, ms[0]) {
      j := 0;
    } else {
      var m :| m in ms && !Unclaimed(t, m);
      assert m in ms[1..];
      var x := SomeFirstClaimed(t, ms[1..]);
      j := x + 1;
      forall i | 0 <= i < j ensures Unclaimed(t, ms[i]) {
        if i > 0 {
          assert ms[1..][i - 1] == ms[i];
        }
      }
    }
  }

  /** A key claimed: the store twin refuses, rusqlite where its listing shows the claimant. */
  lemma ClaimedMerges(w: World, k: nat, db: Db, ms: seq<Memory>, rid: Id, j: nat)
    requires Snapshots(ms) && NoFailures(w) && rid !in Ids(ms) && FirstClaimed(db.memories, ms, j)
    ensures var a, b := UndoMergeSqlite(w, k, db, ms, rid), UndoMergeStore(w, k, db, ms, rid);
      var owner := ClaimantOf(db.memories, ms[j]);
      && b == Step(db, Err(Collision(owner)))
      && (a == b <==> InWindow(db.memories, w.now(k + j), owner))
  {
    hide WellFormed, InWindow, InsertAll, GuardAll, Owner, SameKey;
    var t := db.memories;
    GuardStopValue(w, k, db, ms, true, j);
    var owner := ClaimantOf(t, ms[j]);
    if InWindow(t, w.now(k + j), owner) {
      GuardStopValue(w, k, db, ms, false, j);
    } else {
      RefusedElsewhere(w, k, db, ms, j);
      InsertAllNeverCollides(w, k + |ms| + 1, DeleteRow(w, k + |ms|, db, rid).db, ms);
    }
  }

  /** Past an unseen claimant, any later refusal names another row. */
  lemma RefusedElsewhere(w: World, k: nat, db: Db, ms: seq<Memory>, j: nat)
    requires Snapshots(ms) && NoFailures(w) && FirstClaimed(db.memories, ms, j)
    requires !InWindow(db.memories, w.now(k + j), ClaimantOf(db.memories, ms[j]))
    ensures GuardAll(w, k, db, ms, false) != Err(Collision(ClaimantOf(db.memories, ms[j])))
  {
    hide WellFormed, InWindow, GuardAll, Owner;
    var t := db.memories;
    if GuardAll(w, k, db, ms, false).Err? {
      var i := FirstStop(w, k, db, ms, false);
      GuardStopValue(w, k, db, ms, false, i);
      var o := Offender(t, w.now(k + i), ms[i], false).value;
      assert i != j && Owner(t, ms[i].title, ms[i].namespace) == Some(o);
      OwnerHasKey(t, ms[i]);
      OwnerHasKey(t, ms[j]);
      assert !SameKey(ms[i], ms[j]) by {
        if i < j {} else {}
      }
      assert SameKey(t[o], ms[i]) && SameKey(t[ClaimantOf(t, ms[j])], ms[j]);
    }
  }

  lemma {:induction false} FirstStop(w: World, k: nat, db: Db, ms: seq<Memory>, exact: bool) returns (i: nat)
    requires NoFailures(w) && GuardAll(w, k, db, ms, exact).Err?
    ensures GuardStops(w, k, db, ms, exact, i)
    decreases |ms|
  {
    hide WellFormed, Offender;
    assert !w.fails(k);
    if Offender(db.memories, w.now(k), ms[0], exact).Some? {
      i := 0;
    } else {
      var x := FirstStop(w, k + 1, db, ms[1..], exact);
      i := x + 1;
      assert k + 1 + x == k + i;
      forall y | 0 <= y < i ensures Offender(db.memories, w.now(k + y), ms[y], exact).None? {
        if y > 0 {
          assert ms[1..][y - 1] == ms[y] && k + 1 + (y - 1) == k + y;
        }
      }
    }
  }

  /** No key claimed: both guards pass, and the inserts decide alike. */
  lemma UnclaimedMerges(w: World, k: nat, db: Db, ms: seq<Memory>, rid: Id)
    requires Snapshots(ms) && NoFailures(w) && rid !in Ids(ms)
    requires forall m :: m in ms ==> Unclaimed(db.memories, m)
    ensures var a, b := UndoMergeSqlite(w, k, db, ms, rid), UndoMergeStore(w, k, db, ms, rid);
      && (b.value.Ok? || b.value == Err(IdTaken))
      && (b.value.Ok? ==> a == b)
      && (b.value == Err(IdTaken) ==> a == Step(Without(b.db, {rid}), b.value))
  {
    hide PutInto, Reversed, InsertAll, Restorable, WellFormed, GuardAll, Without, Restored;
    if forall m :: m in ms ==> Restorable(db.memories, m) {
      StoreReversalSucceeds(w, k, db, ms, rid);
      StoreReversalCompletes(w, k, db, ms, rid);
      SqliteReversalCompletes(w, k, db, ms, rid);
      hide UndoMergeStore, UndoMergeSqlite;
      ReversedOnce(PutInto(w, db.memories), db, ms, rid,
        UndoMergeStore(w, k, db, ms, rid).db, UndoMergeSqlite(w, k, db, ms, rid).db);
    } else {
      GuardsPass(w, k, db, ms, true);
      GuardsPass(w, k, db, ms, false);
      IdInUse(w, k + |ms|, k + |ms| + 1, db, ms, rid);
      assert !w.fails(k + |ms|);
    }
  }

  /** An id in use stops both series of inserts at the same snapshot. */
  lemma IdInUse(w: World, k: nat, k': nat, db: Db, ms: seq<Memory>, rid: Id)
    requires Snapshots(ms) && NoFailures(w) && rid !in Ids(ms)
    requires forall m :: m in ms ==> Unclaimed(db.memories, m)
    requires exists m :: m in ms && !Restorable(db.memories, m)
    ensures var b, a := InsertAll(w, k, db, ms), InsertAll(w, k', Without(db, {rid}), ms);
      a.value == b.value == Err(IdTaken) && a.db == Without(b.db, {rid})
  {
    hide PutInto, InsertAll, WellFormed, Restored, Without, Owner, SameKey;
    var deleted := Without(db, {rid});
    WithoutParts(db, db, {rid});
    forall m | m in ms
      ensures Unclaimed(deleted.memories, m)
      ensures Restorable(deleted.memories, m) <==> Restorable(db.memories, m)
      ensures PutInto(w, deleted.memories)(m) == PutInto(w, db.memories)(m)
    {
      assert m.id in Ids(ms);
      SameWithout(w, db.memories, rid, m);
    }
    hide Unclaimed, Restorable;
    var i := InsertAllOutcome(w, k, db, ms);
    var j := InsertAllOutcome(w, k', deleted, ms);
    InPrefix(ms, i, j);
    InPrefix(ms, j, i);
    var a, b := InsertAll(w, k', deleted, ms).db, InsertAll(w, k, db, ms).db;
    RestoredWithout(PutInto(w, deleted.memories), PutInto(w, db.memories), db.memories, ms[..i], rid);
    WithoutParts(b, db, {rid});
  }

  lemma InPrefix(ms: seq<Memory>, i: nat, j: nat)
    requires i <= |ms| && j <= |ms|
    ensures j < i ==> ms[j] in ms[..i]
  {
    if j < i {
      assert ms[..i][j] == ms[j];
    }
  }

  lemma SameWithout(w: World, t: Table, rid: Id, m: Memory)
    requires Unclaimed(t, m) && m.id != rid
    ensures Unclaimed(t - {rid}, m)
    ensures Restorable(t - {rid}, m) <==> Restorable(t, m)
    ensures PutInto(w, t - {rid})(m) == PutInto(w, t)(m)
  {
    var t': Table := t - {rid};
    var o := Owner(t, m.title, m.namespace);
    hide PutInto;
    if o.Some? {
      OwnerIs(t', m.id);
    } else {
      assert forall x :: x in t' ==> x in t && t'[x] == t[x];
    }
    PutWithout(w, t, rid, m);
  }

  lemma PutWithout(w: World, t: Table, rid: Id, m: Memory)
    requires m.id != rid
    ensures PutInto(w, t - {rid})(m) == PutInto(w, t)(m)
  {
    hide WellFormed, Upserted, Fresh;
  }

  /** Putting snapshots back commutes with deleting a row that is none of them. */
  lemma {:induction false} RestoredWithout(
    put: Memory -> Memory, put': Memory -> Memory, t: Table, ms: seq<Memory>, rid: Id)
    requires rid !in Ids(ms) && forall m :: m in ms ==> put(m) == put'(m)
    ensures Restored(put, t - {rid}, ms) == Restored(put', t, ms) - {rid}
    decreases |ms|
  {
    hide WellFormed;
    if ms != [] {
      IdsSnoc(ms);
      assert ms == ms[..|ms| - 1] + [ms[|ms| - 1]];
      RestoredWithout(put, put', t, ms[..|ms| - 1], rid);
    }
  }

  /**
   * What rusqlite does instead of refusing. When no claimant of a key is in
   * the window of its guard's listing, the merge is undone over them: each
   * claimant other than the summary now holds the snapshot's content, and
   * the snapshot does not come back under its own id.
   */
  lemma UnseenClaimantIsOverwritten(w: World, k: nat, db: Db, ms: seq<Memory>, rid: Id, m: Memory)
    requires Snapshots(ms) && NoFailures(w) && rid !in Ids(ms)
    requires forall i: nat :: i < |ms| && !Unclaimed(db.memories, ms[i]) ==>
               !InWindow(db.memories, w.now(k + i), ClaimantOf(db.memories, ms[i]))
    requires m in ms && !Unclaimed(db.memories, m) && ClaimantOf(db.memories, m) != rid
    ensures var a := UndoMergeSqlite(w, k, db, ms, rid);
      var owner := ClaimantOf(db.memories, m);
      && (a.value.Err? ==> a.value.error == IdTaken)
      && (a.value.Ok? ==>
            && owner in a.db.memories && SameKey(a.db.memories[owner], m)
            && a.db.memories[owner].content == m.content
            && (m.id in a.db.memories ==> !SameKey(a.db.memories[m.id], m)))
  {
    hide WellFormed, InWindow, InsertAll, GuardAll, Owner, Without;
    var deleted := Without(db, {rid});
    GuardAllMeans(w, k, db, ms, false);
    forall i: nat | i < |ms| ensures GuardHolds(w, k, db, ms, false, i) {
      assert !w.fails(k + i);
    }
    assert !w.fails(k + |ms|);
    InsertAllFrame(w, k + |ms| + 1, deleted, ms);
    InsertFailsOnId(w, k + |ms| + 1, deleted, ms);
    WithoutParts(db, db, {rid});
    OwnerHasKey(db.memories, m);
    var s := InsertAll(w, k + |ms| + 1, deleted, ms);
    if s.value.Ok? {
      KeyStaysOwned(deleted.memories, s.db.memories, m, ClaimantOf(db.memories, m));
    }
  }

  lemma KeyStaysOwned(t: Table, t': Table, m: Memory, owner: Id)
    requires owner in t && SameKey(t[owner], m) && owner != m.id
    requires owner in t' && SameKey(t'[owner], t[owner]) && Stored(t', m)
    ensures SameKey(t'[owner], m) && t'[owner].content == m.content
    ensures m.id in t' ==> !SameKey(t'[m.id], m)
  {
    OwnerIs(t', owner);
  }

  lemma {:induction false} InsertFailsOnId(w: World, k: nat, db: Db, ms: seq<Memory>)
    requires NoFailures(w)
    ensures var v := InsertAll(w, k, db, ms).value; v.Err? ==> v.error == IdTaken
    decreases |ms|
  {
    hide WellFormed, Upserted, Fresh, Owner;
    assert !w.fails(k);
    if ms != [] {
      InsertFailsOnId(w, k + 1, InsertRow(w, k, db, ms[0]).db, ms[1..]);
    }
  }

  /**
   * The twins agree wherever every claimant is visible and its namespace has
   * at most 50 visible rows when the guard lists it.
   */
  lemma SmallNamespacesAgree(w: World, k: nat, db: Db, ms: seq<Memory>, rid: Id)
    requires Snapshots(ms) && NoFailures(w) && rid !in Ids(ms)
    requires forall i: nat :: i < |ms| && !Unclaimed(db.memories, ms[i]) ==>
               && Visible(db.memories[ClaimantOf(db.memories, ms[i])], w.now(k + i))
               && |Listed(db.memories, ms[i].namespace, w.now(k + i))| <= GUARD_LIMIT
    ensures var a, b := UndoMergeSqlite(w, k, db, ms, rid), UndoMergeStore(w, k, db, ms, rid);
      a.value == b.value && (b.value != Err(IdTaken) ==> a == b)
  {
    hide WellFormed, UndoMergeSqlite, UndoMergeStore, InWindow, Without, Listed, Visible;
    TwinsAgreeOnMerges(w, k, db, ms, rid);
    if exists m :: m in ms && !Unclaimed(db.memories, m) {
      hide Unclaimed;
      var j := SomeFirstClaimed(db.memories, ms);
      ClaimantRow(db.memories, ms[j]);
      SmallNamespaceIsCovered(db.memories, w.now(k + j), ClaimantOf(db.memories, ms[j]));
    }
  }

  lemma ClaimantRow(t: Table, m: Memory)
    requires !Unclaimed(t, m)
    ensures ClaimantOf(t, m) in t && t[ClaimantOf(t, m)].namespace == m.namespace
  {
    OwnerHasKey(t, m);
  }

  /** A visible row of a namespace with at most 50 visible rows is in the window. */
  lemma SmallNamespaceIsCovered(t: Table, now: string, id: Id)
    requires id in t && Visible(t[id], now)
    requires |Listed(t, t[id].namespace, now)| <= GUARD_LIMIT
    ensures InWindow(t, now, id)
  {
    var all := Listed(t, t[id].namespace, now);
    var ahead := set other | other in all && Precedes(t[other], t[id]);
    BelowIrreflexive(t[id].updatedAt);
    BelowIrreflexive(id);
    assert id in all && id !in ahead;
    SmallerSubset(ahead, all - {id});
  }

  /** Highest priority first, then latest update, then smallest id. */
  predicate InListingOrder(t: Table, listing: seq<Id>)
    requires forall id :: id in listing ==> id in t
  {
    forall i, j :: 0 <= i < j < |listing| ==>
      var a, b := t[listing[i]], t[listing[j]];
      && a.priority >= b.priority
      && (a.priority == b.priority ==>
            !Below(a.updatedAt, b.updatedAt) && (a.updatedAt == b.updatedAt ==> Below(a.id, b.id)))
  }

  lemma PrecedesMeans(a: Memory, b: Memory)
    ensures Precedes(a, b) <==>
            && a.priority >= b.priority
            && (a.priority == b.priority ==>
                  !Below(a.updatedAt, b.updatedAt) && (a.updatedAt == b.updatedAt ==> Below(a.id, b.id)))
    ensures Precedes(a, b) ==> !Precedes(b, a)
  {
    BelowTotal(a.updatedAt, b.updatedAt);
    BelowIrreflexive(a.updatedAt);
    BelowIrreflexive(a.id);
    if Below(a.updatedAt, b.updatedAt) && Below(b.updatedAt, a.updatedAt) {
      BelowTransitive(a.updatedAt, b.updatedAt, a.updatedAt);
    }
    if Below(a.id, b.id) && Below(b.id, a.id) {
      BelowTransitive(a.id, b.id, a.id);
    }
  }

  /** The guard's window is the first 50 rows of the namespace's listing, the visible rows in listing order. */
  lemma WindowIsFirstFifty(t: Table, now: string, namespace: string, listing: seq<Id>)
    requires forall id :: id in listing <==>
               && id in t && t[id].namespace == namespace
               && t[id].lifecycle != Tombstoned && t[id].lifecycle != Quarantined
               && (t[id].expiresAt == None || Below(now, t[id].expiresAt.value))
    requires InListingOrder(t, listing)
    ensures forall i :: 0 <= i < |listing| ==> (InWindow(t, now, listing[i]) <==> i < 50)
  {
    assert forall id :: id in listing <==> id in t && t[id].namespace == namespace && Visible(t[id], now);
    forall i | 0 <= i < |listing| ensures InWindow(t, now, listing[i]) <==> i < 50 {
      hide Visible, WellFormed;
      AheadInListing(t, now, namespace, listing, i);
    }
  }

  lemma AheadInListing(t: Table, now: string, namespace: string, listing: seq<Id>, i: nat)
    requires i < |listing|
    requires forall id :: id in listing <==> id in t && t[id].namespace == namespace && Visible(t[id], now)
    requires InListingOrder(t, listing)
    ensures listing[i] in t && t[listing[i]].namespace == namespace && Visible(t[listing[i]], now)
    ensures |set other | other in Listed(t, namespace, now) && Precedes(t[other], t[listing[i]])| == i
  {
    assert listing[i] in listing;
    forall j, k | 0 <= j < k < |listing| ensures Precedes(t[listing[j]], t[listing[k]]) {
      PrecedesMeans(t[listing[j]], t[listing[k]]);
    }
    hide InListingOrder, Visible, Precedes, WellFormed;
    var ahead := set other | other in Listed(t, namespace, now) && Precedes(t[other], t[listing[i]]);
    forall id ensures id in ahead <==> id in listing[..i] {
      if id in listing {
        var j :| 0 <= j < |listing| && listing[j] == id;
        if j < i {
          assert listing[..i][j] == id;
        } else {
          NotAhead(t, listing, i, j);
        }
      }
    }
    forall j, k | 0 <= j < k < i ensures listing[j] != listing[k] {
      PrecedesMeans(t[listing[j]], t[listing[k]]);
    }
    DistinctCount(listing[..i], ahead);
  }

  lemma NotAhead(t: Table, listing: seq<Id>, i: nat, j: nat)
    requires i <= j < |listing| && forall id :: id in listing ==> id in t
    requires forall j, k :: 0 <= j < k < |listing| ==> Precedes(t[listing[j]], t[listing[k]])
    ensures !Precedes(t[listing[j]], t[listing[i]]) && listing[j] !in listing[..i]
  {
    hide Precedes, WellFormed;
    PrecedesMeans(t[listing[i]], t[listing[j]]);
    if k :| 0 <= k < i && listing[k] == listing[j] {
      PrecedesMeans(t[listing[k]], t[listing[j]]);
    }
  }

  lemma {:induction false} DistinctCount(ids: seq<Id>, all: set<Id>)
    requires forall j, k :: 0 <= j < k < |ids| ==> ids[j] != ids[k]
    requires forall id :: id in all <==> id in ids
    ensures |all| == |ids|
    decreases |ids|
  {
    if ids == [] {
      assert all == {};
    } else {
      var n := |ids| - 1;
      assert ids == ids[..n] + [ids[n]];
      assert ids[n] !in ids[..n];
      DistinctCount(ids[..n], all - {ids[n]});
    }
  }

  lemma {:induction false} SmallerSubset(a: set<Id>, b: set<Id>)
    requires a <= b
    ensures |a| <= |b|
    decreases b
  {
    if b != {} {
      var x :| x in b;
      SmallerSubset(a - {x}, b - {x});
    }
  }

  /**
   * Reversing a forget over rusqlite refuses iff another row owns the key and
   * is in the window. Outside it (expired, hidden, or past the 50th row) the
   * other row is overwritten and the snapshot's id does not come back, while
   * the store twin refuses.
   */
  lemma SqliteGuardIsExactIff(w: World, k: nat, db: Db, m: Memory)
    requires NoFailures(w)
    requires var o := Owner(db.memories, m.title, m.namespace); o.Some? && o.value != m.id
    ensures var owner := Owner(db.memories, m.title, m.namespace).value;
      var a, b := ReverseSqlite(w, k, db, ForgetEntry(m)), ReverseStore(w, k, db, ForgetEntry(m));
      && b == Step(db, Err(Collision(owner)))
      && (a.value == Err(Collision(owner)) <==> InWindow(db.memories, w.now(k), owner))
      && (!InWindow(db.memories, w.now(k), owner) ==>
            && a.value == Ok(true)
            && a.db.memories.Keys == db.memories.Keys
            && a.db.memories[owner].content == m.content)
  {
    hide InWindow;
    assert !w.fails(k) && !w.fails(k + 1);
  }

  // ----- Priority adjustments --------------------------------------------

  /**
   * Undoing a priority change: rusqlite always restores the old priority, the
   * store twin only when it is not below the current one, because its upsert
   * keeps the larger. So of the curator's +1 and -1 steps it undoes only -1.
   */
  lemma StoreTwinKeepsRaisedPriority(w: World, k: nat, db: Db, id: Id, before: int, after: int)
    requires NoFailures(w) && id in db.memories
    ensures var a := ReverseSqlite(w, k, db, PriorityAdjust(id, before, after));
      a.value == Ok(true) && id in a.db.memories && a.db.memories[id].priority == before
    ensures var b := ReverseStore(w, k, db, PriorityAdjust(id, before, after));
      && b.value == Ok(true) && id in b.db.memories
      && (b.db.memories[id].priority == before <==> db.memories[id].priority <= before)
  {
    assert !w.fails(k) && !w.fails(k + 1);
    var m := db.memories[id].(priority := before);
    OwnerIs(db.memories, id);
    assert Owner(db.memories, m.title, m.namespace) == Some(id);
  }

  /** On a missing row the twins leave the table alone and differ in the flag. */
  lemma FlagsDifferOnMissingRow(w: World, k: nat, db: Db, id: Id, before: int, after: int)
    requires NoFailures(w) && id !in db.memories
    ensures ReverseSqlite(w, k, db, PriorityAdjust(id, before, after)) == Step(db, Ok(true))
    ensures ReverseStore(w, k, db, PriorityAdjust(id, before, after)) == Step(db, Ok(false))
  {
    assert !w.fails(k);
  }

  function PriorityOf(db: Db, id: Id): Option<int> {
    if id in db.memories then Some(db.memories[id].priority) else None
  }

  /**
   * The twins on a priority change, whatever the table: they return the same
   * flag iff the row is there, and leave the same priority iff it is not
   * there or was not above the one to restore.
   */
  lemma PriorityTwinsAgreeIff(w: World, k: nat, db: Db, id: Id, before: int, after: int)
    requires NoFailures(w)
    ensures var a, b := ReverseSqlite(w, k, db, PriorityAdjust(id, before, after)),
                        ReverseStore(w, k, db, PriorityAdjust(id, before, after));
      && (a.value == b.value <==> id in db.memories)
      && (PriorityOf(a.db, id) == PriorityOf(b.db, id) <==>
            (id in db.memories ==> db.memories[id].priority <= before))
  {
    hide WellFormed, ReverseSqlite, ReverseStore;
    if id in db.memories {
      StoreTwinKeepsRaisedPriority(w, k, db, id, before, after);
    } else {
      FlagsDifferOnMissingRow(w, k, db, id, before, after);
    }
  }

  // ----- Conserved contradictions ----------------------------------------

  /**
   * Conserving and reversing over rusqlite gives the database back iff the
   * loser carried no marker and the pair no edge before.
   */
  lemma ConserveThenReverse(w: World, k: nat, db: Db, loser: Id, winner: Id)
    requires NoFailures(w) && loser in db.memories
    requires Conserve(w, k, db, loser, winner).value.Ok?
    ensures var edge := CanonicalPair(loser, winner);
      var c := Conserve(w, k, db, loser, winner);
      var r := ReverseSqlite(w, k + 1, c.db, ConserveContradiction(loser, winner, edge));
      && r.value == Ok(true)
      && (r.db == db <==> MARKERS !! db.memories[loser].metadata.Keys && edge !in db.links)
  {
    assert !w.fails(k) && !w.fails(k + 1);
    var edge := CanonicalPair(loser, winner);
    hide WellFormed, CanonicalPair;
    var c := Conserve(w, k, db, loser, winner);
    MarkThenClear(db.memories[loser].metadata, winner);
    ClearedDb(db, c.db, loser, edge);
  }

  lemma MarkThenClear(metadata: map<string, Json>, winner: Id)
    ensures metadata[CONSERVED := JBool(true)][SOFT_LOSER := JBool(true)][WINNER_ID := JString(winner)] - MARKERS
            == metadata - MARKERS
  {}

  lemma ClearedDb(db: Db, marked: Db, loser: Id, edge: (Id, Id))
    requires loser in db.memories && loser in marked.memories
    requires marked.memories == db.memories[loser := marked.memories[loser]]
    requires var a, b := db.memories[loser], marked.memories[loser];
      b == a.(metadata := b.metadata) && b.metadata - MARKERS == a.metadata - MARKERS
    requires marked.links - {edge} == db.links - {edge}
    ensures var row := marked.memories[loser];
      var db' := Db(marked.memories[loser := row.(metadata := row.metadata - MARKERS)], marked.links - {edge});
      db' == db <==> MARKERS !! db.memories[loser].metadata.Keys && edge !in db.links
  {
    var row := marked.memories[loser];
    var a := db.memories[loser];
    var db' := Db(marked.memories[loser := row.(metadata := row.metadata - MARKERS)], marked.links - {edge});
    hide WellFormed;
    assert db'.memories == db.memories[loser := a.(metadata := a.metadata - MARKERS)];
    if MARKERS !! a.metadata.Keys && edge !in db.links {
      assert a.metadata - MARKERS == a.metadata;
      assert db'.memories == db.memories;
      assert db'.links == db.links;
    }
    if db' == db {
      assert db'.memories[loser] == a;
      assert (a.metadata - MARKERS).Keys == a.metadata.Keys;
      assert edge !in db'.links;
    }
  }

  /** Whether an edge is there, and still valid. */
  function EdgeOf(db: Db, edge: (Id, Id)): Option<bool> {
    if edge in db.links then Some(db.links[edge]) else None
  }

  /**
   * The store twin only invalidates the edge, and conserving looks for the
   * edge whether valid or not: conserving again after its reversal marks the
   * loser but leaves the edge invalid, where after rusqlite's it is live.
   */
  lemma ConserveAgainAfterReversal(w: World, k: nat, db: Db, loser: Id, winner: Id)
    requires NoFailures(w) && loser in db.memories && winner in db.memories
    ensures var edge := CanonicalPair(loser, winner);
      var c := Conserve(w, k, db, loser, winner);
      var a := ReverseSqlite(w, k + 1, c.db, ConserveContradiction(loser, winner, edge));
      var b := ReverseStore(w, k + 1, c.db, ConserveContradiction(loser, winner, edge));
      && a.value == b.value == Ok(true)
      && EdgeOf(Conserve(w, k + 4, a.db, loser, winner).db, edge) == Some(true)
      && EdgeOf(Conserve(w, k + 4, b.db, loser, winner).db, edge) == Some(false)
  {
    assert !w.fails(k) && !w.fails(k + 1) && !w.fails(k + 2) && !w.fails(k + 3) && !w.fails(k + 4);
    var edge := CanonicalPair(loser, winner);
    var c := Conserve(w, k, db, loser, winner);
    SqliteDropsEdge(w, k + 1, c.db, loser, winner, edge);
    StoreInvalidatesEdge(w, k + 1, c.db, loser, winner, edge);
    hide WellFormed, CanonicalPair, ReverseSqlite, ReverseStore;
  }

  lemma SqliteDropsEdge(w: World, k: nat, db: Db, loser: Id, winner: Id, edge: (Id, Id))
    requires NoFailures(w) && loser in db.memories && winner in db.memories
    ensures var a := ReverseSqlite(w, k, db, ConserveContradiction(loser, winner, edge));
      && a.value == Ok(true) && EdgeOf(a.db, edge) == None
      && loser in a.db.memories && winner in a.db.memories
  {
    assert !w.fails(k);
    hide WellFormed;
  }

  lemma StoreInvalidatesEdge(w: World, k: nat, db: Db, loser: Id, winner: Id, edge: (Id, Id))
    requires NoFailures(w) && loser in db.memories && winner in db.memories && edge in db.links
    ensures var b := ReverseStore(w, k, db, ConserveContradiction(loser, winner, edge));
      && b.value == Ok(true) && EdgeOf(b.db, edge) == Some(false)
      && loser in b.db.memories && winner in b.db.memories
  {
    assert !w.fails(k) && !w.fails(k + 1) && !w.fails(k + 2);
    OwnerIs(db.memories, loser);
    var row := db.memories[loser];
    assert Owner(db.memories, row.title, row.namespace) == Some(loser);
    hide WellFormed, Upserted;
  }
}
