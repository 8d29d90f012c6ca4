/** What the two reversals guarantee, and exactly where they do not. */
module Undo {
  import opened Common
  import opened JsonValues
  import opened Memories
  import opened Rollback

  // ----- Snapshots and the tables restoring them gives -------------------

  /** Snapshots of distinct rows of one table. */
  predicate Snapshots(ms: seq<Memory>) {
    forall i, j :: 0 <= i < j < |ms| ==> ms[i].id != ms[j].id && !SameKey(ms[i], ms[j])
  }

  function Ids(ms: seq<Memory>): set<Id> {
    set m | m in ms :: m.id
  }

  /** No other row owns the snapshot's key. */
  predicate Unclaimed(t: Table, m: Memory) {
    var o := Owner(t, m.title, m.namespace);
    o.None? || o.value == m.id
  }

  /** Moreover its id is not in use under another key. */
  predicate Restorable(t: Table, m: Memory) {
    Unclaimed(t, m) && (Owner(t, m.title, m.namespace).None? ==> m.id !in t)
  }

  /** `t` with the row `put(m)` in place of every snapshot's id. */
  function Restored(put: Memory -> Memory, t: Table, ms: seq<Memory>): map<Id, Memory> {
    if ms == [] then t
    else Restored(put, t, ms[..|ms| - 1])[ms[|ms| - 1].id := put(ms[|ms| - 1])]
  }

  /** The row storing snapshot `m` into `t` leaves. */
  function PutInto(w: World, t: Table): Memory -> Memory {
    (m: Memory) => if m.id in t then Upserted(w, t[m.id], m) else Fresh(w, m)
  }

  ghost predicate KeepsKeys(put: Memory -> Memory, ms: seq<Memory>) {
    forall m :: m in ms ==> put(m).id == m.id && SameKey(put(m), m)
  }

  lemma {:induction false} RestoredElsewhere(put: Memory -> Memory, t: Table, ms: seq<Memory>, id: Id)
    ensures var r := Restored(put, t, ms);
      && (id in r <==> id in t || id in Ids(ms))
      && (id in t && id !in Ids(ms) ==> r[id] == t[id])
    decreases |ms|
  {
    hide WellFormed;
    if ms != [] {
      var n := |ms| - 1;
      RestoredElsewhere(put, t, ms[..n], id);
      IdsSnoc(ms);
    }
  }

  lemma IdsSnoc(ms: seq<Memory>)
    requires ms != []
    ensures Ids(ms) == Ids(ms[..|ms| - 1]) + {ms[|ms| - 1].id}
  {
    var n := |ms| - 1;
    assert ms == ms[..n] + [ms[n]];
  }

  lemma {:induction false} RestoredHere(put: Memory -> Memory, t: Table, ms: seq<Memory>, i: nat)
    requires Snapshots(ms) && i < |ms|
    ensures var r := Restored(put, t, ms); ms[i].id in r && r[ms[i].id] == put(ms[i])
    decreases |ms|
  {
    hide WellFormed, SameKey;
    var n := |ms| - 1;
    if i < n {
      RestoredHere(put, t, ms[..n], i);
      assert ms[i].id != ms[n].id;
    }
  }

  lemma RestoredShape(put: Memory -> Memory, t: Table, ms: seq<Memory>)
    requires Snapshots(ms)
    ensures var r := Restored(put, t, ms);
      && r.Keys == t.Keys + Ids(ms)
      && (forall id :: id in t && id !in Ids(ms) ==> r[id] == t[id])
      && (forall m :: m in ms ==> r[m.id] == put(m))
  {
    hide WellFormed, Snapshots, Restored;
    var r := Restored(put, t, ms);
    forall id ensures (id in r <==> id in t || id in Ids(ms)) && (id in t && id !in Ids(ms) ==> r[id] == t[id]) {
      RestoredElsewhere(put, t, ms, id);
    }
    forall m | m in ms ensures m.id in r && r[m.id] == put(m) {
      var i :| 0 <= i < |ms| && ms[i] == m;
      RestoredHere(put, t, ms, i);
    }
  }

  lemma SnapshotById(ms: seq<Memory>, id: Id) returns (m: Memory)
    requires id in Ids(ms)
    ensures m in ms && m.id == id
  {
    m :| m in ms && m.id == id;
  }

  lemma DistinctSnapshots(ms: seq<Memory>, a: Memory, b: Memory)
    requires Snapshots(ms) && a in ms && b in ms
    ensures a.id == b.id || SameKey(a, b) ==> a == b
  {
    var i :| 0 <= i < |ms| && ms[i] == a;
    var j :| 0 <= j < |ms| && ms[j] == b;
    if i < j {} else if j < i {}
  }

  lemma RestoredRows(put: Memory -> Memory, t: Table, ms: seq<Memory>)
    requires Snapshots(ms) && KeepsKeys(put, ms)
    requires forall m :: m in ms ==> Unclaimed(t, m)
    ensures var r := Restored(put, t, ms);
      && r.Keys == t.Keys + Ids(ms)
      && (forall id :: id in t && id !in Ids(ms) ==> r[id] == t[id])
      && (forall m :: m in ms ==> r[m.id] == put(m))
      && WellFormed(r)
  {
    RestoredShape(put, t, ms);
    var r := Restored(put, t, ms);
    forall id | id in r ensures r[id].id == id {
      if id in Ids(ms) {
        var m := SnapshotById(ms, id);
      }
    }
    forall a, b | a in r && b in r && SameKey(r[a], r[b]) ensures a == b {
      if a in Ids(ms) {
        var x := SnapshotById(ms, a);
        UnclaimedKey(t, x);
        if b in Ids(ms) {
          var y := SnapshotById(ms, b);
          DistinctSnapshots(ms, x, y);
        }
      } else if b in Ids(ms) {
        var y := SnapshotById(ms, b);
        UnclaimedKey(t, y);
      }
    }
  }

  lemma UnclaimedKey(t: Table, m: Memory)
    requires Unclaimed(t, m)
    ensures forall id :: id in t && id != m.id ==> !SameKey(t[id], m)
  {
    if o: Id :| o in t && SameKey(t[o], m) {
      OwnerIs(t, o);
    }
  }

  lemma PutIntoKeepsKeys(w: World, t: Table, ms: seq<Memory>)
    requires forall m :: m in ms ==> Restorable(t, m)
    ensures KeepsKeys(PutInto(w, t), ms)
  {
    forall m | m in ms ensures PutInto(w, t)(m).id == m.id && SameKey(PutInto(w, t)(m), m) {
      PutKey(w, t, m);
    }
  }

  lemma PutKey(w: World, t: Table, m: Memory)
    requires Restorable(t, m)
    ensures PutInto(w, t)(m).id == m.id && SameKey(PutInto(w, t)(m), m)
  {}

  lemma PutContent(w: World, t: Table, m: Memory)
    ensures PutInto(w, t)(m).content == m.content
  {}

  /** Who owns a later snapshot's key, and whether its id is there, is not changed by putting earlier ones back. */
  lemma OwnerWhileRestoring(put: Memory -> Memory, t: Table, ms: seq<Memory>, j: nat)
    requires Snapshots(ms) && j < |ms| && KeepsKeys(put, ms[..j])
    requires forall m :: m in ms[..j] ==> Unclaimed(t, m)
    requires Unclaimed(t, ms[j])
    ensures var m, r := ms[j], Restored(put, t, ms[..j]);
      && WellFormed(r)
      && Owner(r, m.title, m.namespace) == Owner(t, m.title, m.namespace)
      && (m.id in r <==> m.id in t)
      && (m.id in t ==> r[m.id] == t[m.id])
  {
    var m := ms[j];
    RestoredRows(put, t, ms[..j]);
    var r: Table := Restored(put, t, ms[..j]);
    forall x | x in ms[..j] ensures x.id != m.id && !SameKey(x, m) {
      var i :| 0 <= i < j && ms[i] == x;
    }
    forall id | id in Ids(ms[..j]) ensures id != m.id && !SameKey(r[id], m) {
      var x := SnapshotById(ms[..j], id);
    }
    assert m.id in t ==> r[m.id] == t[m.id];
    var o' := Owner(r, m.title, m.namespace);
    if o'.Some? {
      OwnerIs(t, o'.value);
    }
  }

  /** One more insert into a partly restored table. */
  lemma RestoreOne(w: World, t: Table, ms: seq<Memory>, j: nat)
    requires Snapshots(ms) && j < |ms|
    requires forall m :: m in ms[..j] ==> Restorable(t, m)
    requires Unclaimed(t, ms[j])
    ensures WellFormed(Restored(PutInto(w, t), t, ms[..j]))
    ensures Upsert(w, Restored(PutInto(w, t), t, ms[..j]), ms[j]) ==
            if Restorable(t, ms[j]) then Ok(Restored(PutInto(w, t), t, ms[..j + 1])) else Err(IdTaken)
  {
    PutIntoKeepsKeys(w, t, ms[..j]);
    OwnerWhileRestoring(PutInto(w, t), t, ms, j);
    assert ms[..j + 1][..j] == ms[..j];
  }

  /**
   * Inserting the snapshots stops after some prefix `ms[..i]` with exactly
   * that prefix put back; it only stops early on a failing statement or on an
   * id that is in use under another key.
   */
  lemma {:induction false} InsertAllStops(w: World, k: nat, db: Db, t: Table, ms: seq<Memory>, j: nat) returns (i: nat)
    requires Snapshots(ms) && j <= |ms|
    requires forall m :: m in ms ==> Unclaimed(t, m)
    requires forall m :: m in ms[..j] ==> Restorable(t, m)
    requires db.memories == Restored(PutInto(w, t), t, ms[..j])
    ensures j <= i <= |ms|
    ensures forall m :: m in ms[..i] ==> Restorable(t, m)
    ensures var s := InsertAll(w, k, db, ms[j..]);
      && s.db.links == db.links
      && s.db.memories == Restored(PutInto(w, t), t, ms[..i])
      && (s.value.Ok? ==> i == |ms|)
      && (s.value.Err? ==> i < |ms|)
      && (s.value.Err? ==> s.value.error == if w.fails(k + i - j) then Refused else IdTaken)
      && (s.value.Err? && !w.fails(k + i - j) ==> !Restorable(t, ms[i]))
    decreases |ms| - j
  {
    hide InsertRow, Restored, Restorable;

    if j == |ms| {
      i := j;
    } else {
      InsertOne(w, k, db, t, ms, j);
      if w.fails(k) || !Restorable(t, ms[j]) {
        i := j;
      } else {
        assert ms[..j + 1] == ms[..j] + [ms[j]];
        i := InsertAllStops(w, k + 1, InsertRow(w, k, db, ms[j]).db, t, ms, j + 1);
      }
    }
  }

  lemma InsertOne(w: World, k: nat, db: Db, t: Table, ms: seq<Memory>, j: nat)
    requires Snapshots(ms) && j < |ms|
    requires forall m :: m in ms[..j] ==> Restorable(t, m)
    requires Unclaimed(t, ms[j])
    requires db.memories == Restored(PutInto(w, t), t, ms[..j])
    ensures var s := InsertRow(w, k, db, ms[j]);
      && s.db.links == db.links
      && s.db.memories ==
         (if w.fails(k) || !Restorable(t, ms[j]) then db.memories else Restored(PutInto(w, t), t, ms[..j + 1]))
      && s.value ==
         (if w.fails(k) then Err(Refused) else if Restorable(t, ms[j]) then Ok(()) else Err(IdTaken))
      && InsertAll(w, k, db, ms[j..]) == (if s.value.Err? then s else InsertAll(w, k + 1, s.db, ms[j + 1..]))
  {
    hide WellFormed, PutInto, Restored, Restorable, Unclaimed, Upsert, Snapshots;
    RestoreOne(w, t, ms, j);
    assert ms[j..][1..] == ms[j + 1..];
  }

  lemma NothingRestored(put: Memory -> Memory, t: Table, ms: seq<Memory>)
    ensures Restored(put, t, ms[..0]) == t
  {}

  /** Inserting all snapshots, from the start. */
  lemma InsertAllOutcome(w: World, k: nat, db: Db, ms: seq<Memory>) returns (i: nat)
    requires Snapshots(ms)
    requires forall m :: m in ms ==> Unclaimed(db.memories, m)
    ensures i <= |ms|
    ensures forall m :: m in ms[..i] ==> Restorable(db.memories, m)
    ensures var s := InsertAll(w, k, db, ms);
      && s.db.links == db.links
      && s.db.memories == Restored(PutInto(w, db.memories), db.memories, ms[..i])
      && (s.value.Ok? ==> i == |ms| && ms[..i] == ms)
      && (s.value.Err? ==> i < |ms|)
      && (s.value.Err? ==> s.value.error == if w.fails(k + i) then Refused else IdTaken)
      && (s.value.Err? && !w.fails(k + i) ==> !Restorable(db.memories, ms[i]))
  {
    hide WellFormed, Restored, PutInto, Restorable, Unclaimed, InsertAll, Snapshots;
    NothingRestored(PutInto(w, db.memories), db.memories, ms);
    assert ms[..0] == [] && ms[0..] == ms;
    i := InsertAllStops(w, k, db, db.memories, ms, 0);
    if i == |ms| {
      assert ms[..i] == ms;
    }
  }

  predicate GuardHolds(w: World, k: nat, db: Db, ms: seq<Memory>, exact: bool, i: nat)
    requires i < |ms|
  {
    if w.fails(k + i) then exact && w.lookupHidesErrors
    else Offender(db.memories, w.now(k + i), ms[i], exact).None?
  }

  lemma {:induction false} GuardAllMeans(w: World, k: nat, db: Db, ms: seq<Memory>, exact: bool)
    ensures GuardAll(w, k, db, ms, exact).Ok? <==>
            forall i: nat :: i < |ms| ==> GuardHolds(w, k, db, ms, exact, i)
    decreases |ms|
  {
    if ms != [] {
      GuardAllMeans(w, k + 1, db, ms[1..], exact);
      assert Guard(w, k, db, ms[0], exact).Ok? <==> GuardHolds(w, k, db, ms, exact, 0);
      if GuardAll(w, k, db, ms, exact).Ok? {
        forall i: nat | i < |ms| ensures GuardHolds(w, k, db, ms, exact, i) {
          if i > 0 {
            assert GuardHolds(w, k + 1, db, ms[1..], exact, i - 1);
            assert k + 1 + (i - 1) == k + i;
          }
        }
      } else if Guard(w, k, db, ms[0], exact).Ok? {
        var i: nat :| i < |ms[1..]| && !GuardHolds(w, k + 1, db, ms[1..], exact, i);
        assert k + 1 + i == k + (i + 1);
        assert !GuardHolds(w, k, db, ms, exact, i + 1);
      }
    }
  }

  /** A lookup that fails unnoticed on a key another row owns. */
  predicate BlindAt(w: World, k: nat, t: Table, ms: seq<Memory>, i: nat)
    requires i < |ms|
  {
    w.lookupHidesErrors && w.fails(k + i) && !Unclaimed(t, ms[i])
  }

  predicate SomeBlind(w: World, k: nat, t: Table, ms: seq<Memory>) {
    exists i: nat :: i < |ms| && BlindAt(w, k, t, ms, i)
  }

  lemma PassedGuards(w: World, k: nat, db: Db, ms: seq<Memory>)
    requires GuardAll(w, k, db, ms, true).Ok?
    ensures (forall m :: m in ms ==> Unclaimed(db.memories, m)) <==> !SomeBlind(w, k, db.memories, ms)
  {
    GuardAllMeans(w, k, db, ms, true);
    forall i: nat | i < |ms| ensures BlindAt(w, k, db.memories, ms, i) <==> !Unclaimed(db.memories, ms[i]) {
      assert GuardHolds(w, k, db, ms, true, i);
    }
    hide Unclaimed;
    if !SomeBlind(w, k, db.memories, ms) {
      forall m | m in ms ensures Unclaimed(db.memories, m) {
        var i :| 0 <= i < |ms| && ms[i] == m;
        assert !BlindAt(w, k, db.memories, ms, i);
      }
    }
  }

  lemma NoBlindLookup(w: World, k: nat, t: Table, ms: seq<Memory>)
    requires NoFailures(w) || !w.lookupHidesErrors
    ensures !SomeBlind(w, k, t, ms)
  {}

  ghost predicate NoFailures(w: World) {
    forall k: nat :: !w.fails(k)
  }

  // ----- Refusals --------------------------------------------------------

  /** A reversal refused for a collision has changed nothing, in either twin. */
  lemma RefusalChangesNothing(w: World, k: nat, db: Db, entry: RollbackEntry, owner: Id)
    ensures ReverseSqlite(w, k, db, entry).value == Err(Collision(owner)) ==> ReverseSqlite(w, k, db, entry).db == db
    ensures ReverseStore(w, k, db, entry).value == Err(Collision(owner)) ==> ReverseStore(w, k, db, entry).db == db
  {
    hide WellFormed, Upsert, GuardAll, InsertAll, Offender, UndoMergeSqlite, UndoMergeStore, Without, CanonicalPair;
    if entry.ConsolidateEntry? {
      MergeRefusal(w, k, db, entry.originals, entry.resultId, owner);
    } else {
      hide Restore, InsertRow;
      forall m, j: nat, d {
        InsertNeverCollides(w, j, d, m);
      }
      forall j: nat, d, id, change {
        RestoreNeverCollides(w, j, d, id, change);
      }
    }
  }

  lemma MergeRefusal(w: World, k: nat, db: Db, originals: seq<Memory>, resultId: Id, owner: Id)
    ensures var s := UndoMergeSqlite(w, k, db, originals, resultId); s.value == Err(Collision(owner)) ==> s.db == db
    ensures var s := UndoMergeStore(w, k, db, originals, resultId); s.value == Err(Collision(owner)) ==> s.db == db
  {
    hide WellFormed, InsertAll, GuardAll, Without;
    var n := |originals|;
    var d := DeleteRow(w, k + n, db, resultId);
    InsertAllNeverCollides(w, k + n + 1, d.db, originals);
    InsertAllNeverCollides(w, k + n, db, originals);
  }

  lemma InsertNeverCollides(w: World, k: nat, db: Db, m: Memory)
    ensures var v := InsertRow(w, k, db, m).value; v.Err? ==> !v.error.Collision?
  {
    hide WellFormed, Upserted, Fresh;
  }

  lemma RestoreNeverCollides(w: World, k: nat, db: Db, id: Id, change: Memory -> Memory)
    ensures var v := Restore(w, k, db, id, change).value; v.Err? ==> !v.error.Collision?
  {
    hide WellFormed, InsertRow;
    if id in db.memories {
      InsertNeverCollides(w, k + 1, db, change(db.memories[id]));
    }
  }

  lemma {:induction false} InsertAllNeverCollides(w: World, k: nat, db: Db, ms: seq<Memory>)
    ensures var v := InsertAll(w, k, db, ms).value; v.Err? ==> !v.error.Collision?
    decreases |ms|
  {
    hide InsertRow;
    if ms != [] {
      InsertNeverCollides(w, k, db, ms[0]);
      InsertAllNeverCollides(w, k + 1, InsertRow(w, k, db, ms[0]).db, ms[1..]);
    }
  }

  // ----- Crash safety ----------------------------------------------------

  predicate AllBack(t: Table, ms: seq<Memory>) {
    forall m :: m in ms ==> m.id in t && SameKey(t[m.id], m) && t[m.id].content == m.content
  }

  /** The summary still there unchanged, or every original back with its content. */
  predicate NothingLost(db: Db, ms: seq<Memory>, resultId: Id, t: Table) {
    || (resultId in db.memories && resultId in t && t[resultId] == db.memories[resultId])
    || AllBack(t, ms)
  }

  /** Its statement can succeed: the key is owned, or the id is free. */
  predicate Storable(t: Table, m: Memory) {
    Owner(t, m.title, m.namespace).Some? || m.id !in t
  }

  /** Of the inserts from statement `k` on, one that goes through lands on the row `id`. */
  predicate Hits(w: World, k: nat, t: Table, ms: seq<Memory>, id: Id)
    decreases |ms|
  {
    && ms != [] && !w.fails(k) && Storable(t, ms[0])
    && (Owner(t, ms[0].title, ms[0].namespace) == Some(id) || Hits(w, k + 1, t, ms[1..], id))
  }

  /** Every insert from statement `k` on goes through. */
  predicate AllLand(w: World, k: nat, t: Table, ms: seq<Memory>)
    decreases |ms|
  {
    ms == [] || (!w.fails(k) && Storable(t, ms[0]) && AllLand(w, k + 1, t, ms[1..]))
  }

  /**
   * Crash safety of the store-backed reversal of a consolidation, exactly.
   * Whichever statement fails, nothing is lost as long as no lookup fails
   * unnoticed on a key that another row owns, or some guard refuses after
   * all. Failing that, nothing is lost iff an insert or the delete stops the
   * run before any insert lands on the summary itself.
   */
  lemma StoreReversalIsCrashSafe(w: World, k: nat, db: Db, originals: seq<Memory>, resultId: Id)
    requires Snapshots(originals) && resultId !in Ids(originals)
    requires resultId in db.memories
    ensures var t' := UndoMergeStore(w, k, db, originals, resultId).db.memories;
      var t, n := db.memories, |originals|;
      NothingLost(db, originals, resultId, t') <==>
        || !SomeBlind(w, k, t, originals)
        || (exists i: nat :: i < n && !GuardHolds(w, k, db, originals, true, i))
        || ((!AllLand(w, k + n, t, originals) || w.fails(k + n + n)) && !Hits(w, k + n, t, originals, resultId))
  {
    hide WellFormed, InsertAll, GuardAll, Unclaimed, AllBack, SomeBlind, Without, Hits, AllLand, GuardHolds;
    var n := |originals|;
    GuardAllMeans(w, k, db, originals, true);
    if GuardAll(w, k, db, originals, true).Ok? {
      PassedGuards(w, k, db, originals);
      AllLandMeans(w, k + n, db, originals);
      if !SomeBlind(w, k, db.memories, originals) {
        AfterReinserts(w, k + n, db, originals, resultId);
      } else {
        AfterBlindReinserts(w, k + n, db, originals, resultId);
      }
    }
  }

  lemma AllLandMeans(w: World, k: nat, db: Db, ms: seq<Memory>)
    requires Snapshots(ms)
    ensures InsertAll(w, k, db, ms).value.Ok? <==> AllLand(w, k, db.memories, ms)
  {
    hide WellFormed, Snapshots, InsertAll, AllLand, Owner;
    LandStep(w, k, db, db.memories, ms);
  }

  lemma {:induction false} LandStep(w: World, k: nat, db: Db, t: Table, ms: seq<Memory>)
    requires Snapshots(ms) && TakenAlike(t, db.memories, ms)
    ensures InsertAll(w, k, db, ms).value.Ok? <==> AllLand(w, k, t, ms)
    decreases |ms|
  {
    hide WellFormed, InsertRow, Storable, Snapshots, TakenAlike;
    if ms != [] {
      var one := InsertRow(w, k, db, ms[0]);
      FirstLands(w, k, db, t, ms);
      if one.value.Ok? {
        TailSnapshots(ms);
        LandStep(w, k + 1, one.db, t, ms[1..]);
      }
    }
  }

  predicate KeysFreeOf(t: Table, ms: seq<Memory>, id: Id) {
    forall m :: m in ms ==> Owner(t, m.title, m.namespace) != Some(id)
  }

  lemma AfterBlindReinserts(w: World, k: nat, db: Db, ms: seq<Memory>, resultId: Id)
    requires Snapshots(ms) && resultId !in Ids(ms) && resultId in db.memories
    requires exists m :: m in ms && !Unclaimed(db.memories, m)
    ensures var s := InsertAll(w, k, db, ms);
      && resultId in s.db.memories
      && (s.db.memories[resultId] == db.memories[resultId] <==> !Hits(w, k, db.memories, ms, resultId))
      && (s.value.Ok? ==> !AllBack(s.db.memories, ms) && !AllBack(Without(s.db, {resultId}).memories, ms))
      && (Hits(w, k, db.memories, ms, resultId) ==> !AllBack(s.db.memories, ms))
    ensures resultId !in Without(InsertAll(w, k, db, ms).db, {resultId}).memories
  {
    hide WellFormed, InsertAll, Owner, Hits;
    InsertAllFrame(w, k, db, ms);
    HitRow(w, k, db, db.memories, ms, resultId);
    var s := InsertAll(w, k, db, ms);
    WithoutParts(s.db, db, {resultId});
    var m :| m in ms && !Unclaimed(db.memories, m);
    ClaimedIsLost(db.memories, ms, s.value.Ok?, s.db.memories, m, resultId);
    if Hits(w, k, db.memories, ms, resultId) {
      var x := HitSnapshot(w, k, db.memories, ms, resultId);
      assert x.id in Ids(ms);
      ClaimedIsLost(db.memories, ms, s.value.Ok?, s.db.memories, x, resultId);
    }
  }

  /** A snapshot whose key another row owned is not back, with or without the summary. */
  lemma ClaimedIsLost(t: Table, ms: seq<Memory>, ok: bool, t': Table, m: Memory, resultId: Id)
    requires Inserted(t, ms, ok, t') && m in ms && !Unclaimed(t, m)
    ensures !AllBack(t', ms) && !AllBack(t' - {resultId}, ms)
  {
    var o := Owner(t, m.title, m.namespace).value;
    OwnerHasKey(t, m);
    NotBack(t', m, o, resultId);
    hide AllBack, WellFormed, Owner;
    LostMember(t', ms, m);
    LostMember(t' - {resultId}, ms, m);
  }

  lemma {:induction false} HitSnapshot(w: World, k: nat, t: Table, ms: seq<Memory>, id: Id) returns (m: Memory)
    requires Hits(w, k, t, ms, id)
    ensures m in ms && Owner(t, m.title, m.namespace) == Some(id)
    decreases |ms|
  {
    hide WellFormed, Owner;
    if Owner(t, ms[0].title, ms[0].namespace) == Some(id) {
      m := ms[0];
    } else {
      m := HitSnapshot(w, k + 1, t, ms[1..], id);
    }
  }

  /** The keys and ids of the snapshots are taken alike in both tables. */
  predicate TakenAlike(a: Table, b: Table, ms: seq<Memory>) {
    forall m :: m in ms ==>
      Owner(a, m.title, m.namespace) == Owner(b, m.title, m.namespace) && (m.id in a <==> m.id in b)
  }

  /** A row changes, and its version rises, iff an insert lands on it. */
  lemma {:induction false} HitRow(w: World, k: nat, db: Db, t: Table, ms: seq<Memory>, id: Id)
    requires Snapshots(ms) && id in db.memories && TakenAlike(t, db.memories, ms)
    ensures var t' := InsertAll(w, k, db, ms).db.memories;
      && id in t'
      && db.memories[id].version <= t'[id].version
      && (Hits(w, k, t, ms, id) ==> db.memories[id].version < t'[id].version)
      && (!Hits(w, k, t, ms, id) ==> t'[id] == db.memories[id])
    decreases |ms|
  {
    hide WellFormed, InsertRow, Owner, Snapshots, TakenAlike;
    if ms != [] {
      var one := InsertRow(w, k, db, ms[0]);
      FirstHit(w, k, db, t, ms, id);
      if one.value.Ok? {
        TailSnapshots(ms);
        HitRow(w, k + 1, one.db, t, ms[1..], id);
        if Hits(w, k, t, ms, id) && Owner(t, ms[0].title, ms[0].namespace) == Some(id) {
          assert db.memories[id].version < one.db.memories[id].version;
        }
      }
    }
  }

  lemma FirstLands(w: World, k: nat, db: Db, t: Table, ms: seq<Memory>)
    requires ms != [] && Snapshots(ms) && TakenAlike(t, db.memories, ms)
    ensures var one := InsertRow(w, k, db, ms[0]);
      && (one.value.Ok? <==> !w.fails(k) && Storable(t, ms[0]))
      && (one.value.Err? ==> one.db == db)
      && (one.value.Ok? ==> TakenAlike(t, one.db.memories, ms[1..]))
  {
    hide WellFormed;
    assert ms[0] in ms;
    var one := InsertRow(w, k, db, ms[0]);
    FirstInserted(w, k, db, ms);
    if one.value.Ok? {
      TailSnapshots(ms);
      hide Owner, InsertRow, Snapshots;
      forall m | m in ms[1..]
        ensures Owner(t, m.title, m.namespace) == Owner(one.db.memories, m.title, m.namespace)
        ensures m.id in t <==> m.id in one.db.memories
      {
        assert m in ms;
        OtherOwners(db.memories, ms[0], one.db.memories, m);
        OwnerHasKey(db.memories, ms[0]);
      }
    }
  }

  lemma FirstHit(w: World, k: nat, db: Db, t: Table, ms: seq<Memory>, id: Id)
    requires ms != [] && Snapshots(ms) && id in db.memories && TakenAlike(t, db.memories, ms)
    ensures var one := InsertRow(w, k, db, ms[0]);
      && (one.value.Ok? <==> !w.fails(k) && Storable(t, ms[0]))
      && (one.value.Err? ==> one.db == db)
      && id in one.db.memories
      && (one.value.Ok? && Owner(t, ms[0].title, ms[0].namespace) == Some(id) ==>
            one.db.memories[id].version == db.memories[id].version + 1)
      && (Owner(t, ms[0].title, ms[0].namespace) != Some(id) ==> one.db.memories[id] == db.memories[id])
      && (one.value.Ok? ==> TakenAlike(t, one.db.memories, ms[1..]))
  {
    hide WellFormed;
    assert ms[0] in ms;
    FirstLands(w, k, db, t, ms);
    hide Snapshots, TakenAlike, Storable;
  }

  lemma OwnerHasKey(t: Table, m: Memory)
    ensures var o := Owner(t, m.title, m.namespace); o.Some? ==> o.value in t && SameKey(t[o.value], m)
  {}

  lemma NotBack(t: Table, m: Memory, o: Id, resultId: Id)
    requires o in t && SameKey(t[o], m) && o != m.id
    ensures m.id in t - {resultId} ==> !SameKey(t[m.id], m)
  {}

  lemma LostMember(t: Table, ms: seq<Memory>, m: Memory)
    requires m in ms && (m.id in t ==> !SameKey(t[m.id], m))
    ensures !AllBack(t, ms)
  {
    hide WellFormed;
  }

  // ----- Inserting over rows that own the keys ---------------------------

  /** What inserting snapshots does to the rows that are there, however it ends. */
  ghost predicate Inserted(t: Table, ms: seq<Memory>, ok: bool, t': Table) {
    && t.Keys <= t'.Keys
    && (forall id :: id in t ==> SameKey(t'[id], t[id]))
    && (forall id :: id in t && KeysFreeOf(t, ms, id) ==> t'[id] == t[id])
    && (forall id :: id in t' && id !in t ==> exists m :: m in ms && m.id == id && Owner(t, m.title, m.namespace).None?)
    && (ok ==> forall m :: m in ms ==> Stored(t', m))
  }

  /** Some row has the snapshot's key and content. */
  predicate Stored(t: Table, m: Memory) {
    var o := Owner(t, m.title, m.namespace);
    o.Some? && t[o.value].content == m.content
  }

  lemma {:induction false} InsertAllFrame(w: World, k: nat, db: Db, ms: seq<Memory>)
    requires Snapshots(ms)
    ensures var s := InsertAll(w, k, db, ms);
      s.db.links == db.links && Inserted(db.memories, ms, s.value.Ok?, s.db.memories)
    decreases |ms|
  {
    hide WellFormed, Inserted, InsertRow, Snapshots;
    if ms == [] {
      NothingInserted(db.memories);
    } else {
      var one := InsertRow(w, k, db, ms[0]);
      FirstInserted(w, k, db, ms);
      if one.value.Ok? {
        TailSnapshots(ms);
        InsertAllFrame(w, k + 1, one.db, ms[1..]);
        var s := InsertAll(w, k + 1, one.db, ms[1..]);
        InsertedThenMore(db.memories, ms, one.db.memories, s.value.Ok?, s.db.memories);
      } else {
        FewerInserted(db.memories, ms);
      }
    }
  }

  lemma TailSnapshots(ms: seq<Memory>)
    requires Snapshots(ms) && ms != []
    ensures Snapshots(ms[1..])
    ensures forall m :: m in ms[1..] ==> !SameKey(m, ms[0]) && m.id != ms[0].id
  {
    forall m | m in ms[1..] ensures !SameKey(m, ms[0]) && m.id != ms[0].id {
      var i :| 0 <= i < |ms[1..]| && ms[1..][i] == m;
      assert ms[i + 1] == m;
    }
  }

  lemma NothingInserted(t: Table)
    ensures Inserted(t, [], true, t)
  {
    hide WellFormed;
  }

  lemma FewerInserted(t: Table, ms: seq<Memory>)
    ensures Inserted(t, ms, false, t)
  {
    hide WellFormed;
  }

  /** What one insert does. */
  lemma FirstInserted(w: World, k: nat, db: Db, ms: seq<Memory>)
    requires ms != []
    ensures var one := InsertRow(w, k, db, ms[0]);
      && one.db.links == db.links
      && (one.value.Err? ==> one.db == db)
      && (one.value.Ok? ==> PutOne(db.memories, ms[0], one.db.memories))
  {
    var one := InsertRow(w, k, db, ms[0]);
    if one.value.Ok? {
      var o := Owner(db.memories, ms[0].title, ms[0].namespace);
      var slot := if o.Some? then o.value else ms[0].id;
      assert SameKey(one.db.memories[slot], ms[0]);
      OwnerIs(one.db.memories, slot);
    }
  }

  /** The row that owns the key, or else a new one, now has the snapshot's key and content; no other changes. */
  predicate PutOne(t: Table, m: Memory, t': Table) {
    var o := Owner(t, m.title, m.namespace);
    var slot := if o.Some? then o.value else m.id;
    && t'.Keys == t.Keys + {slot}
    && (o.None? ==> m.id !in t)
    && Owner(t', m.title, m.namespace) == Some(slot)
    && t'[slot].content == m.content
    && forall id :: id in t && id != slot ==> t'[id] == t[id]
  }

  /** Keys other than the one put are owned as before. */
  lemma OtherOwners(t: Table, m: Memory, t': Table, other: Memory)
    requires PutOne(t, m, t') && !SameKey(m, other)
    ensures Owner(t', other.title, other.namespace) == Owner(t, other.title, other.namespace)
  {
    var o := Owner(t, other.title, other.namespace);
    var slot := Owner(t', m.title, m.namespace).value;
    if o.Some? {
      assert o.value != slot && t'[o.value] == t[o.value];
      OwnerIs(t', o.value);
    } else {
      forall id | id in t' ensures !SameKey(t'[id], other) {
        if id != slot {
          assert t'[id] == t[id];
        }
      }
    }
  }

  lemma InsertedThenMore(t: Table, ms: seq<Memory>, t1: Table, ok: bool, t2: Table)
    requires ms != [] && forall m :: m in ms[1..] ==> !SameKey(m, ms[0]) && m.id != ms[0].id
    requires PutOne(t, ms[0], t1) && Inserted(t1, ms[1..], ok, t2)
    ensures Inserted(t, ms, ok, t2)
  {
    hide WellFormed, Owner, SameKey;
    var slot := Owner(t1, ms[0].title, ms[0].namespace).value;
    assert ms == [ms[0]] + ms[1..];
    RestOwners(t, ms, t1, slot);
    SlotKey(t, ms[0], t1, slot);
    FirstStays(t1, ms[0], slot, t2);
    KeysStay(t, t1, t2, slot);
    RowsStay(t, ms, t1, ok, t2, slot);
    NewRowsAreSnapshots(t, ms, t1, ok, t2, slot);
  }

  /** The rest's keys are owned as before, and not by the row just put. */
  lemma RestOwners(t: Table, ms: seq<Memory>, t1: Table, slot: Id)
    requires ms != [] && forall m :: m in ms[1..] ==> !SameKey(m, ms[0])
    requires PutOne(t, ms[0], t1) && Owner(t1, ms[0].title, ms[0].namespace) == Some(slot)
    ensures forall m :: m in ms[1..] ==> Owner(t1, m.title, m.namespace) == Owner(t, m.title, m.namespace)
    ensures KeysFreeOf(t1, ms[1..], slot)
  {
    hide WellFormed, Owner, PutOne;
    OwnerHasKey(t1, ms[0]);
    forall m | m in ms[1..]
      ensures Owner(t1, m.title, m.namespace) == Owner(t, m.title, m.namespace)
      ensures Owner(t1, m.title, m.namespace) != Some(slot)
    {
      OtherOwners(t, ms[0], t1, m);
      OwnerHasKey(t1, m);
    }
  }

  lemma SlotKey(t: Table, m: Memory, t1: Table, slot: Id)
    requires PutOne(t, m, t1) && Owner(t1, m.title, m.namespace) == Some(slot)
    ensures slot in t ==> SameKey(t1[slot], t[slot])
  {
    hide WellFormed, Owner;
    OwnerHasKey(t, m);
    OwnerHasKey(t1, m);
  }

  lemma KeysStay(t: Table, t1: Table, t2: Table, slot: Id)
    requires t.Keys <= t1.Keys <= t2.Keys
    requires forall id :: id in t && id != slot ==> t1[id] == t[id]
    requires slot in t ==> SameKey(t1[slot], t[slot])
    requires forall id :: id in t1 ==> SameKey(t2[id], t1[id])
    ensures forall id :: id in t ==> SameKey(t2[id], t[id])
  {
    hide WellFormed;
  }

  lemma RowsStay(t: Table, ms: seq<Memory>, t1: Table, ok: bool, t2: Table, slot: Id)
    requires ms != [] && PutOne(t, ms[0], t1) && Owner(t1, ms[0].title, ms[0].namespace) == Some(slot)
    requires Inserted(t1, ms[1..], ok, t2)
    requires forall m :: m in ms[1..] ==> Owner(t1, m.title, m.namespace) == Owner(t, m.title, m.namespace)
    ensures forall id :: id in t && KeysFreeOf(t, ms, id) ==> t2[id] == t[id]
  {
    hide WellFormed, Owner, SameKey, Stored;
    forall id | id in t && KeysFreeOf(t, ms, id) ensures t2[id] == t[id] {
      assert ms[0] in ms && forall m :: m in ms[1..] ==> m in ms;
      assert KeysFreeOf(t1, ms[1..], id);
    }
  }

  lemma NewRowsAreSnapshots(t: Table, ms: seq<Memory>, t1: Table, ok: bool, t2: Table, slot: Id)
    requires ms != [] && PutOne(t, ms[0], t1) && Owner(t1, ms[0].title, ms[0].namespace) == Some(slot)
    requires Inserted(t1, ms[1..], ok, t2)
    requires forall m :: m in ms[1..] ==> Owner(t1, m.title, m.namespace) == Owner(t, m.title, m.namespace)
    ensures forall id :: id in t2 && id !in t ==>
              exists m :: m in ms && m.id == id && Owner(t, m.title, m.namespace).None?
  {
    OwnerHasKey(t, ms[0]);
    hide WellFormed, Owner, SameKey, Stored;
    forall id | id in t2 && id !in t
      ensures exists m :: m in ms && m.id == id && Owner(t, m.title, m.namespace).None?
    {
      if id in t1 {
        assert ms[0] in ms && ms[0].id == id;
      } else {
        var m :| m in ms[1..] && m.id == id && Owner(t1, m.title, m.namespace).None?;
        assert m in ms;
      }
    }
  }

  /** A row nobody else's key leads to keeps what the first insert put there. */
  lemma FirstStays(t1: Table, first: Memory, slot: Id, t2: Table)
    requires Owner(t1, first.title, first.namespace) == Some(slot)
    ensures slot in t2 && t2[slot] == t1[slot] && t1[slot].content == first.content ==> Stored(t2, first)
  {
    OwnerHasKey(t1, first);
    if slot in t2 && t2[slot] == t1[slot] {
      OwnerIs(t2, slot);
    }
  }

  lemma AfterReinserts(w: World, k: nat, db: Db, originals: seq<Memory>, resultId: Id)
    requires Snapshots(originals) && resultId !in Ids(originals)
    requires resultId in db.memories
    requires forall m :: m in originals ==> Unclaimed(db.memories, m)
    ensures var s := InsertAll(w, k, db, originals);
      && resultId in s.db.memories && s.db.memories[resultId] == db.memories[resultId]
      && (s.value.Ok? ==> AllBack(s.db.memories, originals) && AllBack(Without(s.db, {resultId}).memories, originals))
  {
    hide WellFormed, InsertAll, Restored, PutInto, Restorable, Owner;
    var i := InsertAllOutcome(w, k, db, originals);
    PutIntoKeepsKeys(w, db.memories, originals[..i]);
    RestoredRows(PutInto(w, db.memories), db.memories, originals[..i]);
    assert Ids(originals[..i]) <= Ids(originals);
    if i == |originals| {
      assert originals[..i] == originals;
      var t := InsertAll(w, k, db, originals).db.memories;
      forall m | m in originals
        ensures m.id in t && m.id != resultId && SameKey(t[m.id], m) && t[m.id].content == m.content
      {
        assert m.id in Ids(originals);
        PutKey(w, db.memories, m);
        PutContent(w, db.memories, m);
      }
    }
  }

  /** No statement from number `from` up to `to` fails. */
  predicate NoneFail(w: World, from: nat, to: nat) {
    forall i :: from <= i < to ==> !w.fails(i)
  }

  /**
   * The rusqlite reversal, which deletes first, is not: from the table a
   * hard-deleting consolidation leaves, it keeps the summary or brings all
   * originals back iff some statement up to the delete fails or none of the
   * reinserts does. A failing reinsert leaves neither.
   */
  lemma SqliteReversalIsSafeIff(w: World, k: nat, db: Db, originals: seq<Memory>, resultId: Id)
    requires Snapshots(originals) && resultId !in Ids(originals)
    requires resultId in db.memories
    requires forall m :: m in originals ==> m.id !in db.memories && Owner(db.memories, m.title, m.namespace).None?
    ensures var n := |originals|;
      var t := UndoMergeSqlite(w, k, db, originals, resultId).db.memories;
      (resultId in t && t[resultId] == db.memories[resultId]) || AllBack(t, originals) <==>
        !NoneFail(w, k, k + n + 1) || NoneFail(w, k + n + 1, k + n + 1 + n)
  {
    hide WellFormed, InsertAll, GuardAll, AllBack, Owner;
    var n := |originals|;
    FreeGuards(w, k, db, originals);
    if GuardAll(w, k, db, originals, false).Ok? && !w.fails(k + n) {
      AfterDelete(w, k + n + 1, db, originals, resultId);
    }
  }

  /** With no key owned, the guards fail only on a failing statement. */
  lemma FreeGuards(w: World, k: nat, db: Db, ms: seq<Memory>)
    requires forall m :: m in ms ==> Owner(db.memories, m.title, m.namespace).None?
    ensures GuardAll(w, k, db, ms, false).Ok? <==> NoneFail(w, k, k + |ms|)
  {
    hide WellFormed, GuardAll, Owner;
    GuardAllMeans(w, k, db, ms, false);
    forall i: nat | i < |ms| ensures GuardHolds(w, k, db, ms, false, i) <==> !w.fails(k + i) {
      assert ms[i] in ms;
    }
    if GuardAll(w, k, db, ms, false).Ok? {
      forall i | k <= i < k + |ms| ensures !w.fails(i) {
        assert GuardHolds(w, k, db, ms, false, i - k);
      }
    }
  }

  lemma AfterDelete(w: World, k: nat, db: Db, ms: seq<Memory>, resultId: Id)
    requires Snapshots(ms) && resultId !in Ids(ms) && resultId in db.memories
    requires forall m :: m in ms ==> m.id !in db.memories && Owner(db.memories, m.title, m.namespace).None?
    ensures var t := InsertAll(w, k, Without(db, {resultId}), ms).db.memories;
      && resultId !in t
      && (AllBack(t, ms) <==> NoneFail(w, k, k + |ms|))
  {
    var deleted := Without(db, {resultId});
    forall m | m in ms
      ensures Restorable(deleted.memories, m) && Unclaimed(deleted.memories, m) && m.id !in deleted.memories
    {
      RestorableWithout(w, db.memories, resultId, m);
    }
    hide WellFormed, Owner, Without, Restorable, Unclaimed, AllBack, InsertAll, InsertRow, PutInto, Restored, SameKey;
    var i := InsertAllOutcome(w, k, deleted, ms);
    InsertedOk(w, k, deleted, ms);
    var t := InsertAll(w, k, deleted, ms).db.memories;
    NotThere(PutInto(w, deleted.memories), deleted.memories, ms, i, resultId, t);
    if i == |ms| {
      BackAfter(w, deleted.memories, ms, t);
    } else {
      MissingAfter(PutInto(w, deleted.memories), deleted.memories, ms, i, t);
    }
  }

  lemma NotThere(put: Memory -> Memory, t: Table, ms: seq<Memory>, i: nat, id: Id, t': Table)
    requires i <= |ms| && id !in t && id !in Ids(ms)
    requires t' == Restored(put, t, ms[..i])
    ensures id !in t'
  {
    hide WellFormed, Restored;
    RestoredElsewhere(put, t, ms[..i], id);
    assert Ids(ms[..i]) <= Ids(ms);
  }

  lemma {:induction false} InsertedOk(w: World, k: nat, db: Db, ms: seq<Memory>)
    ensures InsertAll(w, k, db, ms).value.Ok? ==> NoneFail(w, k, k + |ms|)
    decreases |ms|
  {
    hide WellFormed, Upsert;
    if ms != [] {
      InsertedOk(w, k + 1, InsertRow(w, k, db, ms[0]).db, ms[1..]);
    }
  }

  lemma BackAfter(w: World, t: Table, ms: seq<Memory>, t': Table)
    requires Snapshots(ms) && forall m :: m in ms ==> Restorable(t, m)
    requires t' == Restored(PutInto(w, t), t, ms)
    ensures AllBack(t', ms)
  {
    hide WellFormed, PutInto, Restorable, Restored;
    RestoredShape(PutInto(w, t), t, ms);
    forall m | m in ms ensures m.id in t' && SameKey(t'[m.id], m) && t'[m.id].content == m.content {
      assert m.id in Ids(ms);
      PutKey(w, t, m);
      PutContent(w, t, m);
    }
  }

  lemma MissingAfter(put: Memory -> Memory, t: Table, ms: seq<Memory>, i: nat, t': Table)
    requires Snapshots(ms) && i < |ms| && ms[i].id !in t
    requires t' == Restored(put, t, ms[..i])
    ensures !AllBack(t', ms)
  {
    hide WellFormed, Restored, SameKey;
    RestoredElsewhere(put, t, ms[..i], ms[i].id);
    forall m | m in ms[..i] ensures m.id != ms[i].id {
      var j :| 0 <= j < i && ms[j] == m;
    }
    assert ms[i] in ms;
  }

  // ----- Re-running after a stop -----------------------------------------

  /** What storing a snapshot once more does to the row it left. */
  lemma UpsertAgain(w: World, row: Memory, m: Memory)
    requires row == Fresh(w, m) || (exists prior :: row == Upserted(w, prior, m))
    ensures Upserted(w, row, m) == Again(row)
  {
    if prior :| row == Upserted(w, prior, m) {
      assert Upserted(w, row, m).metadata == row.metadata;
    } else {
      assert Upserted(w, row, m).metadata == row.metadata;
    }
  }

  /** The mark a second reinsert leaves: the version counter, and no expiry on long-tier rows. */
  function Again(row: Memory): Memory {
    row.(version := row.version + 1, expiresAt := if row.tier.Long? then None else row.expiresAt)
  }

  // ----- The table a completed reversal leaves ---------------------------

  /** Snapshots put back, summary and its edges gone, everything else as it was. */
  ghost predicate Reversed(put: Memory -> Memory, db: Db, ms: seq<Memory>, resultId: Id, db': Db) {
    && db'.memories.Keys == db.memories.Keys + Ids(ms) - {resultId}
    && (forall id :: id in db'.memories && id !in Ids(ms) ==> db'.memories[id] == db.memories[id])
    && (forall m :: m in ms ==> m.id in db'.memories && db'.memories[m.id] == put(m))
    && db'.links == Without(db, {resultId}).links
  }

  lemma ReversedOnce(put: Memory -> Memory, db: Db, ms: seq<Memory>, resultId: Id, a: Db, b: Db)
    requires Reversed(put, db, ms, resultId, a) && Reversed(put, db, ms, resultId, b)
    ensures a == b
  {
    forall id | id in a.memories ensures a.memories[id] == b.memories[id] {
      if id in Ids(ms) {
        var m := SnapshotById(ms, id);
      }
    }
    assert a.memories == b.memories;
  }

  /** Snapshots put back and nothing else changed. */
  ghost predicate Reinserted(put: Memory -> Memory, db: Db, ms: seq<Memory>, db': Db) {
    && db'.memories.Keys == db.memories.Keys + Ids(ms)
    && (forall id :: id in db.memories && id !in Ids(ms) ==> db'.memories[id] == db.memories[id])
    && (forall m :: m in ms ==> m.id in db'.memories && db'.memories[m.id] == put(m))
    && db'.links == db.links
  }

  lemma ReinsertsComplete(w: World, k: nat, db: Db, ms: seq<Memory>)
    requires Snapshots(ms) && NoFailures(w)
    requires forall m :: m in ms ==> Restorable(db.memories, m)
    ensures InsertAll(w, k, db, ms).value.Ok?
    ensures Reinserted(PutInto(w, db.memories), db, ms, InsertAll(w, k, db, ms).db)
  {
    assert forall m :: m in ms ==> Unclaimed(db.memories, m);
    hide PutInto, Restorable, InsertRow, InsertAll, WellFormed, Restored, SameKey, Unclaimed;
    hide Reinserted;
    var i := InsertAllOutcome(w, k, db, ms);
    RestoredIsReinserted(PutInto(w, db.memories), db, ms, InsertAll(w, k, db, ms).db);
  }

  lemma RestoredIsReinserted(put: Memory -> Memory, db: Db, ms: seq<Memory>, db': Db)
    requires Snapshots(ms)
    requires db'.memories == Restored(put, db.memories, ms) && db'.links == db.links
    ensures Reinserted(put, db, ms, db')
  {
    hide WellFormed, Restored, SameKey;
    RestoredShape(put, db.memories, ms);
    assert forall m :: m in ms ==> m.id in Ids(ms);
  }

  lemma GuardsPass(w: World, k: nat, db: Db, ms: seq<Memory>, exact: bool)
    requires NoFailures(w)
    requires forall m :: m in ms ==> Unclaimed(db.memories, m)
    ensures GuardAll(w, k, db, ms, exact).Ok?
  {
    GuardAllMeans(w, k, db, ms, exact);
    forall i: nat | i < |ms| ensures GuardHolds(w, k, db, ms, exact, i) {
      assert ms[i] in ms && !w.fails(k + i);
    }
  }

  lemma WithoutParts(a: Db, b: Db, ids: set<Id>)
    ensures Without(a, ids).memories == a.memories - ids
    ensures a.links == b.links ==> Without(a, ids).links == Without(b, ids).links
  {
    hide WellFormed;
  }

  /** Deleting the summary last, or first. */
  lemma DeleteLast(put: Memory -> Memory, db: Db, ms: seq<Memory>, resultId: Id, db': Db)
    requires resultId !in Ids(ms) && Reinserted(put, db, ms, db')
    ensures Reversed(put, db, ms, resultId, Without(db', {resultId}))
    ensures resultId in db'.memories <==> resultId in db.memories
  {
    hide WellFormed, Without;
    WithoutParts(db', db, {resultId});
    assert forall m :: m in ms ==> m.id in Ids(ms);
  }

  lemma DeleteFirst(put: Memory -> Memory, db: Db, ms: seq<Memory>, resultId: Id, db': Db)
    requires resultId !in Ids(ms) && Reinserted(put, Without(db, {resultId}), ms, db')
    ensures Reversed(put, db, ms, resultId, db')
  {
    hide WellFormed;
  }

  /** Column by column: an original whose row was gone is a new row, one still there is stored over. */
  ghost predicate OriginalsBack(w: World, before: Table, ms: seq<Memory>, after: Table) {
    forall m :: m in ms ==>
      && m.id in after
      && (m.id !in before ==> InsertedFrom(w, after[m.id], m))
      && (m.id in before ==> MergedFrom(w, after[m.id], before[m.id], m))
  }

  lemma ReversedColumns(w: World, db: Db, ms: seq<Memory>, resultId: Id, db': Db)
    requires Reversed(PutInto(w, db.memories), db, ms, resultId, db')
    ensures OriginalsBack(w, db.memories, ms, db'.memories)
  {
    forall m | m in ms
      ensures m.id !in db.memories ==> InsertedFrom(w, PutInto(w, db.memories)(m), m)
      ensures m.id in db.memories ==> MergedFrom(w, PutInto(w, db.memories)(m), db.memories[m.id], m)
    {
      PutColumns(w, db.memories, m);
    }
    hide WellFormed, PutInto, InsertedFrom, MergedFrom;
  }

  lemma PutColumns(w: World, t: Table, m: Memory)
    ensures m.id !in t ==> InsertedFrom(w, PutInto(w, t)(m), m)
    ensures m.id in t ==> MergedFrom(w, PutInto(w, t)(m), t[m.id], m)
  {
    FreshColumns(w, m);
    if m.id in t {
      UpsertedColumns(w, t[m.id], m);
    }
    hide InsertedFrom, MergedFrom, Fresh, Upserted, WellFormed;
  }

  lemma StoreReversalCompletes(w: World, k: nat, db: Db, ms: seq<Memory>, resultId: Id)
    requires Snapshots(ms) && NoFailures(w) && resultId !in Ids(ms)
    requires forall m :: m in ms ==> Restorable(db.memories, m)
    ensures var r := UndoMergeStore(w, k, db, ms, resultId);
      && r.value == Ok(resultId in db.memories)
      && Reversed(PutInto(w, db.memories), db, ms, resultId, r.db)
      && OriginalsBack(w, db.memories, ms, r.db.memories)
  {
    hide PutInto, InsertRow, GuardAll, InsertAll, WellFormed, Reversed, Reinserted, OriginalsBack;
    var n := |ms|;
    GuardsPass(w, k, db, ms, true);
    hide Restorable;
    ReinsertsComplete(w, k + n, db, ms);
    var s := InsertAll(w, k + n, db, ms);
    assert !w.fails(k + n + n);
    DeleteLast(PutInto(w, db.memories), db, ms, resultId, s.db);
    ReversedColumns(w, db, ms, resultId, UndoMergeStore(w, k, db, ms, resultId).db);
  }

  lemma SqliteReversalCompletes(w: World, k: nat, db: Db, ms: seq<Memory>, resultId: Id)
    requires Snapshots(ms) && NoFailures(w) && resultId !in Ids(ms)
    requires forall m :: m in ms ==> Restorable(db.memories, m)
    ensures var r := UndoMergeSqlite(w, k, db, ms, resultId);
      && r.value == Ok(resultId in db.memories)
      && Reversed(PutInto(w, db.memories), db, ms, resultId, r.db)
      && OriginalsBack(w, db.memories, ms, r.db.memories)
  {
    hide PutInto, InsertRow, GuardAll, InsertAll, WellFormed, Reversed, Reinserted, OriginalsBack;
    var n := |ms|;
    GuardsPass(w, k, db, ms, false);
    hide Restorable;
    assert !w.fails(k + n);
    var deleted := Without(db, {resultId});
    forall m | m in ms
      ensures Restorable(deleted.memories, m) && PutInto(w, deleted.memories)(m) == PutInto(w, db.memories)(m)
    {
      assert m.id in Ids(ms);
      RestorableWithout(w, db.memories, resultId, m);
    }
    ReinsertsComplete(w, k + n + 1, deleted, ms);
    var s := InsertAll(w, k + n + 1, deleted, ms);
    SamePut(PutInto(w, deleted.memories), PutInto(w, db.memories), deleted, ms, s.db);
    DeleteFirst(PutInto(w, db.memories), db, ms, resultId, s.db);
    ReversedColumns(w, db, ms, resultId, UndoMergeSqlite(w, k, db, ms, resultId).db);
  }

  lemma SamePut(a: Memory -> Memory, b: Memory -> Memory, db: Db, ms: seq<Memory>, db': Db)
    requires Reinserted(a, db, ms, db')
    requires forall m :: m in ms ==> a(m) == b(m)
    ensures Reinserted(b, db, ms, db')
  {
    hide WellFormed;
  }

  lemma RestorableWithout(w: World, t: Table, id: Id, m: Memory)
    requires Restorable(t, m) && m.id != id
    ensures Restorable(t - {id}, m)
    ensures PutInto(w, t - {id})(m) == PutInto(w, t)(m)
  {
    var t': Table := t - {id};
    var o := Owner(t, m.title, m.namespace);
    if o.Some? {
      OwnerIs(t', m.id);
    } else {
      assert forall x :: x in t' ==> x in t && t'[x] == t[x];
    }
  }

  /** A reversal succeeds iff every snapshot is restorable. */
  lemma StoreReversalSucceeds(w: World, k: nat, db: Db, ms: seq<Memory>, resultId: Id)
    requires Snapshots(ms) && NoFailures(w) && resultId !in Ids(ms)
    ensures UndoMergeStore(w, k, db, ms, resultId).value.Ok? <==>
            forall m :: m in ms ==> Restorable(db.memories, m)
  {
    hide PutInto, InsertRow, GuardAll, InsertAll, Restorable, WellFormed;
    if forall m :: m in ms ==> Restorable(db.memories, m) {
      StoreReversalCompletes(w, k, db, ms, resultId);
    }
    if UndoMergeStore(w, k, db, ms, resultId).value.Ok? {
      NoBlindLookup(w, k, db.memories, ms);
      PassedGuards(w, k, db, ms);
      var i := InsertAllOutcome(w, k + |ms|, db, ms);
    }
  }

  /**
   * Re-running after a stop. When the uninterrupted store-backed reversal
   * would succeed, running it again after any failed statement ends in the
   * same table up to a mark: exactly the rows of the prefix `ms[..i]` that
   * had been reinserted before the stop carry that of a second upsert. So the
   * tables are equal iff nothing had been reinserted, that is, iff the stop
   * had left the database as it was.
   */
  lemma RerunReachesSameTable(
    w1: World, k1: nat, w2: World, k2: nat, k3: nat, db: Db, ms: seq<Memory>, resultId: Id)
    returns (i: nat)
    requires Snapshots(ms) && resultId !in Ids(ms)
    requires NoFailures(w2) && w1.node == w2.node && w1.ttl == w2.ttl
    requires UndoMergeStore(w1, k1, db, ms, resultId).value == Err(Refused)
    requires UndoMergeStore(w2, k3, db, ms, resultId).value.Ok?
    ensures i <= |ms|
    ensures var stopped := UndoMergeStore(w1, k1, db, ms, resultId).db;
      && stopped.memories == Restored(PutInto(w1, db.memories), db.memories, ms[..i])
      && (stopped == db <==> i == 0)
    ensures var stopped := UndoMergeStore(w1, k1, db, ms, resultId).db;
      var rerun := UndoMergeStore(w2, k2, stopped, ms, resultId);
      var whole := UndoMergeStore(w2, k3, db, ms, resultId);
      && rerun.value == whole.value
      && SameUpToMarks(ms[..i], whole.db, rerun.db)
      && (rerun.db == whole.db <==> stopped == db)
  {
    hide PutInto, Again, UndoMergeStore, Restorable, WellFormed, Reversed, HalfRestored, Restored, SameUpToMarks;
    StoreReversalSucceeds(w2, k3, db, ms, resultId);
    StoreReversalCompletes(w2, k3, db, ms, resultId);
    var stopped := UndoMergeStore(w1, k1, db, ms, resultId).db;
    i := StoppedTable(w1, k1, w2, db, ms, resultId);
    HalfMeans(w2, db.memories, ms, i, stopped.memories, resultId);
    StoreReversalCompletes(w2, k2, stopped, ms, resultId);
    var whole, rerun := UndoMergeStore(w2, k3, db, ms, resultId).db, UndoMergeStore(w2, k2, stopped, ms, resultId).db;
    RerunRows(w2, db, stopped, ms, i, resultId, whole, rerun);
    MarkedApart(PutInto(w2, db.memories), db, ms, i, resultId, whole, rerun);
    StoppedApart(w1, db, ms, i, stopped);
  }

  /**
   * The rusqlite reversal can be run again too: after a stop at any statement
   * a second run without failures completes it from where it stopped, though
   * it can only say that the summary was there if the stop came before the
   * delete.
   */
  lemma SqliteRerunCompletes(
    w1: World, k1: nat, w2: World, k2: nat, db: Db, ms: seq<Memory>, resultId: Id)
    requires Snapshots(ms) && resultId !in Ids(ms)
    requires NoFailures(w2) && w1.node == w2.node && w1.ttl == w2.ttl
    requires forall m :: m in ms ==> Restorable(db.memories, m)
    requires UndoMergeSqlite(w1, k1, db, ms, resultId).value == Err(Refused)
    ensures var stopped := UndoMergeSqlite(w1, k1, db, ms, resultId).db;
      var rerun := UndoMergeSqlite(w2, k2, stopped, ms, resultId);
      && rerun.value == Ok(resultId in stopped.memories)
      && (resultId in stopped.memories <==> resultId in db.memories && stopped == db)
      && Reversed(PutInto(w2, stopped.memories), stopped, ms, resultId, rerun.db)
  {
    hide PutInto, Again, UndoMergeSqlite, Restorable, WellFormed, Reversed, Without;
    var stopped := UndoMergeSqlite(w1, k1, db, ms, resultId).db;
    SqliteStopped(w1, k1, w2, db, ms, resultId);
    SqliteReversalCompletes(w2, k2, stopped, ms, resultId);
  }

  lemma SqliteStopped(w1: World, k1: nat, w2: World, db: Db, ms: seq<Memory>, resultId: Id)
    requires Snapshots(ms) && resultId !in Ids(ms)
    requires w1.node == w2.node && w1.ttl == w2.ttl
    requires forall m :: m in ms ==> Restorable(db.memories, m)
    requires UndoMergeSqlite(w1, k1, db, ms, resultId).value == Err(Refused)
    ensures var stopped := UndoMergeSqlite(w1, k1, db, ms, resultId).db;
      && (forall m :: m in ms ==> Restorable(stopped.memories, m))
      && (resultId in stopped.memories <==> resultId in db.memories && stopped == db)
  {
    hide Restorable, InsertAll, WellFormed, Without, UndoMergeSqlite, Snapshots;
    SqliteStoppedShape(w1, k1, db, ms, resultId);
    StoppedAfterDelete(w1, k1 + |ms| + 1, w2, db, ms, resultId);
  }

  lemma SqliteStoppedShape(w: World, k: nat, db: Db, ms: seq<Memory>, resultId: Id)
    requires UndoMergeSqlite(w, k, db, ms, resultId).value == Err(Refused)
    ensures var stopped := UndoMergeSqlite(w, k, db, ms, resultId).db;
      stopped == db || stopped == InsertAll(w, k + |ms| + 1, Without(db, {resultId}), ms).db
  {
    hide InsertAll, GuardAll, WellFormed, Without;
  }

  lemma StoppedAfterDelete(w1: World, k: nat, w2: World, db: Db, ms: seq<Memory>, resultId: Id)
    requires Snapshots(ms) && resultId !in Ids(ms)
    requires w1.node == w2.node && w1.ttl == w2.ttl
    requires forall m :: m in ms ==> Restorable(db.memories, m)
    ensures var t' := InsertAll(w1, k, Without(db, {resultId}), ms).db.memories;
      resultId !in t' && forall m :: m in ms ==> Restorable(t', m)
  {
    var deleted := Without(db, {resultId});
    WithoutParts(db, db, {resultId});
    forall m | m in ms ensures Restorable(deleted.memories, m) && Unclaimed(deleted.memories, m) {
      assert m.id in Ids(ms);
      RestorableWithout(w1, db.memories, resultId, m);
    }
    hide PutInto, Again, Restorable, InsertAll, WellFormed, Unclaimed, Restored, Without, HalfRestored, Snapshots;
    var i := InsertAllOutcome(w1, k, deleted, ms);
    var t' := InsertAll(w1, k, deleted, ms).db.memories;
    AfterStop(w1, w2, deleted.memories, ms, i, t');
    HalfMeans(w2, deleted.memories, ms, i, t', resultId);
  }

  /**
   * Running a completed reversal once more succeeds, says that the summary
   * was not there, and marks every original as upserted again.
   */
  lemma CompletedRerunMarksAll(w: World, k: nat, k2: nat, db: Db, ms: seq<Memory>, resultId: Id)
    requires Snapshots(ms) && resultId !in Ids(ms) && NoFailures(w)
    requires UndoMergeStore(w, k, db, ms, resultId).value.Ok?
    ensures var whole := UndoMergeStore(w, k, db, ms, resultId).db;
      var again := UndoMergeStore(w, k2, whole, ms, resultId);
      again.value == Ok(false) && SameUpToMarks(ms, whole, again.db)
  {
    hide PutInto, Again, UndoMergeStore, Restorable, WellFormed, Reversed, Restored, SameUpToMarks;
    StoreReversalSucceeds(w, k, db, ms, resultId);
    StoreReversalCompletes(w, k, db, ms, resultId);
    var whole := UndoMergeStore(w, k, db, ms, resultId).db;
    SummaryGone(PutInto(w, db.memories), db, ms, resultId, whole);
    forall m | m in ms
      ensures Restorable(whole.memories, m)
      ensures PutInto(w, whole.memories)(m) == Again(whole.memories[m.id])
    {
      MemberBack(PutInto(w, db.memories), db, ms, resultId, whole, m);
      PutKey(w, db.memories, m);
      PutAgain(w, w, db.memories, whole.memories, m);
    }
    StoreReversalCompletes(w, k2, whole, ms, resultId);
    MarkedAll(PutInto(w, whole.memories), whole, ms, resultId, UndoMergeStore(w, k2, whole, ms, resultId).db);
  }

  lemma SummaryGone(put: Memory -> Memory, db: Db, ms: seq<Memory>, resultId: Id, whole: Db)
    requires Reversed(put, db, ms, resultId, whole)
    ensures resultId !in whole.memories
    ensures forall m :: m in ms ==> m.id in whole.memories
    ensures forall e :: e in whole.links ==> e.0 != resultId && e.1 != resultId
  {
    hide WellFormed;
  }

  lemma MemberBack(put: Memory -> Memory, db: Db, ms: seq<Memory>, resultId: Id, whole: Db, m: Memory)
    requires Reversed(put, db, ms, resultId, whole) && m in ms
    ensures m.id in whole.memories && whole.memories[m.id] == put(m)
  {
    hide WellFormed;
  }

  lemma MarkedAll(put: Memory -> Memory, whole: Db, ms: seq<Memory>, resultId: Id, again: Db)
    requires Reversed(put, whole, ms, resultId, again) && resultId !in whole.memories
    requires forall m :: m in ms ==> m.id in whole.memories && put(m) == Again(whole.memories[m.id])
    requires forall e :: e in whole.links ==> e.0 != resultId && e.1 != resultId
    ensures SameUpToMarks(ms, whole, again)
  {
    hide WellFormed, Again;
    assert again.links == whole.links;
    assert again.memories.Keys == whole.memories.Keys;
    forall id | id in whole.memories
      ensures again.memories[id] == if id in Ids(ms) then Again(whole.memories[id]) else whole.memories[id]
    {
      if id in Ids(ms) {
        var m := SnapshotById(ms, id);
      }
    }
  }

  /** Equal, except that the rows of `ms` carry the mark of a second upsert. */
  ghost predicate SameUpToMarks(ms: seq<Memory>, whole: Db, rerun: Db) {
    && rerun.links == whole.links
    && rerun.memories.Keys == whole.memories.Keys
    && forall id :: id in whole.memories ==>
         rerun.memories[id] == if id in Ids(ms) then Again(whole.memories[id]) else whole.memories[id]
  }

  lemma HalfMeans(w: World, t: Table, ms: seq<Memory>, i: nat, t': Table, resultId: Id)
    requires HalfRestored(w, t, ms, i, t') && resultId !in Ids(ms)
    ensures forall m :: m in ms ==> Restorable(t', m)
    ensures resultId in t' <==> resultId in t
  {
    hide WellFormed, Restorable, PutInto, Again;
  }

  lemma RerunRows(w: World, db: Db, stopped: Db, ms: seq<Memory>, i: nat, resultId: Id, whole: Db, rerun: Db)
    requires Snapshots(ms) && i <= |ms|
    requires stopped.links == db.links && HalfRestored(w, db.memories, ms, i, stopped.memories)
    requires Reversed(PutInto(w, db.memories), db, ms, resultId, whole)
    requires Reversed(PutInto(w, stopped.memories), stopped, ms, resultId, rerun)
    ensures SameUpToMarks(ms[..i], whole, rerun)
  {
    hide PutInto, Again, Restorable, WellFormed, SameKey, Snapshots;
    RerunKeys(w, db, stopped, ms, i, resultId, whole, rerun);
    forall id | id in whole.memories
      ensures rerun.memories[id] == if id in Ids(ms[..i]) then Again(whole.memories[id]) else whole.memories[id]
    {
      if id in Ids(ms) {
        var m := SnapshotById(ms, id);
        var j :| 0 <= j < |ms| && ms[j] == m;
        PrefixIds(ms, i, j);
        RerunMember(PutInto(w, db.memories), PutInto(w, stopped.memories), db, stopped, ms, j, resultId, whole, rerun);
      } else {
        assert Ids(ms[..i]) <= Ids(ms);
        RerunOther(PutInto(w, db.memories), PutInto(w, stopped.memories), db, stopped, ms, id, resultId, whole, rerun);
      }
    }
  }

  lemma RerunKeys(w: World, db: Db, stopped: Db, ms: seq<Memory>, i: nat, resultId: Id, whole: Db, rerun: Db)
    requires stopped.links == db.links && HalfRestored(w, db.memories, ms, i, stopped.memories)
    requires Reversed(PutInto(w, db.memories), db, ms, resultId, whole)
    requires Reversed(PutInto(w, stopped.memories), stopped, ms, resultId, rerun)
    ensures rerun.links == whole.links && rerun.memories.Keys == whole.memories.Keys
  {
    hide PutInto, Again, Restorable, WellFormed, Without, Ids;
    WithoutParts(stopped, db, {resultId});
  }

  lemma RerunMember(
    put: Memory -> Memory, put': Memory -> Memory, db: Db, stopped: Db, ms: seq<Memory>, j: nat, resultId: Id,
    whole: Db, rerun: Db)
    requires Reversed(put, db, ms, resultId, whole) && Reversed(put', stopped, ms, resultId, rerun)
    requires j < |ms|
    ensures ms[j].id in whole.memories && whole.memories[ms[j].id] == put(ms[j])
    ensures ms[j].id in rerun.memories && rerun.memories[ms[j].id] == put'(ms[j])
  {
    hide WellFormed;
    assert ms[j] in ms;
  }

  lemma RerunOther(
    put: Memory -> Memory, put': Memory -> Memory, db: Db, stopped: Db, ms: seq<Memory>, id: Id, resultId: Id,
    whole: Db, rerun: Db)
    requires Reversed(put, db, ms, resultId, whole) && Reversed(put', stopped, ms, resultId, rerun)
    requires id in whole.memories && id !in Ids(ms) && id in rerun.memories
    requires forall x :: x in db.memories && x !in Ids(ms) ==>
               x in stopped.memories && stopped.memories[x] == db.memories[x]
    ensures rerun.memories[id] == whole.memories[id]
  {
    hide WellFormed;
  }

  lemma PrefixIds(ms: seq<Memory>, i: nat, j: nat)
    requires Snapshots(ms) && i <= |ms| && j < |ms|
    ensures ms[j].id in Ids(ms[..i]) <==> j < i
  {
    hide SameKey;
    if j < i {
      assert ms[..i][j] == ms[j];
    } else {
      forall m | m in ms[..i] ensures m.id != ms[j].id {
        var x :| 0 <= x < i && ms[x] == m;
      }
    }
  }

  /** The mark is visible: the version differs. */
  lemma MarkedApart(
    put: Memory -> Memory, db: Db, ms: seq<Memory>, i: nat, resultId: Id, whole: Db, rerun: Db)
    requires i <= |ms| && SameUpToMarks(ms[..i], whole, rerun)
    requires Reversed(put, db, ms, resultId, whole)
    ensures rerun == whole <==> i == 0
  {
    hide WellFormed;
    if i == 0 {
      assert ms[..i] == [];
      assert rerun.memories == whole.memories;
    } else {
      assert ms[0] in ms && ms[..i][0] == ms[0];
      assert ms[0].id in Ids(ms[..i]) && ms[0].id in whole.memories;
      assert rerun.memories[ms[0].id].version == whole.memories[ms[0].id].version + 1;
    }
  }

  lemma StoppedApart(w: World, db: Db, ms: seq<Memory>, i: nat, stopped: Db)
    requires Snapshots(ms) && i <= |ms|
    requires stopped.links == db.links
    requires stopped.memories == Restored(PutInto(w, db.memories), db.memories, ms[..i])
    ensures stopped == db <==> i == 0
  {
    hide WellFormed, SameKey;
    if i == 0 {
      assert ms[..i] == [];
    } else {
      RestoredHere(PutInto(w, db.memories), db.memories, ms[..i], 0);
      StoredIsNew(w, db.memories, ms[0]);
    }
  }

  lemma StoredIsNew(w: World, t: Table, m: Memory)
    ensures m.id in t ==> PutInto(w, t)(m) != t[m.id]
  {
    hide WellFormed;
    if m.id in t {
      assert Upserted(w, t[m.id], m).version == t[m.id].version + 1;
    }
  }

  /** Still restorable, with the first `i` rows already put back. */
  ghost predicate HalfRestored(w: World, t: Table, ms: seq<Memory>, i: nat, t': Table) {
    && t.Keys <= t'.Keys <= t.Keys + Ids(ms)
    && (forall id :: id in t && id !in Ids(ms) ==> t'[id] == t[id])
    && (forall m :: m in ms ==> Restorable(t', m))
    && (forall j :: 0 <= j < |ms| ==>
         PutInto(w, t')(ms[j]) == if j < i then Again(PutInto(w, t)(ms[j])) else PutInto(w, t)(ms[j]))
  }

  lemma StoppedTable(w1: World, k1: nat, w2: World, db: Db, ms: seq<Memory>, resultId: Id) returns (i: nat)
    requires Snapshots(ms) && resultId !in Ids(ms)
    requires w1.node == w2.node && w1.ttl == w2.ttl
    requires forall m :: m in ms ==> Restorable(db.memories, m)
    requires UndoMergeStore(w1, k1, db, ms, resultId).value == Err(Refused)
    ensures i <= |ms|
    ensures var stopped := UndoMergeStore(w1, k1, db, ms, resultId).db;
      && stopped.links == db.links && HalfRestored(w2, db.memories, ms, i, stopped.memories)
      && stopped.memories == Restored(PutInto(w1, db.memories), db.memories, ms[..i])
  {
    assert forall m :: m in ms ==> Unclaimed(db.memories, m);
    hide PutInto, Again, Restorable, InsertAll, WellFormed, Unclaimed, HalfRestored, UndoMergeStore, GuardAll;
    StoppedShape(w1, k1, db, ms, resultId);
    if GuardAll(w1, k1, db, ms, true).Err? {
      i := 0;
      assert ms[..0] == [];
      NothingStored(w2, db.memories, ms);
    } else {
      hide Restored;
      i := InsertAllOutcome(w1, k1 + |ms|, db, ms);
      AfterStop(w1, w2, db.memories, ms, i, InsertAll(w1, k1 + |ms|, db, ms).db.memories);
    }
  }

  lemma StoppedShape(w: World, k: nat, db: Db, ms: seq<Memory>, resultId: Id)
    requires UndoMergeStore(w, k, db, ms, resultId).value == Err(Refused)
    ensures var stopped := UndoMergeStore(w, k, db, ms, resultId).db;
      stopped == if GuardAll(w, k, db, ms, true).Err? then db else InsertAll(w, k + |ms|, db, ms).db
  {
    hide InsertAll, GuardAll, WellFormed, Without;
  }

  lemma NothingStored(w: World, t: Table, ms: seq<Memory>)
    requires forall m :: m in ms ==> Restorable(t, m)
    ensures HalfRestored(w, t, ms, 0, t)
  {
    hide PutInto, Again, WellFormed, Restorable;
  }

  lemma AfterStop(w1: World, w2: World, t: Table, ms: seq<Memory>, i: nat, t': Table)
    requires Snapshots(ms) && i <= |ms|
    requires w1.node == w2.node && w1.ttl == w2.ttl
    requires forall m :: m in ms ==> Restorable(t, m)
    requires t' == Restored(PutInto(w1, t), t, ms[..i])
    ensures HalfRestored(w2, t, ms, i, t')
  {
    hide PutInto, Again, WellFormed, Restorable, Restored, SameKey;
    RestoredShape(PutInto(w1, t), t, ms[..i]);
    assert Ids(ms[..i]) <= Ids(ms);
    forall j | 0 <= j < |ms|
      ensures Restorable(t', ms[j])
      ensures PutInto(w2, t')(ms[j]) == if j < i then Again(PutInto(w2, t)(ms[j])) else PutInto(w2, t)(ms[j])
    {
      StoppedRow(w1, w2, t, ms, i, j, t');
    }
  }

  lemma StoppedRow(w1: World, w2: World, t: Table, ms: seq<Memory>, i: nat, j: nat, t': Table)
    requires Snapshots(ms) && i <= |ms| && j < |ms|
    requires w1.node == w2.node && w1.ttl == w2.ttl
    requires forall x :: x in ms ==> Restorable(t, x)
    requires t' == Restored(PutInto(w1, t), t, ms[..i])
    ensures Restorable(t', ms[j])
    ensures PutInto(w2, t')(ms[j]) == if j < i then Again(PutInto(w2, t)(ms[j])) else PutInto(w2, t)(ms[j])
  {
    hide WellFormed, Again, Restored, Restorable, SameKey;
    if j < i {
      assert ms[..i][j] == ms[j];
      EarlierRow(w1, w2, t, ms, i, t', ms[j]);
    } else {
      LaterRow(w1, t, ms, i, j, t');
    }
  }

  lemma EarlierRow(w1: World, w2: World, t: Table, ms: seq<Memory>, i: nat, t': Table, m: Memory)
    requires Snapshots(ms) && i <= |ms| && m in ms[..i]
    requires w1.node == w2.node && w1.ttl == w2.ttl
    requires Restorable(t, m)
    requires t' == Restored(PutInto(w1, t), t, ms[..i])
    ensures Restorable(t', m)
    ensures PutInto(w2, t')(m) == Again(PutInto(w2, t)(m))
  {
    RestoredShape(PutInto(w1, t), t, ms[..i]);
    assert m.id in Ids(ms[..i]);
    PutKey(w1, t, m);
    PutAgain(w1, w2, t, t', m);
  }

  lemma PutAgain(w1: World, w2: World, t: Table, t': Table, m: Memory)
    requires w1.node == w2.node && w1.ttl == w2.ttl
    requires m.id in t' && t'[m.id] == PutInto(w1, t)(m) && SameKey(t'[m.id], m)
    ensures Restorable(t', m)
    ensures PutInto(w2, t')(m) == Again(PutInto(w2, t)(m))
  {
    OwnerIs(t', m.id);
    hide WellFormed;
    var row := t'[m.id];
    if m.id in t {
      assert row == Upserted(w2, t[m.id], m);
    } else {
      assert row == Fresh(w2, m);
    }
    UpsertAgain(w2, row, m);
  }

  lemma LaterRow(w: World, t: Table, ms: seq<Memory>, i: nat, j: nat, t': Table)
    requires Snapshots(ms) && i <= j < |ms|
    requires forall x :: x in ms ==> Restorable(t, x)
    requires t' == Restored(PutInto(w, t), t, ms[..i])
    ensures Restorable(t', ms[j])
    ensures ms[j].id in t' <==> ms[j].id in t
    ensures ms[j].id in t ==> t'[ms[j].id] == t[ms[j].id]
  {
    var some := ms[..i] + [ms[j]];
    assert some[..i] == ms[..i];
    PutIntoKeepsKeys(w, t, ms[..i]);
    assert ms[j] in ms;
    assert Unclaimed(t, ms[j]) && forall m :: m in ms[..i] ==> Unclaimed(t, m);
    hide PutInto;
    OwnerWhileRestoring(PutInto(w, t), t, some, i);
  }
}
