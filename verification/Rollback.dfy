/**
 * The rollback log of the curator and its two reversals: over a rusqlite
 * connection, and over a backend-agnostic store.
 */
module Rollback {
  import opened Common
  import opened JsonValues
  import opened Memories

  datatype RollbackEntry =
    | ConsolidateEntry(originals: seq<Memory>, resultId: Id)
    | ForgetEntry(snapshot: Memory)
    | PriorityAdjust(memoryId: Id, before: int, after: int)
    | ConserveContradiction(loserId: Id, winnerId: Id, edge: (Id, Id))

  // ----- Collision guards ------------------------------------------------

  const GUARD_LIMIT: nat := 50

  /** What `db::list` returns: not expired, and in a recall-visible state. */
  predicate Visible(m: Memory, now: string) {
    && !m.lifecycle.Tombstoned? && !m.lifecycle.Quarantined?
    && (m.expiresAt.Some? ==> Below(now, m.expiresAt.value))
  }

  /** Listing order: priority, then update time, descending; equal rows by id. */
  predicate Precedes(a: Memory, b: Memory) {
    || a.priority > b.priority
    || (a.priority == b.priority && Below(b.updatedAt, a.updatedAt))
    || (a.priority == b.priority && a.updatedAt == b.updatedAt && Below(a.id, b.id))
  }

  function Listed(t: Table, namespace: string, now: string): set<Id> {
    set id | id in t && t[id].namespace == namespace && Visible(t[id], now)
  }

  /** Is the row among the first 50 that listing its namespace returns? */
  predicate InWindow(t: Table, now: string, id: Id) {
    && id in t && Visible(t[id], now)
    && |set other | other in Listed(t, t[id].namespace, now) && Precedes(t[other], t[id])| < GUARD_LIMIT
  }

  /** The other row a guard finds on the snapshot's key; `exact` is the store's key lookup. */
  function Offender(t: Table, now: string, m: Memory, exact: bool): Option<Id> {
    var o := Owner(t, m.title, m.namespace);
    if o.Some? && o.value != m.id && (exact || InWindow(t, now, o.value)) then o else None
  }

  /** One guard. A failing listing refuses; a failing key lookup passes where the store hides the error. */
  function Guard(w: World, k: nat, db: Db, m: Memory, exact: bool): Result<(), DbError> {
    if w.fails(k) then if exact && w.lookupHidesErrors then Ok(()) else Err(Refused)
    else match Offender(db.memories, w.now(k), m, exact)
      case Some(o) => Err(Collision(o))
      case None => Ok(())
  }

  /** Another row than the snapshot's has its key, and the guard looks far enough to see it. */
  predicate Collides(t: Table, now: string, m: Memory, exact: bool, other: Id) {
    && other in t && other != m.id && t[other].title == m.title && t[other].namespace == m.namespace
    && (exact || InWindow(t, now, other))
  }

  /** A guard whose statement succeeds refuses iff some row collides, and names it. */
  lemma GuardMeans(w: World, k: nat, db: Db, m: Memory, exact: bool)
    ensures var g := Guard(w, k, db, m, exact);
      && (w.fails(k) ==> g == if exact && w.lookupHidesErrors then Ok(()) else Err(Refused))
      && (!w.fails(k) ==>
            && (g.Ok? <==> forall other :: other in db.memories ==> !Collides(db.memories, w.now(k), m, exact, other))
            && (g.Err? ==> g.error.Collision? && Collides(db.memories, w.now(k), m, exact, g.error.owner)))
  {
    hide InWindow;
    forall other | other in db.memories && Collides(db.memories, w.now(k), m, exact, other)
      ensures Owner(db.memories, m.title, m.namespace) == Some(other)
    {
      OwnerIs(db.memories, other);
    }
  }

  function GuardAll(w: World, k: nat, db: Db, ms: seq<Memory>, exact: bool): Result<(), DbError>
    decreases |ms|
  {
    if ms == [] then Ok(())
    else match Guard(w, k, db, ms[0], exact)
      case Err(e) => Err(e)
      case Ok(_) => GuardAll(w, k + 1, db, ms[1..], exact)
  }

  function InsertAll(w: World, k: nat, db: Db, ms: seq<Memory>): Step<()>
    decreases |ms|
  {
    if ms == [] then Step(db, Ok(()))
    else
      var s := InsertRow(w, k, db, ms[0]);
      if s.value.Err? then s else InsertAll(w, k + 1, s.db, ms[1..])
  }

  // ----- The two reversals as functions ----------------------------------

  /** Undo a merge over rusqlite: guards, then delete the summary, then reinsert. */
  function UndoMergeSqlite(w: World, k: nat, db: Db, originals: seq<Memory>, resultId: Id): Step<bool> {
    var n := |originals|;
    match GuardAll(w, k, db, originals, false)
    case Err(e) => Step(db, Err(e))
    case Ok(_) =>
      var d := DeleteRow(w, k + n, db, resultId);
      if d.value.Err? then d
      else
        var s := InsertAll(w, k + n + 1, d.db, originals);
        if s.value.Err? then Step(s.db, Err(s.value.error)) else Step(s.db, d.value)
  }

  /** Undo a merge over a store: guards, then reinsert, then delete the summary. */
  function UndoMergeStore(w: World, k: nat, db: Db, originals: seq<Memory>, resultId: Id): Step<bool> {
    var n := |originals|;
    match GuardAll(w, k, db, originals, true)
    case Err(e) => Step(db, Err(e))
    case Ok(_) =>
      var s := InsertAll(w, k + n, db, originals);
      if s.value.Err? then Step(s.db, Err(s.value.error))
      else DeleteRow(w, k + n + n, s.db, resultId)
  }

  /** Statement by statement, the k-th one first; a failing statement ends it. */
  function ReverseSqlite(w: World, k: nat, db: Db, entry: RollbackEntry): Step<bool> {
    match entry
    case ConsolidateEntry(originals, resultId) => UndoMergeSqlite(w, k, db, originals, resultId)
    case ForgetEntry(snapshot) =>
      (match Guard(w, k, db, snapshot, false)
       case Err(e) => Step(db, Err(e))
       case Ok(_) =>
         var s := InsertRow(w, k + 1, db, snapshot);
         if s.value.Err? then Step(s.db, Err(s.value.error)) else Step(s.db, Ok(true)))
    case PriorityAdjust(id, before, _) =>
      var s := SetPriority(w, k, db, id, before);
      if s.value.Err? then s else Step(s.db, Ok(true))
    case ConserveContradiction(loser, _, edge) =>
      var s := ReverseConserve(w, k, db, loser, edge);
      if s.value.Err? then Step(s.db, Err(s.value.error)) else Step(s.db, Ok(true))
  }

  /** Read a row, change it, store it back through the upsert; false when it is gone. */
  function Restore(w: World, k: nat, db: Db, id: Id, change: Memory -> Memory): Step<bool> {
    if w.fails(k) then Step(db, Err(Refused))
    else if id !in db.memories then Step(db, Ok(false))
    else
      var s := InsertRow(w, k + 1, db, change(db.memories[id]));
      if s.value.Err? then Step(s.db, Err(s.value.error)) else Step(s.db, Ok(true))
  }

  function ReverseStore(w: World, k: nat, db: Db, entry: RollbackEntry): Step<bool> {
    match entry
    case ConsolidateEntry(originals, resultId) => UndoMergeStore(w, k, db, originals, resultId)
    case ForgetEntry(snapshot) =>
      (match Guard(w, k, db, snapshot, true)
       case Err(e) => Step(db, Err(e))
       case Ok(_) =>
         var s := InsertRow(w, k + 1, db, snapshot);
         if s.value.Err? then Step(s.db, Err(s.value.error)) else Step(s.db, Ok(true)))
    case PriorityAdjust(id, before, _) =>
      Restore(w, k, db, id, (m: Memory) => m.(priority := before))
    case ConserveContradiction(loser, _, edge) =>
      if w.fails(k) then Step(db, Err(Refused))
      else
        var links := if edge in db.links then db.links[edge := false] else db.links;
        Restore(w, k + 1, db.(links := links), loser, (m: Memory) => m.(metadata := m.metadata - MARKERS))
  }

  // ----- The reversals as the program runs them --------------------------

  /** A connection: the database and how many statements were issued on it. */
  class Connection {
    const world: World
    var db: Db
    var tick: nat

    constructor (world: World, db: Db)
      ensures this.world == world && this.db == db && tick == 0
    {
      this.world := world;
      this.db := db;
      tick := 0;
    }

    method Insert(m: Memory) returns (r: Result<(), DbError>)
      modifies this
      ensures Step(db, r) == InsertRow(world, old(tick), old(db), m)
      ensures r.Ok? ==> StoredAs(world, old(db).memories, db.memories, m) && db.links == old(db).links
      ensures r.Err? ==> db == old(db)
      ensures tick == old(tick) + 1
    {
      StoredRow(world, db.memories, m);
      hide StoredAs, Upsert, WellFormed;
      var s := InsertRow(world, tick, db, m);
      db, tick, r := s.db, tick + 1, s.value;
    }

    method Delete(id: Id) returns (r: Result<bool, DbError>)
      modifies this
      ensures Step(db, r) == DeleteRow(world, old(tick), old(db), id)
      ensures tick == old(tick) + 1
      ensures r.Err? <==> world.fails(old(tick))
      ensures r.Err? ==> db == old(db)
      ensures r.Ok? ==>
                && (r.value <==> id in old(db).memories)
                && db.memories == old(db).memories - {id}
                && (forall e :: e in db.links <==> e in old(db).links && e.0 != id && e.1 != id)
                && (forall e :: e in db.links ==> db.links[e] == old(db).links[e])
    {
      hide WellFormed;
      var s := DeleteRow(world, tick, db, id);
      db, tick, r := s.db, tick + 1, s.value;
    }

    method UpdatePriority(id: Id, priority: int) returns (r: Result<bool, DbError>)
      modifies this
      ensures Step(db, r) == SetPriority(world, old(tick), old(db), id, priority)
      ensures tick == old(tick) + 1
      ensures r.Ok? && r.value ==>
                && id in old(db).memories && db.links == old(db).links
                && OnlyRow(old(db).memories, db.memories, id)
                && Reprioritized(old(db).memories[id], db.memories[id], priority, world.now(old(tick)))
      ensures r.Ok? && !r.value ==> id !in db.memories
      ensures (r.Ok? && r.value) || db == old(db)
    {
      PrioritySet(world, tick, db, id, priority);
      hide WellFormed, SetPriority, OnlyRow, Reprioritized;
      var s := SetPriority(world, tick, db, id, priority);
      db, tick, r := s.db, tick + 1, s.value;
    }

    method UnmarkContradiction(loser: Id, edge: (Id, Id)) returns (r: Result<(), DbError>)
      modifies this
      ensures Step(db, r) == ReverseConserve(world, old(tick), old(db), loser, edge)
      ensures tick == old(tick) + 1
      ensures r.Ok? ==>
                && db.links == old(db).links - {edge}
                && OnlyRow(old(db).memories, db.memories, loser)
                && (loser in db.memories ==> UnmarkedLoser(old(db).memories[loser], db.memories[loser]))
    {
      LoserReleased(world, tick, db, loser, edge);
      hide WellFormed, OnlyRow, UnmarkedLoser;
      var s := ReverseConserve(world, tick, db, loser, edge);
      db, tick, r := s.db, tick + 1, s.value;
    }

    method InvalidateLink(edge: (Id, Id)) returns (r: Result<(), DbError>)
      modifies this
      ensures r == if world.fails(old(tick)) then Err(Refused) else Ok(())
      ensures db == if r.Ok? && edge in old(db).links
                    then old(db).(links := old(db).links[edge := false]) else old(db)
      ensures tick == old(tick) + 1
    {
      r := if world.fails(tick) then Err(Refused) else Ok(());
      if r.Ok? && edge in db.links {
        db := db.(links := db.links[edge := false]);
      }
      tick := tick + 1;
    }

    method Get(id: Id) returns (r: Result<Memory, DbError>)
      modifies `tick
      ensures r == if world.fails(old(tick)) then Err(Refused)
                   else if id in db.memories then Ok(db.memories[id]) else Err(NotFound)
      ensures tick == old(tick) + 1
    {
      r := if world.fails(tick) then Err(Refused)
           else if id in db.memories then Ok(db.memories[id]) else Err(NotFound);
      tick := tick + 1;
    }

    /** `check_no_collision` over a listing, or with `exact` the store's key lookup. */
    method CheckNoCollision(m: Memory, exact: bool) returns (r: Result<(), DbError>)
      modifies `tick
      ensures r == Guard(world, old(tick), db, m, exact)
      ensures tick == old(tick) + 1
      ensures !world.fails(old(tick)) ==>
                && (r.Ok? <==>
                      forall other :: other in db.memories ==>
                        !Collides(db.memories, world.now(old(tick)), m, exact, other))
                && (r.Err? ==>
                      r.error.Collision? && Collides(db.memories, world.now(old(tick)), m, exact, r.error.owner))
    {
      GuardMeans(world, tick, db, m, exact);
      hide Collides, Guard;
      r := Guard(world, tick, db, m, exact);
      tick := tick + 1;
    }
  }

  method CheckOriginals(conn: Connection, originals: seq<Memory>, exact: bool) returns (r: Result<(), DbError>)
    modifies conn`tick
    ensures r == GuardAll(conn.world, old(conn.tick), conn.db, originals, exact)
    ensures r.Ok? ==> conn.tick == old(conn.tick) + |originals|
  {
    for i := 0 to |originals|
      invariant conn.tick == old(conn.tick) + i
      invariant GuardAll(conn.world, old(conn.tick), conn.db, originals, exact)
             == GuardAll(conn.world, conn.tick, conn.db, originals[i..], exact)
    {
      assert originals[i..][1..] == originals[i + 1..];
      r := conn.CheckNoCollision(originals[i], exact);
      if r.Err? {
        return;
      }
    }
    r := Ok(());
  }

  method InsertOriginals(conn: Connection, originals: seq<Memory>) returns (r: Result<(), DbError>)
    modifies conn
    ensures Step(conn.db, r) == InsertAll(conn.world, old(conn.tick), old(conn.db), originals)
    ensures r.Ok? ==> conn.tick == old(conn.tick) + |originals|
  {
    hide WellFormed, InsertRow;
    for i := 0 to |originals|
      invariant conn.tick == old(conn.tick) + i
      invariant InsertAll(conn.world, old(conn.tick), old(conn.db), originals)
             == InsertAll(conn.world, conn.tick, conn.db, originals[i..])
    {
      assert originals[i..][1..] == originals[i + 1..];
      r := conn.Insert(originals[i]);
      if r.Err? {
        return;
      }
    }
    r := Ok(());
  }

  method ReverseRollbackEntry(conn: Connection, entry: RollbackEntry) returns (r: Result<bool, DbError>)
    modifies conn
    ensures Step(conn.db, r) == ReverseSqlite(conn.world, old(conn.tick), old(conn.db), entry)
    ensures r.Ok? && entry.ForgetEntry? ==>
              && StoredAs(conn.world, old(conn.db).memories, conn.db.memories, entry.snapshot)
              && conn.db.links == old(conn.db).links
    ensures r.Ok? && entry.PriorityAdjust? && entry.memoryId in old(conn.db).memories ==>
              var was, id := old(conn.db).memories, entry.memoryId;
              && conn.db.links == old(conn.db).links && OnlyRow(was, conn.db.memories, id)
              && Reprioritized(was[id], conn.db.memories[id], entry.before, conn.world.now(old(conn.tick)))
    ensures r.Ok? && entry.ConserveContradiction? ==>
              var was, id := old(conn.db).memories, entry.loserId;
              && conn.db.links == old(conn.db).links - {entry.edge} && OnlyRow(was, conn.db.memories, id)
              && (id in was ==> UnmarkedLoser(was[id], conn.db.memories[id]))
  {
    hide WellFormed, SetPriority, ReverseConserve, Reprioritized, UnmarkedLoser, InsertRow, Offender, InsertAll;
    hide GuardAll, StoredAs;
    match entry {
      case ConsolidateEntry(originals, resultId) =>
        var g := CheckOriginals(conn, originals, false);
        if g.Err? {
          return Err(g.error);
        }
        var existed := conn.Delete(resultId);
        if existed.Err? {
          return existed;
        }
        var s := InsertOriginals(conn, originals);
        r := if s.Err? then Err(s.error) else existed;
      case ForgetEntry(snapshot) =>
        var g := conn.CheckNoCollision(snapshot, false);
        if g.Err? {
          return Err(g.error);
        }
        var s := conn.Insert(snapshot);
        r := if s.Err? then Err(s.error) else Ok(true);
      case PriorityAdjust(id, before, _) =>
        var s := conn.UpdatePriority(id, before);
        r := if s.Err? then s else Ok(true);
      case ConserveContradiction(loser, _, edge) =>
        var s := conn.UnmarkContradiction(loser, edge);
        r := if s.Err? then Err(s.error) else Ok(true);
    }
  }

  method ReverseRollbackEntryStore(store: Connection, entry: RollbackEntry) returns (r: Result<bool, DbError>)
    modifies store
    ensures Step(store.db, r) == ReverseStore(store.world, old(store.tick), old(store.db), entry)
    ensures r.Ok? && entry.ForgetEntry? ==>
              && StoredAs(store.world, old(store.db).memories, store.db.memories, entry.snapshot)
              && store.db.links == old(store.db).links
    ensures r == Ok(true) && entry.PriorityAdjust? ==>
              && entry.memoryId in old(store.db).memories
              && StoredAs(store.world, old(store.db).memories, store.db.memories,
                          old(store.db).memories[entry.memoryId].(priority := entry.before))
  {
    hide WellFormed, InsertRow, Offender, InsertAll, GuardAll, StoredAs;
    match entry {
      case ConsolidateEntry(originals, resultId) =>
        var g := CheckOriginals(store, originals, true);
        if g.Err? {
          return Err(g.error);
        }
        var s := InsertOriginals(store, originals);
        if s.Err? {
          return Err(s.error);
        }
        r := store.Delete(resultId);
      case ForgetEntry(snapshot) =>
        var g := store.CheckNoCollision(snapshot, true);
        if g.Err? {
          return Err(g.error);
        }
        var s := store.Insert(snapshot);
        r := if s.Err? then Err(s.error) else Ok(true);
      case PriorityAdjust(id, before, _) =>
        var row := store.Get(id);
        if row.Err? {
          return if row.error.NotFound? then Ok(false) else Err(row.error);
        }
        var s := store.Insert(row.value.(priority := before));
        r := if s.Err? then Err(s.error) else Ok(true);
      case ConserveContradiction(loser, _, edge) =>
        var link := store.InvalidateLink(edge);
        if link.Err? {
          return Err(link.error);
        }
        var row := store.Get(loser);
        if row.Err? {
          return if row.error.NotFound? then Ok(false) else Err(row.error);
        }
        var s := store.Insert(row.value.(metadata := row.value.metadata - MARKERS));
        r := if s.Err? then Err(s.error) else Ok(true);
    }
  }
}
