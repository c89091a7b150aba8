/** The database, a session on it, and the four ways a unit of work can end. */
module UnitOfWork {
  import opened Schema

  /** How leaving the `with UOW()` block ends when its body raised nothing. */
  datatype Outcome = Committed | RaisedAlreadyExists | RolledBackQuietly | RaisedUowError

  function OutcomeOf(flushed: Insertion): Outcome {
    match flushed
    case Stored(_) => Committed
    case Violated(Unique) => RaisedAlreadyExists
    case Violated(ForeignKey) => RolledBackQuietly
    case Violated(TooLong) => RaisedUowError
  }

  /** What is in the database once a flush of `rows` over `work` has been committed or rolled back. */
  function AfterCommit(before: Store, flushed: Insertion): Store {
    match flushed
    case Stored(s) => s
    case Violated(_) => before
  }

  lemma FlushOfValid(s: Store, rows: seq<Row>)
    ensures s.Valid() ==> Flush(s, rows) == InsertAll(s, rows)
  {
    if s.Valid() {
      InsertAllKeepsValid(s, rows);
      if InsertAll(s, rows).Stored? {
        ValidIsKeysAndReferences(InsertAll(s, rows).store);
      }
    }
  }

  class Database {
    var store: Store

    constructor (store: Store)
      ensures this.store == store
    {
      this.store := store;
    }
  }

  /** Loaded rows changed in place in `store`, new rows waiting in `pending`. */
  class Session {
    const db: Database
    var store: Store
    var pending: seq<Row>

    constructor (db: Database)
      ensures this.db == db && store == db.store && pending == []
    {
      this.db := db;
      this.store := db.store;
      this.pending := [];
    }

    method Add(row: Row)
      modifies this`pending
      ensures pending == old(pending) + [row]
    {
      pending := pending + [row];
    }

    /**
     The commit at the end of the block: every changed and every pending row is stored, or nothing of the session is.
     If the changed rows keep the constraints, only the pending ones can be refused.
     */
    method Commit() returns (outcome: Outcome)
      modifies this, db
      ensures outcome == OutcomeOf(Flush(old(store), old(pending)))
      ensures db.store == AfterCommit(old(db.store), Flush(old(store), old(pending)))
      ensures old(store.Valid()) ==> Flush(old(store), old(pending)) == InsertAll(old(store), old(pending))
      ensures outcome == Committed ==> db.store.Valid()
      ensures outcome != Committed ==> db.store == old(db.store)
      ensures old(db.store.Valid()) ==> db.store.Valid()
    {
      FlushOfValid(store, pending);
      var i, work := 0, store;
      while i < |pending|
        invariant 0 <= i <= |pending|
        invariant pending == old(pending)
        invariant InsertAll(old(store), pending) == InsertAll(work, pending[i..])
      {
        match Insert(work, pending[i])
        case Stored(s) =>
          assert pending[i..][1..] == pending[i + 1..];
          work, i := s, i + 1;
        case Violated(v) =>
          return OutcomeOf(Violated(v));
      }
      if !work.UniqueKeys() {
        return OutcomeOf(Violated(Unique));
      }
      if !work.References() {
        return OutcomeOf(Violated(ForeignKey));
      }
      ValidIsKeysAndReferences(work);
      db.store := work;
      return Committed;
    }
  }
}
