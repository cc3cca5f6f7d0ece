/**
 * The relational store as the application sees it: one pool holding the years,
 * events, users and user_sessions tables, each table an ordered list of rows.
 */
module Db {

  /**
   * An event's score record. The source keeps it as JSON text; the model keeps
   * the three shapes that matter to its readers.
   */
  datatype ScoreBlob =
    | IntObject(ints: map<string, int>)        // an object of integers, as plan expansion writes
    | StringObject(strs: map<string, string>)  // an object of strings, as score entry writes
    | OtherJson                                // any other JSON value

  /** An events row (the `Events` struct). */
  datatype Events = Events(
    id: string,
    name: string,
    yearId: string,
    genderId: string,
    filterKey: string,
    scores: ScoreBlob)

  /** A years row: only id and name are stored. */
  datatype YearRow = YearRow(id: string, name: string)

  /** A users row; `id` is the rowid the store assigned. */
  datatype UserRow = UserRow(id: int, email: string, hasAdmin: bool, hasSetScore: bool)

  /** A user_sessions row (the `UserSessions` struct). */
  datatype UserSessions = UserSessions(id: string, userId: int, hasAdmin: bool, hasSetScore: bool)

  /** Outcome of one pool call: its value, or a storage error. */
  datatype StoreResult<+T> = Ok(value: T) | StorageError

  class Pool {
    var years: seq<YearRow>
    var events: seq<Events>
    var users: seq<UserRow>
    var lastRowId: int  // the largest rowid handed out in users
    var sessions: seq<UserSessions>

    /** Users rowids are positive, distinct and never above the last one handed out. */
    ghost predicate Valid()
      reads this
    {
      && lastRowId >= 0
      && (forall i :: 0 <= i < |users| ==> 0 < users[i].id <= lastRowId)
      && (forall i, j :: 0 <= i < j < |users| ==> users[i].id != users[j].id)
    }

    /** A freshly created database with every table empty. */
    constructor ()
      ensures Valid()
      ensures years == [] && events == [] && users == [] && sessions == [] && lastRowId == 0
    {
      years, events, users, sessions := [], [], [], [];
      lastRowId := 0;
    }
  }

  /**
   * Whether the pool hands out a connection for the next call. The store is
   * outside the model, so this is left open: either answer may happen.
   */
  method Connect() returns (ok: bool)
  {
    ok := *;
  }
}
