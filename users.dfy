/** Users: lookup, get-or-create with a fresh rowid, permission updates and sessions. */
module DbUsers {
  import opened Common
  import opened Db
  import DbUserSessions

  /** The `Users` struct: `id` is None until the store has assigned a rowid. */
  datatype Users = Users(id: Option<int>, email: string, hasAdmin: bool, hasSetScore: bool)

  function New(email: string, hasAdmin: bool, hasSetScore: bool): (u: Users)
    ensures u.id.None? && u.email == email && u.hasAdmin == hasAdmin && u.hasSetScore == hasSetScore
  {
    Users(None, email, hasAdmin, hasSetScore)
  }

  /** A stored row read back as a `Users`: the rowid becomes `Some(id)`. */
  function FromRow(row: UserRow): Users
  {
    Users(Some(row.id), row.email, row.hasAdmin, row.hasSetScore)
  }

  /** The first row with this email, read back; None when no row has it. */
  function WithEmail(rows: seq<UserRow>, email: string): (r: Option<Users>)
    ensures r.None? <==> forall i :: 0 <= i < |rows| ==> rows[i].email != email
    ensures r.Some? ==> exists i :: (
      && 0 <= i < |rows| && rows[i].email == email && r.value == FromRow(rows[i])
      && forall j :: 0 <= j < i ==> rows[j].email != email)
  {
    match FirstMatch(rows, (u: UserRow) => u.email == email)
    case None => None
    case Some(i) => Some(FromRow(rows[i]))
  }

  /** The row with this rowid, read back; None when no row has it. */
  function WithId(rows: seq<UserRow>, id: int): (r: Option<Users>)
    ensures r.None? <==> forall i :: 0 <= i < |rows| ==> rows[i].id != id
    ensures r.Some? ==> exists i :: 0 <= i < |rows| && rows[i].id == id && r.value == FromRow(rows[i])
  {
    match FirstMatch(rows, (u: UserRow) => u.id == id)
    case None => None
    case Some(i) => Some(FromRow(rows[i]))
  }

  method FindByEmail(email: string, pool: Pool) returns (r: StoreResult<Option<Users>>)
    ensures r.Ok? ==> r.value == WithEmail(pool.users, email)
  {
    var ok := Connect();
    if !ok {
      return StorageError;
    }
    r := Ok(WithEmail(pool.users, email));
  }

  method FindById(id: int, pool: Pool) returns (r: StoreResult<Option<Users>>)
    ensures r.Ok? ==> r.value == WithId(pool.users, id)
  {
    var ok := Connect();
    if !ok {
      return StorageError;
    }
    r := Ok(WithId(pool.users, id));
  }

  /** Appends a row under the next rowid, as the store's INSERT does. */
  method InsertRow(pool: Pool, email: string, hasAdmin: bool, hasSetScore: bool) returns (id: int)
    requires pool.Valid()
    modifies pool`users, pool`lastRowId
    ensures pool.Valid()
    ensures id == old(pool.lastRowId) + 1 == pool.lastRowId
    ensures pool.users == old(pool.users) + [UserRow(id, email, hasAdmin, hasSetScore)]
    ensures forall i :: 0 <= i < |old(pool.users)| ==> old(pool.users)[i].id < id
  {
    id := pool.lastRowId + 1;
    pool.users := pool.users + [UserRow(id, email, hasAdmin, hasSetScore)];
    pool.lastRowId := id;
  }

  /**
   * `get_or_create`: a known email returns the stored user and inserts nothing; a
   * new email inserts one row with both flags false and returns it under its new
   * rowid, which no earlier user has.
   */
  method GetOrCreate(email: string, pool: Pool) returns (r: StoreResult<Users>)
    requires pool.Valid()
    modifies pool`users, pool`lastRowId
    ensures pool.Valid()
    ensures WithEmail(old(pool.users), email).Some? ==> pool.users == old(pool.users)
    ensures WithEmail(old(pool.users), email).Some? && r.Ok? ==> r.value == WithEmail(old(pool.users), email).value
    ensures WithEmail(old(pool.users), email).None? && r.Ok? ==>
      && r.value == Users(Some(pool.lastRowId), email, false, false)
      && pool.users == old(pool.users) + [UserRow(pool.lastRowId, email, false, false)]
      && (forall i :: 0 <= i < |old(pool.users)| ==> old(pool.users)[i].id != pool.lastRowId)
    ensures r.StorageError? ==> pool.users == old(pool.users)
  {
    var found := FindByEmail(email, pool);
    if found.StorageError? {
      return StorageError;
    }
    if found.value.Some? {
      return Ok(found.value.value);
    }
    var newUser := New(email, false, false);
    var ok := Connect();
    if !ok {
      return StorageError;
    }
    var userId := InsertRow(pool, email, newUser.hasAdmin, newUser.hasSetScore);
    r := Ok(Users(Some(userId), newUser.email, newUser.hasAdmin, newUser.hasSetScore));
  }

  /** `insert`: stores email and flags under a new rowid; the value's own id is not used. */
  method Insert(user: Users, pool: Pool) returns (r: StoreResult<()>)
    requires pool.Valid()
    modifies pool`users, pool`lastRowId
    ensures pool.Valid()
    ensures r.Ok? ==> pool.users == old(pool.users) + [UserRow(pool.lastRowId, user.email, user.hasAdmin, user.hasSetScore)]
    ensures r.Ok? ==> forall i :: 0 <= i < |old(pool.users)| ==> old(pool.users)[i].id != pool.lastRowId
    ensures r.StorageError? ==> pool.users == old(pool.users)
  {
    var ok := Connect();
    if !ok {
      return StorageError;
    }
    var _ := InsertRow(pool, user.email, user.hasAdmin, user.hasSetScore);
    r := Ok(());
  }

  method All(pool: Pool) returns (r: StoreResult<seq<Users>>)
    ensures r.Ok? ==> |r.value| == |pool.users|
    ensures r.Ok? ==> forall i :: 0 <= i < |r.value| ==> r.value[i] == FromRow(pool.users[i])
  {
    var ok := Connect();
    if !ok {
      return StorageError;
    }
    var users: seq<Users> := [];
    for i := 0 to |pool.users|
      invariant |users| == i
      invariant forall k :: 0 <= k < i ==> users[k] == FromRow(pool.users[k])
    {
      users := users + [FromRow(pool.users[i])];
    }
    r := Ok(users);
  }

  /** `update`: the row with this rowid gets the new email and flags; other rows are untouched. */
  method Update(pool: Pool, id: int, email: string, hasAdmin: bool, hasSetScore: bool)
    returns (r: StoreResult<()>)
    requires pool.Valid()
    modifies pool`users
    ensures pool.Valid()
    ensures r.Ok? ==> |pool.users| == |old(pool.users)|
    ensures r.Ok? ==> forall i :: 0 <= i < |pool.users| ==>
      pool.users[i] == if old(pool.users)[i].id == id then UserRow(id, email, hasAdmin, hasSetScore)
                       else old(pool.users)[i]
    ensures r.StorageError? ==> pool.users == old(pool.users)
  {
    var ok := Connect();
    if !ok {
      return StorageError;
    }
    var rows := pool.users;
    pool.users := seq(|rows|, i requires 0 <= i < |rows| =>
      if rows[i].id == id then UserRow(id, email, hasAdmin, hasSetScore) else rows[i]);
    r := Ok(());
  }

  /** A session carrying the user's id and flags; the source unwraps the id, so it must be set. */
  function NewSession(user: Users, sessionId: string): (s: UserSessions)
    requires user.id.Some?
    ensures s.id == sessionId && s.userId == user.id.value
    ensures s.hasAdmin == user.hasAdmin && s.hasSetScore == user.hasSetScore
  {
    DbUserSessions.New(sessionId, user.id.value, user.hasAdmin, user.hasSetScore)
  }

  method Count(pool: Pool) returns (r: StoreResult<int>)
    ensures r.Ok? ==> r.value == |pool.users|
  {
    var ok := Connect();
    if !ok {
      return StorageError;
    }
    r := Ok(|pool.users|);
  }
}
