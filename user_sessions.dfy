/** Login sessions: creation, storage and verification of a session cookie. */
module DbUserSessions {
  import opened Common
  import opened Db

  /** What `verify` tells the caller about a cookie. */
  datatype VerifiedSession = VerifiedSession(id: string, verified: bool, hasAdmin: bool, hasSetScore: bool)

  /**
   * A new session for a user. `sessionId` stands for the random UUID the source
   * draws; the caller supplies it.
   */
  function New(sessionId: string, userId: int, hasAdmin: bool, hasSetScore: bool): (s: UserSessions)
    ensures s.id == sessionId && s.userId == userId
    ensures s.hasAdmin == hasAdmin && s.hasSetScore == hasSetScore
  {
    UserSessions(sessionId, userId, hasAdmin, hasSetScore)
  }

  method Insert(pool: Pool, session: UserSessions) returns (r: StoreResult<()>)
    modifies pool`sessions
    ensures r.Ok? ==> pool.sessions == old(pool.sessions) + [session]
    ensures r.StorageError? ==> pool.sessions == old(pool.sessions)
  {
    var ok := Connect();
    if !ok {
      return StorageError;
    }
    pool.sessions := pool.sessions + [session];
    r := Ok(());
  }

  /** Two stored sessions carry the id `id`. */
  predicate SharedId(sessions: seq<UserSessions>, id: string)
  {
    exists i, j :: 0 <= i < j < |sessions| && sessions[i].id == id && sessions[j].id == id
  }

  /**
   * Looks the cookie up: a stored session yields verified with that row's flags,
   * an unknown one yields unverified with both flags false. The cookie is echoed
   * back either way and the table is only read. The lookup expects at most one
   * row: a second session with the same id is an error, not an answer.
   */
  method Verify(pool: Pool, cookieSession: string) returns (r: StoreResult<VerifiedSession>)
    ensures SharedId(pool.sessions, cookieSession) ==> r.StorageError?
    ensures r.Ok? ==> r.value.id == cookieSession
    ensures r.Ok? ==> (r.value.verified <==> exists i :: 0 <= i < |pool.sessions| && pool.sessions[i].id == cookieSession)
    ensures r.Ok? && r.value.verified ==>
      forall i :: 0 <= i < |pool.sessions| && pool.sessions[i].id == cookieSession ==>
        r.value.hasAdmin == pool.sessions[i].hasAdmin && r.value.hasSetScore == pool.sessions[i].hasSetScore
    ensures r.Ok? && !r.value.verified ==> !r.value.hasAdmin && !r.value.hasSetScore
  {
    var ok := Connect();
    if !ok {
      return StorageError;
    }
    var matches := (s: UserSessions) => s.id == cookieSession;
    var found := FirstMatch(pool.sessions, matches);
    match found {
      case Some(i) =>
        var rest := pool.sessions[i + 1..];
        var second := FirstMatch(rest, matches);
        if second.Some? {
          return StorageError;
        }
        forall j | i < j < |pool.sessions|
          ensures pool.sessions[j].id != cookieSession
        {
          assert pool.sessions[j] == rest[j - i - 1];
        }
        var session := pool.sessions[i];
        r := Ok(VerifiedSession(cookieSession, true, session.hasAdmin, session.hasSetScore));
      case None =>
        r := Ok(VerifiedSession(cookieSession, false, false, false));
    }
  }
}
