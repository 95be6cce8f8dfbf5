/**
 * AuthFailedLoggerBackend (useraudit/backend.py): the last authentication
 * backend, reached only when every earlier backend failed to authenticate.
 * It records the failure, counts it against the username and, once the
 * count reaches LOGIN_FAILURE_LIMIT, blocks the user.
 */
module AuditBackend {
  import opened Wrappers
  import opened Records
  import opened Store
  import opened LoginLog
  import opened Models
  import opened Expiry
  import opened UserSave

  /** `"%s" % username`: None prints as "None". */
  function Show(username: Option<string>): string
  {
    match username
    case None => "None"
    case Some(name) => name
  }

  /** The PermissionDenied message of a blocked login. */
  function BlockedMessage(username: Option<string>): string
  {
    "Username '" + Show(username) + "' has been blocked"
  }

  /** is_attempts_exceeded: `count and count >= limit`, where a missing counter row reads as None. */
  predicate AttemptsExceeded(attempts: Counters, username: Option<string>, limit: int)
  {
    username in attempts && attempts[username].count != 0 && attempts[username].count >= limit
  }

  /** _get_user: the user with that username, None when there is none (or the username is None). */
  function LookupUser(d: Db, username: Option<string>): (r: Option<User>)
    ensures r.Some? <==> username.Some? && username.value in d.users
    ensures r.Some? ==> r.value == d.users[username.value]
  {
    if username.Some? && username.value in d.users then Some(d.users[username.value]) else None
  }

  /** _deactivate_user: saves the user with is_active false (only that column); no user, no change. */
  function UserDeactivated(d: Db, e: ExpirySettings, username: Option<string>, now: int): Run
  {
    match LookupUser(d, username)
    case None => Run(d, None)
    case Some(user) => Save(d, e, user.(isActive := false), false, true, now)
  }

  /**
   * block_user_if_needed. With the limit enabled and the count reached, the
   * user is deactivated, login_failure_limit_reached is sent and the login is
   * denied. `asWritten` selects the source's behaviour of sending the signal
   * with user=None when no user has that username.
   */
  function Blocking(d: Db, e: ExpirySettings, limit: int, username: Option<string>, now: int, asWritten: bool): Auth
  {
    if !(limit > 0) || !AttemptsExceeded(d.attempts, username, limit) then Auth(d, NoOpinion)
    else
      var deactivated := UserDeactivated(d, e, username, now);
      if deactivated.raised.Some? then Auth(deactivated.db, Raised(deactivated.raised.value))
      else
        var user := LookupUser(deactivated.db, username);
        var sent :=
          if user.Some? then Send(deactivated.db, LoginFailureLimitReached(Some(user.value.username)), now)
          else if asWritten then Send(deactivated.db, LoginFailureLimitReached(None), now)
          else Run(deactivated.db, None);
        Auth(sent.db, Denial(sent.raised, username))
  }

  /** The PermissionDenied raised at the end of block_user_if_needed, unless the signal raised first. */
  function Denial(raised: Option<PyError>, username: Option<string>): AuthResult
  {
    match raised
    case Some(error) => Raised(error)
    case None => Denied(BlockedMessage(username))
  }

  /**
   * block_user_if_needed, once the failure has been counted: it never raises;
   * it denies exactly when the limit is enabled and reached; it changes only
   * the user's is_active and deactivation row (and records the signal).
   */
  lemma BlockingCorrected(d: Db, e: ExpirySettings, limit: int, username: Option<string>, now: int)
    requires Valid(d) && username in d.attempts && d.attempts[username].count > 0
    ensures var r := Blocking(d, e, limit, username, now, false);
      && Valid(r.db)
      && !r.result.Raised?
      && r.db.attempts == d.attempts && r.db.failedLog == d.failedLog && r.db.loginLog == d.loginLog
      && (r.result.Denied? <==> limit > 0 && d.attempts[username].count >= limit)
      && (r.result.Denied? ==> r.result.message == BlockedMessage(username))
      && (r.result.Denied? && username.Some? && username.value in d.users ==>
            && r.db.users == d.users[username.value := d.users[username.value].(isActive := false)]
            && RowsFor(r.db.deactivations, username.value) == [Deactivation(username.value, TooManyFailedLogins, now)]
            && r.db.deactivations == Replaced(d.deactivations, username.value, TooManyFailedLogins, now)
            && r.db.events == d.events + [LoginFailureLimitReached(username)]
            && r.db.profiles == d.profiles)
      && (r.result.Denied? && (username.None? || username.value !in d.users) ==> r.db == d)
      && (r.result.NoOpinion? ==> r.db == d)
  {
    if limit > 0 && d.attempts[username].count >= limit && username.Some? && username.value in d.users {
      DeactivationChangesOnlyIsActive(d, e, username.value, true, now);
    }
  }

  /** authenticate: log the failure, count it, then block if needed. */
  function Attempted(d: Db, s: Settings, username: Option<string>, request: Option<Request>, now: int, asWritten: bool): Auth
  {
    var logged := FailedLogged(d, username, request, now);
    if logged.raised.Some? then Auth(logged.db, Raised(logged.raised.value))
    else
      var counted := logged.db.(attempts := Incremented(logged.db.attempts, username, now));
      Blocking(counted, GetExpirySettings(s), OrZero(s.loginFailureLimit), username, now, asWritten)
  }

  /**
   * AuthFailedLoggerBackend.authenticate as the code is written: once the
   * limit is reached for a username that matches no user, the signal goes
   * out with user=None and its receiver raises AttributeError.
   */
  function FailedAuthAsWritten(d: Db, s: Settings, username: Option<string>, request: Option<Request>, now: int): (r: Auth)
    ensures ExtractLogInfo(username, request).Success? && OrZero(s.loginFailureLimit) > 0
         && (username.None? || username.value !in d.users)
         && CountOf(d.attempts, username) + 1 >= OrZero(s.loginFailureLimit)
         ==> r.result == Raised(AttributeError)
  {
    var logged := FailedLogged(d, username, request, now);
    if logged.raised.None? then
      var counted := logged.db.(attempts := Incremented(logged.db.attempts, username, now));
      assert LookupUser(counted, username).None? ==> UserDeactivated(counted, GetExpirySettings(s), username, now) == Run(counted, None);
      Attempted(d, s, username, request, now, true)
    else
      Attempted(d, s, username, request, now, true)
  }

  /**
   * AuthFailedLoggerBackend.authenticate, with the signal sent only for a
   * user that exists. Every call appends one failed-login row and counts the
   * failure, whether or not the user exists. It never raises except when the
   * row cannot be built, and it denies exactly when the limit is enabled and
   * the new count reaches it; otherwise it passes (returns None). A denied
   * user that exists is inactive and has a single TOO_MANY_FAILED_LOGINS row.
   */
  function FailedAuth(d: Db, s: Settings, username: Option<string>, request: Option<Request>, now: int): (r: Auth)
    requires Valid(d)
    ensures Valid(r.db)
    ensures r.result.Raised? <==> ExtractLogInfo(username, request).Failure?
    ensures r.result.Raised? ==> r.db == d && r.result.error == TypeError
    ensures !r.result.Raised? ==>
      && |r.db.failedLog| == |d.failedLog| + 1 && r.db.failedLog[..|d.failedLog|] == d.failedLog
      && r.db.failedLog == d.failedLog + [LogRow(ExtractLogInfo(username, request).value, now)]
      && r.db.failedLog[|d.failedLog|].info.username == username
      && r.db.attempts == Incremented(d.attempts, username, now)
      && r.db.loginLog == d.loginLog
    ensures r.result.Denied? <==>
      !r.result.Raised? && OrZero(s.loginFailureLimit) > 0 && CountOf(d.attempts, username) + 1 >= OrZero(s.loginFailureLimit)
    ensures r.result.Denied? ==> r.result.message == BlockedMessage(username)
    ensures r.db.profiles == d.profiles
    ensures r.result.Denied? && username.Some? && username.value in d.users ==>
      && r.db.users == d.users[username.value := d.users[username.value].(isActive := false)]
      && RowsFor(r.db.deactivations, username.value) == [Deactivation(username.value, TooManyFailedLogins, now)]
      && r.db.deactivations == Replaced(d.deactivations, username.value, TooManyFailedLogins, now)
      && r.db.events == d.events + [LoginFailureLimitReached(username)]
    ensures r.result.Denied? && (username.None? || username.value !in d.users) ==>
      r.db.users == d.users && r.db.deactivations == d.deactivations && r.db.events == d.events
    ensures r.result.NoOpinion? ==> r.db.users == d.users && r.db.deactivations == d.deactivations && r.db.events == d.events
  {
    var logged := FailedLogged(d, username, request, now);
    if logged.raised.None? then
      var counted := logged.db.(attempts := Incremented(logged.db.attempts, username, now));
      BlockingCorrected(counted, GetExpirySettings(s), OrZero(s.loginFailureLimit), username, now);
      Attempted(d, s, username, request, now, false)
    else
      Attempted(d, s, username, request, now, false)
  }

  /**
   * The unknown-username scenario (the username "doesnotexit" against a
   * limit of 2): the first failure passes; on the second the code as written
   * raises AttributeError, while the corrected backend denies the login and
   * leaves users and deactivation rows alone.
   */
  lemma UnknownUserAtLimit(d: Db, s: Settings, name: string, now: int)
    requires Valid(d) && name !in d.users && Some(name) !in d.attempts
    requires s.loginFailureLimit == Some(2)
    ensures var first := FailedAuth(d, s, Some(name), None, now);
      && first.result == NoOpinion
      && FailedAuthAsWritten(first.db, s, Some(name), None, now).result == Raised(AttributeError)
      && FailedAuth(first.db, s, Some(name), None, now).result == Denied(BlockedMessage(Some(name)))
      && FailedAuth(first.db, s, Some(name), None, now).db.users == d.users
      && FailedAuth(first.db, s, Some(name), None, now).db.deactivations == d.deactivations
  {
    var first := FailedAuth(d, s, Some(name), None, now);
    assert ExtractLogInfo(Some(name), None).Success?;
    assert CountOf(first.db.attempts, Some(name)) == 1;
  }

  /**
   * With a limit of 2: two failures block an active user; saving the user as
   * active again resets the counter, so one more failure does not block.
   */
  lemma {:induction false} ReactivationForgivesEarlierFailures(d: Db, s: Settings, name: string, now: int)
    requires Valid(d) && name in d.users && d.users[name].isActive && Some(name) !in d.attempts
    requires s.loginFailureLimit == Some(2)
    ensures var first := FailedAuth(d, s, Some(name), None, now);
      var second := FailedAuth(first.db, s, Some(name), None, now);
      var reactivated := Save(second.db, GetExpirySettings(s), second.db.users[name].(isActive := true), false, false, now);
      var third := FailedAuth(reactivated.db, s, Some(name), None, now);
      && first.result == NoOpinion && first.db.users[name].isActive
      && second.result.Denied? && !second.db.users[name].isActive
      && reactivated.raised.None? && Valid(reactivated.db)
      && third.result == NoOpinion && third.db.users[name].isActive
  {
    var first := FailedAuth(d, s, Some(name), None, now);
    OneFailure(d, s, name, now);
    var second := FailedAuth(first.db, s, Some(name), None, now);
    OneFailure(first.db, s, name, now);
    ReactivationResetsCounterAndLastLogin(second.db, GetExpirySettings(s), name, now);
    var reactivated := Save(second.db, GetExpirySettings(s), second.db.users[name].(isActive := true), false, false, now);
    assert CountOf(reactivated.db.attempts, Some(name)) == 0;
    OneFailure(reactivated.db, s, name, now);
  }

  /** One failed login of an existing user without a request, against a limit of 2. */
  lemma OneFailure(d: Db, s: Settings, name: string, now: int)
    requires Valid(d) && name in d.users && s.loginFailureLimit == Some(2)
    ensures var r := FailedAuth(d, s, Some(name), None, now);
      && Valid(r.db) && name in r.db.users
      && CountOf(r.db.attempts, Some(name)) == CountOf(d.attempts, Some(name)) + 1
      && (r.result.NoOpinion? <==> CountOf(d.attempts, Some(name)) == 0)
      && (r.result.NoOpinion? ==> r.db.users == d.users)
      && (!r.result.NoOpinion? ==> r.result.Denied? && !r.db.users[name].isActive)
  {
    assert ExtractLogInfo(Some(name), None).Success?;
  }

  /**
   * The backend object: the limit read from the settings when it is built,
   * and the username of the current call. With asWritten, block_user_if_needed
   * sends the limit signal with user=None for an unknown username, as the
   * code does; without it, the signal goes out only for a user that exists.
   */
  class AuthFailedLoggerBackend {
    const settings: Settings
    const asWritten: bool
    const loginFailureLimit: int := OrZero(settings.loginFailureLimit)
    var username: Option<string>

    constructor (s: Settings, asWritten: bool)
      ensures settings == s && this.asWritten == asWritten && username.None?
    {
      settings := s;
      this.asWritten := asWritten;
      username := None;
    }

    /** is_login_failure_limit_enabled */
    predicate IsLoginFailureLimitEnabled()
    {
      loginFailureLimit > 0
    }

    /** _deactivate_user on the database; reports whether a user was found. */
    method DeactivateUser(db: Database, now: int) returns (found: bool, raised: Option<PyError>)
      modifies db
      ensures found <==> LookupUser(old(db.State()), username).Some?
      ensures db.State() == UserDeactivated(old(db.State()), GetExpirySettings(settings), username, now).db
      ensures raised == UserDeactivated(old(db.State()), GetExpirySettings(settings), username, now).raised
    {
      var user := LookupUser(db.State(), username);
      if user.None? {
        return false, None;
      }
      raised := SaveUser(db, GetExpirySettings(settings), user.value.(isActive := false), false, true, now);
      found := true;
    }

    /** block_user_if_needed on the database. */
    method BlockUserIfNeeded(db: Database, now: int) returns (result: AuthResult)
      modifies db
      ensures db.State() == Blocking(old(db.State()), GetExpirySettings(settings), loginFailureLimit, username, now, asWritten).db
      ensures result == Blocking(old(db.State()), GetExpirySettings(settings), loginFailureLimit, username, now, asWritten).result
    {
      if !IsLoginFailureLimitEnabled() || !AttemptsExceeded(db.attempts, username, loginFailureLimit) {
        return NoOpinion;
      }
      var found, raised := DeactivateUser(db, now);
      if raised.Some? {
        return Raised(raised.value);
      }
      var user := LookupUser(db.State(), username);
      if user.Some? {
        raised := SendSignal(db, LoginFailureLimitReached(Some(user.value.username)), now);
      } else if asWritten {
        raised := SendSignal(db, LoginFailureLimitReached(None), now);
      }
      result := Denial(raised, username);
    }

    /** authenticate(**credentials): the request comes from the thread-local the middleware fills. */
    method Authenticate(db: Database, username: Option<string>, request: Option<Request>, now: int) returns (result: AuthResult)
      modifies this, db
      ensures this.username == username
      ensures db.State() == Attempted(old(db.State()), settings, username, request, now, asWritten).db
      ensures result == Attempted(old(db.State()), settings, username, request, now, asWritten).result
    {
      this.username := username;
      var raised := LogFailedLogin(db, username, request, now);
      if raised.Some? {
        return Raised(raised.value);
      }
      Increment(db, username, now);
      result := BlockUserIfNeeded(db, now);
    }
  }
}
