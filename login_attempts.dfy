/**
 * LoginAttemptsBackend (useraudit/login_attempts.py): a backend placed
 * before the ones that check passwords. It never counts anything itself; it
 * reads the failed-login counter AuthFailedLoggerBackend keeps and refuses a
 * username whose counter has reached LOGIN_FAILURE_LIMIT, deactivating the
 * user on the way.
 */
module LoginAttempts {
  import opened Wrappers
  import opened Records
  import opened Store
  import opened Models
  import opened Expiry
  import opened UserSave
  import opened AuditBackend

  /** is_login_limit: the limit is set, non-zero and positive. */
  predicate LimitEnabled(limit: Option<int>)
  {
    limit.Some? && limit.value != 0 && limit.value > 0
  }

  /** _get_count: the counter of the username, None when it has no row. */
  function CountFor(d: Db, username: string): (r: Option<nat>)
    ensures r.Some? <==> Some(username) in d.attempts
    ensures r.Some? ==> r.value == CountOf(d.attempts, Some(username))
  {
    if Some(username) in d.attempts then Some(d.attempts[Some(username)].count) else None
  }

  /**
   * authenticate: with the limit enabled and `count and count >= limit`, a
   * user that exists is saved inactive (only is_active) and refused; a
   * username with no user is let through, as is every username below the limit.
   */
  function LimitCheck(d: Db, s: Settings, username: string, now: int): (r: Auth)
    requires Valid(d)
    ensures Valid(r.db)
    ensures !r.result.Raised?
    ensures r.db.attempts == d.attempts && r.db.events == d.events && r.db.deactivations == d.deactivations
    ensures r.db.failedLog == d.failedLog && r.db.loginLog == d.loginLog
    ensures r.result.Denied? <==>
      LimitEnabled(s.loginFailureLimit) && username in d.users
      && CountOf(d.attempts, Some(username)) > 0 && CountOf(d.attempts, Some(username)) >= s.loginFailureLimit.value
    ensures r.result.Denied? ==>
      r.result.message == BlockedMessage(Some(username))
      && r.db.users == d.users[username := d.users[username].(isActive := false)]
    ensures r.result.NoOpinion? ==> r.db == d
  {
    if !LimitEnabled(s.loginFailureLimit) then Auth(d, NoOpinion)
    else
      var count := CountFor(d, username);
      if count.Some? && count.value != 0 && count.value >= s.loginFailureLimit.value then
        match LookupUser(d, Some(username))
        case None => Auth(d, NoOpinion)
        case Some(user) =>
          DeactivationChangesOnlyIsActive(d, GetExpirySettings(s), username, true, now);
          var saved := Save(d, GetExpirySettings(s), user.(isActive := false), false, true, now);
          Auth(saved.db, Denied(BlockedMessage(Some(username))))
      else Auth(d, NoOpinion)
  }

  /**
   * The two backends agree: once AuthFailedLoggerBackend has blocked an
   * existing user, the next login attempt is refused by LoginAttemptsBackend
   * under the same limit, before any password is checked, and the refusal
   * changes nothing more.
   */
  lemma {:induction false} BlockedStaysBlocked(d: Db, s: Settings, name: string, request: Option<Request>, now: int, later: int)
    requires Valid(d) && name in d.users
    requires FailedAuth(d, s, Some(name), request, now).result.Denied?
    ensures var blocked := FailedAuth(d, s, Some(name), request, now).db;
      LimitCheck(blocked, s, name, later) == Auth(blocked, Denied(BlockedMessage(Some(name))))
  {
    var r := FailedAuth(d, s, Some(name), request, now);
    assert CountOf(r.db.attempts, Some(name)) == CountOf(d.attempts, Some(name)) + 1;
    assert LimitEnabled(s.loginFailureLimit);
    InactiveAtLimitRefused(r.db, s, name, later);
  }

  /** An inactive user whose counter is at the limit is refused, and nothing changes. */
  lemma InactiveAtLimitRefused(d: Db, s: Settings, name: string, now: int)
    requires Valid(d) && name in d.users && !d.users[name].isActive
    requires LimitEnabled(s.loginFailureLimit)
    requires CountOf(d.attempts, Some(name)) > 0 && CountOf(d.attempts, Some(name)) >= s.loginFailureLimit.value
    ensures LimitCheck(d, s, name, now) == Auth(d, Denied(BlockedMessage(Some(name))))
  {
    assert d.users[name := d.users[name].(isActive := false)] == d.users;
  }

  /** Below the limit (or with no counter row) the backend passes and changes nothing. */
  lemma BelowLimitPasses(d: Db, s: Settings, username: string, now: int)
    requires Valid(d) && LimitEnabled(s.loginFailureLimit)
    requires CountOf(d.attempts, Some(username)) < s.loginFailureLimit.value
    ensures LimitCheck(d, s, username, now) == Auth(d, NoOpinion)
  {
  }

  /** The backend object: the limit read from the settings when it is built, and the username of the current call. */
  class LoginAttemptsBackend {
    const settings: Settings
    const loginLimit: Option<int> := settings.loginFailureLimit
    var username: string

    constructor (s: Settings)
      ensures settings == s && username == ""
    {
      settings := s;
      username := "";
    }

    /** is_login_limit */
    predicate IsLoginLimit()
    {
      LimitEnabled(loginLimit)
    }

    /** _get_count */
    method GetCount(db: Database) returns (count: Option<nat>)
      ensures count == CountFor(db.State(), username)
    {
      if Some(username) in db.attempts {
        count := Some(db.attempts[Some(username)].count);
      } else {
        count := None;
      }
    }

    /** _deactivate_user: saves the user inactive (only is_active); false when no user has the username. */
    method DeactivateUserOn(db: Database, now: int) returns (found: bool)
      requires Valid(db.State())
      modifies db
      ensures found <==> username in old(db.users)
      ensures found ==> db.State() == old(db.State()).(users := old(db.users)[username := old(db.users)[username].(isActive := false)])
      ensures !found ==> db.State() == old(db.State())
    {
      var user := LookupUser(db.State(), Some(username));
      if user.None? {
        return false;
      }
      DeactivationChangesOnlyIsActive(db.State(), GetExpirySettings(settings), username, true, now);
      var _ := SaveUser(db, GetExpirySettings(settings), user.value.(isActive := false), false, true, now);
      found := true;
    }

    /** notification: the hook for telling the user about the block; it does nothing here. */
    method Notification()
    {
    }

    /** authenticate(**credentials) */
    method Authenticate(db: Database, name: string, now: int) returns (result: AuthResult)
      requires Valid(db.State())
      modifies this, db
      ensures db.State() == LimitCheck(old(db.State()), settings, name, now).db
      ensures result == LimitCheck(old(db.State()), settings, name, now).result
    {
      if IsLoginLimit() {
        username := name;
        var count := GetCount(db);
        if count.Some? && count.value != 0 && count.value >= loginLimit.value {
          var found := DeactivateUserOn(db, now);
          if found {
            Notification();
            return Denied(BlockedMessage(Some(username)));
          }
        }
      }
      result := NoOpinion;
    }
  }
}
