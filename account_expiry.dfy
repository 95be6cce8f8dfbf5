/**
 * AccountExpiryBackend (useraudit/password_expiry.py): the first
 * authentication backend. It never authenticates anyone; it only stops the
 * login of a known user who is inactive, whose password has expired, or who
 * has not logged in for longer than the account expiry period (that account
 * is deactivated on the spot). Each refusal is also counted as a failed
 * login when AuthFailedLoggerBackend is configured.
 */
module AccountExpiry {
  import opened Wrappers
  import opened Records
  import opened Store
  import opened Models
  import opened Expiry
  import opened UserSave
  import opened AuditBackend

  /** The dotted path _prevent_login looks for in AUTHENTICATION_BACKENDS. */
  const FailedLoggerPath: string := "useraudit.backend.AuthFailedLoggerBackend"

  const InactiveMessage: string := "Account is not active"
  const PasswordExpiredMessage: string := "Password has expired"
  const AccountExpiredMessage: string := "Account has expired"

  /**
   * _prevent_login: when the failed-login backend is configured, the refusal
   * goes through its authenticate first (whose own PermissionDenied or error
   * wins); then PermissionDenied(msg). The login is never let through.
   */
  function PreventLogin(d: Db, s: Settings, username: Option<string>, request: Option<Request>, now: int, msg: string): (r: Auth)
    requires Valid(d)
    ensures Valid(r.db)
    ensures !r.result.NoOpinion?
    ensures FailedLoggerPath !in s.authenticationBackends ==> r == Auth(d, Denied(msg))
    ensures FailedLoggerPath in s.authenticationBackends ==> r.db == FailedAuth(d, s, username, request, now).db
    ensures FailedLoggerPath in s.authenticationBackends && !r.result.Raised? ==>
      && r.db.attempts == Incremented(d.attempts, username, now)
      && |r.db.failedLog| == |d.failedLog| + 1
      && r.result.message ==
           if OrZero(s.loginFailureLimit) > 0 && CountOf(d.attempts, username) + 1 >= OrZero(s.loginFailureLimit)
           then BlockedMessage(username) else msg
    ensures r.result.Denied? && r.result.message == msg && msg != BlockedMessage(username) ==>
      r.db.users == d.users && r.db.deactivations == d.deactivations && r.db.events == d.events
  {
    if FailedLoggerPath in s.authenticationBackends then
      var inner := FailedAuth(d, s, username, request, now);
      if inner.result.NoOpinion? then Auth(inner.db, Denied(msg)) else inner
    else Auth(d, Denied(msg))
  }

  /**
   * AccountExpiryBackend.authenticate: an unknown username passes; an
   * inactive user is refused; then a password past its expiry sends
   * password_has_expired and is refused; then an account unused for too long
   * is saved inactive, account_has_expired is sent, and it is refused.
   * A user who clears all three checks passes to the next backend.
   */
  function ExpiryAuthenticate(d: Db, s: Settings, username: Option<string>, request: Option<Request>, now: int): (r: Auth)
    requires Valid(d)
  {
    match LookupUser(d, username)
    case None => Auth(d, NoOpinion)
    case Some(user) =>
      var e := GetExpirySettings(s);
      if !user.isActive then PreventLogin(d, s, username, request, now, InactiveMessage)
      else match IsPasswordExpired(d, e, user, now)
        case Failure(error) => Auth(d, Raised(error))
        case Success(true) =>
          var sent := Send(d, PasswordHasExpired(user.username), now);
          PreventLogin(sent.db, s, username, request, now, PasswordExpiredMessage)
        case Success(false) =>
          if IsAccountExpired(e, user, now) then
            DeactivationChangesOnlyIsActive(d, e, user.username, false, now);
            var saved := Save(d, e, user.(isActive := false), false, false, now);
            var sent := Send(saved.db, AccountHasExpired(user.username), now);
            PreventLogin(sent.db, s, username, request, now, AccountExpiredMessage)
          else Auth(d, NoOpinion)
  }

  /**
   * The backend lets a login through (returns None) exactly when the username
   * is unknown, or the user is active with a password that has not expired
   * and an account that has not expired; then it changes nothing. Otherwise
   * it refuses, or raises the TypeError of a change date that is not a
   * datetime, or the error of building the failed-login row.
   */
  lemma PassesExactlyWhenNothingExpired(d: Db, s: Settings, username: Option<string>, request: Option<Request>, now: int)
    requires Valid(d)
    ensures var r := ExpiryAuthenticate(d, s, username, request, now);
      var e := GetExpirySettings(s);
      && Valid(r.db)
      && (r.result.NoOpinion? <==>
            || username.None? || username.value !in d.users
            || (var user := d.users[username.value];
                user.isActive && IsPasswordExpired(d, e, user, now) == Success(false) && !IsAccountExpired(e, user, now)))
      && (r.result.NoOpinion? ==> r.db == d)
  {
  }

  /**
   * An inactive user is refused with "Account is not active" (or blocked by
   * the failed-login backend); no user row changes, and no expiry signal is sent.
   */
  lemma InactiveUserRefused(d: Db, s: Settings, name: string, request: Option<Request>, now: int)
    requires Valid(d) && name in d.users && !d.users[name].isActive
    ensures var r := ExpiryAuthenticate(d, s, Some(name), request, now);
      && !r.result.NoOpinion?
      && r.db.users == d.users
      && (FailedLoggerPath !in s.authenticationBackends ==> r == Auth(d, Denied(InactiveMessage)))
  {
    var r := ExpiryAuthenticate(d, s, Some(name), request, now);
    if FailedLoggerPath in s.authenticationBackends {
      var inner := FailedAuth(d, s, Some(name), request, now);
      if inner.result.Denied? {
        assert d.users[name := d.users[name].(isActive := false)] == d.users;
      }
    }
  }

  /**
   * An active user whose password has expired: password_has_expired is sent
   * (which records a PASSWORD_EXPIRED deactivation row) and the login is
   * refused with "Password has expired". The user is not deactivated, and the
   * account expiry check does not run.
   */
  lemma ExpiredPasswordRefused(d: Db, s: Settings, name: string, request: Option<Request>, now: int)
    requires Valid(d) && name in d.users && d.users[name].isActive
    requires IsPasswordExpired(d, GetExpirySettings(s), d.users[name], now) == Success(true)
    requires FailedLoggerPath !in s.authenticationBackends
    ensures var r := ExpiryAuthenticate(d, s, Some(name), request, now);
      && r.result == Denied(PasswordExpiredMessage)
      && r.db.users == d.users
      && r.db.events == d.events + [PasswordHasExpired(name)]
      && RowsFor(r.db.deactivations, name) == [Deactivation(name, PasswordExpired, now)]
  {
  }

  /**
   * An active user whose password is still valid but who last logged in
   * more than ACCOUNT_EXPIRY_DAYS ago: the account is saved inactive (and
   * nothing else about it changes), account_has_expired is sent (recording
   * an ACCOUNT_EXPIRED row), and the login is refused with "Account has expired".
   */
  lemma StaleAccountDeactivated(d: Db, s: Settings, name: string, request: Option<Request>, now: int)
    requires Valid(d) && name in d.users && d.users[name].isActive
    requires IsPasswordExpired(d, GetExpirySettings(s), d.users[name], now) == Success(false)
    requires var e := GetExpirySettings(s);
      e.accountExpiry > 0 && d.users[name].lastLogin.Some? && now - d.users[name].lastLogin.value > e.accountExpiry * Day
    requires FailedLoggerPath !in s.authenticationBackends
    ensures var r := ExpiryAuthenticate(d, s, Some(name), request, now);
      && r.result == Denied(AccountExpiredMessage)
      && r.db.users == d.users[name := d.users[name].(isActive := false)]
      && r.db.events == d.events + [AccountHasExpired(name)]
      && RowsFor(r.db.deactivations, name) == [Deactivation(name, AccountExpired, now)]
      && Valid(r.db)
  {
  }

  /**
   * A refusal is also a failed login when AuthFailedLoggerBackend is
   * configured: the counter of the username goes up by one, and once it
   * reaches the limit the refusal becomes the blocking one.
   */
  lemma RefusalCountsAsFailure(d: Db, s: Settings, name: string, request: Option<Request>, now: int)
    requires Valid(d) && name in d.users
    requires FailedLoggerPath in s.authenticationBackends
    ensures var r := ExpiryAuthenticate(d, s, Some(name), request, now);
      !r.result.Raised? && !r.result.NoOpinion? ==>
        && CountOf(r.db.attempts, Some(name)) == CountOf(d.attempts, Some(name)) + 1
        && (r.result == Denied(BlockedMessage(Some(name))) <==>
              OrZero(s.loginFailureLimit) > 0 && CountOf(d.attempts, Some(name)) + 1 >= OrZero(s.loginFailureLimit))
  {
    var e := GetExpirySettings(s);
    var user := d.users[name];
    if Refuses(d, e, user, now) {
      var x, msg := RefusalRoute(d, s, name, request, now);
      RefusalCounted(x, s, name, request, now, msg);
    }
  }

  /** The three checks that end in _prevent_login. */
  predicate Refuses(d: Db, e: ExpirySettings, user: User, now: int)
  {
    || !user.isActive
    || IsPasswordExpired(d, e, user, now) == Success(true)
    || (IsPasswordExpired(d, e, user, now) == Success(false) && IsAccountExpired(e, user, now))
  }

  /**
   * A refusal reaches _prevent_login with one of the three messages, on a
   * database whose counters are still the original ones.
   */
  lemma RefusalRoute(d: Db, s: Settings, name: string, request: Option<Request>, now: int) returns (x: Db, msg: string)
    requires Valid(d) && name in d.users
    requires Refuses(d, GetExpirySettings(s), d.users[name], now)
    ensures Valid(x) && x.attempts == d.attempts
    ensures msg == InactiveMessage || msg == PasswordExpiredMessage || msg == AccountExpiredMessage
    ensures ExpiryAuthenticate(d, s, Some(name), request, now) == PreventLogin(x, s, Some(name), request, now, msg)
  {
    var e := GetExpirySettings(s);
    var user := d.users[name];
    if !user.isActive {
      x, msg := d, InactiveMessage;
    } else if IsPasswordExpired(d, e, user, now) == Success(true) {
      x, msg := Send(d, PasswordHasExpired(user.username), now).db, PasswordExpiredMessage;
    } else {
      DeactivationChangesOnlyIsActive(d, e, user.username, false, now);
      var saved := Save(d, e, user.(isActive := false), false, false, now);
      x, msg := Send(saved.db, AccountHasExpired(user.username), now).db, AccountExpiredMessage;
    }
  }

  /** One refusal through _prevent_login with the failed-login backend configured. */
  lemma RefusalCounted(d: Db, s: Settings, name: string, request: Option<Request>, now: int, msg: string)
    requires Valid(d) && FailedLoggerPath in s.authenticationBackends
    requires msg == InactiveMessage || msg == PasswordExpiredMessage || msg == AccountExpiredMessage
    ensures var r := PreventLogin(d, s, Some(name), request, now, msg);
      !r.result.Raised? ==>
        && CountOf(r.db.attempts, Some(name)) == CountOf(d.attempts, Some(name)) + 1
        && (r.result == Denied(BlockedMessage(Some(name))) <==>
              OrZero(s.loginFailureLimit) > 0 && CountOf(d.attempts, Some(name)) + 1 >= OrZero(s.loginFailureLimit))
  {
    assert BlockedMessage(Some(name))[0] == 'U';
    assert msg[0] != 'U';
  }

  /** _prevent_login on the database. */
  method PreventLoginOn(db: Database, s: Settings, username: Option<string>, request: Option<Request>, now: int, msg: string)
    returns (result: AuthResult)
    requires Valid(db.State())
    modifies db
    ensures db.State() == PreventLogin(old(db.State()), s, username, request, now, msg).db
    ensures result == PreventLogin(old(db.State()), s, username, request, now, msg).result
  {
    if FailedLoggerPath in s.authenticationBackends {
      var backend := new AuthFailedLoggerBackend(s, false);
      var inner := backend.Authenticate(db, username, request, now);
      if !inner.NoOpinion? {
        return inner;
      }
    }
    result := Denied(msg);
  }

  /** AccountExpiryBackend.authenticate on the database. */
  method Authenticate(db: Database, s: Settings, username: Option<string>, request: Option<Request>, now: int)
    returns (result: AuthResult)
    requires Valid(db.State())
    modifies db
    ensures db.State() == ExpiryAuthenticate(old(db.State()), s, username, request, now).db
    ensures result == ExpiryAuthenticate(old(db.State()), s, username, request, now).result
  {
    var user := LookupUser(db.State(), username);
    if user.None? {
      return NoOpinion;
    }
    var e := GetExpirySettings(s);
    var u := user.value;
    if !u.isActive {
      result := PreventLoginOn(db, s, username, request, now, InactiveMessage);
      return;
    }
    var passwordExpired := IsPasswordExpired(db.State(), e, u, now);
    if passwordExpired.Failure? {
      return Raised(passwordExpired.error);
    }
    if passwordExpired.value {
      var _ := SendSignal(db, PasswordHasExpired(u.username), now);
      result := PreventLoginOn(db, s, username, request, now, PasswordExpiredMessage);
      return;
    }
    if IsAccountExpired(e, u, now) {
      DeactivationChangesOnlyIsActive(db.State(), e, u.username, false, now);
      var _ := SaveUser(db, e, u.(isActive := false), false, false, now);
      var _ := SendSignal(db, AccountHasExpired(u.username), now);
      result := PreventLoginOn(db, s, username, request, now, AccountExpiredMessage);
      return;
    }
    result := NoOpinion;
  }
}
