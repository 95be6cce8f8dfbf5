/**
 * The older expiry variant of the userlog app (userlog/password_expiry.py):
 * the change date is a plain attribute of a custom user model, both expiry
 * tests go through is_expired_today, and UserExpiryBackend checks a user only
 * after ModelBackend has accepted the password. userlog is installed instead
 * of useraudit, so a save here runs userlog's own pre_save receiver only.
 */
module UserlogExpiry {
  import opened Wrappers
  import opened Strings
  import opened Records
  import opened Store
  import opened Models
  import opened Expiry

  /**
   * is_expired_today: false when the period is not positive or the date is
   * None; for a datetime, whether now is past date + days; any other value
   * cannot be added to a timedelta (TypeError).
   */
  function IsExpiredToday(date: Value, days: int, now: int): (r: Result<bool, PyError>)
    ensures r == Success(true) <==> days > 0 && date.Time? && now > date.t + days * Day
    ensures r.Failure? <==> days > 0 && !date.Null? && !date.Time?
    ensures r.Failure? ==> r.error == TypeError
  {
    if days > 0 && !date.Null? then
      match date
      case Time(t) => Success(now > t + days * Day)
      case _ => Failure(TypeError)
    else Success(false)
  }

  /**
   * get_password_change_date: the attribute named by the setting (not a
   * path), None when the setting is absent or the user lacks the attribute;
   * hasattr with a name that is not a string raises TypeError.
   */
  function ChangeDate(d: Db, e: ExpirySettings, u: User): (r: Result<Value, PyError>)
    ensures r.Failure? <==> e.dateChanged == Some(NonString)
    ensures r.Failure? ==> r.error == TypeError
    ensures e.dateChanged.None? ==> r == Success(Null)
    ensures e.dateChanged.Some? && e.dateChanged.value.Path? ==>
      var a := Attr(d, UserObj(u), e.dateChanged.value.path);
      r == Success(if a.Some? then a.value else Null)
  {
    match e.dateChanged
    case None => Success(Null)
    case Some(NonString) => Failure(TypeError)
    case Some(Path(p)) =>
      match Attr(d, UserObj(u), p)
      case None => Success(Null)
      case Some(v) => Success(v)
  }

  /** is_password_expired: the change date is read first, then is_expired_today with PASSWORD_EXPIRY_DAYS. */
  function PasswordExpired(d: Db, e: ExpirySettings, u: User, now: int): (r: Result<bool, PyError>)
    ensures r.Failure? <==> e.dateChanged == Some(NonString) || (ChangeDate(d, e, u).Success? && IsExpiredToday(ChangeDate(d, e, u).value, e.numDays, now).Failure?)
    ensures r == Success(true) <==>
      ChangeDate(d, e, u).Success? && e.numDays > 0
      && ChangeDate(d, e, u).value.Time? && now > ChangeDate(d, e, u).value.t + e.numDays * Day
  {
    match ChangeDate(d, e, u)
    case Failure(error) => Failure(error)
    case Success(date) => IsExpiredToday(date, e.numDays, now)
  }

  /** is_account_expired: false unless ACCOUNT_EXPIRY_DAYS is positive; then is_expired_today on last_login. */
  function AccountExpired(e: ExpirySettings, u: User, now: int): (r: bool)
  {
    if e.accountExpiry > 0 then
      var lastLogin := if u.lastLogin.Some? then Time(u.lastLogin.value) else Null;
      IsExpiredToday(lastLogin, e.accountExpiry, now) == Success(true)
    else false
  }

  /** The two apps agree on account expiry: both expire an account unused for more than the period. */
  lemma AccountExpiryAgrees(e: ExpirySettings, u: User, now: int)
    ensures AccountExpired(e, u, now) == IsAccountExpired(e, u, now)
    ensures AccountExpired(e, u, now) <==> e.accountExpiry > 0 && u.lastLogin.Some? && now > u.lastLogin.value + e.accountExpiry * Day
  {
  }

  /**
   * On the layout both apps support (a plain attribute of the user holding a
   * datetime or None) they agree on password expiry; an empty string in
   * that attribute already differs: userlog raises TypeError where useraudit
   * finds the password unexpired.
   */
  lemma PasswordExpiryAgrees(d: Db, e: ExpirySettings, u: User, p: string, now: int)
    requires p != [] && '.' !in p && e.dateChanged == Some(Path(p))
    ensures var date := PasswordChangeDate(d, e, u);
      (date.Time? || date.Null?) ==> PasswordExpired(d, e, u, now) == Expiry.IsPasswordExpired(d, e, u, now)
    ensures PasswordChangeDate(d, e, u) == Text("") && e.numDays > 0 ==>
      PasswordExpired(d, e, u, now) == Failure(TypeError) && Expiry.IsPasswordExpired(d, e, u, now) == Success(false)
  {
    PlainPathReadsAttribute(d, e, u, p);
    assert ChangeDate(d, e, u) == Success(PasswordChangeDate(d, e, u));
  }

  /**
   * update_date_changed: the old password is None for a new user, otherwise
   * the stored user's attribute named by AUTH_USER_MODEL_PASSWORD_ATTR
   * (AttributeError when it has none); when it differs from the incoming
   * password, the change-date attribute is set to now (TypeError when its
   * name is not a string).
   */
  function DateChangeUpdated(d: Db, e: ExpirySettings, inst: User, setting: AttrSetting, now: int): (r: Result<User, PyError>)
    ensures r.Success? ==> r.value.username == inst.username && r.value.password == inst.password && r.value.isActive == inst.isActive
    ensures inst.username !in d.users && setting.Path? ==> r == Success(SetUserAttr(inst, setting.path, Time(now)))
    ensures inst.username in d.users && Attr(d, UserObj(d.users[inst.username]), e.password) == Some(Text(inst.password)) ==>
      r == Success(inst)
    ensures r.Failure? && r.error == AttributeError <==>
      inst.username in d.users && Attr(d, UserObj(d.users[inst.username]), e.password).None?
    ensures inst.username in d.users ==>
      var previous := Attr(d, UserObj(d.users[inst.username]), e.password);
      previous.Some? && previous.value != Text(inst.password) ==>
        r == if setting.NonString? then Failure(TypeError) else Success(SetUserAttr(inst, setting.path, Time(now)))
  {
    var previous := if inst.username in d.users then Attr(d, UserObj(d.users[inst.username]), e.password) else Some(Null);
    match previous
    case None => Failure(AttributeError)
    case Some(oldPassword) =>
      if oldPassword != Text(inst.password) then
        match setting
        case NonString => Failure(TypeError)
        case Path(p) => Success(SetUserAttr(inst, p, Time(now)))
      else Success(inst)
  }

  /** instance.save() with userlog's pre_save receiver: skipped for a raw save or without a change-date setting. */
  function Save(d: Db, e: ExpirySettings, inst: User, raw: bool, now: int): (r: Run)
    ensures raw || e.dateChanged.None? ==> r == Run(d.(users := d.users[inst.username := inst]), None)
    ensures r.raised.Some? ==> r.db == d
    ensures r.raised.None? ==>
      && r.db == d.(users := r.db.users)
      && inst.username in r.db.users
      && r.db.users[inst.username].password == inst.password && r.db.users[inst.username].isActive == inst.isActive
      && forall k | k != inst.username :: (k in r.db.users <==> k in d.users) && (k in d.users ==> r.db.users[k] == d.users[k])
  {
    if raw || e.dateChanged.None? then Run(d.(users := d.users[inst.username := inst]), None)
    else match DateChangeUpdated(d, e, inst, e.dateChanged.value, now)
      case Failure(error) => Run(d, Some(error))
      case Success(updated) => Run(d.(users := d.users[inst.username := updated]), None)
  }

  /**
   * Creating a user (pk None) with a plain change-date attribute stamps it
   * with the creation time, so a new user starts with a fresh password.
   */
  lemma NewUserGetsChangeDate(d: Db, s: Settings, inst: User, p: string, now: int)
    requires inst.username !in d.users
    requires s.passwordChangeDateAttr == Some(Path(p)) && p != [] && !IsUserField(p)
    ensures var e := GetExpirySettings(s);
      var r := Save(d, e, inst, false, now);
      && r.raised.None?
      && UserAttr(r.db.users[inst.username], p) == Some(Time(now))
  {
  }

  /**
   * Saving a user whose password did not change (with the default password
   * attribute) leaves the change date as it was: only a new password moves it.
   */
  lemma UnchangedPasswordKeepsDate(d: Db, s: Settings, inst: User, p: string, now: int)
    requires inst.username in d.users && d.users[inst.username].password == inst.password
    requires s.passwordAttr.None? && s.passwordChangeDateAttr == Some(Path(p)) && p != []
    ensures var r := Save(d, GetExpirySettings(s), inst, false, now);
      r == Run(d.(users := d.users[inst.username := inst]), None)
  {
    assert GetExpirySettings(s).password == "password";
  }

  /**
   * Saving an existing user with a new password (with the default password
   * attribute and a plain change-date attribute) stamps the change date with
   * the time of the save, and writes nothing else.
   */
  lemma ChangedPasswordGetsChangeDate(d: Db, s: Settings, inst: User, p: string, now: int)
    requires inst.username in d.users && d.users[inst.username].password != inst.password
    requires s.passwordAttr.None? && s.passwordChangeDateAttr == Some(Path(p)) && p != [] && !IsUserField(p)
    ensures var r := Save(d, GetExpirySettings(s), inst, false, now);
      && r == Run(d.(users := d.users[inst.username := SetUserAttr(inst, p, Time(now))]), None)
      && UserAttr(r.db.users[inst.username], p) == Some(Time(now))
  {
    assert GetExpirySettings(s).password == "password";
  }

  /**
   * UserExpiryBackend.authenticate once ModelBackend.authenticate has
   * answered: `verified` says it accepted the credentials of `username`
   * (the password check itself is not modelled). An accepted user whose
   * password expired is refused after password_has_expired is sent; an
   * accepted user whose account expired is saved inactive, then
   * account_has_expired is sent and the login refused. Otherwise the backend
   * passes.
   */
  function ExpiryCheck(d: Db, s: Settings, username: string, verified: bool, now: int): (r: Auth)
  {
    if !verified || username !in d.users then Auth(d, NoOpinion)
    else
      var user := d.users[username];
      var e := GetExpirySettings(s);
      match PasswordExpired(d, e, user, now)
      case Failure(error) => Auth(d, Raised(error))
      case Success(true) =>
        var sent := Send(d, UserlogPasswordHasExpired(user.username), now);
        Auth(sent.db, Denied("Password has expired"))
      case Success(false) =>
        if AccountExpired(e, user, now) then
          var saved := Save(d, e, user.(isActive := false), false, now);
          if saved.raised.Some? then Auth(saved.db, Raised(saved.raised.value))
          else
            var sent := Send(saved.db, UserlogAccountHasExpired(user.username), now);
            Auth(sent.db, Denied("Account has expired"))
        else Auth(d, NoOpinion)
  }

  /**
   * The backend passes exactly when the credentials were not accepted, or
   * neither check fires; it then changes nothing. Password expiry refuses
   * without deactivating anyone and without recording a deactivation.
   */
  lemma PassesUnlessExpired(d: Db, s: Settings, username: string, verified: bool, now: int)
    ensures var r := ExpiryCheck(d, s, username, verified, now);
      var e := GetExpirySettings(s);
      && (r.result.NoOpinion? <==>
            !verified || username !in d.users
            || (PasswordExpired(d, e, d.users[username], now) == Success(false) && !AccountExpired(e, d.users[username], now)))
      && (r.result.NoOpinion? ==> r.db == d)
      && (r.result == Denied("Password has expired") ==>
            r.db == d.(events := d.events + [UserlogPasswordHasExpired(d.users[username].username)]))
  {
  }

  /**
   * With the default password attribute, an account past its expiry is
   * saved inactive (nothing else about the user changes when its stored
   * password is the one it has), account_has_expired is sent, and the login
   * is refused; the password check runs first.
   */
  lemma StaleAccountDeactivated(d: Db, s: Settings, name: string, now: int)
    requires Valid(d) && name in d.users
    requires s.passwordAttr.None?
    requires PasswordExpired(d, GetExpirySettings(s), d.users[name], now) == Success(false)
    requires AccountExpired(GetExpirySettings(s), d.users[name], now)
    ensures var r := ExpiryCheck(d, s, name, true, now);
      && r.result == Denied("Account has expired")
      && r.db == d.(users := d.users[name := d.users[name].(isActive := false)],
                    events := d.events + [UserlogAccountHasExpired(name)])
  {
    var e := GetExpirySettings(s);
    assert e.password == "password";
    if e.dateChanged.Some? {
      assert Attr(d, UserObj(d.users[name]), e.password) == Some(Text(d.users[name].password));
    }
  }

  /** instance.save() on the database. */
  method SaveUser(db: Database, e: ExpirySettings, inst: User, raw: bool, now: int) returns (raised: Option<PyError>)
    modifies db
    ensures db.State() == Save(old(db.State()), e, inst, raw, now).db
    ensures raised == Save(old(db.State()), e, inst, raw, now).raised
  {
    var instance := inst;
    if !raw && e.dateChanged.Some? {
      var updated := DateChangeUpdated(db.State(), e, inst, e.dateChanged.value, now);
      if updated.Failure? {
        return Some(updated.error);
      }
      instance := updated.value;
    }
    db.users := db.users[inst.username := instance];
    raised := None;
  }

  /** UserExpiryBackend.authenticate on the database, after ModelBackend has answered. */
  method Authenticate(db: Database, s: Settings, username: string, verified: bool, now: int) returns (result: AuthResult)
    modifies db
    ensures db.State() == ExpiryCheck(old(db.State()), s, username, verified, now).db
    ensures result == ExpiryCheck(old(db.State()), s, username, verified, now).result
  {
    if !verified || username !in db.users {
      return NoOpinion;
    }
    var user := db.users[username];
    var e := GetExpirySettings(s);
    // _check_password_expiry
    var passwordExpired := PasswordExpired(db.State(), e, user, now);
    if passwordExpired.Failure? {
      return Raised(passwordExpired.error);
    }
    if passwordExpired.value {
      var _ := SendSignal(db, UserlogPasswordHasExpired(user.username), now);
      return Denied("Password has expired");
    }
    // _check_account_expiry
    if AccountExpired(e, user, now) {
      var raised := SaveUser(db, e, user.(isActive := false), false, now);
      if raised.Some? {
        return Raised(raised.value);
      }
      var _ := SendSignal(db, UserlogAccountHasExpired(user.username), now);
      return Denied("Account has expired");
    }
    result := NoOpinion;
  }
}
