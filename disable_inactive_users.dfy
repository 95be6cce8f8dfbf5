/**
 * The disable_inactive_users management command
 * (useraudit/management/commands/disable_inactive_users.py): the daily
 * sweep that deactivates every active user who has not logged in within
 * ACCOUNT_EXPIRY_DAYS, and mails the ones with an e-mail address.
 */
module DisableInactiveUsers {
  import opened Wrappers
  import opened Records
  import opened Store
  import opened Expiry

  /** The queryset `filter(is_active=True, last_login__lt=oldest)`: a NULL last_login never matches. */
  function Stale(users: map<string, User>, oldest: int): (r: set<string>)
    ensures r <= users.Keys
    ensures forall k | k in users ::
      k in r <==> users[k].isActive && users[k].lastLogin.Some? && users[k].lastLogin.value < oldest
  {
    set k | k in users && users[k].isActive && users[k].lastLogin.Some? && users[k].lastLogin.value < oldest
  }

  /** `gone.update(is_active=False)`: one bulk UPDATE of the is_active column, which runs no save receivers. */
  function Deactivated(users: map<string, User>, gone: set<string>): (r: map<string, User>)
    ensures r.Keys == users.Keys
    ensures forall k | k in users :: r[k] == if k in gone then users[k].(isActive := false) else users[k]
  {
    map k | k in users :: if k in gone then users[k].(isActive := false) else users[k]
  }

  /** The users a message is built for: `_make_email` returns None for an empty address. */
  function Recipients(users: map<string, User>, gone: set<string>): (r: set<string>)
    requires gone <= users.Keys
    ensures r <= gone
    ensures forall k | k in gone :: k in r <==> users[k].email != ""
  {
    set k | k in gone && users[k].email != ""
  }

  /**
   * The sweep is exactly the login-time account expiry check applied to
   * every active user at once: a user is swept iff is_account_expired would
   * refuse them now.
   */
  lemma SweepMatchesLoginCheck(d: Db, e: ExpirySettings, now: int)
    requires e.accountExpiry > 0
    ensures forall k | k in d.users ::
      k in Stale(d.users, EarliestPossibleLogin(e, now).value) <==> d.users[k].isActive && IsAccountExpired(e, d.users[k], now)
  {
  }

  /** After a sweep no stale user is left, so running the command again with the same clock changes nothing. */
  lemma SweepIsIdempotent(users: map<string, User>, oldest: int)
    ensures var swept := Deactivated(users, Stale(users, oldest));
      Stale(swept, oldest) == {} && Deactivated(swept, Stale(swept, oldest)) == swept
  {
    var swept := Deactivated(users, Stale(users, oldest));
    assert forall k | k in swept :: k !in Stale(swept, oldest);
  }

  /**
   * Command.handle. Without a positive ACCOUNT_EXPIRY_DAYS nothing happens
   * (`configured` is false). Otherwise the stale users become inactive and
   * nothing else in the database changes; `count` is how many there were,
   * `notified` the ones a message was built for, and `sent` whether the
   * messages went out (only with e-mail enabled and at least one message).
   */
  method Handle(db: Database, s: Settings, email: bool, now: int)
    returns (configured: bool, count: nat, notified: set<string>, sent: bool)
    modifies db
    ensures configured <==> GetExpirySettings(s).accountExpiry > 0
    ensures !configured ==> db.State() == old(db.State()) && count == 0 && notified == {} && !sent
    ensures configured ==>
      var gone := Stale(old(db.users), EarliestPossibleLogin(GetExpirySettings(s), now).value);
      && db.State() == old(db.State()).(users := Deactivated(old(db.users), gone))
      && count == |gone|
      && notified == Recipients(old(db.users), gone)
      && sent == (email && notified != {})
  {
    var exp := GetExpirySettings(s);
    var oldest := EarliestPossibleLogin(exp, now);
    if oldest.None? {
      return false, 0, {}, false;
    }
    configured := true;
    var gone := Stale(db.users, oldest.value);
    // messages = list(filter(None, (self._make_email(exp, user) for user in gone)))
    notified := {};
    var remaining := gone;
    while remaining != {}
      invariant remaining <= gone
      invariant notified == set k | k in gone && k !in remaining && db.users[k].email != ""
      decreases remaining
    {
      var k :| k in remaining;
      if db.users[k].email != "" {
        notified := notified + {k};
      }
      remaining := remaining - {k};
    }
    assert notified == Recipients(db.users, gone);
    db.users := Deactivated(db.users, gone);
    count := |gone|;
    sent := email && notified != {};
  }
}
