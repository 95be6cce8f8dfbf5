/**
 * The admin's reactivate_user view (useraudit/views.py): finds the user by
 * primary key, saves it active, deletes its deactivation rows and resets its
 * failed-login counter. The HTTP redirect it answers with is not modelled.
 */
module Views {
  import opened Wrappers
  import opened Records
  import opened Store
  import opened Models
  import opened Expiry
  import opened UserSave
  import ActivateUser

  /** Whether some user has that primary key. */
  predicate HasId(users: map<string, User>, id: nat)
  {
    exists k | k in users :: users[k].id == id
  }

  /**
   * reactivate_user after _get_user: a missing user (None) fails on
   * `user.is_active = True` with AttributeError; otherwise the user is saved
   * active, then its deactivation rows are deleted, then its counter is reset.
   */
  function Reactivated(d: Db, e: ExpirySettings, user: Option<User>, now: int): Run
  {
    match user
    case None => Run(d, Some(AttributeError))
    case Some(u) =>
      var saved := Save(d, e, u.(isActive := true), false, false, now);
      if saved.raised.Some? then saved
      else
        var cleared := saved.db.(deactivations := WithoutUser(saved.db.deactivations, u.username));
        Run(cleared.(attempts := Reset(cleared.attempts, Some(u.username), now)), None)
  }

  /**
   * Reactivating a stored user: it is active, it has no deactivation rows and
   * a zero counter, the other users are untouched, and nothing raises. For a
   * user that was inactive, last_login is cleared as well.
   */
  lemma ReactivatedEffect(d: Db, e: ExpirySettings, name: string, now: int)
    requires Valid(d) && name in d.users
    ensures var r := Reactivated(d, e, Some(d.users[name]), now);
      && r.raised.None? && Valid(r.db)
      && r.db.users.Keys == d.users.Keys
      && r.db.users[name].isActive
      && (!d.users[name].isActive ==> r.db.users[name] == d.users[name].(isActive := true, lastLogin := None))
      && (d.users[name].isActive ==> r.db.users[name] == d.users[name])
      && (forall k | k in d.users && k != name :: r.db.users[k] == d.users[k])
      && RowsFor(r.db.deactivations, name) == []
      && CountOf(r.db.attempts, Some(name)) == 0
      && (forall k | k != name :: RowsFor(r.db.deactivations, k) == RowsFor(d.deactivations, k))
  {
    var saved := Save(d, e, d.users[name].(isActive := true), false, false, now);
    if !d.users[name].isActive {
      ReactivationResetsCounterAndLastLogin(d, e, name, now);
    } else {
      assert d.users[name].(isActive := true) == d.users[name];
    }
    RowsForDeleted(saved.db.deactivations, name);
    forall k | k != name
      ensures RowsFor(WithoutUser(saved.db.deactivations, name), k) == RowsFor(d.deactivations, k)
    {
      RowsForOther(saved.db.deactivations, name, k);
    }
  }

  /**
   * For an inactive user the view and `activate_user <username>` leave the
   * same database behind: the view's extra counter reset repeats the one the
   * save already did. For an active user the view still clears the rows and
   * the counter, which the command leaves alone.
   */
  lemma ViewMatchesCommand(d: Db, e: ExpirySettings, name: string, now: int)
    requires Valid(d) && name in d.users && !d.users[name].isActive
    ensures Reactivated(d, e, Some(d.users[name]), now) == ActivateUser.Command(d, e, [name], now)
  {
    var saved := Save(d, e, d.users[name].(isActive := true), false, false, now);
    ReactivationResetsCounterAndLastLogin(d, e, name, now);
    ResetIdempotent(d.attempts, Some(name), now);
    var cleared := saved.db.(deactivations := WithoutUser(saved.db.deactivations, name));
    assert cleared.(attempts := Reset(cleared.attempts, Some(name), now)) == cleared;
    assert ActivateUser.Activated(d, e, d.users[name], now) == Run(cleared, None);
    assert [name][1..] == [];
    assert ActivateUser.ActivateAll(d, e, [name], now) == ActivateUser.ActivateAll(cleared, e, [], now);
  }

  /** _get_user: the user with that primary key, None when there is none. */
  method GetUser(db: Database, id: nat) returns (user: Option<User>)
    ensures user.None? <==> !HasId(db.users, id)
    ensures user.Some? ==> user.value.id == id && exists k | k in db.users :: db.users[k] == user.value
  {
    var remaining := db.users.Keys;
    while remaining != {}
      invariant remaining <= db.users.Keys
      invariant forall k | k in db.users && k !in remaining :: db.users[k].id != id
      decreases remaining
    {
      var k :| k in remaining;
      if db.users[k].id == id {
        return Some(db.users[k]);
      }
      remaining := remaining - {k};
    }
    return None;
  }

  /** reactivate_user on the database, by primary key. */
  method ReactivateUser(db: Database, e: ExpirySettings, userId: nat, now: int) returns (raised: Option<PyError>)
    modifies db
    ensures !HasId(old(db.users), userId) ==> db.State() == old(db.State()) && raised == Some(AttributeError)
    ensures HasId(old(db.users), userId) ==>
      exists k | k in old(db.users) && old(db.users)[k].id == userId ::
        db.State() == Reactivated(old(db.State()), e, Some(old(db.users)[k]), now).db
        && raised == Reactivated(old(db.State()), e, Some(old(db.users)[k]), now).raised
  {
    var user := GetUser(db, userId);
    if user.None? {
      return Some(AttributeError);
    }
    var u := user.value;
    ghost var before := db.State();
    ghost var k :| k in before.users && before.users[k] == u;
    raised := SaveUser(db, e, u.(isActive := true), false, false, now);
    if raised.Some? {
      return;
    }
    DeleteDeactivations(db, u.username);
    ResetCounter(db, Some(u.username), now);
    assert db.State() == Reactivated(before, e, Some(before.users[k]), now).db;
  }
}
