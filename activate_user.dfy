/**
 * The activate_user management command
 * (useraudit/management/commands/activate_user.py): activates the named
 * users one after another inside a single transaction. Users are loaded
 * lazily (map() in Python 3), so a later name sees the effect of an earlier
 * one, and an unknown name aborts the whole command with nothing changed.
 */
module ActivateUser {
  import opened Wrappers
  import opened Records
  import opened Store
  import opened Models
  import opened Expiry
  import opened UserSave

  /** The CommandError message of _load_user. */
  function NotFound(username: string): PyError
  {
    CommandError("User \"" + username + "\" does NOT exist")
  }

  /**
   * _activate_user: an active user is left alone; an inactive one is saved
   * active (its receivers reset the failed-login counter and clear
   * last_login) and all of its deactivation rows are deleted.
   */
  function Activated(d: Db, e: ExpirySettings, u: User, now: int): Run
  {
    if u.isActive then Run(d, None)
    else
      var saved := Save(d, e, u.(isActive := true), false, false, now);
      if saved.raised.Some? then saved
      else Run(saved.db.(deactivations := WithoutUser(saved.db.deactivations, u.username)), None)
  }

  /** The loop of handle: load each name in turn and activate it; the first error stops the loop. */
  function ActivateAll(d: Db, e: ExpirySettings, names: seq<string>, now: int): Run
    decreases |names|
  {
    if names == [] then Run(d, None)
    else if names[0] !in d.users then Run(d, Some(NotFound(names[0])))
    else
      var r := Activated(d, e, d.users[names[0]], now);
      if r.raised.Some? then r else ActivateAll(r.db, e, names[1..], now)
  }

  /** handle: the loop inside transaction.atomic, whose exception rolls every table back. */
  function Command(d: Db, e: ExpirySettings, names: seq<string>, now: int): (r: Run)
    ensures r.raised.Some? ==> r.db == d
  {
    var r := ActivateAll(d, e, names, now);
    if r.raised.Some? then Run(d, r.raised) else r
  }

  /** What activating one loaded user does to the tables, for a consistent database. */
  lemma ActivatedEffect(d: Db, e: ExpirySettings, name: string, now: int)
    requires Valid(d) && name in d.users
    ensures var r := Activated(d, e, d.users[name], now);
      && r.raised.None? && Valid(r.db)
      && r.db.users.Keys == d.users.Keys
      && r.db.users[name].isActive
      && (forall k | k in d.users && k != name :: r.db.users[k] == d.users[k])
      && (forall k | k != name :: RowsFor(r.db.deactivations, k) == RowsFor(d.deactivations, k))
      && (forall k | k != Some(name) && k in d.attempts :: k in r.db.attempts && r.db.attempts[k] == d.attempts[k])
      && r.db.attempts.Keys <= d.attempts.Keys + {Some(name)}
      && (d.users[name].isActive ==> r.db == d)
      && (!d.users[name].isActive ==>
            && r.db.users[name] == d.users[name].(isActive := true, lastLogin := None)
            && RowsFor(r.db.deactivations, name) == []
            && CountOf(r.db.attempts, Some(name)) == 0)
  {
    if !d.users[name].isActive {
      ReactivationResetsCounterAndLastLogin(d, e, name, now);
      var saved := Save(d, e, d.users[name].(isActive := true), false, false, now);
      RowsForDeleted(saved.db.deactivations, name);
      forall k | k != name
        ensures RowsFor(WithoutUser(saved.db.deactivations, name), k) == RowsFor(d.deactivations, k)
      {
        RowsForOther(saved.db.deactivations, name, k);
      }
    }
  }

  /** Activation never adds or removes users, and it keeps the database consistent. */
  lemma {:induction false} ActivateAllKeepsUsers(d: Db, e: ExpirySettings, names: seq<string>, now: int)
    requires Valid(d)
    ensures var r := ActivateAll(d, e, names, now);
      Valid(r.db) && r.db.users.Keys == d.users.Keys
    decreases |names|
  {
    if names != [] && names[0] in d.users {
      ActivatedEffect(d, e, names[0], now);
      ActivateAllKeepsUsers(Activated(d, e, d.users[names[0]], now).db, e, names[1..], now);
    }
  }

  /**
   * The command fails exactly when some name matches no user, and then it
   * raises CommandError for the first such name and changes nothing.
   */
  lemma {:induction false} UnknownNameAborts(d: Db, e: ExpirySettings, names: seq<string>, now: int)
    requires Valid(d)
    ensures var r := Command(d, e, names, now);
      && (r.raised.Some? <==> exists i | 0 <= i < |names| :: names[i] !in d.users)
      && (r.raised.Some? ==> r.db == d)
      && (forall i | 0 <= i < |names| && names[i] !in d.users && (forall j | 0 <= j < i :: names[j] in d.users) ::
            r.raised == Some(NotFound(names[i])))
    decreases |names|
  {
    if names != [] && names[0] in d.users {
      ActivatedEffect(d, e, names[0], now);
      var next := Activated(d, e, d.users[names[0]], now).db;
      UnknownNameAborts(next, e, names[1..], now);
      assert forall i | 1 <= i < |names| :: names[i] == names[1..][i - 1];
      forall i | 0 <= i < |names| && names[i] !in d.users && (forall j | 0 <= j < i :: names[j] in d.users)
        ensures ActivateAll(d, e, names, now).raised == Some(NotFound(names[i]))
      {
        assert names[1..][i - 1] == names[i];
        assert forall j | 0 <= j < i - 1 :: names[1..][j] == names[j + 1];
      }
      if exists i | 0 <= i < |names| :: names[i] !in d.users {
        var i :| 0 <= i < |names| && names[i] !in d.users;
        assert names[1..][i - 1] !in next.users;
      }
      if exists i | 0 <= i < |names[1..]| :: names[1..][i] !in next.users {
        var i :| 0 <= i < |names[1..]| && names[1..][i] !in next.users;
        assert names[i + 1] !in d.users;
      }
    }
  }

  /**
   * When every name is known: each named user ends up active, a user that
   * was inactive has no deactivation rows left, a zero failed-login counter
   * and no last_login, and users not named are untouched.
   */
  lemma AllNamedActivated(d: Db, e: ExpirySettings, names: seq<string>, now: int)
    requires Valid(d)
    requires forall i | 0 <= i < |names| :: names[i] in d.users
    ensures var r := Command(d, e, names, now);
      && r.raised.None?
      && r.db.users.Keys == d.users.Keys
      && (forall i | 0 <= i < |names| :: r.db.users[names[i]].isActive)
      && (forall i | 0 <= i < |names| && !d.users[names[i]].isActive ::
            && RowsFor(r.db.deactivations, names[i]) == []
            && CountOf(r.db.attempts, Some(names[i])) == 0
            && r.db.users[names[i]].lastLogin.None?)
      && (forall k | k in d.users && k !in names :: r.db.users[k] == d.users[k])
  {
    UnknownNameAborts(d, e, names, now);
    ActivateAllKeepsUsers(d, e, names, now);
    NamedActive(d, e, names, now);
    NamedCleared(d, e, names, now);
    UnnamedUntouched(d, e, names, now);
  }

  /** Every named user ends up active. */
  lemma {:induction false} NamedActive(d: Db, e: ExpirySettings, names: seq<string>, now: int)
    requires Valid(d)
    requires forall i | 0 <= i < |names| :: names[i] in d.users
    ensures var r := ActivateAll(d, e, names, now);
      forall i | 0 <= i < |names| :: names[i] in r.db.users && r.db.users[names[i]].isActive
    decreases |names|
  {
    if names != [] {
      ActivatedEffect(d, e, names[0], now);
      var next := Activated(d, e, d.users[names[0]], now).db;
      NamedActive(next, e, names[1..], now);
      OnceActiveStays(next, e, names[1..], names[0], now);
      assert forall i | 1 <= i < |names| :: names[i] == names[1..][i - 1];
    }
  }

  /** A named user that was inactive ends with no rows, a zero counter and no last_login. */
  lemma {:induction false} NamedCleared(d: Db, e: ExpirySettings, names: seq<string>, now: int)
    requires Valid(d)
    requires forall i | 0 <= i < |names| :: names[i] in d.users
    ensures var r := ActivateAll(d, e, names, now);
      forall i | 0 <= i < |names| && !d.users[names[i]].isActive ::
        && RowsFor(r.db.deactivations, names[i]) == []
        && CountOf(r.db.attempts, Some(names[i])) == 0
        && names[i] in r.db.users && r.db.users[names[i]].lastLogin.None?
    decreases |names|
  {
    if names != [] {
      var name := names[0];
      ActivatedEffect(d, e, name, now);
      var next := Activated(d, e, d.users[name], now).db;
      NamedCleared(next, e, names[1..], now);
      if !d.users[name].isActive {
        OnceActivePreserved(next, e, names[1..], name, now);
      }
      forall i | 1 <= i < |names| && !d.users[names[i]].isActive && names[i] != name
        ensures !next.users[names[1..][i - 1]].isActive
      {
        assert names[1..][i - 1] == names[i];
      }
    }
  }

  /** Users that are not named keep their rows as they were. */
  lemma {:induction false} UnnamedUntouched(d: Db, e: ExpirySettings, names: seq<string>, now: int)
    requires Valid(d)
    requires forall i | 0 <= i < |names| :: names[i] in d.users
    ensures var r := ActivateAll(d, e, names, now);
      forall k | k in d.users && k !in names :: k in r.db.users && r.db.users[k] == d.users[k]
    decreases |names|
  {
    if names != [] {
      ActivatedEffect(d, e, names[0], now);
      var next := Activated(d, e, d.users[names[0]], now).db;
      UnnamedUntouched(next, e, names[1..], now);
      assert forall k | k !in names :: k !in names[1..];
    }
  }

  /** An active user stays active while further names are activated. */
  lemma {:induction false} OnceActiveStays(d: Db, e: ExpirySettings, names: seq<string>, name: string, now: int)
    requires Valid(d) && name in d.users && d.users[name].isActive
    ensures var r := ActivateAll(d, e, names, now);
      name in r.db.users && r.db.users[name].isActive
    decreases |names|
  {
    if names != [] && names[0] in d.users {
      ActivatedEffect(d, e, names[0], now);
      OnceActiveStays(Activated(d, e, d.users[names[0]], now).db, e, names[1..], name, now);
    }
  }

  /**
   * Once a user is active with no deactivation rows, a zero counter and no
   * last_login, activating any further names keeps it that way.
   */
  lemma {:induction false} OnceActivePreserved(d: Db, e: ExpirySettings, names: seq<string>, name: string, now: int)
    requires Valid(d) && name in d.users
    requires d.users[name].isActive && d.users[name].lastLogin.None?
    requires RowsFor(d.deactivations, name) == [] && CountOf(d.attempts, Some(name)) == 0
    ensures var r := ActivateAll(d, e, names, now);
      && name in r.db.users && r.db.users[name].isActive && r.db.users[name].lastLogin.None?
      && RowsFor(r.db.deactivations, name) == [] && CountOf(r.db.attempts, Some(name)) == 0
    decreases |names|
  {
    if names != [] && names[0] in d.users {
      ActivatedEffect(d, e, names[0], now);
      OnceActivePreserved(Activated(d, e, d.users[names[0]], now).db, e, names[1..], name, now);
    }
  }

  /** _activate_user on the database. */
  method ActivateOne(db: Database, e: ExpirySettings, u: User, now: int) returns (raised: Option<PyError>)
    modifies db
    ensures db.State() == Activated(old(db.State()), e, u, now).db
    ensures raised == Activated(old(db.State()), e, u, now).raised
  {
    if u.isActive {
      return None;
    }
    raised := SaveUser(db, e, u.(isActive := true), false, false, now);
    if raised.Some? {
      return;
    }
    DeleteDeactivations(db, u.username);
  }

  /** Command.handle on the database. */
  method Handle(db: Database, e: ExpirySettings, names: seq<string>, now: int) returns (raised: Option<PyError>)
    modifies db
    ensures db.State() == Command(old(db.State()), e, names, now).db
    ensures raised == Command(old(db.State()), e, names, now).raised
  {
    var snapshot := db.State();
    var i := 0;
    while i < |names|
      invariant 0 <= i <= |names|
      invariant ActivateAll(snapshot, e, names, now) == ActivateAll(db.State(), e, names[i..], now)
    {
      assert names[i..][0] == names[i] && names[i..][1..] == names[i + 1..];
      // _load_user
      if names[i] !in db.users {
        db.Rollback(snapshot);
        return Some(NotFound(names[i]));
      }
      raised := ActivateOne(db, e, db.users[names[i]], now);
      if raised.Some? {
        db.Rollback(snapshot);
        return;
      }
      i := i + 1;
    }
    assert names[i..] == [];
    raised := None;
  }
}
