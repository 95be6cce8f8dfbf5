/**
 * The audit tables of useraudit/models.py: the failed-login counter
 * (LoginAttemptLogger), the deactivation-reason table (UserDeactivation and
 * the save_login_deactivation receivers) and the user_logged_in receiver.
 */
module Models {
  import opened Wrappers
  import opened Records
  import opened Store
  import opened LoginLog

  type Counters = map<Option<string>, Attempt>

  /** The counter of a username, reading an absent row as 0. */
  function CountOf(attempts: Counters, username: Option<string>): nat
  {
    if username in attempts then attempts[username].count else 0
  }

  /**
   * LoginAttemptLogger.increment: the row of the username is created with
   * count 0 when absent, then its count goes up by one and it is stamped with
   * the time; every other row is untouched.
   */
  function Incremented(attempts: Counters, username: Option<string>, now: int): (r: Counters)
    ensures username in r && r[username] == Attempt(CountOf(attempts, username) + 1, now)
    ensures r.Keys == attempts.Keys + {username}
    ensures forall k | k in attempts && k != username :: r[k] == attempts[k]
  {
    var count := CountOf(attempts, username);
    attempts[username := Attempt(count + 1, now)]
  }

  /** LoginAttemptLogger.reset: the username's row holds count 0, created if absent; every other row is untouched. */
  function Reset(attempts: Counters, username: Option<string>, now: int): (r: Counters)
    ensures username in r && r[username] == Attempt(0, now)
    ensures r.Keys == attempts.Keys + {username}
    ensures forall k | k in attempts && k != username :: r[k] == attempts[k]
  {
    attempts[username := Attempt(0, now)]
  }

  /** k failed attempts in a row. */
  function IncrementedTimes(attempts: Counters, username: Option<string>, k: nat, now: int): Counters
  {
    if k == 0 then attempts else Incremented(IncrementedTimes(attempts, username, k - 1, now), username, now)
  }

  /** After a reset and k increments the count is exactly k, and nobody else's row has changed. */
  lemma {:induction false} CountAfterReset(attempts: Counters, username: Option<string>, k: nat, now: int)
    ensures CountOf(IncrementedTimes(Reset(attempts, username, now), username, k, now), username) == k
    ensures forall other | other in attempts && other != username ::
      other in IncrementedTimes(Reset(attempts, username, now), username, k, now)
      && IncrementedTimes(Reset(attempts, username, now), username, k, now)[other] == attempts[other]
  {
    if k > 0 {
      CountAfterReset(attempts, username, k - 1, now);
    }
  }

  /** Resetting twice is resetting once. */
  lemma ResetIdempotent(attempts: Counters, username: Option<string>, now: int)
    ensures Reset(Reset(attempts, username, now), username, now) == Reset(attempts, username, now)
  {
  }

  /** UserDeactivation.objects.filter(username=u).delete(): the rows of every other user, in order. */
  function WithoutUser(rows: seq<Deactivation>, username: string): (r: seq<Deactivation>)
    ensures |r| <= |rows|
    ensures forall row :: row in r <==> row in rows && row.username != username
  {
    if rows == [] then []
    else if rows[0].username == username then WithoutUser(rows[1..], username)
    else [rows[0]] + WithoutUser(rows[1..], username)
  }

  /** UserDeactivation.objects.filter(username=u): the rows of one user, in order. */
  function RowsFor(rows: seq<Deactivation>, username: string): (r: seq<Deactivation>)
    ensures |r| <= |rows|
    ensures forall i | 0 <= i < |r| :: r[i].username == username && r[i] in rows
  {
    if rows == [] then []
    else if rows[0].username == username then [rows[0]] + RowsFor(rows[1..], username)
    else RowsFor(rows[1..], username)
  }

  /** save_login_deactivation: delete the user's rows, then create one carrying the reason. */
  function Replaced(rows: seq<Deactivation>, username: string, reason: Reason, now: int): seq<Deactivation>
  {
    WithoutUser(rows, username) + [Deactivation(username, reason, now)]
  }

  lemma {:induction false} RowsForConcat(a: seq<Deactivation>, b: seq<Deactivation>, username: string)
    ensures RowsFor(a + b, username) == RowsFor(a, username) + RowsFor(b, username)
  {
    if a == [] {
      assert a + b == b;
    } else {
      var ab := a + b;
      assert ab[0] == a[0] && ab[1..] == a[1..] + b;
      RowsForConcat(a[1..], b, username);
      if a[0].username == username {
        calc {
          RowsFor(ab, username);
          [a[0]] + RowsFor(a[1..] + b, username);
          [a[0]] + (RowsFor(a[1..], username) + RowsFor(b, username));
          ([a[0]] + RowsFor(a[1..], username)) + RowsFor(b, username);
          RowsFor(a, username) + RowsFor(b, username);
        }
      } else {
        calc {
          RowsFor(ab, username);
          RowsFor(a[1..] + b, username);
          RowsFor(a[1..], username) + RowsFor(b, username);
          RowsFor(a, username) + RowsFor(b, username);
        }
      }
    }
  }

  /** A user whose rows were all deleted has none left. */
  lemma {:induction false} RowsForDeleted(rows: seq<Deactivation>, username: string)
    ensures RowsFor(WithoutUser(rows, username), username) == []
  {
    if rows != [] {
      RowsForDeleted(rows[1..], username);
    }
  }

  lemma {:induction false} RowsForOther(rows: seq<Deactivation>, username: string, other: string)
    requires other != username
    ensures RowsFor(WithoutUser(rows, username), other) == RowsFor(rows, other)
  {
    if rows != [] {
      RowsForOther(rows[1..], username, other);
      if rows[0].username != username {
        RowsForConcat([rows[0]], WithoutUser(rows[1..], username), other);
      }
    }
  }

  /**
   * After save_login_deactivation the user has exactly one deactivation row,
   * carrying the new reason, and every other user's rows are as before.
   */
  lemma ReplacedLeavesOneRow(rows: seq<Deactivation>, username: string, reason: Reason, now: int)
    ensures RowsFor(Replaced(rows, username, reason, now), username) == [Deactivation(username, reason, now)]
    ensures forall other | other != username :: RowsFor(Replaced(rows, username, reason, now), other) == RowsFor(rows, other)
  {
    var kept := WithoutUser(rows, username);
    RowsForConcat(kept, [Deactivation(username, reason, now)], username);
    RowsForDeleted(rows, username);
    forall other | other != username
      ensures RowsFor(Replaced(rows, username, reason, now), other) == RowsFor(rows, other)
    {
      RowsForConcat(kept, [Deactivation(username, reason, now)], other);
      RowsForOther(rows, username, other);
    }
  }

  /**
   * Sending a signal: the event is recorded, then the receiver connected in
   * useraudit/models.py runs. The three useraudit signals replace the user's
   * deactivation row; a login_failure_limit_reached sent with user=None makes
   * the receiver call None.get_username(), an AttributeError. The userlog
   * signals have no receiver.
   */
  function Send(d: Db, event: Event, now: int): (r: Run)
    ensures r.db.events == d.events + [event]
    ensures r.db == d.(events := r.db.events, deactivations := r.db.deactivations)
    ensures r.raised.Some? <==> event == LoginFailureLimitReached(None)
    ensures event.PasswordHasExpired? ==> RowsFor(r.db.deactivations, event.username) == [Deactivation(event.username, PasswordExpired, now)]
    ensures event.AccountHasExpired? ==> RowsFor(r.db.deactivations, event.username) == [Deactivation(event.username, AccountExpired, now)]
    ensures event.LoginFailureLimitReached? && event.user.Some? ==>
      RowsFor(r.db.deactivations, event.user.value) == [Deactivation(event.user.value, TooManyFailedLogins, now)]
    ensures event.UserlogPasswordHasExpired? || event.UserlogAccountHasExpired? ==> r.db.deactivations == d.deactivations
    ensures event.PasswordHasExpired? ==> r.db.deactivations == Replaced(d.deactivations, event.username, PasswordExpired, now)
    ensures event.AccountHasExpired? ==> r.db.deactivations == Replaced(d.deactivations, event.username, AccountExpired, now)
    ensures event.LoginFailureLimitReached? ==>
      r.db.deactivations == if event.user.Some? then Replaced(d.deactivations, event.user.value, TooManyFailedLogins, now) else d.deactivations
  {
    var sent := d.(events := d.events + [event]);
    match event
    case PasswordHasExpired(username) =>
      ReplacedLeavesOneRow(d.deactivations, username, PasswordExpired, now);
      Run(sent.(deactivations := Replaced(d.deactivations, username, PasswordExpired, now)), None)
    case AccountHasExpired(username) =>
      ReplacedLeavesOneRow(d.deactivations, username, AccountExpired, now);
      Run(sent.(deactivations := Replaced(d.deactivations, username, AccountExpired, now)), None)
    case LoginFailureLimitReached(user) =>
      if user.None? then Run(sent, Some(AttributeError))
      else
        ReplacedLeavesOneRow(d.deactivations, user.value, TooManyFailedLogins, now);
        Run(sent.(deactivations := Replaced(d.deactivations, user.value, TooManyFailedLogins, now)), None)
    case UserlogPasswordHasExpired(_) => Run(sent, None)
    case UserlogAccountHasExpired(_) => Run(sent, None)
  }

  /**
   * login_callback: log the successful login, reset the username's counter
   * to 0 and delete all of the user's deactivation rows.
   */
  function LoggedIn(d: Db, username: string, request: Option<Request>, now: int): (r: Run)
    ensures r.raised.Some? <==> ExtractLogInfo(Some(username), request).Failure?
    ensures r.raised.None? ==>
      && r.db.loginLog == d.loginLog + [LogRow(ExtractLogInfo(Some(username), request).value, now)]
      && r.db.loginLog[|d.loginLog|].info.username == Some(username)
      && Some(username) in r.db.attempts && r.db.attempts[Some(username)] == Attempt(0, now)
      && RowsFor(r.db.deactivations, username) == []
      && r.db.attempts == Reset(d.attempts, Some(username), now)
      && r.db.deactivations == WithoutUser(d.deactivations, username)
      && r.db.users == d.users && r.db.profiles == d.profiles && r.db.events == d.events && r.db.failedLog == d.failedLog
    ensures r.raised.Some? ==> r.db == d
  {
    var logged := SuccessLogged(d, Some(username), request, now);
    if logged.raised.Some? then logged
    else
      var after := logged.db.(attempts := Reset(logged.db.attempts, Some(username), now),
                              deactivations := WithoutUser(logged.db.deactivations, username));
      RowsForDeleted(logged.db.deactivations, username);
      Run(after, None)
  }

  /** LoginAttemptLogger.increment on the database. */
  method Increment(db: Database, username: Option<string>, now: int)
    modifies db
    ensures db.State() == old(db.State()).(attempts := Incremented(old(db.attempts), username, now))
  {
    var count := 0;
    if username in db.attempts {
      count := db.attempts[username].count;
    }
    db.attempts := db.attempts[username := Attempt(count + 1, now)];
  }

  /** LoginAttemptLogger.reset on the database. */
  method ResetCounter(db: Database, username: Option<string>, now: int)
    modifies db
    ensures db.State() == old(db.State()).(attempts := Reset(old(db.attempts), username, now))
  {
    db.attempts := db.attempts[username := Attempt(0, now)];
  }

  /** UserDeactivation.objects.filter(username=u).delete() on the database. */
  method DeleteDeactivations(db: Database, username: string)
    modifies db
    ensures db.State() == old(db.State()).(deactivations := WithoutUser(old(db.deactivations), username))
  {
    db.deactivations := WithoutUser(db.deactivations, username);
  }

  /** Sends a signal and runs its receiver on the database. */
  method SendSignal(db: Database, event: Event, now: int) returns (raised: Option<PyError>)
    modifies db
    ensures db.State() == Send(old(db.State()), event, now).db
    ensures raised == Send(old(db.State()), event, now).raised
  {
    db.events := db.events + [event];
    match event
    case PasswordHasExpired(username) =>
      DeleteDeactivations(db, username);
      db.deactivations := db.deactivations + [Deactivation(username, PasswordExpired, now)];
      raised := None;
    case AccountHasExpired(username) =>
      DeleteDeactivations(db, username);
      db.deactivations := db.deactivations + [Deactivation(username, AccountExpired, now)];
      raised := None;
    case LoginFailureLimitReached(user) =>
      if user.None? {
        raised := Some(AttributeError);
      } else {
        DeleteDeactivations(db, user.value);
        db.deactivations := db.deactivations + [Deactivation(user.value, TooManyFailedLogins, now)];
        raised := None;
      }
    case UserlogPasswordHasExpired(_) =>
      raised := None;
    case UserlogAccountHasExpired(_) =>
      raised := None;
  }

  /** login_callback on the database. */
  method LoginCallback(db: Database, username: string, request: Option<Request>, now: int) returns (raised: Option<PyError>)
    modifies db
    ensures db.State() == LoggedIn(old(db.State()), username, request, now).db
    ensures raised == LoggedIn(old(db.State()), username, request, now).raised
  {
    raised := LogLogin(db, Some(username), request, now);
    if raised.None? {
      ResetCounter(db, Some(username), now);
      DeleteDeactivations(db, username);
    }
  }
}
