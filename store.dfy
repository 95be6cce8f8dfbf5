/** The database behind the Django ORM calls, one field per table. */
module Store {
  import opened Wrappers
  import opened Records

  class Database {
    var users: map<string, User>
    var profiles: map<nat, map<string, Value>>
    var attempts: map<Option<string>, Attempt>
    var deactivations: seq<Deactivation>
    var loginLog: seq<LogRow>
    var failedLog: seq<LogRow>
    var events: seq<Event>

    /** The current contents of all tables. */
    function State(): Db
      reads this
    {
      Db(users, profiles, attempts, deactivations, loginLog, failedLog, events)
    }

    constructor (d: Db)
      ensures State() == d
    {
      users, profiles, attempts := d.users, d.profiles, d.attempts;
      deactivations, loginLog, failedLog, events := d.deactivations, d.loginLog, d.failedLog, d.events;
    }

    /** Rolls every table back to a saved state, as a failed transaction.atomic block does. */
    method Rollback(d: Db)
      modifies this
      ensures State() == d
    {
      users, profiles, attempts := d.users, d.profiles, d.attempts;
      deactivations, loginLog, failedLog, events := d.deactivations, d.loginLog, d.failedLog, d.events;
    }
  }
}
