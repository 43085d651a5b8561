/**
 * The mongoConnect module of index.js as an object: its module-level
 * variables are the fields, its exported functions and the driver's
 * completions are the methods.  Every method is tied to the transition of
 * the same name in module Machine.
 */
module MongoConnect {
  import opened Wrappers
  import opened Machine

  class Connector {
    var dbUrl: Option<string>
    var dbOptions: Options
    var verbose: bool
    var isConnected: bool
    var db: Option<Handle>
    var closeListeners: set<Handle>

    /** The fields as a Machine.State value. */
    function Snapshot(): Machine.State
      reads this
    {
      Machine.State(dbUrl, dbOptions, verbose, isConnected, db, closeListeners)
    }

    ghost predicate Valid()
      reads this
    {
      Invariant(Snapshot())
    }

    /** Loading the module: no url, the default options, no logging, no connection. */
    constructor ()
      ensures Valid() && Snapshot() == Init()
    {
      dbUrl := None;
      dbOptions := DefaultOptions;
      verbose := false;
      isConnected := false;
      db := None;
      closeListeners := {};
    }

    /** exports.setup: the first call with a non-null url wins. */
    method Setup(mongoUrl: Option<string>, mongoOptions: Option<Options>, verboseArg: VerboseArg)
      requires Valid()
      modifies this
      ensures Valid()
      ensures Snapshot() == SetupStep(old(Snapshot()), mongoUrl, mongoOptions, verboseArg)
    {
      if dbUrl != None {
        return;
      }
      dbUrl := mongoUrl;
      if mongoOptions.Some? {
        dbOptions := mongoOptions.value;
      }
      if verboseArg == Bool(true) {
        verbose := true;
      }
    }

    /**
     * exports.execute: the cached handle when connected, otherwise the
     * connect request that connectAndExecute hands to the driver.  Nothing
     * changes until the driver answers (OnConnectResult).
     */
    method Execute() returns (a: Action)
      requires Valid()
      ensures isConnected ==> a.Deliver? && db == Some(a.db)
      ensures !isConnected ==> a == ConnectRequest(dbUrl, dbOptions)
      ensures a == ExecuteStep(Snapshot())
    {
      if isConnected {
        a := Deliver(db.value);
      } else {
        a := ConnectRequest(dbUrl, dbOptions);
      }
    }

    /** The callback given to MongoClient.connect in connectAndExecute. */
    method OnConnectResult(outcome: ConnectOutcome) returns (reply: Reply)
      requires Valid()
      modifies this
      ensures Valid()
      ensures (Snapshot(), reply) == ConnectStep(old(Snapshot()), outcome)
    {
      match outcome {
        case ConnectErr(e) =>
          reply := Reply(Some(e), None);
          return;
        case ConnectOk(conn) =>
          isConnected := true;
          db := Some(conn);
          closeListeners := closeListeners + {conn};
          reply := Reply(None, db);
      }
    }

    /** The `close` event of handle `h`, heard by the listeners registered on it. */
    method OnClose(h: Handle)
      requires Valid()
      modifies this
      ensures Valid()
      ensures Snapshot() == CloseStep(old(Snapshot()), h)
    {
      if h in closeListeners {
        isConnected := false;
      }
    }
  }

  /**
   * A caller's view of the cache: set up, execute (a connect request), the
   * driver answers with `h`, execute again: `h` comes back with no new request.
   */
  method CacheReuse(url: string, h: Handle) returns (first: Action, second: Action)
    ensures first == ConnectRequest(Some(url), DefaultOptions)
    ensures second == Deliver(h)
  {
    var m := new Connector();
    m.Setup(Some(url), None, Undefined);
    first := m.Execute();
    var reply := m.OnConnectResult(ConnectOk(h));
    second := m.Execute();
  }

  /**
   * After a `close` event on the cached handle, the next execute asks the
   * driver again, with the configured url and options, instead of reusing it.
   */
  method ReconnectAfterClose(url: string, options: Options, h: Handle) returns (next: Action)
    ensures next == ConnectRequest(Some(url), options)
  {
    var m := new Connector();
    m.Setup(Some(url), Some(options), Bool(true));
    var request := m.Execute();
    var reply := m.OnConnectResult(ConnectOk(h));
    m.OnClose(h);
    next := m.Execute();
  }

  /**
   * A failed connect reaches its caller as the error, and the next execute
   * tries the driver again.
   */
  method RetryAfterFailure(url: string, e: Error) returns (reply: Reply, next: Action)
    ensures reply == Reply(Some(e), None)
    ensures next == ConnectRequest(Some(url), DefaultOptions)
  {
    var m := new Connector();
    m.Setup(Some(url), None, NonBoolean);
    var request := m.Execute();
    reply := m.OnConnectResult(ConnectErr(e));
    next := m.Execute();
  }
}
