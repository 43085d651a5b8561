/**
 * The module state of mongoConnect (index.js) as a value, and each entry point
 * and driver event as a transition on that value.  The class in connector.dfy
 * is proved against these functions; traces.dfy proves what they promise over
 * whole runs.
 */
module Machine {
  import opened Wrappers

  /** A connection object handed out by the driver; `id` stands for its identity. */
  datatype Handle = Handle(id: nat)

  /** An error value reported by the driver's connect callback. */
  datatype Error = Error(message: string)

  /**
   * A connection-options object, opaque to this module.  `Default` is the
   * literal the module starts with (auto_reconnect and keepAlive on, empty
   * db, replSet and mongos settings); `Supplied(ref)` is an object a caller
   * passed to setup, compared by identity as JavaScript compares objects.
   */
  datatype Options = Default | Supplied(ref: nat)

  const DefaultOptions: Options := Default

  /**
   * The `verbose` argument of setup as JavaScript sees it: absent, a boolean,
   * or any other value (a number, a string, an object ...).  Only the
   * boolean `true` switches logging on, the test being `=== true`.
   */
  datatype VerboseArg = Undefined | Bool(b: bool) | NonBoolean

  predicate IsStrictTrue(v: VerboseArg) { v == Bool(true) }

  /** What MongoClient's connect callback receives: an error or a connection. */
  datatype ConnectOutcome = ConnectErr(err: Error) | ConnectOk(conn: Handle)

  /**
   * What a call to execute does synchronously: hand the cached handle to the
   * callback, or issue one connect request to the driver.
   */
  datatype Action =
    | Deliver(db: Handle)
    | ConnectRequest(url: Option<string>, options: Options)

  /** The arguments a user callback `(err, db)` is invoked with. */
  datatype Reply = Reply(err: Option<Error>, db: Option<Handle>)

  /**
   * The module-level variables of index.js.  `verbose` stands for the `log`
   * function (false: the no-op, true: the console writer).  `closeListeners`
   * holds every handle on which a `close` listener has been registered.
   */
  datatype State = State(
    dbUrl: Option<string>,
    dbOptions: Options,
    verbose: bool,
    isConnected: bool,
    db: Option<Handle>,
    closeListeners: set<Handle>)

  /** The state every reachable state satisfies. */
  ghost predicate Invariant(s: State) {
    (s.isConnected ==> s.db.Some?) &&
    (s.db.Some? ==> s.db.value in s.closeListeners)
  }

  /** The state when the module has just been loaded. */
  function Init(): (s: State)
    ensures Invariant(s)
    ensures s.dbUrl.None? && s.dbOptions == DefaultOptions && !s.verbose
    ensures !s.isConnected && s.db.None? && s.closeListeners == {}
  {
    State(None, DefaultOptions, false, false, None, {})
  }

  /** The configuration part of a state, the part setup writes. */
  datatype Config = Config(url: Option<string>, options: Options, verbose: bool)

  function ConfigOf(s: State): Config {
    Config(s.dbUrl, s.dbOptions, s.verbose)
  }

  /**
   * setup(mongoUrl, mongoOptions, verbose).  `mongoUrl` is None for null or
   * undefined; `mongoOptions` is None for any falsy value.
   */
  function SetupStep(s: State, mongoUrl: Option<string>, mongoOptions: Option<Options>, verbose: VerboseArg): (t: State)
    // once a url is recorded the call changes nothing and raises nothing
    ensures s.dbUrl.Some? ==> t == s
    // otherwise the url is recorded, null or not ...
    ensures s.dbUrl.None? ==> t.dbUrl == mongoUrl
    // ... the options are replaced only by a truthy argument ...
    ensures s.dbUrl.None? ==> t.dbOptions == mongoOptions.GetOr(s.dbOptions)
    // ... and logging is switched on only by `true`, and never switched off
    ensures s.dbUrl.None? ==> (t.verbose <==> s.verbose || IsStrictTrue(verbose))
    // setup never touches the connection
    ensures t.isConnected == s.isConnected && t.db == s.db && t.closeListeners == s.closeListeners
    ensures Invariant(s) ==> Invariant(t)
  {
    if s.dbUrl.Some? then s
    else
      var options := if mongoOptions.Some? then mongoOptions.value else s.dbOptions;
      var logOn := if IsStrictTrue(verbose) then true else s.verbose;
      s.(dbUrl := mongoUrl, dbOptions := options, verbose := logOn)
  }

  /** execute(callback): what it does synchronously.  The state is not changed. */
  function ExecuteStep(s: State): (a: Action)
    requires Invariant(s)
    // connected: the cached handle, and no connect request
    ensures s.isConnected ==> a.Deliver? && Some(a.db) == s.db
    // not connected: exactly one request, with the current url and options
    ensures !s.isConnected ==> a == ConnectRequest(s.dbUrl, s.dbOptions)
  {
    if s.isConnected then Deliver(s.db.value) else ConnectRequest(s.dbUrl, s.dbOptions)
  }

  /** The completion of MongoClient.connect issued by connectAndExecute. */
  function ConnectStep(s: State, outcome: ConnectOutcome): (r: (State, Reply))
    // failure: the error reaches the callback and the state is untouched
    ensures outcome.ConnectErr? ==> r.0 == s && r.1 == Reply(Some(outcome.err), None)
    // success: connected, the handle cached and listened on, and handed out
    ensures outcome.ConnectOk? ==>
      r.0.isConnected && r.0.db == Some(outcome.conn) &&
      r.0.closeListeners == s.closeListeners + {outcome.conn} &&
      r.1 == Reply(None, Some(outcome.conn))
    ensures ConfigOf(r.0) == ConfigOf(s)
    ensures Invariant(s) ==> Invariant(r.0)
  {
    match outcome
    case ConnectErr(e) => (s, Reply(Some(e), None))
    case ConnectOk(h) =>
      (s.(isConnected := true, db := Some(h), closeListeners := s.closeListeners + {h}), Reply(None, Some(h)))
  }

  /** The `close` event of handle `h`: its listeners, if any, run. */
  function CloseStep(s: State, h: Handle): (t: State)
    // a registered listener marks the module disconnected, and the cached handle stays
    ensures h in s.closeListeners ==> !t.isConnected
    ensures t.db == s.db && t.closeListeners == s.closeListeners && ConfigOf(t) == ConfigOf(s)
    // a handle nobody listens on changes nothing
    ensures h !in s.closeListeners ==> t == s
    ensures Invariant(s) ==> Invariant(t)
  {
    if h in s.closeListeners then s.(isConnected := false) else s
  }
}
