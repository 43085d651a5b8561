# mongoConnect connection lifecycle, modelled in Dafny

mongoConnect (`index.js`) wraps MongoDB's `MongoClient` so that a Node.js
process opens one database connection lazily and keeps it open. Its state is
held in module-level variables: the url `dbUrl`, the options `dbOptions`, the
logger `log`, the flag `isConnected` and the cached handle `db`. Three entry
points change that state:

- `setup` records the configuration. Every call up to and including the first
  one with a non-null url takes effect. After that, `setup` does nothing.
- `execute` hands the cached handle to its callback, or starts a connect.
- The driver's connect completion and each handle's `close` listener flip the
  connection flags.

The model has four files:

- `wrappers.dfy` (module `Wrappers`) holds `Option`, which stands for
  JavaScript's `null`.
- `machine.dfy` (module `Machine`) holds the module state as a value
  (`State`). Each entry point and each driver event is a transition on it:
  `SetupStep`, `ExecuteStep`, `ConnectStep` and `CloseStep`. `Invariant`
  holds in every reachable state. It says that being connected implies a cached
  handle, and that the cached handle has a close listener.
- `connector.dfy` (module `MongoConnect`) holds the class `Connector`. Its
  fields are the module variables of `index.js`, and its methods `Setup`,
  `Execute`, `OnConnectResult` and `OnClose` update them in place. Each method
  is proved to perform the matching `Machine` transition. Three client methods
  (`CacheReuse`, `ReconnectAfterClose`, `RetryAfterFailure`) drive one object
  through a typical life cycle, using nothing but those contracts.
- `traces.dfy` (module `Traces`) holds event traces. There is one event per
  call or driver completion, taken in the order the single-threaded event loop
  delivers them. `Run` folds a trace over a `World`: the module state, the
  connect requests the driver holds unanswered, and a clock.
  - Each request an execute issues gets a ticket: that execute's position in
    the trace. The ticket stands for the completion callback
    `connectAndExecute` passes to `MongoClient.connect`, which closes over that
    execute's own callback.
  - A completion names its ticket, and its reply carries that ticket.
  - The driver answers only requests it received, and each one once. A
    completion for a ticket that is not pending is therefore not a driver
    action, and it changes nothing.
  - The lemmas prove the module's promises over every trace.

The driver is not modelled. `Execute` returns the request it would send
(`ConnectRequest(url, options)`) and makes no other change. The environment
answers later with `OnConnectResult(ConnectErr(e))` or
`OnConnectResult(ConnectOk(h))`, and can fire `OnClose(h)` for any handle.

How JavaScript values are represented:

- A url of `null` or `undefined` is `None`. The guard `dbUrl != null` is a
  loose comparison, so both values leave the configuration unlocked, while an
  empty string locks it.
- A falsy options argument is `None`, because the code tests `if(mongoOptions)`.
- The `verbose` argument is a `VerboseArg`, because only `=== true` switches
  logging on.
- The `log` function is the flag `verbose`. The code never resets `log` to
  the no-op, so once a call passes `true` logging stays on.

The code has no `Connecting` state and no queue of callers waiting for a
connect. The model adds neither of them:

- Two executes made while disconnected each issue a request.
- The successful completion that arrives last overwrites `db`. A failure
  that arrives after a success leaves the module connected to the earlier
  handle.
- The listener on the older handle stays registered. A later `close` on that
  stale handle still marks the module disconnected (see
  `Traces.RacingConnects`).

The header comment of index.js (lines 12-15) says that only the first call
to setup is honoured and later calls are ignored. The code makes only a call
with a non-null url final. A `setup` with a null url still stores its options
and its verbosity, and a later call is still honoured (see
`Traces.NullUrlDoesNotLock`). The model follows the code.

## Model

| member | source | states |
|---|---|---|
| Machine.Init | index.js:32-44 | at load there is no url, the default options, no logging, no connection and no listeners |
| Machine.SetupStep | index.js:89-108 | with a url recorded, nothing changes; otherwise the url is stored even if null, the options are replaced only by a truthy argument, logging is switched on only by `true` and never off, and the connection is untouched |
| Machine.ExecuteStep | index.js:76-86 | when connected, the cached handle is delivered with no request; otherwise exactly one connect request is issued, with the current url and options |
| Machine.ConnectStep | index.js:50-71 | on failure, the callback gets the error and the state is unchanged; on success, the module is connected, `db` is the new handle, a listener is registered on it and the callback gets `(null, handle)`; the configuration is never changed |
| Machine.CloseStep | index.js:63-66 | a close on a listened handle clears `isConnected` and keeps `db`; a close on any other handle changes nothing |
| MongoConnect.Connector.constructor | index.js:32-44 | the fields start at `Machine.Init` |
| MongoConnect.Connector.Setup | index.js:89-108 | the fields are updated exactly as `SetupStep` says, and the invariant is kept |
| MongoConnect.Connector.Execute | index.js:76-86 | returns the cached handle when connected and `ConnectRequest(dbUrl, dbOptions)` otherwise, changing nothing |
| MongoConnect.Connector.OnConnectResult | index.js:50-71 | new fields and callback arguments are those of `ConnectStep`, and the invariant is kept |
| MongoConnect.Connector.OnClose | index.js:63-66 | the fields are updated exactly as `CloseStep` says, and the invariant is kept |
| MongoConnect.CacheReuse | index.js:76-86 | after setup, execute issues a request; once the driver returns `h`, the next execute delivers `h` with no request |
| MongoConnect.ReconnectAfterClose | index.js:59-84 | after a successful connect and a close of that handle, execute issues a fresh request with the configured url and options |
| MongoConnect.RetryAfterFailure | index.js:47-56 | a failed connect hands its error to the callback, and the next execute asks the driver again |
| Traces.Run | index.js:59-66 | every state reached from a state satisfying the invariant satisfies it too, and each event yields one output |
| Traces.ConfigFrozen | index.js:91-93 | once a url is recorded, no trace changes the url, the options or the verbosity |
| Traces.UnlockedUntilUrl | index.js:91-95 | until a setup passes a non-null url, no url is recorded |
| Traces.DefaultsWithoutSetup | index.js:35-44 | with no setup call, the options stay the default and logging stays off |
| Traces.FirstSetupWins | index.js:89-108 | the first setup with a non-null url fixes the configuration for the rest of the trace: its url, its options if truthy (else those already in place), and logging if it passed `true` or an earlier call did |
| Traces.FirstOfAllSetupsWins | index.js:95-106 | when no setup came before it, the winning call alone fixes the url, its options or the defaults, and logging exactly when it passed `true` |
| Traces.VerboseSticks | index.js:101-106 | once logging is on, no trace switches it off |
| Traces.LazyConnect | index.js:76-86 | before the first execute nothing happens: every output is silent, there is no request and no callback, nothing is pending, the module is not connected and nothing is cached |
| Traces.RepliesMatchRequests | index.js:47-71 | each request's ticket is the position of the execute that issued it; each callback invocation answers an earlier request; no request is answered twice; every pending ticket is an earlier request |
| Traces.UnansweredArePending | index.js:47-71 | every request that no callback invocation has answered is still pending, so with `RepliesMatchRequests` the pending tickets are exactly the unanswered requests |
| Traces.CacheIsLastSuccess | index.js:58-66 | the cached handle is always the one the latest successful callback received, and the listened handles are exactly the handles successful callbacks received |
| Traces.DeliversLatest | index.js:78-81 | whenever execute hands out the cached handle, it is the one the latest successful callback before that execute received |
| Traces.NoSuccessNoCache | index.js:52-56 | if no callback has received a connection, the module is not connected, nothing is cached and every execute asks the driver again |
| Traces.ConnectedUntilClose | index.js:78-81 | a connected module stays connected, and every execute is served from the cache, through any trace that closes no listened handle (listeners are never removed, so listened at the end of the trace covers every intermediate one) |
| Traces.CloseForcesReconnect | index.js:63-84 | a close on any handle a successful callback received, stale or current, keeps `db` and makes the next execute issue a fresh request |
| Traces.RacingConnects | index.js:47-84 | two executes while disconnected issue two requests with the current url and options; when they complete in reverse order, each reply goes to its own execute's ticket, the later completion is cached, and a close of the stale handle still disconnects |
| Traces.NullUrlDoesNotLock | index.js:91-99 | a setup with a null url keeps its options and verbosity and leaves the url open, so a later setup's url is recorded |

## Left out

- MongoClient and the `mongodb` driver (index.js:31, 50) are a foreign library. They appear only as the connect request `Execute` returns, the `ConnectOutcome` given to `OnConnectResult` and the handle passed to `OnClose`. Which handles the driver returns, and when it answers a pending request, is left open to the environment.
- The driver is assumed to answer only requests it received, and each one once. `Step` ignores a completion whose ticket is not pending, so the "no request is answered twice" clause of `Traces.RepliesMatchRequests` rests on this assumption. A driver that called one callback twice would run index.js:58-69 a second time, and the model does not capture that.
- MongoConnect.Connector.OnConnectResult: the class does not record which request a completion answers, which is the role of the closure in `connectAndExecute`. That pairing is modelled by the tickets in `Traces`.
- Console output and the log messages (index.js:49, 53, 58, 64, 68, 79, 102-105) are I/O with no effect on the state. The `verbose` flag records which `log` function is installed.
- Real asynchrony and the event emitter are not modelled. The connect callback and the `close` listener are explicit event methods, and a trace is one serial order of events.
- The options object's structure (`db`, `server.auto_reconnect`, `socketOptions.keepAlive`, `replSet`, `mongos`) is not modelled, and neither is its effect on the driver. Options are opaque values compared by identity, and the literal is `DefaultOptions`.
- It is not modelled that a callback and the module share one handle object (aliasing), or what a callback does with it.
- The driver is assumed to answer every connect with either a truthy error or a handle. index.js:52 tests only `if(err)`, so a callback with a falsy error and a null connection would set `isConnected` with `db` null and then throw at line 63. `ConnectOutcome` has no such case, and `Invariant`'s clause that being connected implies a cached handle rests on this assumption.
- Close listeners are a set of handles. If the driver returned one handle twice, it would carry two listeners. Firing them has the same effect as firing one, so the model loses nothing.
- JavaScript's other argument coercions are reduced to the three distinctions the code tests: url null or not, options truthy or not, verbose strictly `true` or not.
