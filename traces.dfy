/**
 * Runs of the mongoConnect module: a trace is the sequence of calls and
 * driver events it receives, in the order the single-threaded event loop
 * delivers them.  The lemmas state what index.js promises over every trace.
 */
module Traces {
  import opened Wrappers
  import opened Machine

  /**
   * One call or driver event.  Each connect request execute issues gets a
   * ticket, the position of that execute in the trace; it stands for the
   * completion callback connectAndExecute hands to MongoClient.connect,
   * which closes over that execute's user callback.  `ConnectResult(t, _)`
   * is the driver invoking the callback of ticket `t`.
   */
  datatype Event =
    | SetupCall(url: Option<string>, options: Option<Options>, verbose: VerboseArg)
    | ExecuteCall
    | ConnectResult(ticket: nat, outcome: ConnectOutcome)
    | CloseEvent(handle: Handle)

  /**
   * What one event produces: nothing; the cached handle handed to an
   * execute's callback at once; the connect request of ticket `ticket`; or
   * the callback of ticket `ticket` invoked with `reply`.
   */
  datatype Output =
    | Silent
    | Delivered(db: Handle)
    | Requested(ticket: nat, url: Option<string>, options: Options)
    | Replied(ticket: nat, reply: Reply)

  /**
   * The module state together with the connect requests the driver has
   * received and not yet answered, and the number of events so far.
   */
  datatype World = World(conn: State, pending: set<nat>, clock: nat)

  ghost predicate WorldInvariant(w: World) {
    Invariant(w.conn) && forall t :: t in w.pending ==> t < w.clock
  }

  function InitWorld(): (w: World)
    ensures WorldInvariant(w) && w.pending == {} && w.clock == 0
  {
    World(Init(), {}, 0)
  }

  /**
   * One event.  The driver calls a completion callback once, and only for a
   * request it received: a `ConnectResult` whose ticket is not pending is
   * not something the driver does, and it changes nothing.
   */
  function Step(w: World, e: Event): (r: (World, Output))
    requires WorldInvariant(w)
    ensures WorldInvariant(r.0) && r.0.clock == w.clock + 1
  {
    var n := w.clock;
    match e
    case SetupCall(u, o, v) => (w.(conn := SetupStep(w.conn, u, o, v), clock := n + 1), Silent)
    case ExecuteCall =>
      (match ExecuteStep(w.conn)
       case Deliver(h) => (w.(clock := n + 1), Delivered(h))
       case ConnectRequest(u, o) => (w.(pending := w.pending + {n}, clock := n + 1), Requested(n, u, o)))
    case ConnectResult(t, c) =>
      if t in w.pending then
        var p := ConnectStep(w.conn, c);
        (World(p.0, w.pending - {t}, n + 1), Replied(t, p.1))
      else (w.(clock := n + 1), Silent)
    case CloseEvent(h) => (w.(conn := CloseStep(w.conn, h), clock := n + 1), Silent)
  }

  /** The world after `tr` and the output of each of its events, in order. */
  function Run(w: World, tr: seq<Event>): (r: (World, seq<Output>))
    requires WorldInvariant(w)
    ensures WorldInvariant(r.0) && r.0.clock == w.clock + |tr| && |r.1| == |tr|
    decreases |tr|
  {
    if tr == [] then (w, [])
    else
      var before := Run(w, tr[..|tr| - 1]);
      var after := Step(before.0, tr[|tr| - 1]);
      (after.0, before.1 + [after.1])
  }

  /** The module state after `tr`, from load. */
  function Final(tr: seq<Event>): State {
    Run(InitWorld(), tr).0.conn
  }

  function Outputs(tr: seq<Event>): seq<Output> {
    Run(InitWorld(), tr).1
  }

  predicate IsSuccess(o: Output) {
    o.Replied? && o.reply.db.Some?
  }

  /** The handle the most recent successful callback received, if any. */
  function LastSuccess(outs: seq<Output>): Option<Handle> {
    if outs == [] then None
    else if IsSuccess(outs[|outs| - 1]) then outs[|outs| - 1].reply.db
    else LastSuccess(outs[..|outs| - 1])
  }

  /** Every handle a successful callback has received. */
  function Successes(outs: seq<Output>): set<Handle> {
    if outs == [] then {}
    else if IsSuccess(outs[|outs| - 1]) then Successes(outs[..|outs| - 1]) + {outs[|outs| - 1].reply.db.value}
    else Successes(outs[..|outs| - 1])
  }

  predicate IsLockingSetup(e: Event) {
    e.SetupCall? && e.url.Some?
  }

  // ---------------------------------------------------------------- runs

  /** Running a trace in two parts is running it whole. */
  lemma {:induction false} RunAppend(w: World, a: seq<Event>, b: seq<Event>)
    requires WorldInvariant(w)
    ensures Run(w, a + b).0 == Run(Run(w, a).0, b).0
    ensures Run(w, a + b).1 == Run(w, a).1 + Run(Run(w, a).0, b).1
    decreases |b|
  {
    if b == [] {
      assert a + b == a;
    } else {
      var b' := b[..|b| - 1];
      assert (a + b)[..|a + b| - 1] == a + b';
      assert (a + b)[|a + b| - 1] == b[|b| - 1];
      RunAppend(w, a, b');
    }
  }

  /**
   * The output of event `j` is what that event does in the world its prefix
   * left.
   */
  lemma OutputAt(w: World, tr: seq<Event>, j: nat)
    requires WorldInvariant(w) && j < |tr|
    ensures Run(w, tr[..j]).1 == Run(w, tr).1[..j]
    ensures Run(w, tr).1[j] == Step(Run(w, tr[..j]).0, tr[j]).1
  {
    assert tr == tr[..j] + tr[j..];
    RunAppend(w, tr[..j], tr[j..]);
    var rest := tr[j..];
    var mid := Run(w, tr[..j]).0;
    RunAppend(mid, [rest[0]], rest[1..]);
    assert rest == [rest[0]] + rest[1..];
    assert [rest[0]][..0] == [];
  }

  // ---------------------------------------------------------------- setup

  /**
   * Once a url is recorded, no trace changes the url, the options or the
   * verbosity.
   */
  lemma {:induction false} ConfigFrozen(w: World, tr: seq<Event>)
    requires WorldInvariant(w) && w.conn.dbUrl.Some?
    ensures ConfigOf(Run(w, tr).0.conn) == ConfigOf(w.conn)
    decreases |tr|
  {
    if tr != [] {
      ConfigFrozen(w, tr[..|tr| - 1]);
    }
  }

  /** Until a setup with a non-null url arrives, no url is recorded. */
  lemma {:induction false} UnlockedUntilUrl(tr: seq<Event>)
    requires forall i :: 0 <= i < |tr| ==> !IsLockingSetup(tr[i])
    ensures Final(tr).dbUrl.None?
  {
    if tr != [] {
      UnlockedUntilUrl(tr[..|tr| - 1]);
    }
  }

  /** Without any setup call, the default options stay and logging stays off. */
  lemma {:induction false} DefaultsWithoutSetup(tr: seq<Event>)
    requires forall i :: 0 <= i < |tr| ==> !tr[i].SetupCall?
    ensures ConfigOf(Final(tr)) == Config(None, DefaultOptions, false)
  {
    if tr != [] {
      DefaultsWithoutSetup(tr[..|tr| - 1]);
    }
  }

  /**
   * The first setup with a non-null url decides the configuration for good:
   * its url, its options if truthy (otherwise those already in place), and
   * logging if it passes `true` (or an earlier call did).
   */
  lemma FirstSetupWins(pre: seq<Event>, u: string, o: Option<Options>, v: VerboseArg, post: seq<Event>)
    requires forall i :: 0 <= i < |pre| ==> !IsLockingSetup(pre[i])
    ensures var before := Final(pre);
            ConfigOf(Final(pre + [SetupCall(Some(u), o, v)] + post)) ==
            Config(Some(u), o.GetOr(before.dbOptions), before.verbose || IsStrictTrue(v))
  {
    var e := SetupCall(Some(u), o, v);
    var mid := Run(InitWorld(), pre).0;
    UnlockedUntilUrl(pre);
    RunAppend(InitWorld(), pre, [e]);
    assert Run(mid, [e]).0.conn == SetupStep(mid.conn, Some(u), o, v) by {
      assert [e][..0] == [];
    }
    RunAppend(InitWorld(), pre + [e], post);
    ConfigFrozen(Run(InitWorld(), pre + [e]).0, post);
  }

  /**
   * With no setup before it, the winning call alone decides: the url, its
   * options or the defaults, and logging exactly when it passed `true`.
   */
  lemma FirstOfAllSetupsWins(pre: seq<Event>, u: string, o: Option<Options>, v: VerboseArg, post: seq<Event>)
    requires forall i :: 0 <= i < |pre| ==> !pre[i].SetupCall?
    ensures ConfigOf(Final(pre + [SetupCall(Some(u), o, v)] + post)) ==
            Config(Some(u), o.GetOr(DefaultOptions), IsStrictTrue(v))
  {
    DefaultsWithoutSetup(pre);
    FirstSetupWins(pre, u, o, v, post);
  }

  /** Logging, once switched on, is never switched off. */
  lemma {:induction false} VerboseSticks(w: World, tr: seq<Event>)
    requires WorldInvariant(w) && w.conn.verbose
    ensures Run(w, tr).0.conn.verbose
    decreases |tr|
  {
    if tr != [] {
      VerboseSticks(w, tr[..|tr| - 1]);
    }
  }

  // ---------------------------------------------------------------- execute

  /**
   * Nothing happens before the first execute: no connect request, no
   * completion, no callback, no connection and nothing cached.
   */
  lemma {:induction false} LazyConnect(tr: seq<Event>)
    requires forall i :: 0 <= i < |tr| ==> !tr[i].ExecuteCall?
    ensures forall i :: 0 <= i < |tr| ==> Outputs(tr)[i] == Silent
    ensures !Final(tr).isConnected && Final(tr).db.None?
    ensures Run(InitWorld(), tr).0.pending == {}
  {
    if tr != [] {
      LazyConnect(tr[..|tr| - 1]);
      assert Outputs(tr)[..|tr| - 1] == Outputs(tr[..|tr| - 1]);
    }
  }

  /**
   * Tickets in a run: each request's ticket is the position of the execute
   * that issued it; each reply answers an earlier request; no two replies
   * answer the same request; the pending tickets are earlier requests that
   * have not been answered.
   */
  /** Some callback invocation in `outs` answers the request of ticket `i`. */
  ghost predicate Answered(outs: seq<Output>, i: nat) {
    exists j :: 0 <= j < |outs| && outs[j].Replied? && outs[j].ticket == i
  }

  ghost predicate Matched(tr: seq<Event>, outs: seq<Output>, pending: set<nat>)
    requires |outs| == |tr|
  {
    (forall i :: 0 <= i < |outs| && outs[i].Requested? ==> outs[i].ticket == i && tr[i].ExecuteCall?) &&
    (forall j :: 0 <= j < |outs| && outs[j].Replied? ==>
       outs[j].ticket < j && outs[outs[j].ticket].Requested? && outs[j].ticket !in pending) &&
    (forall j1, j2 :: 0 <= j1 < j2 < |outs| && outs[j1].Replied? && outs[j2].Replied? ==>
       outs[j1].ticket != outs[j2].ticket) &&
    (forall t :: t in pending ==> t < |outs| && outs[t].Requested?)
  }

  /**
   * Every callback invocation answers the connect request of an earlier
   * execute, and no request is answered twice.
   */
  lemma {:induction false} RepliesMatchRequests(tr: seq<Event>)
    ensures Matched(tr, Outputs(tr), Run(InitWorld(), tr).0.pending)
  {
    if tr != [] {
      var n := |tr| - 1;
      var pre := tr[..n];
      RepliesMatchRequests(pre);
      var outs0, w0 := Outputs(pre), Run(InitWorld(), pre).0;
      var st := Step(w0, tr[n]);
      var outs, pending := Outputs(tr), st.0.pending;
      assert outs == outs0 + [st.1] && Run(InitWorld(), tr).0 == st.0;
      assert w0.clock == n;
      assert pending <= w0.pending + {n};
      assert forall i :: 0 <= i < n ==> outs[i] == outs0[i] && tr[i] == pre[i];
      assert st.1.Requested? ==> st.1.ticket == n && tr[n].ExecuteCall? && pending == w0.pending + {n};
      assert st.1.Replied? ==> st.1.ticket in w0.pending && pending == w0.pending - {st.1.ticket};
      assert !st.1.Replied? && !st.1.Requested? ==> pending == w0.pending;
      forall j | 0 <= j < |outs| && outs[j].Replied?
        ensures outs[j].ticket < j && outs[outs[j].ticket].Requested? && outs[j].ticket !in pending
      {
        if j < n {
          assert outs0[j].Replied? && outs0[j].ticket !in w0.pending;
        }
      }
      forall j1, j2 | 0 <= j1 < j2 < |outs| && outs[j1].Replied? && outs[j2].Replied?
        ensures outs[j1].ticket != outs[j2].ticket
      {
        if j2 == n {
          assert outs0[j1].Replied? && outs0[j1].ticket !in w0.pending;
        } else {
          assert outs0[j1].Replied? && outs0[j2].Replied?;
        }
      }
    }
  }

  /**
   * Conversely, every request no callback invocation has answered is still
   * pending: the driver can still answer it.  With `RepliesMatchRequests`,
   * the pending tickets are exactly the unanswered requests.
   */
  lemma {:induction false} UnansweredArePending(tr: seq<Event>)
    ensures var outs := Outputs(tr);
            forall i :: 0 <= i < |outs| && outs[i].Requested? && !Answered(outs, i) ==>
              i in Run(InitWorld(), tr).0.pending
  {
    if tr != [] {
      var n := |tr| - 1;
      var pre := tr[..n];
      UnansweredArePending(pre);
      var outs0, w0 := Outputs(pre), Run(InitWorld(), pre).0;
      var st := Step(w0, tr[n]);
      var outs, pending := Outputs(tr), st.0.pending;
      assert outs == outs0 + [st.1] && Run(InitWorld(), tr).0 == st.0;
      assert w0.clock == n;
      forall i | 0 <= i < |outs| && outs[i].Requested? && !Answered(outs, i)
        ensures i in pending
      {
        if i < n {
          assert outs[i] == outs0[i];
          assert !Answered(outs0, i) by {
            forall j | 0 <= j < |outs0|
              ensures !(outs0[j].Replied? && outs0[j].ticket == i)
            {
              assert outs[j] == outs0[j];
            }
          }
          assert outs[n] == st.1 && !(outs[n].Replied? && outs[n].ticket == i);
        }
      }
    }
  }

  /**
   * The cached handle is always the one the latest successful callback
   * received, and the listened handles are exactly those callbacks received.
   */
  lemma {:induction false} CacheIsLastSuccess(tr: seq<Event>)
    ensures Final(tr).db == LastSuccess(Outputs(tr))
    ensures Final(tr).closeListeners == Successes(Outputs(tr))
  {
    if tr != [] {
      var pre := tr[..|tr| - 1];
      CacheIsLastSuccess(pre);
      assert Outputs(tr)[..|tr| - 1] == Outputs(pre);
    }
  }

  /**
   * Whenever execute hands out the cached handle, it is the one the latest
   * successful callback before it received, even when several connects raced
   * and completed out of order.
   */
  lemma DeliversLatest(tr: seq<Event>, j: nat)
    requires j < |tr| && Outputs(tr)[j].Delivered?
    ensures Some(Outputs(tr)[j].db) == LastSuccess(Outputs(tr)[..j])
  {
    OutputAt(InitWorld(), tr, j);
    CacheIsLastSuccess(tr[..j]);
  }

  /**
   * A trace in which no callback receives a connection never connects:
   * every execute asks the driver, with the current configuration.
   */
  lemma NoSuccessNoCache(tr: seq<Event>)
    requires Successes(Outputs(tr)) == {}
    ensures !Final(tr).isConnected && Final(tr).db.None?
    ensures ExecuteStep(Final(tr)) == ConnectRequest(Final(tr).dbUrl, Final(tr).dbOptions)
  {
    CacheIsLastSuccess(tr);
  }

  /** The event closes a handle that has a close listener in world `w`. */
  predicate ClosesListened(w: World, e: Event) {
    e.CloseEvent? && e.handle in w.conn.closeListeners
  }

  /**
   * One event never drops a listener; one that closes no listened handle
   * keeps a connected module connected, and an execute is then served from
   * the cache.
   */
  lemma StaysConnected(w: World, e: Event)
    requires WorldInvariant(w)
    ensures w.conn.closeListeners <= Step(w, e).0.conn.closeListeners
    ensures w.conn.isConnected && !ClosesListened(w, e) ==> Step(w, e).0.conn.isConnected
    ensures w.conn.isConnected && e.ExecuteCall? ==> Step(w, e).1.Delivered?
  {
  }

  /**
   * A connected module stays connected until a `close` arrives on a handle
   * that has a listener, and every execute until then is served from the
   * cache with no connect request.  Listeners are never removed, so it is
   * enough that no event of `tr` closes a handle listened on at its end.
   */
  lemma {:induction false} ConnectedUntilClose(w: World, tr: seq<Event>)
    requires WorldInvariant(w) && w.conn.isConnected
    requires forall i :: 0 <= i < |tr| ==> !ClosesListened(Run(w, tr).0, tr[i])
    ensures Run(w, tr).0.conn.isConnected
    ensures forall i :: 0 <= i < |tr| && tr[i].ExecuteCall? ==> Run(w, tr).1[i].Delivered?
    decreases |tr|
  {
    if tr != [] {
      var n := |tr| - 1;
      var pre := tr[..n];
      var before := Run(w, pre);
      StaysConnected(before.0, tr[n]);
      assert Run(w, tr) == (Step(before.0, tr[n]).0, before.1 + [Step(before.0, tr[n]).1]);
      assert forall i :: 0 <= i < n ==> tr[i] == pre[i];
      ConnectedUntilClose(w, pre);
      assert forall i :: 0 <= i < n ==> Run(w, tr).1[i] == before.1[i];
    }
  }

  // ---------------------------------------------------------------- close

  /**
   * A `close` event on any handle a callback ever received — the cached one
   * or an older one it replaced — makes the next execute ask the driver
   * again rather than reuse the cache.  The cache itself is kept.
   */
  lemma CloseForcesReconnect(tr: seq<Event>, h: Handle)
    requires h in Successes(Outputs(tr))
    ensures var t := Final(tr + [CloseEvent(h)]);
            t.db == Final(tr).db &&
            ExecuteStep(t) == ConnectRequest(t.dbUrl, t.dbOptions)
  {
    CacheIsLastSuccess(tr);
    assert (tr + [CloseEvent(h)])[..|tr|] == tr;
  }

  /**
   * Two executes issued while disconnected each ask the driver.  When the
   * second request completes first, each completion still reaches the
   * callback of its own execute, the first request's handle, completing
   * last, is cached, and a `close` of the second, now stale, connection
   * still marks the module disconnected.
   */
  lemma RacingConnects(w: World, h1: Handle, h2: Handle)
    requires WorldInvariant(w) && !w.conn.isConnected
    ensures var n := w.clock;
            var tr := [ExecuteCall, ExecuteCall, ConnectResult(n + 1, ConnectOk(h2)), ConnectResult(n, ConnectOk(h1))];
            var r := Run(w, tr);
            var s := w.conn;
            r.1 == [Requested(n, s.dbUrl, s.dbOptions), Requested(n + 1, s.dbUrl, s.dbOptions),
                    Replied(n + 1, Reply(None, Some(h2))), Replied(n, Reply(None, Some(h1)))] &&
            r.0.conn.db == Some(h1) &&
            !CloseStep(r.0.conn, h2).isConnected
  {
    var n, s := w.clock, w.conn;
    var tr := [ExecuteCall, ExecuteCall, ConnectResult(n + 1, ConnectOk(h2)), ConnectResult(n, ConnectOk(h1))];
    var q1, q2 := Requested(n, s.dbUrl, s.dbOptions), Requested(n + 1, s.dbUrl, s.dbOptions);
    var w1 := w.(pending := w.pending + {n}, clock := n + 1);
    var w2 := w1.(pending := w1.pending + {n + 1}, clock := n + 2);
    var w3 := World(ConnectStep(s, ConnectOk(h2)).0, w2.pending - {n + 1}, n + 3);
    var t1, t2, t3 := tr[..1], tr[..2], tr[..3];
    assert t1[..0] == [] && t2[..1] == t1 && t3[..2] == t2 && tr[..3] == t3;
    assert Run(w, []) == (w, []);
    assert Run(w, t1) == (w1, [] + [q1]);
    assert [] + [q1] == [q1];
    assert Run(w, t2) == (w2, [q1] + [q2]);
    assert [q1] + [q2] == [q1, q2];
    assert t3[|t3| - 1] == ConnectResult(n + 1, ConnectOk(h2));
    assert Run(w, t3) == (w3, [q1, q2] + [Replied(n + 1, Reply(None, Some(h2)))]);
  }

  /**
   * A setup with a null url does not lock the configuration: its options
   * and its verbosity are kept, and the later call's url is recorded.
   */
  lemma NullUrlDoesNotLock(o1: Options, u: string, v: VerboseArg)
    ensures ConfigOf(Final([SetupCall(None, Some(o1), Bool(true)), SetupCall(Some(u), None, v)])) ==
            Config(Some(u), o1, true)
  {
    var tr := [SetupCall(None, Some(o1), Bool(true)), SetupCall(Some(u), None, v)];
    var t1 := tr[..1];
    assert t1[..0] == [] && tr[..1] == t1;
    assert Run(InitWorld(), []) == (InitWorld(), []);
    assert Final(t1) == SetupStep(Init(), None, Some(o1), Bool(true));
  }
}
