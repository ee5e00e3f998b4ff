/**
 * The socket hook: connection attempts, reconnect timers and the heartbeat, driven by events
 * of sockets that may outlive their place in the hook.
 */
module SocketHook {
  import opened Optional

  datatype Ready = CONNECTING | OPEN | CLOSING | CLOSED

  datatype Status = Connecting | Connected | Disconnected | Failed

  datatype Options = Options(user: bool, autoReconnect: bool, maxReconnectAttempts: nat)

  /**
   * `sockets` are all sockets ever made, `timers` and `heartbeats` the pending reconnect
   * timeouts and the running heartbeat intervals; the three `Ref` fields are the hook's refs.
   */
  datatype Hook = Hook(status: Status, error: Option<string>, sockets: seq<Ready>, wsRef: Option<nat>,
                       attempts: nat, nextTimer: nat, timers: set<nat>, timeoutRef: Option<nat>,
                       heartbeats: set<nat>, heartbeatRef: Option<nat>)

  const FRESH := Hook(Disconnected, None, [], None, 0, 0, {}, None, {}, None)

  // ---------- the callbacks ----------

  function HeartbeatStopped(k: Hook): Hook {
    if k.heartbeatRef.Some? then k.(heartbeats := k.heartbeats - {k.heartbeatRef.value}, heartbeatRef := None) else k
  }

  /** Clears the interval at hand, if any, and starts another. */
  function HeartbeatStarted(k: Hook): Hook {
    var others := if k.heartbeatRef.Some? then k.heartbeats - {k.heartbeatRef.value} else k.heartbeats;
    k.(heartbeats := others + {k.nextTimer}, heartbeatRef := Some(k.nextTimer), nextTimer := k.nextTimer + 1)
  }

  predicate IsOpen(k: Hook) {
    k.wsRef.Some? && k.wsRef.value < |k.sockets| && k.sockets[k.wsRef.value] == OPEN
  }

  /**
   * `stale` says that the callback was created in an earlier render and does not see that
   * the status is `connecting` by now; `thrown` is the message of the error, if the socket
   * could not be constructed.
   */
  function AfterConnect(k: Hook, o: Options, stale: bool, thrown: Option<string>): Hook {
    if IsOpen(k) || (k.status == Connecting && !stale) then k
    else if !o.user then k.(error := Some("User not authenticated"))
    else if thrown.Some? then k.(status := Failed, error := thrown)
    else k.(status := Connecting, error := None, sockets := k.sockets + [CONNECTING], wsRef := Some(|k.sockets|))
  }

  function OnOpen(k: Hook, w: nat): Hook
    requires w < |k.sockets|
  {
    HeartbeatStarted(k.(status := Connected, error := None, attempts := 0, sockets := k.sockets[w := OPEN]))
  }

  function OnError(k: Hook): Hook {
    HeartbeatStopped(k.(status := Failed, error := Some("WebSocket connection error")))
  }

  /** Schedules a reconnect while attempts are left; the ref forgets an earlier timer. */
  function OnClose(k: Hook, o: Options, w: nat): Hook
    requires w < |k.sockets|
  {
    var k1 := HeartbeatStopped(k.(status := Disconnected, sockets := k.sockets[w := CLOSED]));
    if o.autoReconnect && k.attempts < o.maxReconnectAttempts
    then k1.(attempts := k.attempts + 1, timers := k.timers + {k.nextTimer},
             timeoutRef := Some(k.nextTimer), nextTimer := k.nextTimer + 1)
    else k1
  }

  function AfterDisconnect(k: Hook): Hook {
    var k1 := if k.timeoutRef.Some? then k.(timers := k.timers - {k.timeoutRef.value}, timeoutRef := None) else k;
    var k2 := HeartbeatStopped(k1);
    var k3 := if k.wsRef.Some? then k2.(sockets := Closing(k2.sockets, k.wsRef.value), wsRef := None) else k2;
    k3.(status := Disconnected, error := None, attempts := 0)
  }

  function Closing(sockets: seq<Ready>, w: nat): seq<Ready> {
    if w < |sockets| && sockets[w] != CLOSED then sockets[w := CLOSING] else sockets
  }

  // ---------- events ----------

  /**
   * What a socket does, or the hook's user; a pending timer calls `connect` when it fires. A
   * socket that failed fires its error and its close event in one task, already CLOSED.
   */
  datatype Event =
    | UserConnects(stale: bool, thrown: Option<string>)
    | UserDisconnects
    | Opened(w: nat)
    | PeerCloses(w: nat)
    | Closed(w: nat, failed: bool)
    | TimerFires(t: nat, stale: bool, thrown: Option<string>)

  predicate Enabled(k: Hook, e: Event) {
    match e
    case UserConnects(_, _) => true
    case UserDisconnects => true
    case Opened(w) => w < |k.sockets| && k.sockets[w] == CONNECTING
    case PeerCloses(w) => w < |k.sockets| && k.sockets[w] == OPEN
    case Closed(w, _) => w < |k.sockets| && k.sockets[w] != CLOSED
    case TimerFires(t, _, _) => t in k.timers
  }

  function Next(k: Hook, o: Options, e: Event): Hook
    requires Enabled(k, e)
  {
    match e
    case UserConnects(stale, thrown) => AfterConnect(k, o, stale, thrown)
    case UserDisconnects => AfterDisconnect(k)
    case Opened(w) => OnOpen(k, w)
    case PeerCloses(w) => k.(sockets := k.sockets[w := CLOSING])
    case Closed(w, failed) => OnClose(if failed then OnError(k) else k, o, w)
    case TimerFires(t, stale, thrown) => AfterConnect(k.(timers := k.timers - {t}), o, stale, thrown)
  }

  ghost predicate Run(k: Hook, o: Options, es: seq<Event>, k': Hook)
    decreases |es|
  {
    if es == [] then k == k'
    else Enabled(k, es[0]) && Run(Next(k, o, es[0]), o, es[1..], k')
  }

  // ---------- the hook as an object ----------

  class WebSocketHook {
    const options: Options
    var status: Status
    var error: Option<string>
    var sockets: seq<Ready>
    var wsRef: Option<nat>
    var attempts: nat
    var nextTimer: nat
    var timers: set<nat>
    var timeoutRef: Option<nat>
    var heartbeats: set<nat>
    var heartbeatRef: Option<nat>

    function View(): Hook
      reads this
    {
      Hook(status, error, sockets, wsRef, attempts, nextTimer, timers, timeoutRef, heartbeats, heartbeatRef)
    }

    constructor (options: Options)
      ensures this.options == options && View() == FRESH
    {
      this.options := options;
      status, error, sockets, wsRef, attempts, nextTimer := Disconnected, None, [], None, 0, 0;
      timers, timeoutRef, heartbeats, heartbeatRef := {}, None, {}, None;
    }

    method StartHeartbeat()
      modifies this
      ensures View() == HeartbeatStarted(old(View()))
    {
      if heartbeatRef.Some? {
        heartbeats := heartbeats - {heartbeatRef.value};
      }
      heartbeats, heartbeatRef, nextTimer := heartbeats + {nextTimer}, Some(nextTimer), nextTimer + 1;
    }

    method StopHeartbeat()
      modifies this
      ensures View() == HeartbeatStopped(old(View()))
    {
      if heartbeatRef.Some? {
        heartbeats := heartbeats - {heartbeatRef.value};
        heartbeatRef := None;
      }
    }

    method Connect(stale: bool, thrown: Option<string>)
      modifies this
      ensures View() == AfterConnect(old(View()), options, stale, thrown)
    {
      if IsOpen(View()) || (status == Connecting && !stale) {
        return;
      }
      if !options.user {
        error := Some("User not authenticated");
        return;
      }
      status := Connecting;
      error := None;
      if thrown.Some? {
        status := Failed;
        error := thrown;
      } else {
        sockets, wsRef := sockets + [CONNECTING], Some(|sockets|);
      }
    }

    method Opened(w: nat)
      requires w < |sockets|
      modifies this
      ensures View() == OnOpen(old(View()), w)
    {
      sockets := sockets[w := OPEN];
      status := Connected;
      error := None;
      attempts := 0;
      StartHeartbeat();
    }

    method Errored()
      modifies this
      ensures View() == OnError(old(View()))
    {
      status := Failed;
      error := Some("WebSocket connection error");
      StopHeartbeat();
    }

    method Closed(w: nat)
      requires w < |sockets|
      modifies this
      ensures View() == OnClose(old(View()), options, w)
    {
      sockets := sockets[w := CLOSED];
      status := Disconnected;
      StopHeartbeat();
      if options.autoReconnect && attempts < options.maxReconnectAttempts {
        attempts := attempts + 1;
        timers, timeoutRef, nextTimer := timers + {nextTimer}, Some(nextTimer), nextTimer + 1;
      }
    }

    method Disconnect()
      modifies this
      ensures View() == AfterDisconnect(old(View()))
    {
      if timeoutRef.Some? {
        timers := timers - {timeoutRef.value};
        timeoutRef := None;
      }
      StopHeartbeat();
      if wsRef.Some? {
        sockets := Closing(sockets, wsRef.value);
        wsRef := None;
      }
      status := Disconnected;
      error := None;
      attempts := 0;
    }
  }

  // ---------- every run ----------

  ghost predicate Invariant(k: Hook, o: Options) {
    && k.attempts <= o.maxReconnectAttempts
    && k.heartbeats == (if k.heartbeatRef.Some? then {k.heartbeatRef.value} else {})
    && (k.wsRef.Some? ==> k.wsRef.value < |k.sockets|)
    && (forall t :: t in k.timers ==> t < k.nextTimer)
  }

  /** What starting and stopping come to, when the interval at hand is the only one. */
  lemma OneHeartbeat(k: Hook)
    requires k.heartbeats == if k.heartbeatRef.Some? then {k.heartbeatRef.value} else {}
    ensures HeartbeatStopped(k) == k.(heartbeats := {}, heartbeatRef := None)
    ensures HeartbeatStarted(k)
            == k.(heartbeats := {k.nextTimer}, heartbeatRef := Some(k.nextTimer), nextTimer := k.nextTimer + 1)
  {
  }

  lemma NextKeepsInvariant(k: Hook, o: Options, e: Event)
    requires Invariant(k, o) && Enabled(k, e)
    ensures Invariant(Next(k, o, e), o)
  {
    hide HeartbeatStopped, HeartbeatStarted, IsOpen;
    match e {
      case UserDisconnects =>
        var k1 := k.(timeoutRef := None);
        OneHeartbeat(if k.timeoutRef.Some? then k1.(timers := k.timers - {k.timeoutRef.value}) else k);
      case Opened(w) =>
        OneHeartbeat(k.(status := Connected, error := None, attempts := 0, sockets := k.sockets[w := OPEN]));
      case Closed(w, failed) =>
        OneHeartbeat(k.(status := Failed, error := Some("WebSocket connection error")));
        var k1 := if failed then OnError(k) else k;
        OneHeartbeat(k1.(status := Disconnected, sockets := k1.sockets[w := CLOSED]));
      case _ =>
    }
  }

  /**
   * From a fresh hook on, whatever happens: at most one heartbeat runs, and it is the one
   * the hook can still stop; and the attempts never exceed their maximum.
   */
  lemma {:induction false} EveryRunKeepsInvariant(k: Hook, o: Options, es: seq<Event>, k': Hook)
    requires Invariant(k, o) && Run(k, o, es, k')
    ensures Invariant(k', o) && |k'.heartbeats| <= 1
    decreases |es|
  {
    hide Next, Enabled;
    if es != [] {
      NextKeepsInvariant(k, o, es[0]);
      EveryRunKeepsInvariant(Next(k, o, es[0]), o, es[1..], k');
    }
  }

  /** The event schedules a reconnect: a timer is pending that was not before. */
  predicate Schedules(k: Hook, o: Options, e: Event)
    requires Enabled(k, e)
  {
    !(Next(k, o, e).timers <= k.timers)
  }

  /** The number of reconnects that a run schedules. */
  ghost function Scheduled(k: Hook, o: Options, es: seq<Event>, k': Hook): nat
    requires Run(k, o, es, k')
    decreases |es|
  {
    if es == [] then 0
    else (if Schedules(k, o, es[0]) then 1 else 0) + Scheduled(Next(k, o, es[0]), o, es[1..], k')
  }

  /** An opened socket and a manual disconnect start the count anew. */
  predicate Resets(e: Event) {
    e.Opened? || e.UserDisconnects?
  }

  /** The number of reconnects scheduled since the last reset, when there were `n` before the run. */
  ghost function SinceReset(k: Hook, o: Options, es: seq<Event>, k': Hook, n: nat): nat
    requires Run(k, o, es, k')
    decreases |es|
  {
    if es == [] then n
    else
      var n' := if Resets(es[0]) then 0 else if Schedules(k, o, es[0]) then n + 1 else n;
      SinceReset(Next(k, o, es[0]), o, es[1..], k', n')
  }

  lemma NextCounts(k: Hook, o: Options, e: Event)
    requires Invariant(k, o) && Enabled(k, e)
    ensures Next(k, o, e).attempts
            == if Resets(e) then 0 else if Schedules(k, o, e) then k.attempts + 1 else k.attempts
  {
    match e {
      case Closed(_, _) => assert k.nextTimer !in k.timers;
      case _ =>
    }
  }

  /** At every point of every run the attempts are the reconnects scheduled since the last reset. */
  lemma {:induction false} AttemptsCountReconnects(k: Hook, o: Options, es: seq<Event>, k': Hook)
    requires Invariant(k, o) && Run(k, o, es, k')
    ensures k'.attempts == SinceReset(k, o, es, k', k.attempts) <= o.maxReconnectAttempts
    decreases |es|
  {
    EveryRunKeepsInvariant(k, o, es, k');
    hide Next, Enabled, Schedules, Invariant;
    if es != [] {
      NextKeepsInvariant(k, o, es[0]);
      NextCounts(k, o, es[0]);
      AttemptsCountReconnects(Next(k, o, es[0]), o, es[1..], k');
    }
  }

  /** In a run without resets at most the maximum number of reconnects is scheduled. */
  lemma {:induction false} ReconnectsAreBounded(k: Hook, o: Options, es: seq<Event>, k': Hook)
    requires Invariant(k, o) && Run(k, o, es, k')
    requires forall i :: 0 <= i < |es| ==> !Resets(es[i])
    ensures k'.attempts == k.attempts + Scheduled(k, o, es, k')
    ensures Scheduled(k, o, es, k') <= o.maxReconnectAttempts
    decreases |es|
  {
    hide Next, Enabled, Schedules;
    EveryRunKeepsInvariant(k, o, es, k');
    if es != [] {
      var k1 := Next(k, o, es[0]);
      NextKeepsInvariant(k, o, es[0]);
      NextCounts(k, o, es[0]);
      assert !Resets(es[0]) && forall i :: 0 <= i < |es[1..]| ==> es[1..][i] == es[i + 1];
      ReconnectsAreBounded(k1, o, es[1..], k');
    }
  }

  // ---------- the reconnects by the events alone ----------

  /** The sockets closed since the last reset, when there were `n` before the run. */
  function ClosesSinceReset(es: seq<Event>, n: nat): nat {
    if es == [] then n
    else ClosesSinceReset(es[1..], if Resets(es[0]) then 0 else if es[0].Closed? then n + 1 else n)
  }

  /** How many of `closes` closes since a reset schedule a reconnect. */
  function Reconnects(o: Options, closes: nat): nat {
    if !o.autoReconnect then 0 else if closes < o.maxReconnectAttempts then closes else o.maxReconnectAttempts
  }

  /**
   * From a fresh hook on, each close schedules a reconnect until the maximum is reached: the
   * number of reconnects since the last reset is that of the closes, up to the maximum, with
   * reconnecting on, and zero with it off.
   */
  lemma {:induction false} ReconnectsAreMade(o: Options, es: seq<Event>, k: Hook)
    requires Run(FRESH, o, es, k)
    ensures var n := ClosesSinceReset(es, 0);
            SinceReset(FRESH, o, es, k, 0) == k.attempts
            == if !o.autoReconnect then 0 else if n < o.maxReconnectAttempts then n else o.maxReconnectAttempts
  {
    AttemptsCountReconnects(FRESH, o, es, k);
    AttemptsByCloses(FRESH, o, es, k, 0);
  }

  lemma {:induction false} AttemptsByCloses(k: Hook, o: Options, es: seq<Event>, k': Hook, n: nat)
    requires Run(k, o, es, k') && k.attempts == Reconnects(o, n)
    ensures k'.attempts == Reconnects(o, ClosesSinceReset(es, n))
    decreases |es|
  {
    if es != [] {
      var n' := if Resets(es[0]) then 0 else if es[0].Closed? then n + 1 else n;
      AttemptsByCloses(Next(k, o, es[0]), o, es[1..], k', n');
    }
  }

  /** The reconnect timers by the events alone: how many ids are used up, which are pending, and the latest. */
  datatype Timers = Timers(closes: nat, used: nat, pending: set<nat>, latest: Option<nat>)

  function Tick(o: Options, ts: Timers, e: Event): Timers {
    match e
    case Opened(_) => ts.(closes := 0, used := ts.used + 1)
    case Closed(_, _) =>
      if o.autoReconnect && ts.closes < o.maxReconnectAttempts
      then Timers(ts.closes + 1, ts.used + 1, ts.pending + {ts.used}, Some(ts.used))
      else ts.(closes := ts.closes + 1)
    case TimerFires(t, _, _) => ts.(pending := ts.pending - {t})
    case UserDisconnects =>
      Timers(0, ts.used, if ts.latest.Some? then ts.pending - {ts.latest.value} else ts.pending, None)
    case _ => ts
  }

  function TimersAfter(o: Options, ts: Timers, es: seq<Event>): Timers
    decreases |es|
  {
    if es == [] then ts else TimersAfter(o, Tick(o, ts, es[0]), es[1..])
  }

  /** The hook's part that belongs to the timers agrees with their history. */
  predicate Clocked(k: Hook, o: Options, ts: Timers) {
    && k.attempts == Reconnects(o, ts.closes)
    && k.nextTimer == ts.used && k.timers == ts.pending && k.timeoutRef == ts.latest
  }

  lemma NextKeepsClocked(k: Hook, o: Options, e: Event, ts: Timers)
    requires Clocked(k, o, ts) && Enabled(k, e)
    ensures Clocked(Next(k, o, e), o, Tick(o, ts, e))
  {
    hide IsOpen;
  }

  lemma {:induction false} RunKeepsClocked(k: Hook, o: Options, es: seq<Event>, k': Hook, ts: Timers)
    requires Run(k, o, es, k') && Clocked(k, o, ts)
    ensures Clocked(k', o, TimersAfter(o, ts, es))
    decreases |es|
  {
    hide Next, Enabled, Tick;
    if es != [] {
      NextKeepsClocked(k, o, es[0], ts);
      RunKeepsClocked(Next(k, o, es[0]), o, es[1..], k', Tick(o, ts, es[0]));
    }
  }

  /**
   * A timer of a fresh hook is pending exactly when a close scheduled it, it has not fired, and no
   * manual disconnect came while it was the latest one: of several a disconnect clears only that.
   */
  lemma {:induction false} TimersByHistory(o: Options, es: seq<Event>, k: Hook)
    requires Run(FRESH, o, es, k)
    ensures k.timers == TimersAfter(o, Timers(0, 0, {}, None), es).pending
  {
    RunKeepsClocked(FRESH, o, es, k, Timers(0, 0, {}, None));
  }

  // ---------- one live socket ----------

  /** The socket is connecting or open. */
  predicate Live(k: Hook, w: nat) {
    w < |k.sockets| && k.sockets[w] in {CONNECTING, OPEN}
  }

  predicate OwnIsConnecting(k: Hook) {
    k.wsRef.Some? && k.wsRef.value < |k.sockets| && k.sockets[k.wsRef.value] == CONNECTING
  }

  /** Only the hook's own socket is live, and it is connecting exactly when the status says so. */
  ghost predicate OneLive(k: Hook) {
    && (forall w: nat :: Live(k, w) ==> k.wsRef == Some(w))
    && (k.status == Connecting <==> OwnIsConnecting(k))
  }

  /**
   * While the hook's own socket is connecting, no callback of an earlier render calls `connect`,
   * and no other socket closes.
   */
  predicate Orderly(k: Hook, o: Options, e: Event) {
    k.status == Connecting ==>
      match e
      case UserConnects(stale, _) => o.user ==> !stale
      case TimerFires(_, stale, _) => o.user ==> !stale
      case Closed(w, _) => k.wsRef == Some(w)
      case _ => true
  }

  ghost predicate OrderlyRun(k: Hook, o: Options, es: seq<Event>, k': Hook)
    requires Run(k, o, es, k')
    decreases |es|
  {
    es == [] || (Orderly(k, o, es[0]) && OrderlyRun(Next(k, o, es[0]), o, es[1..], k'))
  }

  /** The socket keeps `connect` from making another: one that is connecting only in the present render. */
  predicate Blocks(k: Hook, w: nat, stale: bool) {
    w < |k.sockets| && (k.sockets[w] == OPEN || (k.sockets[w] == CONNECTING && !stale))
  }

  /**
   * What `connect` does, with no word about the status: nothing while a socket blocks it. Otherwise
   * it reports the missing user or the thrown error, or makes a socket and waits for it.
   */
  lemma ConnectMeans(k: Hook, o: Options, stale: bool, thrown: Option<string>)
    requires OneLive(k)
    ensures AfterConnect(k, o, stale, thrown)
            == if exists w: nat :: Blocks(k, w, stale) then k
               else if !o.user then k.(error := Some("User not authenticated"))
               else if thrown.Some? then k.(status := Failed, error := thrown)
               else k.(status := Connecting, error := None, sockets := k.sockets + [CONNECTING],
                       wsRef := Some(|k.sockets|))
  {
    if w: nat :| Blocks(k, w, stale) {
      assert Live(k, w) && k.wsRef == Some(w);
    } else {
      assert IsOpen(k) ==> Blocks(k, k.wsRef.value, stale);
      assert OwnIsConnecting(k) && !stale ==> Blocks(k, k.wsRef.value, stale);
    }
  }

  lemma ConnectKeepsOneLiveIff(k: Hook, o: Options, stale: bool, thrown: Option<string>)
    requires OneLive(k)
    ensures OneLive(AfterConnect(k, o, stale, thrown)) <==> !(k.status == Connecting && o.user && stale)
  {
    ConnectMeans(k, o, stale, thrown);
    var k1 := AfterConnect(k, o, stale, thrown);
    hide AfterConnect;
    if k.status == Connecting && o.user && stale {
      var v := k.wsRef.value;
      assert forall w: nat :: Blocks(k, w, stale) ==> Live(k, w) && w == v;
      assert Live(k1, v) && k1.sockets[v] == CONNECTING;
    } else {
      assert forall w: nat :: Blocks(k, w, stale) ==> Live(k, w);
      assert OwnIsConnecting(k) && !stale ==> Blocks(k, k.wsRef.value, stale);
      assert OwnIsConnecting(k) ==> k.status == Connecting;
      forall w: nat | Live(k1, w) ensures k1.wsRef == Some(w) {
        if w < |k.sockets| {
          assert Live(k, w);
        }
      }
    }
  }

  lemma OthersKeepOneLiveIff(k: Hook, o: Options, e: Event)
    requires OneLive(k) && Enabled(k, e) && !e.UserConnects? && !e.TimerFires?
    ensures OneLive(Next(k, o, e)) <==> Orderly(k, o, e)
  {
    hide HeartbeatStopped, HeartbeatStarted;
    var k1 := Next(k, o, e);
    SocketsAfter(k, o, e);
    if e.Opened? {
      assert Live(k, e.w);
    }
    forall w: nat | Live(k1, w) ensures k1.wsRef == Some(w) {
      assert Live(k, w);
    }
  }

  /** What socket events and a disconnect do to the sockets, the own one and the status. */
  lemma SocketsAfter(k: Hook, o: Options, e: Event)
    requires Enabled(k, e)
    ensures var k1 := Next(k, o, e);
            && (e.Opened? ==> k1.sockets == k.sockets[e.w := OPEN] && k1.wsRef == k.wsRef && k1.status == Connected)
            && (e.PeerCloses? ==>
                  k1.sockets == k.sockets[e.w := CLOSING] && k1.wsRef == k.wsRef && k1.status == k.status)
            && (e.Closed? ==>
                  k1.sockets == k.sockets[e.w := CLOSED] && k1.wsRef == k.wsRef && k1.status == Disconnected)
            && (e.UserDisconnects? ==>
                  && k1.wsRef == None && k1.status == Disconnected
                  && k1.sockets == if k.wsRef.Some? then Closing(k.sockets, k.wsRef.value) else k.sockets)
  {
  }

  lemma {:induction false} OrderlyRunsKeepOneLive(k: Hook, o: Options, es: seq<Event>, k': Hook)
    requires OneLive(k) && Run(k, o, es, k') && OrderlyRun(k, o, es, k')
    ensures OneLive(k')
    decreases |es|
  {
    hide Next, Enabled, OneLive, Orderly;
    if es != [] {
      StepKeepsOneLiveIff(k, o, es[0]);
      OrderlyRunsKeepOneLive(Next(k, o, es[0]), o, es[1..], k');
    }
  }

  /** One step gives up that only the own socket is live, as reported, exactly when it is not orderly. */
  lemma StepKeepsOneLiveIff(k: Hook, o: Options, e: Event)
    requires OneLive(k) && Enabled(k, e)
    ensures OneLive(Next(k, o, e)) <==> Orderly(k, o, e)
  {
    hide AfterConnect, OnOpen, OnClose, AfterDisconnect;
    match e {
      case UserConnects(stale, thrown) => ConnectKeepsOneLiveIff(k, o, stale, thrown);
      case TimerFires(t, stale, thrown) =>
        var k1 := k.(timers := k.timers - {t});
        assert OneLive(k1) by {
          assert forall w: nat :: Live(k1, w) <==> Live(k, w);
        }
        ConnectKeepsOneLiveIff(k1, o, stale, thrown);
      case _ => OthersKeepOneLiveIff(k, o, e);
    }
  }

  /**
   * In every orderly run of a fresh hook at most one socket is live, and it is the hook's own. So
   * `connect` makes a socket if and only if there is a user, nothing is thrown and none is live.
   */
  lemma {:induction false} OneSocketAtATime(o: Options, es: seq<Event>, k: Hook, thrown: Option<string>)
    requires Run(FRESH, o, es, k) && OrderlyRun(FRESH, o, es, k)
    ensures forall v: nat, w: nat :: Live(k, v) && Live(k, w) ==> v == w && k.wsRef == Some(w)
    ensures |AfterConnect(k, o, false, thrown).sockets|
            == |k.sockets| + if o.user && thrown.None? && forall w: nat :: !Live(k, w) then 1 else 0
  {
    OrderlyRunsKeepOneLive(FRESH, o, es, k);
    ConnectMeans(k, o, false, thrown);
    assert forall w: nat :: Blocks(k, w, false) <==> Live(k, w);
  }

  /** A run that is not orderly: `connect` called twice in one render leaves two live sockets. */
  lemma StaleConnectDoubles(o: Options) returns (es: seq<Event>, k: Hook)
    requires o.user
    ensures Run(FRESH, o, es, k) && Live(k, 0) && Live(k, 1)
  {
    var connect, again := UserConnects(false, None), UserConnects(true, None);
    k := Next(Next(FRESH, o, connect), o, again);
    RunTwo(FRESH, o, connect, again);
    es := [connect, again];
  }

  // ---------- what the hook reports ----------

  /** Nothing is wrong while connecting or connected, and a failure comes with its text. */
  ghost predicate Reports(k: Hook, o: Options) {
    && (k.status in {Connecting, Connected} ==> k.error == None)
    && (k.status == Failed ==> k.error.Some?)
    && (!o.user ==> k.sockets == [] && k.status == Disconnected)
  }

  /** In every run the status and the error text agree, and a socket that fails leaves its text. */
  lemma {:induction false} EveryRunReports(k: Hook, o: Options, es: seq<Event>, k': Hook)
    requires Reports(k, o) && Run(k, o, es, k')
    ensures Reports(k', o)
    ensures es != [] && es[|es| - 1].Closed? && es[|es| - 1].failed ==> k'.error == Some("WebSocket connection error")
    decreases |es|
  {
    hide IsOpen;
    if es != [] {
      EveryRunReports(Next(k, o, es[0]), o, es[1..], k');
    }
  }

  /** Between the error of a socket and its close no heartbeat is left, and the failure is reported. */
  lemma ErrorSilences(k: Hook, o: Options)
    requires Invariant(k, o)
    ensures Invariant(OnError(k), o) && OnError(k).heartbeats == {}
    ensures OnError(k).status == Failed && OnError(k).error == Some("WebSocket connection error")
  {
    OneHeartbeat(k);
    OneHeartbeat(k.(status := Failed, error := Some("WebSocket connection error")));
  }

  /** Without a user the hook never leaves its first state, but for the text that says why. */
  lemma {:induction false} WithoutUser(k: Hook, o: Options, es: seq<Event>, k': Hook)
    requires !o.user && k in {FRESH, FRESH.(error := Some("User not authenticated"))} && Run(k, o, es, k')
    ensures k' == if es == [] then k
                  else FRESH.(error := if es[|es| - 1].UserConnects? then Some("User not authenticated") else None)
    decreases |es|
  {
    if es != [] {
      var k1 := Next(k, o, es[0]);
      assert es[0].UserConnects? || es[0].UserDisconnects?;
      assert k1 == FRESH.(error := if es[0].UserConnects? then Some("User not authenticated") else None);
      WithoutUser(k1, o, es[1..], k');
    }
  }

  // ---------- is a manual disconnect final? ----------

  predicate ByUser(e: Event) {
    e.UserConnects? || e.UserDisconnects?
  }

  /** Left alone, the hook stays disconnected: no new socket, and no heartbeat. */
  ghost predicate Final(k: Hook, o: Options) {
    forall es, k' :: Run(k, o, es, k') && (forall i :: 0 <= i < |es| ==> !ByUser(es[i])) ==>
      k'.status == Disconnected && |k'.sockets| == |k.sockets| && k'.heartbeatRef == None
  }

  /** No socket can still open, no timer is pending, and no socket can schedule one by closing. */
  predicate Still(k: Hook, o: Options) {
    && (forall w :: 0 <= w < |k.sockets| ==> k.sockets[w] != CONNECTING)
    && (!o.user || (k.timers == {} && (!o.autoReconnect || o.maxReconnectAttempts == 0 || AllClosed(k))))
  }

  predicate AllClosed(k: Hook) {
    forall w :: 0 <= w < |k.sockets| ==> k.sockets[w] == CLOSED
  }

  lemma {:induction false} StillStaysDisconnected(k: Hook, o: Options, es: seq<Event>, k': Hook)
    requires Still(k, o) && k.status == Disconnected && k.heartbeatRef == None
    requires Run(k, o, es, k') && forall i :: 0 <= i < |es| ==> !ByUser(es[i])
    ensures k'.status == Disconnected && |k'.sockets| == |k.sockets| && k'.heartbeatRef == None
    decreases |es|
  {
    if es != [] {
      var k1 := Next(k, o, es[0]);
      assert !ByUser(es[0]) && forall i :: 0 <= i < |es[1..]| ==> es[1..][i] == es[i + 1];
      StillStaysDisconnected(k1, o, es[1..], k');
    }
  }

  lemma RunOne(k: Hook, o: Options, e: Event)
    requires Enabled(k, e)
    ensures Run(k, o, [e], Next(k, o, e))
  {
    assert Run(Next(k, o, e), o, [e][1..], Next(k, o, e));
  }

  lemma RunTwo(k: Hook, o: Options, e: Event, f: Event)
    requires Enabled(k, e) && Enabled(Next(k, o, e), f)
    ensures Run(k, o, [e, f], Next(Next(k, o, e), o, f))
  {
    RunOne(Next(k, o, e), o, f);
    assert [e, f][1..] == [f];
  }

  /**
   * After a manual disconnect the hook stays disconnected by itself if and only if no socket is
   * still connecting, no timer was left behind and no socket is still to close (with
   * reconnecting on). Otherwise the leftover socket opens, or the timer or the late close
   * connects again.
   */
  lemma DisconnectIsFinalIff(k0: Hook, o: Options)
    ensures Final(AfterDisconnect(k0), o) <==> Still(AfterDisconnect(k0), o)
  {
    var k := AfterDisconnect(k0);
    if Still(k, o) {
      forall es, k' | Run(k, o, es, k') && (forall i :: 0 <= i < |es| ==> !ByUser(es[i]))
        ensures k'.status == Disconnected && |k'.sockets| == |k.sockets| && k'.heartbeatRef == None
      {
        StillStaysDisconnected(k, o, es, k');
      }
    } else if w :| 0 <= w < |k.sockets| && k.sockets[w] == CONNECTING {
      RunOne(k, o, Event.Opened(w));
      assert Next(k, o, Event.Opened(w)).status == Connected;
    } else if k.timers != {} {
      var t :| t in k.timers;
      var e := TimerFires(t, false, None);
      RunOne(k, o, e);
      assert |Next(k, o, e).sockets| == |k.sockets| + 1;
    } else {
      var w :| 0 <= w < |k.sockets| && k.sockets[w] != CLOSED;
      var e, f := Event.Closed(w, false), TimerFires(k.nextTimer, false, None);
      RunTwo(k, o, e, f);
      assert |Next(Next(k, o, e), o, f).sockets| == |k.sockets| + 1;
    }
  }

  // ---------- does an open socket keep its heartbeat? ----------

  /** A socket that the hook has given up closes while the hook's own socket is open. */
  predicate LateClose(k: Hook, e: Event) {
    IsOpen(k) && e.Closed? && Some(e.w) != k.wsRef
  }

  /** One step takes the heartbeat from an open socket if and only if it is such a close. */
  lemma SilencedByLateCloseIff(k: Hook, o: Options, e: Event)
    requires Invariant(k, o) && (IsOpen(k) ==> k.heartbeats != {}) && Enabled(k, e)
    ensures IsOpen(Next(k, o, e)) && Next(k, o, e).heartbeats == {} <==> LateClose(k, e)
  {
    NextKeepsInvariant(k, o, e);
  }

  /** No event of the run is the late close of a socket given up. */
  ghost predicate NoLateClose(k: Hook, o: Options, es: seq<Event>, k': Hook)
    requires Run(k, o, es, k')
    decreases |es|
  {
    es == [] || (!LateClose(k, es[0]) && NoLateClose(Next(k, o, es[0]), o, es[1..], k'))
  }

  /** In every run without a late close, an open socket has a heartbeat. */
  lemma {:induction false} OpenSocketKeepsHeartbeat(k: Hook, o: Options, es: seq<Event>, k': Hook)
    requires Invariant(k, o) && (IsOpen(k) ==> k.heartbeats != {})
    requires Run(k, o, es, k') && NoLateClose(k, o, es, k')
    ensures IsOpen(k') ==> k'.heartbeats != {}
    decreases |es|
  {
    hide Next, Enabled, Invariant, LateClose, IsOpen;
    if es != [] {
      SilencedByLateCloseIff(k, o, es[0]);
      NextKeepsInvariant(k, o, es[0]);
      OpenSocketKeepsHeartbeat(Next(k, o, es[0]), o, es[1..], k');
    }
  }

  predicate NoneOpens(es: seq<Event>) {
    forall e :: e in es ==> !e.Opened?
  }

  /** By the events alone: some socket closed, and none has opened since. */
  predicate ClosedSinceOpened(es: seq<Event>) {
    es != [] && ((es[0].Closed? && NoneOpens(es)) || ClosedSinceOpened(es[1..]))
  }

  lemma {:induction false} HeartbeatByHistory(k: Hook, o: Options, es: seq<Event>, k': Hook)
    requires Invariant(k, o) && Run(k, o, es, k') && IsOpen(k')
    ensures NoneOpens(es) ==> IsOpen(k)
    ensures k'.heartbeats == {} <==> ClosedSinceOpened(es) || (k.heartbeats == {} && NoneOpens(es))
    ensures k'.status == if ClosedSinceOpened(es) then Disconnected else if NoneOpens(es) then k.status else Connected
    decreases |es|
  {
    hide Invariant;
    if es != [] {
      var e, k1 := es[0], Next(k, o, es[0]);
      NextKeepsInvariant(k, o, e);
      HeartbeatByHistory(k1, o, es[1..], k');
      assert NoneOpens(es) <==> !e.Opened? && NoneOpens(es[1..]) by {
        assert es == [e] + es[1..];
      }
      HeartbeatAfter(k, o, e);
    }
  }

  lemma HeartbeatAfter(k: Hook, o: Options, e: Event)
    requires Invariant(k, o) && Enabled(k, e)
    ensures e.Opened? ==> Next(k, o, e).heartbeats != {}
    ensures e.Closed? ==> Next(k, o, e).heartbeats == {}
    ensures !e.Opened? && IsOpen(Next(k, o, e)) ==> IsOpen(k)
    ensures !e.Opened? && !e.Closed? && IsOpen(Next(k, o, e)) ==>
              Next(k, o, e).heartbeats == k.heartbeats && Next(k, o, e).status == k.status
    ensures e.Opened? ==> Next(k, o, e).status == Connected
    ensures e.Closed? ==> Next(k, o, e).status == Disconnected
  {
  }

  /**
   * At every point of every run, an open socket is without a heartbeat, and is reported as
   * disconnected, if and only if some socket has closed since the last one opened: neither the
   * heartbeat nor the status is owned by its socket.
   */
  lemma {:induction false} SilentSocketIff(k: Hook, o: Options, es: seq<Event>, k': Hook)
    requires Invariant(k, o) && (IsOpen(k) ==> k.heartbeats != {} && k.status == Connected)
    requires Run(k, o, es, k') && IsOpen(k')
    ensures k'.heartbeats == {} <==> ClosedSinceOpened(es)
    ensures k'.status == if ClosedSinceOpened(es) then Disconnected else Connected
  {
    HeartbeatByHistory(k, o, es, k');
  }

  lemma RunThree(k: Hook, o: Options, e: Event, f: Event, g: Event)
    requires Enabled(k, e) && Enabled(Next(k, o, e), f) && Enabled(Next(Next(k, o, e), o, f), g)
    ensures Run(k, o, [e, f, g], Next(Next(Next(k, o, e), o, f), o, g))
  {
    RunTwo(Next(k, o, e), o, f, g);
    assert [e, f, g][1..] == [f, g];
  }

  lemma {:induction false} RunConcat(k: Hook, o: Options, es: seq<Event>, k1: Hook, fs: seq<Event>, k2: Hook)
    requires Run(k, o, es, k1) && Run(k1, o, fs, k2)
    ensures Run(k, o, es + fs, k2)
    decreases |es|
  {
    hide Next, Enabled;
    if es == [] {
      assert es + fs == fs;
    } else {
      RunConcat(Next(k, o, es[0]), o, es[1..], k1, fs, k2);
      assert (es + fs)[1..] == es[1..] + fs;
    }
  }

  /**
   * Such a run of a fresh hook: connect, disconnect, connect again, and only then does the
   * first socket finish closing. The hook reports `disconnected` over an open socket.
   */
  lemma LateCloseSilencesOpenSocket(o: Options) returns (es: seq<Event>, k: Hook)
    requires o.user
    ensures Run(FRESH, o, es, k) && IsOpen(k) && k.heartbeats == {} && k.status == Disconnected
  {
    hide Run;
    var connect, disconnect := UserConnects(false, None), UserDisconnects;
    var open0, open1, close0 := Event.Opened(0), Event.Opened(1), Event.Closed(0, false);
    var k1 := Next(Next(Next(FRESH, o, connect), o, open0), o, disconnect);
    k := Next(Next(Next(k1, o, connect), o, open1), o, close0);
    RunThree(FRESH, o, connect, open0, disconnect);
    RunThree(k1, o, connect, open1, close0);
    es := [connect, open0, disconnect] + [connect, open1, close0];
    RunConcat(FRESH, o, [connect, open0, disconnect], k1, [connect, open1, close0], k);
  }

  /**
   * A run of a fresh hook in which a manual disconnect does not last: the socket finishes closing
   * after it, and the timer which that schedules connects again.
   */
  lemma DisconnectedHookReconnects(o: Options) returns (es: seq<Event>, k: Hook, late: seq<Event>, k': Hook)
    requires o.user && o.autoReconnect && o.maxReconnectAttempts > 0
    ensures Run(FRESH, o, es + [UserDisconnects], k) && k.status == Disconnected && k.wsRef == None
    ensures Run(k, o, late, k') && (forall i :: 0 <= i < |late| ==> !ByUser(late[i]))
    ensures k'.status == Connecting && |k'.sockets| == |k.sockets| + 1
  {
    hide Run;
    var connect, open := UserConnects(false, None), Event.Opened(0);
    k := Next(Next(Next(FRESH, o, connect), o, open), o, UserDisconnects);
    RunThree(FRESH, o, connect, open, UserDisconnects);
    es := [connect, open];
    assert es + [UserDisconnects] == [connect, open, UserDisconnects];
    var close, fire := Event.Closed(0, false), TimerFires(k.nextTimer, false, None);
    k' := Next(Next(k, o, close), o, fire);
    RunTwo(k, o, close, fire);
    late := [close, fire];
  }
}
