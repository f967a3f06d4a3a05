/** What every history of the MQTT adapter keeps, and what a step on one broker leaves alone. */
module MqttHistory {
  import opened Prelude
  import opened ProtocolBase
  import opened MqttAdapter

  datatype Event =
    | Connect(broker: BrokerId, settings: Settings, ok: bool)
    | Disconnect(broker: BrokerId)
    | Reconnect(broker: BrokerId, settings: Settings, ok: bool)
    | Lose(broker: BrokerId)
    | Retry(broker: BrokerId, ok: bool)
    | StartPublish(device: DeviceId, broker: BrokerId, config: PublishConfig)
    | StopPublish(device: DeviceId, route: Option<BrokerId>)
    | AddDevice(device: DeviceId)
    | RemoveDevice(device: DeviceId)
    | StopAll

  function Stepped(m: Mqtt, e: Event): Mqtt {
    match e
    case Connect(b, s, ok) => Connected(m, b, s, ok)
    case Disconnect(b) => Disconnected(m, b)
    case Reconnect(b, s, ok) => Reconnected(m, b, s, ok)
    case Lose(b) => Lost(m, b)
    case Retry(b, ok) => if b in m.reconnectTasks then Retried(m, b, ok) else m
    case StartPublish(d, b, config) => if IsConnected(m, b) then Published(m, d, b, config) else m
    case StopPublish(d, b) => Unpublished(m, RoutesOf(m, d, b))
    case AddDevice(d) => DeviceAdded(m, d)
    case RemoveDevice(d) => DeviceRemoved(m, d)
    case StopAll => EMPTY
  }

  function Run(events: seq<Event>): Mqtt {
    if events == [] then EMPTY else Stepped(Run(events[..|events| - 1]), events[|events| - 1])
  }

  // --- One broker at a time ---

  /** Everything the adapter's dictionaries hold under one broker. */
  datatype Books = Books(
    client: Option<Settings>,
    info: Option<BrokerInfo>,
    settings: Option<Settings>,
    task: Option<int>
  ) {
    predicate Connected() { info.Some? && info.value.connected }
  }

  const NO_BOOKS := Books(None, None, None, None)

  function BooksOf(m: Mqtt, b: BrokerId): Books {
    Books(Get(m.clients, b), Get(m.info, b), Get(m.settings, b), Get(m.reconnectTasks, b))
  }

  function Flagged(info: Option<BrokerInfo>, connected: bool): Option<BrokerInfo> {
    if info.Some? then Some(info.value.(connected := connected)) else None
  }

  function Awaiting(k: Books): Books {
    if k.task.Some? || k.settings.None? then k else k.(task := Some(INITIAL_DELAY))
  }

  /** What an event about this very broker does to its books. */
  function BooksStepped(k: Books, e: Event): Books {
    match e
    case Connect(_, s, ok) =>
      if ok then Books(Some(s), Some(Described(s, true)), Some(s), k.task)
      else Awaiting(Books(k.client, Some(Described(s, false)), Some(s), k.task))
    case Disconnect(_) => NO_BOOKS
    case Reconnect(_, s, ok) =>
      if ok then Books(Some(s), Some(Described(s, true)), Some(s), None)
      else Books(None, Some(Described(s, false)), Some(s), Some(INITIAL_DELAY))
    case Lose(_) => Awaiting(k.(info := Flagged(k.info, false)))
    case Retry(_, ok) =>
      if k.task.None? then k
      else if k.settings.None? then k.(task := None)
      else if ok then Books(k.settings, Flagged(k.info, true), k.settings, None)
      else Books(None, Flagged(k.info, false), k.settings, Some(NextDelay(k.task.value)))
    case StartPublish(_, _, _) | StopPublish(_, _) | AddDevice(_) | RemoveDevice(_) => k
    case StopAll => NO_BOOKS
  }

  /** The broker an event is about, if it is about one. */
  function BrokerOf(e: Event): Option<BrokerId> {
    match e
    case Connect(b, _, _) => Some(b)
    case Disconnect(b) => Some(b)
    case Reconnect(b, _, _) => Some(b)
    case Lose(b) => Some(b)
    case Retry(b, _) => Some(b)
    case StartPublish(_, b, _) => Some(b)
    case StopPublish(_, b) => b
    case _ => None
  }

  predicate Concerns(e: Event, b: BrokerId) {
    e == StopAll || BrokerOf(e) == Some(b)
  }

  lemma ClosedBooks(m: Mqtt, x: BrokerId, b: BrokerId)
    ensures var k := BooksOf(m, b);
      BooksOf(ClientClosed(m, x), b) == if x == b then k.(client := None, info := Flagged(k.info, false)) else k
  {
  }

  lemma OpenedBooks(m: Mqtt, x: BrokerId, s: Settings, b: BrokerId)
    ensures var k := BooksOf(m, b);
      BooksOf(ClientOpened(m, x, s), b) == if x == b then k.(client := Some(s), info := Flagged(k.info, true)) else k
  {
  }

  lemma ScheduledBooks(m: Mqtt, x: BrokerId, b: BrokerId)
    ensures BooksOf(ReconnectScheduled(m, x), b) == if x == b then Awaiting(BooksOf(m, b)) else BooksOf(m, b)
  {
  }

  lemma ConnectedBooks(m: Mqtt, x: BrokerId, s: Settings, ok: bool, b: BrokerId)
    ensures var k := BooksOf(m, b);
      BooksOf(Connected(m, x, s, ok), b) == if x == b then BooksStepped(k, Connect(x, s, ok)) else k
  {
    var known := m.(info := m.info[x := Described(s, false)], settings := m.settings[x := s]);
    if ok {
      OpenedBooks(known, x, s, b);
    } else {
      ScheduledBooks(known, x, b);
    }
  }

  lemma TornDownBooks(m: Mqtt, x: BrokerId, b: BrokerId)
    ensures var k := BooksOf(m, b);
      BooksOf(TornDown(m, x), b) == if x == b then Books(None, Flagged(k.info, false), k.settings, None) else k
  {
    ClosedBooks(Unpublished(m.(reconnectTasks := m.reconnectTasks - {x}), RoutesTo(m, x)), x, b);
  }

  lemma LostBooks(m: Mqtt, x: BrokerId, b: BrokerId)
    ensures var k := BooksOf(m, b);
      BooksOf(Lost(m, x), b) == if x == b then BooksStepped(k, Lose(x)) else k
  {
    ScheduledBooks(WithConnected(m, x, false), x, b);
  }

  lemma RetriedBooks(m: Mqtt, x: BrokerId, ok: bool, b: BrokerId)
    requires x in m.reconnectTasks
    ensures var k := BooksOf(m, b);
      BooksOf(Retried(m, x, ok), b) == if x == b then BooksStepped(k, Retry(x, ok)) else k
  {
    if x in m.settings {
      ClosedBooks(m, x, b);
      OpenedBooks(ClientClosed(m, x), x, m.settings[x], b);
    }
  }

  /** The adapter's dictionaries, broker by broker: an event touches the books it concerns and no others. */
  lemma StepByBroker(m: Mqtt, e: Event, b: BrokerId)
    ensures BooksOf(Stepped(m, e), b) == if Concerns(e, b) then BooksStepped(BooksOf(m, b), e) else BooksOf(m, b)
  {
    match e
    case Connect(x, s, ok) =>
      ConnectedBooks(m, x, s, ok, b);
    case Disconnect(x) =>
      TornDownBooks(m, x, b);
    case Reconnect(x, s, ok) =>
      TornDownBooks(m, x, b);
      ConnectedBooks(TornDown(m, x), x, s, ok, b);
    case Lose(x) =>
      LostBooks(m, x, b);
    case Retry(x, ok) =>
      if x in m.reconnectTasks {
        RetriedBooks(m, x, ok, b);
      }
    case _ =>
  }

  /** The books of one broker agree with each other. */
  ghost predicate BooksConsistent(k: Books) {
    && (k.info.Some? <==> k.settings.Some?)
    && (k.info.Some? ==> k.info.value == Described(k.settings.value, k.info.value.connected))
    && (k.Connected() ==> k.client == k.settings)
    && (k.info.Some? && !k.Connected() ==> k.task.Some?)
    && (k.client.Some? ==> k.info.Some?)
    && (k.task.Some? ==> k.settings.Some? && INITIAL_DELAY <= k.task.value <= MAX_DELAY)
  }

  lemma BooksStayConsistent(k: Books, e: Event)
    requires BooksConsistent(k)
    ensures BooksConsistent(BooksStepped(k, e))
  {
  }

  // --- Publish routes ---

  ghost predicate Paired(m: Mqtt) {
    m.publishTasks == m.publishConfigs.Keys
  }

  ghost predicate RoutesConsistent(m: Mqtt) {
    Paired(m) && forall r <- m.publishTasks :: r.1 in m.info
  }

  lemma UnpublishedRoutes(m: Mqtt, routes: set<Route>)
    requires Paired(m)
    ensures Paired(Unpublished(m, routes))
  {
  }

  /** Where a route of the next state comes from. */
  lemma RouteOrigin(m: Mqtt, e: Event, r: Route)
    requires r in Stepped(m, e).publishTasks
    ensures e != StopAll && e != Disconnect(r.1)
    ensures r in m.publishTasks || (e.StartPublish? && e.broker == r.1 && IsConnected(m, r.1))
  {
  }

  /** An event keeps the broker of every route that survives it. */
  lemma RouteSurvives(m: Mqtt, e: Event, r: Route)
    requires RoutesConsistent(m) && r in Stepped(m, e).publishTasks
    ensures r.1 in Stepped(m, e).info
  {
    RouteOrigin(m, e, r);
    assert BooksOf(m, r.1).info.Some?;
    StepByBroker(m, e, r.1);
    assert BooksOf(Stepped(m, e), r.1).info.Some?;
  }

  lemma RoutesStayPaired(m: Mqtt, e: Event)
    requires Paired(m)
    ensures Paired(Stepped(m, e))
  {
    match e
    case Disconnect(b) => UnpublishedRoutes(m, RoutesTo(m, b));
    case Reconnect(b, _, _) => UnpublishedRoutes(m, RoutesTo(m, b));
    case StartPublish(d, b, _) => UnpublishedRoutes(m, RoutesOf(m, d, Some(b)));
    case StopPublish(d, b) => UnpublishedRoutes(m, RoutesOf(m, d, b));
    case RemoveDevice(d) => UnpublishedRoutes(m, RoutesOf(m, d, None));
    case _ =>
  }

  // --- Histories ---

  ghost predicate Consistent(m: Mqtt) {
    (forall b :: BooksConsistent(BooksOf(m, b))) && RoutesConsistent(m)
  }

  /**
   After every history: a broker is known exactly when it has settings and is
   described by them, a connected one has a client opened with its current
   settings, a known one that is not connected has a reconnect task, and publish
   tasks and publish configs go together and lead to known brokers.
   */
  lemma {:induction false} HistoriesAreConsistent(events: seq<Event>)
    ensures Consistent(Run(events))
  {
    if events != [] {
      var n := |events| - 1;
      HistoriesAreConsistent(events[..n]);
      var before, e := Run(events[..n]), events[n];
      forall b
        ensures BooksConsistent(BooksOf(Stepped(before, e), b))
      {
        StepByBroker(before, e, b);
        BooksStayConsistent(BooksOf(before, b), e);
      }
      RoutesStayPaired(before, e);
      forall r | r in Stepped(before, e).publishTasks
        ensures r.1 in Stepped(before, e).info
      {
        RouteSurvives(before, e, r);
      }
    }
  }

  /** Nothing stored under a broker, nor any publish task or config leading to it, differs. */
  ghost predicate SameFor(m: Mqtt, after: Mqtt, b: BrokerId) {
    BooksOf(m, b) == BooksOf(after, b) && SameRoutes(m, after, b)
  }

  ghost predicate SameRoutes(m: Mqtt, after: Mqtt, b: BrokerId) {
    forall d :: SameRoute(m, after, (d, b))
  }

  ghost predicate SameRoute(m: Mqtt, after: Mqtt, r: Route) {
    && (r in m.publishTasks <==> r in after.publishTasks)
    && Get(m.publishConfigs, r) == Get(after.publishConfigs, r)
  }

  lemma UnpublishKeepsOthers(m: Mqtt, routes: set<Route>, b: BrokerId)
    requires forall r <- routes :: r.1 != b
    ensures SameRoutes(m, Unpublished(m, routes), b)
  {
  }

  lemma TearDownKeepsOthers(m: Mqtt, x: BrokerId, after: Mqtt, b: BrokerId)
    requires x != b && SamePublishing(TornDown(m, x), after)
    ensures SameRoutes(m, after, b)
  {
    var unpublished := Unpublished(m, RoutesTo(m, x));
    UnpublishKeepsOthers(m, RoutesTo(m, x), b);
    assert SamePublishing(unpublished, after);
    forall d
      ensures SameRoute(m, after, (d, b))
    {
      assert SameRoute(m, unpublished, (d, b));
    }
  }

  lemma PublishKeepsOthers(m: Mqtt, d: DeviceId, x: BrokerId, config: PublishConfig, b: BrokerId)
    requires x != b
    ensures SameRoutes(m, Published(m, d, x, config), b)
  {
    var stopped := Unpublished(m, RoutesOf(m, d, Some(x)));
    UnpublishKeepsOthers(m, RoutesOf(m, d, Some(x)), b);
    forall d'
      ensures SameRoute(m, Published(m, d, x, config), (d', b))
    {
      assert SameRoute(m, stopped, (d', b));
    }
  }

  lemma RoutesAreIsolated(m: Mqtt, e: Event, b: BrokerId)
    requires BrokerOf(e).Some? && BrokerOf(e).value != b
    ensures SameRoutes(m, Stepped(m, e), b)
  {
    match e
    case Disconnect(x) => TearDownKeepsOthers(m, x, Stepped(m, e), b);
    case Reconnect(x, _, _) => TearDownKeepsOthers(m, x, Stepped(m, e), b);
    case StartPublish(d, x, config) =>
      if IsConnected(m, x) {
        PublishKeepsOthers(m, d, x, config, b);
      }
    case StopPublish(d, x) => UnpublishKeepsOthers(m, RoutesOf(m, d, x), b);
    case Connect(_, _, _) | Lose(_) | Retry(_, _) => assert SamePublishing(m, Stepped(m, e));
  }

  /** A step on one broker changes nothing of another. */
  lemma BrokersAreIsolated(m: Mqtt, e: Event, b: BrokerId)
    requires BrokerOf(e).Some? && BrokerOf(e).value != b
    ensures SameFor(m, Stepped(m, e), b)
  {
    StepByBroker(m, e, b);
    RoutesAreIsolated(m, e, b);
  }

  // --- Reconnect tasks ---

  /** A reconnect task runs for exactly the known brokers that are not connected. */
  ghost predicate TaskMatches(k: Books) {
    k.task.Some? <==> k.info.Some? && !k.Connected()
  }

  /** The event connects a broker whose reconnect task is still running. */
  predicate ConnectsBesideTask(m: Mqtt, e: Event, b: BrokerId) {
    e.Connect? && e.broker == b && e.ok && b in m.reconnectTasks
  }

  /**
   Exactly when a step leaves no reconnect task beside a live connection: always,
   except when a connect succeeds for a broker whose task is still running.
   */
  lemma TaskMatchesExactly(m: Mqtt, e: Event, b: BrokerId)
    requires BooksConsistent(BooksOf(m, b)) && TaskMatches(BooksOf(m, b))
    ensures TaskMatches(BooksOf(Stepped(m, e), b)) <==> !ConnectsBesideTask(m, e, b)
  {
    StepByBroker(m, e, b);
  }

  ghost predicate MatchesAt(events: seq<Event>, b: BrokerId, n: nat)
    requires n <= |events|
  {
    TaskMatches(BooksOf(Run(events[..n]), b))
  }

  ghost predicate AlwaysMatches(events: seq<Event>, b: BrokerId) {
    forall n :: 0 <= n <= |events| ==> MatchesAt(events, b, n)
  }

  predicate BesideTaskAt(events: seq<Event>, b: BrokerId, n: nat)
    requires n < |events|
  {
    ConnectsBesideTask(Run(events[..n]), events[n], b)
  }

  ghost predicate NeverBesideTask(events: seq<Event>, b: BrokerId) {
    forall n :: 0 <= n < |events| ==> !BesideTaskAt(events, b, n)
  }

  lemma NextMatchesExactly(events: seq<Event>, b: BrokerId, n: nat)
    requires n < |events| && MatchesAt(events, b, n)
    ensures MatchesAt(events, b, n + 1) <==> !BesideTaskAt(events, b, n)
  {
    assert events[..n + 1][..n] == events[..n];
    HistoriesAreConsistent(events[..n]);
    assert BooksConsistent(BooksOf(Run(events[..n]), b));
    TaskMatchesExactly(Run(events[..n]), events[n], b);
  }

  lemma {:induction false} MatchesSoFar(events: seq<Event>, b: BrokerId, n: nat)
    requires n <= |events| && NeverBesideTask(events, b)
    ensures MatchesAt(events, b, n)
  {
    if n == 0 {
      assert events[..0] == [];
    } else {
      MatchesSoFar(events, b, n - 1);
      NextMatchesExactly(events, b, n - 1);
    }
  }

  /**
   Exactly when a broker has a reconnect task all through a history just while it is
   known and not connected: no connect succeeds beside a task that is still running.
   */
  lemma TaskAlwaysMatchesExactly(events: seq<Event>, b: BrokerId)
    ensures AlwaysMatches(events, b) <==> NeverBesideTask(events, b)
  {
    if NeverBesideTask(events, b) {
      forall n: nat | n <= |events|
        ensures MatchesAt(events, b, n)
      {
        MatchesSoFar(events, b, n);
      }
    }
    if AlwaysMatches(events, b) {
      forall n: nat | n < |events|
        ensures !BesideTaskAt(events, b, n)
      {
        assert MatchesAt(events, b, n) && MatchesAt(events, b, n + 1);
        NextMatchesExactly(events, b, n);
      }
    }
  }

  /**
   A connect that fails leaves a task; connecting again succeeds beside it. Brokers
   are connected under new ids or through reconnects, so only starting the adapter
   twice gets here.
   */
  lemma ConnectedBesideTask(b: BrokerId, s: Settings)
    ensures var k := BooksOf(Run([Connect(b, s, false)] + [Connect(b, s, true)]), b);
      k.Connected() && k.task == Some(INITIAL_DELAY)
  {
    var failed := [Connect(b, s, false)];
    assert failed[..0] == [] && (failed + [Connect(b, s, true)])[..1] == failed;
    assert BooksOf(EMPTY, b) == NO_BOOKS && Run(failed) == Stepped(EMPTY, Connect(b, s, false));
    StepByBroker(EMPTY, Connect(b, s, false), b);
    StepByBroker(Run(failed), Connect(b, s, true), b);
  }

  /** The delay before attempt n + 1: doubling from one second, at most a minute. */
  function Backoff(n: nat): int {
    if n == 0 then INITIAL_DELAY else NextDelay(Backoff(n - 1))
  }

  lemma {:induction false} BackoffIsCappedPower(n: nat)
    ensures Backoff(n) == if Pow2(n) < MAX_DELAY then Pow2(n) else MAX_DELAY
  {
    if n > 0 {
      BackoffIsCappedPower(n - 1);
    }
  }

  function FailedRetries(m: Mqtt, b: BrokerId, n: nat): Mqtt {
    if n == 0 then m else Stepped(FailedRetries(m, b, n - 1), Retry(b, false))
  }

  /** After n failed attempts the task sleeps the n-th backoff; one success then connects and ends it. */
  lemma {:induction false} RetriesBackOff(m: Mqtt, b: BrokerId, n: nat)
    requires BooksOf(m, b).info.Some? && BooksOf(m, b).settings.Some?
    requires BooksOf(m, b).task == Some(INITIAL_DELAY)
    ensures var waiting := BooksOf(FailedRetries(m, b, n), b);
      && waiting.task == Some(Backoff(n)) && waiting.info.Some? && waiting.settings == BooksOf(m, b).settings
    ensures var done := BooksOf(Stepped(FailedRetries(m, b, n), Retry(b, true)), b);
      done.Connected() && done.task.None? && done.client == BooksOf(m, b).settings
  {
    if n > 0 {
      RetriesBackOff(m, b, n - 1);
      StepByBroker(FailedRetries(m, b, n - 1), Retry(b, false), b);
    }
    StepByBroker(FailedRetries(m, b, n), Retry(b, true), b);
  }
}
