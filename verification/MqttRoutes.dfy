/** Publish routes and devices of the MQTT adapter, one at a time, over whole histories. */
module MqttRoutes {
  import opened Prelude
  import opened ProtocolBase
  import opened MqttAdapter
  import opened MqttHistory

  /**
   What a step does to one route: it is set by a start on its broker when that is
   connected, ends with its device's or broker's, and is left alone by all else.
   */
  lemma StepByRoute(m: Mqtt, e: Event, d: DeviceId, b: BrokerId)
    requires Paired(m)
    ensures (d, b) in Stepped(m, e).publishTasks <==> (d, b) in Stepped(m, e).publishConfigs
    ensures var before, after := Get(m.publishConfigs, (d, b)), Get(Stepped(m, e).publishConfigs, (d, b));
      after == match e
        case StartPublish(d', b', config) =>
          if d' == d && b' == b && b in m.info && m.info[b].connected then Some(config) else before
        case StopPublish(d', route) => if d' == d && (route == None || route == Some(b)) then None else before
        case RemoveDevice(d') => if d' == d then None else before
        case Disconnect(b') => if b' == b then None else before
        case Reconnect(b', _, _) => if b' == b then None else before
        case StopAll => None
        case Connect(_, _, _) | Lose(_) | Retry(_, _) | AddDevice(_) => before
  {
    RoutesStayPaired(m, e);
    match e
    case StartPublish(d', b', _) => StartedRoute(m, e, d, b);
    case Disconnect(b') => TornDownRoute(m, b', Stepped(m, e), (d, b));
    case Reconnect(b', _, _) => TornDownRoute(m, b', Stepped(m, e), (d, b));
    case Connect(_, _, _) | Lose(_) | Retry(_, _) => assert SamePublishing(m, Stepped(m, e));
    case _ =>
  }

  lemma TornDownRoute(m: Mqtt, b: BrokerId, after: Mqtt, r: Route)
    requires Paired(m) && SamePublishing(TornDown(m, b), after)
    ensures Get(after.publishConfigs, r) == if r.1 == b then None else Get(m.publishConfigs, r)
  {
    assert SamePublishing(Unpublished(m, RoutesTo(m, b)), after);
  }

  lemma StartedRoute(m: Mqtt, e: Event, d: DeviceId, b: BrokerId)
    requires Paired(m) && e.StartPublish?
    ensures Get(Stepped(m, e).publishConfigs, (d, b)) ==
      if e.device == d && e.broker == b && IsConnected(m, b) then Some(e.config) else Get(m.publishConfigs, (d, b))
  {
  }

  /** The config a history leaves on a route. */
  function ConfigAfter(events: seq<Event>, d: DeviceId, b: BrokerId): Option<PublishConfig> {
    if events == [] then None
    else
      var init, last := events[..|events| - 1], events[|events| - 1];
      if last == StopAll || last == RemoveDevice(d) || last == Disconnect(b) || (last.Reconnect? && last.broker == b)
         || last == StopPublish(d, None) || last == StopPublish(d, Some(b))
      then None
      else if last.StartPublish? && last.device == d && last.broker == b && ConnectedAfter(init, b)
      then Some(last.config)
      else ConfigAfter(init, d, b)
  }

  /** Whether a history leaves the broker connected. */
  predicate ConnectedAfter(events: seq<Event>, b: BrokerId) {
    b in Run(events).info && Run(events).info[b].connected
  }

  /** After every history a device publishes to a broker exactly as its last accepted start said. */
  lemma {:induction false} RoutesFollowHistory(events: seq<Event>, d: DeviceId, b: BrokerId)
    ensures Get(Run(events).publishConfigs, (d, b)) == ConfigAfter(events, d, b)
    ensures (d, b) in Run(events).publishTasks <==> ConfigAfter(events, d, b).Some?
  {
    HistoriesAreConsistent(events);
    if events != [] {
      var init, last := events[..|events| - 1], events[|events| - 1];
      RoutesFollowHistory(init, d, b);
      HistoriesAreConsistent(init);
      StepByRoute(Run(init), last, d, b);
    }
  }

  /** What a step does to one device: its registration and its counters. */
  lemma StepByDevice(m: Mqtt, e: Event, d: DeviceId)
    ensures d in Stepped(m, e).devices <==>
      e == AddDevice(d) || (d in m.devices && e != RemoveDevice(d) && e != StopAll)
    ensures Get(Stepped(m, e).stats, d) ==
      if e == AddDevice(d) then Some(DeviceStats(0, 0, 0))
      else if e == RemoveDevice(d) || e == StopAll then None
      else Get(m.stats, d)
  {
    match e
    case AddDevice(_) | RemoveDevice(_) | StopAll =>
    case _ => DevicesAside(m, e);
  }

  ghost predicate SameDevices(m: Mqtt, after: Mqtt) {
    after.devices == m.devices && after.stats == m.stats
  }

  lemma ConnectAside(m: Mqtt, b: BrokerId, s: Settings, ok: bool)
    ensures SameDevices(m, Connected(m, b, s, ok))
  {
  }

  lemma TearDownAside(m: Mqtt, b: BrokerId)
    ensures SameDevices(m, TornDown(m, b)) && SameDevices(m, Disconnected(m, b))
  {
  }

  lemma RetryAside(m: Mqtt, b: BrokerId, ok: bool)
    requires b in m.reconnectTasks
    ensures SameDevices(m, Retried(m, b, ok))
  {
  }

  lemma LossAside(m: Mqtt, b: BrokerId)
    ensures SameDevices(m, Lost(m, b))
  {
  }

  /** No other event touches devices or counters. */
  lemma DevicesAside(m: Mqtt, e: Event)
    requires !e.AddDevice? && !e.RemoveDevice? && !e.StopAll?
    ensures SameDevices(m, Stepped(m, e))
  {
    match e
    case Connect(b, s, ok) => ConnectAside(m, b, s, ok);
    case Disconnect(b) => TearDownAside(m, b);
    case Reconnect(b, s, ok) =>
      TearDownAside(m, b);
      ConnectAside(TornDown(m, b), b, s, ok);
    case Lose(b) => LossAside(m, b);
    case Retry(b, ok) =>
      if b in m.reconnectTasks {
        RetryAside(m, b, ok);
      }
    case StartPublish(_, _, _) | StopPublish(_, _) =>
  }

  /** A known broker is shown under the name and address of its settings. */
  lemma KnownAreDescribed(events: seq<Event>, b: BrokerId)
    requires b in Run(events).info
    ensures var m := Run(events);
      && b in m.settings
      && m.info[b].name == m.settings[b].name && m.info[b].host == m.settings[b].host
      && m.info[b].port == m.settings[b].port
  {
    HistoriesAreConsistent(events);
    assert BooksConsistent(BooksOf(Run(events), b));
  }

  /** The delays in seconds: doubling from one, and a minute from the seventh on. */
  lemma DelaysInSeconds(n: nat)
    ensures Backoff(0) == 1 && Backoff(1) == 2 && Backoff(2) == 4 && Backoff(3) == 8 && Backoff(4) == 16
    ensures Backoff(5) == 32 && (n >= 6 ==> Backoff(n) == 60)
  {
    FirstDelays();
    BackoffIsCappedPower(n);
    if n >= 6 {
      PowersGrow(n);
    }
  }

  lemma FirstDelays()
    ensures Pow2(3) == 8 && Pow2(6) == 64
    ensures Backoff(0) == 1 && Backoff(1) == 2 && Backoff(2) == 4 && Backoff(3) == 8 && Backoff(4) == 16
    ensures Backoff(5) == 32
  {
    assert Pow2(2) == 4 && Pow2(4) == 16 && Pow2(5) == 32;
    assert Backoff(2) == NextDelay(Backoff(1)) && Backoff(4) == NextDelay(Backoff(3));
  }

  lemma {:induction false} PowersGrow(n: nat)
    requires n >= 6
    ensures Pow2(n) >= Pow2(6)
  {
    if n > 6 {
      PowersGrow(n - 1);
    }
  }
}
