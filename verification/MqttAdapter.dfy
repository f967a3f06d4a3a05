/**
 The MQTT adapter's broker and publish-task bookkeeping: dictionaries keyed by
 broker or by (device, broker), changed by connects, losses, retries, disconnects
 and publish starts and stops. Each method, and each turn of a reconnect loop, is
 one atomic step; whether an attempt to connect succeeds is a parameter.
 */
module MqttAdapter {
  import opened Prelude
  import opened ProtocolBase

  type BrokerId = int
  type Route = (DeviceId, BrokerId)

  datatype Settings = Settings(
    name: string,
    host: string,
    port: int,
    username: string,
    password: string,
    clientId: string
  )

  datatype BrokerInfo = BrokerInfo(name: string, host: string, port: int, connected: bool)

  datatype PublishConfig = PublishConfig(topic: string, batch: bool, interval: int, qos: int, retain: bool)

  const INITIAL_DELAY := 1
  const MAX_DELAY := 60

  /**
   Everything the adapter stores. A client is known by the settings it was opened
   with, a reconnect task by the delay it sleeps before its next attempt.
   */
  datatype Mqtt = Mqtt(
    clients: map<BrokerId, Settings>,
    info: map<BrokerId, BrokerInfo>,
    settings: map<BrokerId, Settings>,
    reconnectTasks: map<BrokerId, int>,
    devices: set<DeviceId>,
    publishTasks: set<Route>,
    publishConfigs: map<Route, PublishConfig>,
    stats: map<DeviceId, DeviceStats>
  )

  const EMPTY := Mqtt(map[], map[], map[], map[], {}, {}, map[], map[])

  function Described(s: Settings, connected: bool): BrokerInfo {
    BrokerInfo(s.name, s.host, s.port, connected)
  }

  // --- Steps on the stored state ---

  ghost predicate SamePublishing(m: Mqtt, after: Mqtt) {
    m.publishTasks == after.publishTasks && m.publishConfigs == after.publishConfigs
  }

  function WithConnected(m: Mqtt, b: BrokerId, connected: bool): (r: Mqtt)
    ensures SamePublishing(m, r)
  {
    if b in m.info then m.(info := m.info[b := m.info[b].(connected := connected)]) else m
  }

  function ClientClosed(m: Mqtt, b: BrokerId): (r: Mqtt)
    ensures SamePublishing(m, r)
  {
    WithConnected(m.(clients := m.clients - {b}), b, false)
  }

  function ClientOpened(m: Mqtt, b: BrokerId, s: Settings): (r: Mqtt)
    ensures SamePublishing(m, r)
  {
    WithConnected(m.(clients := m.clients[b := s]), b, true)
  }

  function ReconnectScheduled(m: Mqtt, b: BrokerId): (r: Mqtt)
    ensures SamePublishing(m, r)
  {
    if b in m.reconnectTasks || b !in m.settings then m
    else m.(reconnectTasks := m.reconnectTasks[b := INITIAL_DELAY])
  }

  function Connected(m: Mqtt, b: BrokerId, s: Settings, ok: bool): (r: Mqtt)
    ensures SamePublishing(m, r)
  {
    var known := m.(info := m.info[b := Described(s, false)], settings := m.settings[b := s]);
    if ok then ClientOpened(known, b, s) else ReconnectScheduled(known, b)
  }

  /** Publishing stopped on the given routes. */
  function Unpublished(m: Mqtt, routes: set<Route>): Mqtt {
    m.(publishTasks := m.publishTasks - routes, publishConfigs := m.publishConfigs - routes)
  }

  function RoutesTo(m: Mqtt, b: BrokerId): set<Route> {
    set r <- m.publishTasks | r.1 == b
  }

  function RoutesOf(m: Mqtt, d: DeviceId, b: Option<BrokerId>): set<Route> {
    set r <- m.publishTasks | r.0 == d && (b.None? || r.1 == b.value)
  }

  /** What disconnecting and reconnecting have in common: no task, no route and no client is left. */
  function TornDown(m: Mqtt, b: BrokerId): Mqtt {
    ClientClosed(Unpublished(m.(reconnectTasks := m.reconnectTasks - {b}), RoutesTo(m, b)), b)
  }

  function Disconnected(m: Mqtt, b: BrokerId): Mqtt {
    var down := TornDown(m, b);
    down.(info := down.info - {b}, settings := down.settings - {b})
  }

  function Reconnected(m: Mqtt, b: BrokerId, s: Settings, ok: bool): Mqtt {
    Connected(TornDown(m, b), b, s, ok)
  }

  function Lost(m: Mqtt, b: BrokerId): (r: Mqtt)
    ensures SamePublishing(m, r)
  {
    ReconnectScheduled(WithConnected(m, b, false), b)
  }

  function NextDelay(delay: int): int {
    if delay * 2 < MAX_DELAY then delay * 2 else MAX_DELAY
  }

  /** One turn of a reconnect loop, after its sleep. */
  function Retried(m: Mqtt, b: BrokerId, ok: bool): (r: Mqtt)
    requires b in m.reconnectTasks
    ensures SamePublishing(m, r)
  {
    var ended := m.reconnectTasks - {b};
    if b !in m.settings then m.(reconnectTasks := ended)
    else
      var closed := ClientClosed(m, b);
      if ok then ClientOpened(closed, b, m.settings[b]).(reconnectTasks := ended)
      else closed.(reconnectTasks := m.reconnectTasks[b := NextDelay(m.reconnectTasks[b])])
  }

  predicate IsConnected(m: Mqtt, b: BrokerId) {
    b in m.info && m.info[b].connected
  }

  function Published(m: Mqtt, d: DeviceId, b: BrokerId, config: PublishConfig): Mqtt {
    var stopped := Unpublished(m, RoutesOf(m, d, Some(b)));
    stopped.(publishTasks := stopped.publishTasks + {(d, b)},
             publishConfigs := stopped.publishConfigs[(d, b) := config])
  }

  function DeviceAdded(m: Mqtt, d: DeviceId): Mqtt {
    m.(devices := m.devices + {d}, stats := m.stats[d := FRESH_STATS])
  }

  function DeviceRemoved(m: Mqtt, d: DeviceId): Mqtt {
    var stopped := Unpublished(m, RoutesOf(m, d, None));
    stopped.(devices := stopped.devices - {d}, stats := stopped.stats - {d})
  }

  // --- The adapter ---

  class MqttAdapter {
    var clients: map<BrokerId, Settings>
    var info: map<BrokerId, BrokerInfo>
    var settings: map<BrokerId, Settings>
    var reconnectTasks: map<BrokerId, int>
    var devices: set<DeviceId>
    var publishTasks: set<Route>
    var publishConfigs: map<Route, PublishConfig>
    var stats: map<DeviceId, DeviceStats>

    ghost function View(): Mqtt
      reads this
    {
      Mqtt(clients, info, settings, reconnectTasks, devices, publishTasks, publishConfigs, stats)
    }

    constructor ()
      ensures View() == EMPTY
    {
      clients, info, settings, reconnectTasks := map[], map[], map[], map[];
      devices, publishTasks, publishConfigs, stats := {}, {}, map[], map[];
    }

    method TryConnect(b: BrokerId, s: Settings, ok: bool)
      modifies this
      ensures View() == if ok then ClientOpened(old(View()), b, s) else old(View())
    {
      if ok {
        clients := clients[b := s];
        if b in info {
          info := info[b := info[b].(connected := true)];
        }
      }
    }

    method CloseClient(b: BrokerId)
      modifies this
      ensures View() == ClientClosed(old(View()), b)
    {
      clients := clients - {b};
      if b in info {
        info := info[b := info[b].(connected := false)];
      }
    }

    method ScheduleReconnect(b: BrokerId)
      modifies this`reconnectTasks
      ensures View() == ReconnectScheduled(old(View()), b)
    {
      if b in reconnectTasks || b !in settings {
        return;
      }
      reconnectTasks := reconnectTasks[b := INITIAL_DELAY];
    }

    method CancelPublishTask(r: Route)
      modifies this`publishTasks, this`publishConfigs
      ensures View() == Unpublished(old(View()), {r})
    {
      publishTasks := publishTasks - {r};
      publishConfigs := publishConfigs - {r};
    }

    /** The loops over `list(self._publish_tasks)`: cancel each chosen task in turn. */
    method CancelRoutes(routes: set<Route>)
      modifies this`publishTasks, this`publishConfigs
      ensures View() == Unpublished(old(View()), routes)
    {
      ghost var before := View();
      var left := routes;
      assert Unpublished(before, {}) == before;
      while left != {}
        invariant left <= routes
        invariant View() == Unpublished(before, routes - left)
      {
        var r :| r in left;
        CancelPublishTask(r);
        UnpublishedTwice(before, routes - left, {r});
        assert routes - left + {r} == routes - (left - {r});
        left := left - {r};
      }
      assert routes - {} == routes;
    }

    method ConnectBroker(b: BrokerId, s: Settings, ok: bool) returns (connected: bool)
      modifies this
      ensures connected == ok && View() == Connected(old(View()), b, s, ok)
    {
      info := info[b := Described(s, false)];
      settings := settings[b := s];
      TryConnect(b, s, ok);
      if ok {
        return true;
      }
      ScheduleReconnect(b);
      return false;
    }

    method TearDown(b: BrokerId)
      modifies this
      ensures View() == TornDown(old(View()), b)
    {
      reconnectTasks := reconnectTasks - {b};
      CancelRoutes(set r <- publishTasks | r.1 == b);
      CloseClient(b);
    }

    method DisconnectBroker(b: BrokerId)
      modifies this
      ensures View() == Disconnected(old(View()), b)
    {
      TearDown(b);
      info := info - {b};
      settings := settings - {b};
    }

    method ReconnectBroker(b: BrokerId, s: Settings, ok: bool) returns (connected: bool)
      modifies this
      ensures connected == ok && View() == Reconnected(old(View()), b, s, ok)
    {
      TearDown(b);
      connected := ConnectBroker(b, s, ok);
    }

    method MarkBrokerDisconnected(b: BrokerId)
      modifies this
      ensures View() == Lost(old(View()), b)
    {
      if b in info && info[b].connected {
        info := info[b := info[b].(connected := false)];
      }
      ghost var marked := View();
      assert marked.info == WithConnected(old(View()), b, false).info;
      ScheduleReconnect(b);
    }

    method RetryTurn(b: BrokerId, ok: bool)
      requires b in reconnectTasks
      modifies this
      ensures View() == Retried(old(View()), b, ok)
    {
      if b !in settings {
        reconnectTasks := reconnectTasks - {b};
        return;
      }
      CloseClient(b);
      TryConnect(b, settings[b], ok);
      if ok {
        reconnectTasks := reconnectTasks - {b};
      } else {
        var delay := reconnectTasks[b];
        reconnectTasks := reconnectTasks[b := if delay * 2 < MAX_DELAY then delay * 2 else MAX_DELAY];
      }
    }

    method StopPublishing(d: DeviceId, b: Option<BrokerId>)
      modifies this`publishTasks, this`publishConfigs
      ensures View() == Unpublished(old(View()), RoutesOf(old(View()), d, b))
    {
      CancelRoutes(set r <- publishTasks | r.0 == d && (b.None? || r.1 == b.value));
    }

    /** Refused, without any change, unless the broker is connected. */
    method StartPublishing(d: DeviceId, b: BrokerId, config: PublishConfig) returns (ok: bool)
      modifies this`publishTasks, this`publishConfigs
      ensures ok <==> IsConnected(old(View()), b)
      ensures View() == if ok then Published(old(View()), d, b, config) else old(View())
    {
      if b !in info || !info[b].connected {
        return false;
      }
      StopPublishing(d, Some(b));
      publishConfigs := publishConfigs[(d, b) := config];
      publishTasks := publishTasks + {(d, b)};
      return true;
    }

    method AddDevice(d: DeviceId)
      modifies this
      ensures View() == DeviceAdded(old(View()), d)
    {
      stats := stats[d := FRESH_STATS];
      devices := devices + {d};
    }

    method RemoveDevice(d: DeviceId)
      modifies this
      ensures View() == DeviceRemoved(old(View()), d)
    {
      StopPublishing(d, None);
      devices := devices - {d};
      stats := stats - {d};
    }

    method Stop()
      modifies this
      ensures View() == EMPTY
    {
      CancelRoutes(publishTasks);
      publishTasks, publishConfigs, devices, stats := {}, map[], {}, map[];
      reconnectTasks := map[];
      clients, info, settings := map[], map[], map[];
    }
  }

  lemma UnpublishedTwice(m: Mqtt, a: set<Route>, b: set<Route>)
    ensures Unpublished(Unpublished(m, a), b) == Unpublished(m, a + b)
  {
    assert m.publishTasks - a - b == m.publishTasks - (a + b);
    assert m.publishConfigs - a - b == m.publishConfigs - (a + b);
  }
}
