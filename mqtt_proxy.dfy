/**
 * The server's MQTT proxy component. When the radio reports an MQTT module
 * config with client proxying on, it connects to the broker (unless already
 * connected to the same one), keeps the broker subscriptions in step with
 * the channel table, publishes what the radio hands it, and forwards what
 * the broker delivers back to the radio, counting deliveries for a periodic
 * log line.
 */
module MqttProxy {
  import opened Wrappers
  import opened Mesh
  import opened MqttTopics

  /** The port used when the address names none, or names one that is not a number. */
  const DefaultPort: int := 1883

  /**
   * The broker a config asks for, as `scheme`, `host` and `port`: `ssl`
   * exactly with TLS, a host without `:`, an `Int` port, and the public
   * broker on 1883 for an empty address.
   */
  function TargetOf(config: MqttConfig): (r: (string, string, int))
    ensures r.0 == "ssl" <==> config.tlsEnabled
    ensures ':' !in r.0 && ':' !in r.1 && Text.IntMin <= r.2 <= Text.IntMax
    ensures config.address == [] ==> r.1 == DefaultServerAddress && r.2 == DefaultPort
  {
    var hp := ParseAddress(config.address, DefaultPort);
    (Scheme(config.tlsEnabled), hp.0, hp.1)
  }

  /**
   * The same-server test of `connect`: a client that is connected and
   * reports the URI the config asks for. A client made for a well-formed
   * broker passes it only when it was made for the config's own broker.
   */
  predicate IsCurrent(client: Option<Client>, config: MqttConfig): (r: bool)
    ensures r ==> client.Some? && client.value.connected
    ensures (client.Some? && ':' !in client.value.scheme && ':' !in client.value.host &&
             Text.IntMin <= client.value.port <= Text.IntMax) ==>
      (r <==> client.value.connected && (client.value.scheme, client.value.host, client.value.port) == TargetOf(config))
  {
    var t := TargetOf(config);
    var same := client.Some? && client.value.connected &&
      TargetUri(client.value.scheme, client.value.host, client.value.port) == TargetUri(t.0, t.1, t.2);
    if same && ':' !in client.value.scheme && ':' !in client.value.host &&
      Text.IntMin <= client.value.port <= Text.IntMax
    then
      TargetUriInjective(client.value.scheme, client.value.host, client.value.port, t.0, t.1, t.2);
      same
    else same
  }

  // ---------------------------------------------------------------- the receive counter

  /** Kotlin's `Long` division, which truncates toward zero. */
  function TruncDiv(a: int, b: nat): (q: int)
    requires b > 0
    ensures a >= 0 ==> q == a / b
    ensures a < 0 ==> q == -((-a) / b)
  {
    if a >= 0 then a / b else -((-a) / b)
  }

  const NanosPerSecond: nat := 1_000_000_000

  /** The periodic log line: how many messages, over how many whole seconds. */
  datatype ReceiveReport = ReceiveReport(count: nat, seconds: int)

  /** The counter and the clock reading of the last report, owned by the connection's callback. */
  datatype ReceiveCounter = ReceiveCounter(count: nat, lastPrint: int)

  /**
   * One delivery: the counter is incremented, and when a minute has passed
   * since the last report (read at `t1`) or the count has reached 100, a
   * report is made and the counter restarts at the second reading `t2`.
   */
  function OnReceive(c: ReceiveCounter, t1: int, t2: int): (r: (ReceiveCounter, Option<ReceiveReport>))
    ensures r.1.Some? ==> r.0 == ReceiveCounter(0, t2) && r.1.value.count == c.count + 1
    ensures r.1.None? ==> r.0 == ReceiveCounter(c.count + 1, c.lastPrint) && r.0.count < 100
  {
    var count := c.count + 1;
    var seconds := TruncDiv(t1 - c.lastPrint, NanosPerSecond);
    if seconds >= 60 || count >= 100 then (ReceiveCounter(0, t2), Some(ReceiveReport(count, seconds)))
    else (ReceiveCounter(count, c.lastPrint), None)
  }

  /**
   * The counter never reaches 100 between deliveries, and with a clock that
   * does not run backwards a report is made exactly on the hundredth
   * delivery or once 60 s have passed, counting every delivery since the
   * last one.
   */
  lemma ReceiveCounterRule(c: ReceiveCounter, t1: int, t2: int)
    requires c.count < 100 && c.lastPrint <= t1
    ensures var (next, report) := OnReceive(c, t1, t2);
      next.count < 100 &&
      (report.Some? <==> c.count + 1 == 100 || t1 - c.lastPrint >= 60 * NanosPerSecond) &&
      (report.Some? ==> report.value.count == c.count + 1 && 1 <= report.value.count <= 100 && next == ReceiveCounter(0, t2)) &&
      (report.None? ==> next == ReceiveCounter(c.count + 1, c.lastPrint))
  {
  }

  class MqttComponent {
    /** `mqttClientRef`. */
    var client: Option<Client>
    /** `subscribedTopics`. */
    const tracked: SubscriptionSet
    var rootTopic: string
    /** Clients constructed so far; the next one gets this serial number. */
    var created: nat
    /** The receive counter of the current client's callback. */
    var counter: ReceiveCounter

    ghost predicate Valid()
      reads this, tracked
    {
      (client.None? ==> tracked.topics == {}) &&
      (client.Some? ==> client.value.serial < created) &&
      counter.count < 100 && rootTopic != []
    }

    constructor()
      ensures Valid() && fresh(tracked)
      ensures client == None && tracked.topics == {} && rootTopic == DefaultRoot && created == 0
    {
      client := None;
      tracked := new SubscriptionSet();
      rootTopic := DefaultRoot;
      created := 0;
      counter := ReceiveCounter(0, 0);
    }

    /** `disconnect`: with a client, drop it and forget the subscriptions; returns the client torn down. */
    method Disconnect() returns (closed: Option<Client>)
      requires Valid()
      modifies this, tracked
      ensures Valid()
      ensures closed == old(client) && client == None && tracked.topics == {}
      ensures rootTopic == old(rootTopic) && created == old(created) && counter == old(counter)
    {
      closed := client;
      if client.None? {
        return;
      }
      client := None;
      tracked.Clear();
    }

    /** The `connectionLost` callback: a forced disconnect. */
    method ConnectionLost()
      requires Valid()
      modifies this, tracked
      ensures Valid() && client == None && tracked.topics == {}
    {
      var _ := Disconnect();
    }

    /**
     * `connect`: nothing unless the proxy is enabled, and nothing when the
     * current client is connected to the same broker. Otherwise the old
     * client is disconnected, the subscriptions are forgotten, and a new
     * client for the parsed address is installed with the configured root
     * topic; `reachable` is whether its connection attempt succeeds, and
     * `now` the clock reading its receive counter starts from.
     */
    twostate predicate ConnectEffect(config: MqttConfig, reachable: bool, now: int, new outcome: ConnectOutcome)
      reads this, tracked
    {
      (!ProxyEnabled(config) ==>
        outcome == NotEnabled && client == old(client) && tracked.topics == old(tracked.topics) &&
        rootTopic == old(rootTopic) && created == old(created) && counter == old(counter)) &&
      (ProxyEnabled(config) && IsCurrent(old(client), config) ==>
        outcome == AlreadyConnected && client == old(client) && tracked.topics == old(tracked.topics) &&
        rootTopic == old(rootTopic) && created == old(created) && counter == old(counter)) &&
      (ProxyEnabled(config) && !IsCurrent(old(client), config) ==>
        var t := TargetOf(config);
        client == Some(Client(t.0, t.1, t.2, reachable, old(created))) && created == old(created) + 1 &&
        tracked.topics == {} && rootTopic == RootOrDefault(config.root) && counter == ReceiveCounter(0, now) &&
        outcome == (if reachable then Connected else ConnectFailed))
    }

    /** `connect`, with the effect above; a successful connection is to the broker the config names. */
    method Connect(config: MqttConfig, reachable: bool, now: int) returns (outcome: ConnectOutcome)
      requires Valid()
      modifies this, tracked
      ensures Valid()
      ensures ConnectEffect(config, reachable, now, outcome)
      ensures outcome == Connected ==> IsCurrent(client, config)
    {
      if !ProxyEnabled(config) {
        return NotEnabled;
      }
      var scheme := Scheme(config.tlsEnabled);
      var hp := ParseAddress(config.address, DefaultPort);
      var host, port := hp.0, hp.1;
      if client.Some? {
        var current := client.value;
        if current.connected && TargetUri(current.scheme, current.host, current.port) == TargetUri(scheme, host, port) {
          return AlreadyConnected;
        }
      }
      var newClient := Client(scheme, host, port, false, created);
      created := created + 1;
      var _ := Disconnect();
      tracked.Clear();
      client := Some(newClient);
      rootTopic := RootOrDefault(config.root);
      counter := ReceiveCounter(0, now);
      if reachable {
        client := Some(newClient.(connected := true));
        outcome := Connected;
      } else {
        outcome := ConnectFailed;
      }
    }

    /**
     * `onChannelChange`: with a client, bring the subscriptions in line with
     * the listening channels plus the direct-message filter. Returns the
     * unsubscribe and subscribe calls in the order made.
     */
    method OnChannelChange(channels: seq<Channel>) returns (dropped: seq<string>, added: seq<string>)
      requires Valid()
      modifies tracked
      ensures Valid()
      ensures old(client).None? ==> dropped == [] && added == [] && tracked.topics == old(tracked.topics)
      ensures client.Some? ==>
        Synced(old(tracked.topics), DesiredTopicList(rootTopic, channels, true), tracked.topics, dropped, added) &&
        PkiTopic(rootTopic) in tracked.topics
    {
      if client.None? {
        return [], [];
      }
      var desired := DesiredTopicList(rootTopic, channels, true);
      dropped, added := tracked.Sync(desired);
    }

    /** `publish`: with a client, the message goes out on its topic at QoS 1; without one it is dropped. */
    method Publish(message: MqttClientProxyMessage) returns (sent: Option<Publication>)
      ensures client.None? ==> sent == None
      ensures client.Some? ==> sent == Some(Publication(message.topic, PublishPayload(message), DefaultQos, message.retained))
    {
      if client.None? {
        return None;
      }
      sent := Some(Publication(message.topic, PublishPayload(message), DefaultQos, message.retained));
    }

    /** The `messageArrived` callback: count the delivery and hand it to the radio. */
    method MessageArrived(topic: string, payload: Bytes, retained: bool, t1: int, t2: int)
      returns (forward: ToRadio, report: Option<ReceiveReport>)
      requires Valid()
      modifies this
      ensures Valid()
      ensures forward == ProxyToRadio(topic, payload, retained)
      ensures (counter, report) == OnReceive(old(counter), t1, t2)
      ensures client == old(client) && rootTopic == old(rootTopic) && created == old(created)
    {
      var count := counter.count + 1;
      var seconds := TruncDiv(t1 - counter.lastPrint, NanosPerSecond);
      report := None;
      if seconds >= 60 || count >= 100 {
        counter := ReceiveCounter(0, t2);
        report := Some(ReceiveReport(count, seconds));
      } else {
        counter := counter.(count := count);
      }
      forward := ProxyToRadio(topic, payload, retained);
    }

    /**
     * `consume`: an MQTT module config connects, a proxied message from the
     * radio is published, and anything else is ignored.
     */
    method Consume(message: FromRadio, reachable: bool, now: int) returns (outcome: Option<ConnectOutcome>, sent: Option<Publication>)
      requires Valid()
      modifies this, tracked
      ensures Valid()
      ensures message.FromModuleConfig? && message.moduleConfig.MqttModule? ==>
        outcome.Some? && ConnectEffect(message.moduleConfig.mqtt, reachable, now, outcome.value)
      ensures !(message.FromModuleConfig? && message.moduleConfig.MqttModule?) ==>
        outcome == None && client == old(client) && tracked.topics == old(tracked.topics) &&
        rootTopic == old(rootTopic) && created == old(created) && counter == old(counter)
      ensures !message.FromMqttProxy? ==> sent == None
      ensures message.FromMqttProxy? && client.None? ==> sent == None
      ensures message.FromMqttProxy? && client.Some? ==>
        sent == Some(Publication(message.proxy.topic, PublishPayload(message.proxy), DefaultQos, message.proxy.retained))
    {
      outcome, sent := None, None;
      match message {
        case FromModuleConfig(MqttModule(config)) =>
          var o := Connect(config, reachable, now);
          outcome := Some(o);
        case FromMqttProxy(proxy) =>
          sent := Publish(proxy);
        case _ =>
      }
    }
  }
}
