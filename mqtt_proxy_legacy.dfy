/**
 * The older MQTT proxy component. It differs from the server's in four ways:
 * an enabled config always replaces the client, installing the new one only
 * if no other has been installed meanwhile; a missing port is `-1` (the
 * scheme's own); there is no direct-message filter; and it always publishes
 * the `data` field of a proxied message. Deliveries from the broker are
 * forwarded without being counted.
 */
module MqttProxyLegacy {
  import opened Wrappers
  import opened Mesh
  import opened MqttTopics

  /** `-1`: no port in the URI, so the client uses the scheme's default. */
  const DefaultPort: int := -1

  /** The broker a config asks for, as `scheme`, `host` and `port`. */
  function TargetOf(config: MqttConfig): (string, string, int) {
    var hp := ParseAddress(config.address, DefaultPort);
    (Scheme(config.tlsEnabled), hp.0, hp.1)
  }

  /** The two versions read the same host from an address, and the same port whenever one is given. */
  lemma AddressVersions(address: string)
    ensures ParseAddress(address, DefaultPort).0 == ParseAddress(address, 1883).0
    ensures ParseAddress(address, DefaultPort).1 != DefaultPort ==>
      ParseAddress(address, DefaultPort).1 == ParseAddress(address, 1883).1
    ensures ParseAddress(address, 1883).1 != 1883 ==>
      ParseAddress(address, DefaultPort).1 == ParseAddress(address, 1883).1
  {
  }

  class MqttComponent {
    /** `mqttClientRef`. */
    var client: Option<Client>
    /** `subscribedTopics`. */
    const tracked: SubscriptionSet
    var rootTopic: string
    /** Clients constructed so far; the next one gets this serial number. */
    var created: nat

    ghost predicate Valid()
      reads this, tracked
    {
      (client.None? ==> tracked.topics == {}) &&
      (client.Some? ==> client.value.serial < created) &&
      rootTopic != []
    }

    constructor()
      ensures Valid() && fresh(tracked)
      ensures client == None && tracked.topics == {} && rootTopic == DefaultRoot && created == 0
    {
      client := None;
      tracked := new SubscriptionSet();
      rootTopic := DefaultRoot;
      created := 0;
    }

    /** `disconnect`: with a client, drop it and forget the subscriptions; returns the client torn down. */
    method Disconnect() returns (closed: Option<Client>)
      requires Valid()
      modifies this, tracked
      ensures Valid()
      ensures closed == old(client) && client == None && tracked.topics == {}
      ensures rootTopic == old(rootTopic) && created == old(created)
    {
      closed := client;
      if client.None? {
        return;
      }
      client := None;
      tracked.Clear();
    }

    /**
     * The compare-and-set on `mqttClientRef`: `candidate` is installed, with
     * the config's root topic, only if no client is installed; otherwise it
     * is closed and nothing changes.
     */
    method Install(candidate: Client, config: MqttConfig) returns (installed: bool)
      requires Valid() && candidate.serial < created
      modifies this
      ensures Valid()
      ensures installed <==> old(client).None?
      ensures installed ==> client == Some(candidate) && rootTopic == RootOrDefault(config.root)
      ensures !installed ==> client == old(client) && rootTopic == old(rootTopic)
      ensures created == old(created)
    {
      if client.Some? {
        return false;
      }
      client := Some(candidate);
      rootTopic := RootOrDefault(config.root);
      installed := true;
    }

    /**
     * `connect`: nothing unless the proxy is enabled. Otherwise the old client
     * is disconnected and the subscriptions forgotten, and a new client for
     * the parsed address is installed by compare-and-set; its connection is
     * started and not waited for.
     */
    twostate predicate ConnectEffect(config: MqttConfig, new outcome: ConnectOutcome)
      reads this, tracked
    {
      (!ProxyEnabled(config) ==>
        outcome == NotEnabled && client == old(client) && tracked.topics == old(tracked.topics) &&
        rootTopic == old(rootTopic) && created == old(created)) &&
      (ProxyEnabled(config) ==>
        var t := TargetOf(config);
        outcome == Connected && client == Some(Client(t.0, t.1, t.2, false, old(created))) &&
        created == old(created) + 1 && tracked.topics == {} && rootTopic == RootOrDefault(config.root))
    }

    /** `connect`, with the effect above. */
    method Connect(config: MqttConfig) returns (outcome: ConnectOutcome)
      requires Valid()
      modifies this, tracked
      ensures Valid()
      ensures ConnectEffect(config, outcome)
    {
      if !ProxyEnabled(config) {
        return NotEnabled;
      }
      var _ := Disconnect();
      tracked.Clear();
      var scheme := Scheme(config.tlsEnabled);
      var hp := ParseAddress(config.address, DefaultPort);
      var newClient := Client(scheme, hp.0, hp.1, false, created);
      created := created + 1;
      var installed := Install(newClient, config);
      outcome := if installed then Connected else Raced;
    }

    /**
     * `onChannelChange`: with a client, bring the subscriptions in line with
     * the listening channels. Returns the unsubscribe and subscribe calls in
     * the order made.
     */
    method OnChannelChange(channels: seq<Channel>) returns (dropped: seq<string>, added: seq<string>)
      requires Valid()
      modifies tracked
      ensures Valid()
      ensures old(client).None? ==> dropped == [] && added == [] && tracked.topics == old(tracked.topics)
      ensures client.Some? ==>
        Synced(old(tracked.topics), DesiredTopicList(rootTopic, channels, false), tracked.topics, dropped, added)
    {
      if client.None? {
        return [], [];
      }
      dropped, added := tracked.Sync(DesiredTopicList(rootTopic, channels, false));
    }

    /** `publish`: with a client, the `data` field goes out on the message's topic at QoS 1; without one nothing happens. */
    method Publish(message: MqttClientProxyMessage) returns (sent: Option<Publication>)
      ensures client.None? ==> sent == None
      ensures client.Some? ==> sent == Some(Publication(message.topic, LegacyPayload(message), DefaultQos, message.retained))
    {
      if client.None? {
        return None;
      }
      sent := Some(Publication(message.topic, LegacyPayload(message), DefaultQos, message.retained));
    }

    /** The `messageArrived` callback: the delivery is handed to the radio as it is. */
    method MessageArrived(topic: string, payload: Bytes, retained: bool) returns (forward: ToRadio)
      ensures forward == ProxyToRadio(topic, payload, retained)
    {
      forward := ProxyToRadio(topic, payload, retained);
    }

    /**
     * `consume`: an MQTT module config connects, a proxied message from the
     * radio is published, and anything else is ignored.
     */
    method Consume(message: FromRadio) returns (outcome: Option<ConnectOutcome>, sent: Option<Publication>)
      requires Valid()
      modifies this, tracked
      ensures Valid()
      ensures message.FromModuleConfig? && message.moduleConfig.MqttModule? ==>
        outcome.Some? && ConnectEffect(message.moduleConfig.mqtt, outcome.value)
      ensures !(message.FromModuleConfig? && message.moduleConfig.MqttModule?) ==>
        outcome == None && client == old(client) && tracked.topics == old(tracked.topics) &&
        rootTopic == old(rootTopic) && created == old(created)
      ensures !message.FromMqttProxy? ==> sent == None
      ensures message.FromMqttProxy? && client.None? ==> sent == None
      ensures message.FromMqttProxy? && client.Some? ==>
        sent == Some(Publication(message.proxy.topic, LegacyPayload(message.proxy), DefaultQos, message.proxy.retained))
    {
      outcome, sent := None, None;
      match message {
        case FromModuleConfig(MqttModule(config)) =>
          var o := Connect(config);
          outcome := Some(o);
        case FromMqttProxy(proxy) =>
          sent := Publish(proxy);
        case _ =>
      }
    }
  }
}
