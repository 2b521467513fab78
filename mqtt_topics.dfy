/**
 * What the two versions of the MQTT proxy component share: reading the
 * broker address, the topic filters derived from the channel table, the
 * publish payload, and the tracked set of subscriptions that a channel
 * change brings up to date one subscribe or unsubscribe call at a time.
 */
module MqttTopics {
  import opened Wrappers
  import opened Mesh
  import Text
  import Utf8

  const DefaultServerAddress: string := "mqtt.meshtastic.org"
  const DefaultRoot: string := "msh"
  /** Topic level for encrypted service envelopes, protocol version 2. */
  const TopicLevel: string := "/2/e/"
  /** Quality of service of every subscription and publication: at least once. */
  const DefaultQos: nat := 1

  // ---------------------------------------------------------------- broker address

  /** `ssl` exactly when TLS is on, otherwise `tcp`; neither holds the `:` that ends a URI scheme. */
  function Scheme(tlsEnabled: bool): (r: string)
    ensures r == "ssl" <==> tlsEnabled
    ensures r != [] && ':' !in r
  {
    if tlsEnabled then "ssl" else "tcp"
  }

  /**
   * The broker address as `host[:port]`: an empty address is the public
   * broker, the text is cut at the first `:` only, and a port that is missing
   * or not an `Int` is `defaultPort`.
   */
  function ParseAddress(address: string, defaultPort: int): (r: (string, int))
    ensures ':' !in r.0
    ensures address == [] ==> r == (DefaultServerAddress, defaultPort)
    ensures address != [] && ':' !in address ==> r == (address, defaultPort)
    ensures address != [] && ':' in address ==> r.0 == address[..Text.FirstIndex(address, ':')]
    ensures Text.IntMin <= defaultPort <= Text.IntMax ==> Text.IntMin <= r.1 <= Text.IntMax
  {
    DefaultAddressHasNoPort();
    var text := if address == [] then DefaultServerAddress else address;
    var pieces := Text.SplitOnce(text, ':');
    var port := if |pieces| > 1 then Text.ToIntOrNull(pieces[1]).GetOr(defaultPort) else defaultPort;
    (pieces[0], port)
  }

  lemma DefaultAddressHasNoPort()
    ensures ':' !in DefaultServerAddress
  {
    var d := DefaultServerAddress;
    assert forall i | 0 <= i < |d| :: d[i] != ':';
  }

  /** `host:port` as rendered for the broker reads back as that host and port. */
  lemma AddressRoundTrip(host: string, port: int, defaultPort: int)
    requires host != [] && ':' !in host
    requires Text.IntMin <= port <= Text.IntMax
    ensures ParseAddress(host + ":" + Text.IntToString(port), defaultPort) == (host, port)
  {
    var address := host + ":" + Text.IntToString(port);
    Text.FirstIndexIs(address, ':', |host|);
    assert address[..|host|] == host;
    assert address[|host| + 1..] == Text.IntToString(port);
    Text.IntToStringRoundTrip(port);
  }

  /** A port text that is not an `Int` falls back to the default. */
  lemma BadPortIsDefault(host: string, portText: string, defaultPort: int)
    requires host != [] && ':' !in host && Text.ToIntOrNull(portText).None?
    ensures ParseAddress(host + ":" + portText, defaultPort) == (host, defaultPort)
  {
    var address := host + ":" + portText;
    Text.FirstIndexIs(address, ':', |host|);
    assert address[..|host|] == host;
    assert address[|host| + 1..] == portText;
  }

  /** The server URI a connected client reports: `scheme://host:port`. */
  function TargetUri(scheme: string, host: string, port: int): string {
    scheme + "://" + host + ":" + Text.IntToString(port)
  }

  /**
   * Equal URIs name the same broker: for schemes and hosts without `:` and
   * `Int` ports, `scheme://host:port` determines all three.
   */
  lemma TargetUriInjective(s1: string, h1: string, p1: int, s2: string, h2: string, p2: int)
    requires ':' !in s1 && ':' !in s2 && ':' !in h1 && ':' !in h2
    requires Text.IntMin <= p1 <= Text.IntMax && Text.IntMin <= p2 <= Text.IntMax
    requires TargetUri(s1, h1, p1) == TargetUri(s2, h2, p2)
    ensures s1 == s2 && h1 == h2 && p1 == p2
  {
    var d1, d2 := Text.IntToString(p1), Text.IntToString(p2);
    var r1, r2 := h1 + ":" + d1, h2 + ":" + d2;
    assert TargetUri(s1, h1, p1) == s1 + ("://" + r1);
    assert TargetUri(s2, h2, p2) == s2 + ("://" + r2);
    CutAtColon(s1, "://" + r1, s2, "://" + r2);
    assert r1 == ("://" + r1)[3..] == ("://" + r2)[3..] == r2;
    assert r1 == h1 + (":" + d1) && r2 == h2 + (":" + d2);
    CutAtColon(h1, ":" + d1, h2, ":" + d2);
    assert d1 == (":" + d1)[1..] == (":" + d2)[1..] == d2;
    Text.IntToStringRoundTrip(p1);
    Text.IntToStringRoundTrip(p2);
  }

  /** Text without `:` in front of a `:` is recovered by cutting at the first `:`. */
  lemma CutAtColon(a1: string, b1: string, a2: string, b2: string)
    requires ':' !in a1 && ':' !in a2 && b1 != [] && b2 != [] && b1[0] == ':' && b2[0] == ':'
    requires a1 + b1 == a2 + b2
    ensures a1 == a2 && b1 == b2
  {
    var u := a1 + b1;
    assert u[..|a1|] == a1 && u[|a1|] == ':';
    Text.FirstIndexIs(u, ':', |a1|);
    assert u == a2 + b2 && u[..|a2|] == a2 && u[|a2|] == ':';
    Text.FirstIndexIs(u, ':', |a2|);
    assert a1 == (a1 + b1)[..|a1|];
    assert a2 == (a2 + b2)[..|a2|];
    assert b1 == (a1 + b1)[|a1|..];
    assert b2 == (a2 + b2)[|a2|..];
  }

  /** The root topic of a new connection: the configured one, or `msh` when none is set. */
  function RootOrDefault(root: string): (r: string)
    ensures r != []
    ensures root != [] ==> r == root
  {
    if root == [] then DefaultRoot else root
  }

  /**
   * A Paho client as far as the component sees it: the broker it was
   * created for, whether its connection is up, and a serial number telling
   * one client object from another.
   */
  datatype Client = Client(scheme: string, host: string, port: int, connected: bool, serial: nat)

  /** What `connect` did with a module config. */
  datatype ConnectOutcome = NotEnabled | AlreadyConnected | Connected | ConnectFailed | Raced

  predicate ProxyEnabled(config: MqttConfig) {
    config.enabled && config.proxyToClientEnabled
  }

  /** A message arriving from the broker, handed to the radio as a proxied data message. */
  function ProxyToRadio(topic: string, payload: Bytes, retained: bool): ToRadio {
    ToMqttProxy(MqttClientProxyMessage(topic, ProxyData(payload), retained))
  }

  // ---------------------------------------------------------------- topics

  /** The filter for one channel: every gateway's envelopes on that channel, `+` standing for the gateway level. */
  function Topic(root: string, name: string): string {
    root + TopicLevel + name + "/+"
  }

  /** Direct messages, encrypted with the recipient's public key, travel on the channel name `PKI`. */
  function PkiTopic(root: string): string {
    Topic(root, "PKI")
  }

  /** Different channel names give different filters under one root. */
  lemma TopicInjective(root: string, a: string, b: string)
    requires Topic(root, a) == Topic(root, b)
    ensures a == b
  {
    var n := |root| + |TopicLevel|;
    assert Topic(root, a)[n..|Topic(root, a)| - 2] == a;
    assert Topic(root, b)[n..|Topic(root, b)| - 2] == b;
  }

  /**
   * Every filter puts the single-level wildcard alone in its last level, as
   * section 4.7.1.2 of MQTT 3.1.1 requires of `+`.
   */
  lemma WildcardLevel(root: string, name: string)
    ensures var t := Topic(root, name);
      |t| >= 2 && t[|t| - 2..] == "/+" && t[..|root|] == root
  {
  }

  /** A channel the proxy listens on: not disabled, and downlink enabled. */
  predicate Downlinks(c: Channel) {
    c.role != Disabled && c.settings.downlinkEnabled
  }

  /** The filters of the listening channels, in channel order. */
  function ChannelTopics(root: string, channels: seq<Channel>): (r: seq<string>)
    ensures |r| <= |channels|
  {
    if |channels| == 0 then []
    else
      (if Downlinks(channels[0]) then [Topic(root, channels[0].settings.name)] else [])
      + ChannelTopics(root, channels[1..])
  }

  /** A filter is listed exactly when some listening channel has that name. */
  lemma {:induction false} ChannelTopicsMembers(root: string, channels: seq<Channel>, t: string)
    ensures t in ChannelTopics(root, channels) <==>
      exists i :: 0 <= i < |channels| && Downlinks(channels[i]) && t == Topic(root, channels[i].settings.name)
  {
    if |channels| > 0 {
      ChannelTopicsMembers(root, channels[1..], t);
      if t in ChannelTopics(root, channels[1..]) {
        var i :| 0 <= i < |channels[1..]| && Downlinks(channels[1..][i]) && t == Topic(root, channels[1..][i].settings.name);
        assert channels[i + 1] == channels[1..][i];
      }
      forall i | 1 <= i < |channels| && Downlinks(channels[i]) && t == Topic(root, channels[i].settings.name)
        ensures t in ChannelTopics(root, channels[1..])
      {
        assert channels[1..][i - 1] == channels[i];
      }
    }
  }

  /** The filters a channel table asks for, in iteration order, with the direct-message filter last when asked for. */
  function DesiredTopicList(root: string, channels: seq<Channel>, withPki: bool): (r: seq<string>)
    ensures withPki ==> PkiTopic(root) in r
  {
    ChannelTopics(root, channels) + (if withPki then [PkiTopic(root)] else [])
  }

  function Elems(s: seq<string>): set<string> {
    set x | x in s
  }

  /** The two versions of the component differ in their filter sets by the direct-message filter alone. */
  lemma PkiIsTheDifference(root: string, channels: seq<Channel>)
    ensures Elems(DesiredTopicList(root, channels, true)) == Elems(DesiredTopicList(root, channels, false)) + {PkiTopic(root)}
  {
  }

  // ---------------------------------------------------------------- publishing

  /** A message for the broker: topic, payload, quality of service and retain flag. */
  datatype Publication = Publication(topic: string, payload: Bytes, qos: nat, retained: bool)

  /** The bytes published for a proxied message: its data, its text in UTF-8, or nothing. */
  function PublishPayload(m: MqttClientProxyMessage): (r: Bytes)
    ensures m.payload.ProxyText? ==> |r| == Utf8.Size(m.payload.text)
    ensures m.payload.ProxyNotSet? ==> r == []
  {
    match m.payload
    case ProxyData(data) => data
    case ProxyText(text) => Utf8.Encode(text)
    case ProxyNotSet => []
  }

  /**
   * The payload of the older component, which always reads the `data` field:
   * protobuf yields empty bytes for it when the message holds text.
   */
  function LegacyPayload(m: MqttClientProxyMessage): (r: Bytes)
    ensures !m.payload.ProxyData? ==> r == []
  {
    if m.payload.ProxyData? then m.payload.data else []
  }

  /** The two payload choices agree except on text, which the older component publishes as empty. */
  lemma PayloadVersions(m: MqttClientProxyMessage)
    ensures !m.payload.ProxyText? ==> PublishPayload(m) == LegacyPayload(m)
    ensures m.payload.ProxyText? && m.payload.text != [] ==> PublishPayload(m) != LegacyPayload(m)
  {
    if m.payload.ProxyText? {
    }
  }

  // ---------------------------------------------------------------- the subscription diff

  predicate Distinct(s: seq<string>) {
    forall i, j :: 0 <= i < j < |s| ==> s[i] != s[j]
  }

  /**
   * The subscribe calls for walking `desired` in order against the topics
   * in `seen`: each topic neither seen nor already subscribed by this walk.
   */
  function NewInOrder(desired: seq<string>, seen: set<string>): (r: seq<string>)
    ensures Elems(r) == Elems(desired) - seen
    ensures Distinct(r)
  {
    if |desired| == 0 then []
    else
      var init, t := desired[..|desired| - 1], desired[|desired| - 1];
      var p := NewInOrder(init, seen);
      assert desired == init + [t];
      assert Elems(desired) == Elems(init) + {t};
      assert Elems(p + [t]) == Elems(p) + {t};
      if t in seen || t in p then p else p + [t]
  }

  lemma ElemsEmpty(s: seq<string>)
    ensures Elems(s) == {} <==> s == []
  {
    if s != [] {
      assert s[0] in Elems(s);
    }
  }

  lemma ElemsSnoc(s: seq<string>, t: string)
    ensures Elems(s + [t]) == Elems(s) + {t}
    ensures Distinct(s) && t !in s ==> Distinct(s + [t])
  {
  }

  /** Only the seen topics that are desired at all matter to the walk. */
  lemma {:induction false} NewInOrderSeen(desired: seq<string>, a: set<string>, b: set<string>)
    requires a * Elems(desired) == b * Elems(desired)
    ensures NewInOrder(desired, a) == NewInOrder(desired, b)
  {
    if |desired| > 0 {
      var init, t := desired[..|desired| - 1], desired[|desired| - 1];
      assert desired == init + [t];
      forall x | x in Elems(init)
        ensures (x in a) == (x in b)
      {
        assert x in Elems(desired);
        assert (x in a * Elems(desired)) == (x in b * Elems(desired));
      }
      assert a * Elems(init) == b * Elems(init);
      NewInOrderSeen(init, a, b);
      assert t in Elems(desired);
      assert (t in a * Elems(desired)) == (t in b * Elems(desired));
    }
  }

  /** A set that already holds every desired topic needs no subscribe call. */
  lemma NothingNew(desired: seq<string>, seen: set<string>)
    requires Elems(desired) <= seen
    ensures NewInOrder(desired, seen) == []
  {
  }

  /** The state of the unsubscribe loop: `gone` of the unwanted topics dropped, in `dropped`'s order, the rest still to do. */
  ghost predicate DropProgress(start: set<string>, wanted: set<string>, toDrop: set<string>,
                               gone: set<string>, dropped: seq<string>, topics: set<string>) {
    Elems(dropped) == gone && Distinct(dropped) &&
    toDrop + gone == start - wanted && toDrop !! gone &&
    topics == start - gone
  }

  lemma DropStep(start: set<string>, wanted: set<string>, toDrop: set<string>,
                 gone: set<string>, dropped: seq<string>, topics: set<string>, t: string)
    requires DropProgress(start, wanted, toDrop, gone, dropped, topics) && t in toDrop
    ensures DropProgress(start, wanted, toDrop - {t}, gone + {t}, dropped + [t], topics - {t})
  {
    ElemsSnoc(dropped, t);
    assert t !in dropped by {
      assert t !in Elems(dropped);
    }
  }

  /**
   * One pass of the diff took the tracked set from `before` to `after`,
   * unsubscribing `dropped` and subscribing `added`.
   */
  predicate Synced(before: set<string>, desired: seq<string>, after: set<string>, dropped: seq<string>, added: seq<string>) {
    after == Elems(desired) &&
    Distinct(dropped) && Elems(dropped) == before - Elems(desired) &&
    added == NewInOrder(desired, before)
  }

  /**
   * After a pass the tracked set is exactly the desired set; every topic no
   * longer wanted was unsubscribed once and every missing one subscribed
   * once; and a set already in step issues no call at all.
   */
  lemma SyncedCalls(before: set<string>, desired: seq<string>, after: set<string>, dropped: seq<string>, added: seq<string>)
    requires Synced(before, desired, after, dropped, added)
    ensures after == Elems(desired)
    ensures Elems(dropped) == before - after && Elems(added) == after - before
    ensures Distinct(dropped) && Distinct(added)
    ensures before == after ==> dropped == [] && added == []
  {
    ElemsEmpty(dropped);
    ElemsEmpty(added);
  }

  /** `subscribedTopics`: the topic filters the component believes it is subscribed to. */
  class SubscriptionSet {
    var topics: set<string>

    constructor()
      ensures topics == {}
    {
      topics := {};
    }

    method Clear()
      modifies this
      ensures topics == {}
    {
      topics := {};
    }

    /**
     * The body of `onChannelChange`: unsubscribe every tracked topic no longer
     * wanted, then walk the desired topics and subscribe each one not yet
     * tracked. Returns the unsubscribe calls and the subscribe calls, in the
     * order issued.
     */
    method Sync(desired: seq<string>) returns (dropped: seq<string>, added: seq<string>)
      modifies this
      ensures Synced(old(topics), desired, topics, dropped, added)
    {
      ghost var start := topics;
      dropped := DropAllBut(Elems(desired));
      added := SubscribeMissing(desired);
      NewInOrderSeen(desired, start * Elems(desired), start);
    }

    /** The unsubscribe loop: every tracked topic outside `wanted` is dropped, once each. */
    method DropAllBut(wanted: set<string>) returns (dropped: seq<string>)
      modifies this
      ensures topics == old(topics) * wanted
      ensures Distinct(dropped) && Elems(dropped) == old(topics) - wanted
    {
      var toDrop := topics - wanted;
      ghost var gone: set<string> := {};
      dropped := [];
      while toDrop != {}
        invariant DropProgress(old(topics), wanted, toDrop, gone, dropped, topics)
        decreases |toDrop|
      {
        var t :| t in toDrop;
        DropStep(old(topics), wanted, toDrop, gone, dropped, topics, t);
        dropped := dropped + [t];
        gone := gone + {t};
        topics := topics - {t};
        toDrop := toDrop - {t};
      }
    }

    /** The subscribe loop: the desired topics not yet tracked, in order, each once. */
    method SubscribeMissing(desired: seq<string>) returns (added: seq<string>)
      modifies this
      ensures topics == old(topics) + Elems(desired)
      ensures added == NewInOrder(desired, old(topics))
    {
      added := [];
      var i := 0;
      while i < |desired|
        invariant 0 <= i <= |desired|
        invariant added == NewInOrder(desired[..i], old(topics))
        invariant topics == old(topics) + Elems(desired[..i])
      {
        var t := desired[i];
        assert desired[..i + 1] == desired[..i] + [t] && desired[..i + 1][..i] == desired[..i];
        assert t in topics <==> t in old(topics) || t in added by {
          assert t in Elems(added) <==> t in added;
          assert t in Elems(desired[..i]) <==> t in desired[..i];
        }
        if t !in topics {
          added := added + [t];
          topics := topics + {t};
        }
        i := i + 1;
      }
      assert desired[..i] == desired;
    }
  }
}
