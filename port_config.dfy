/**
 * Choosing the radio's serial port from the configured URI: only the
 * `serial` scheme is accepted, the URI's path names the device, and its query
 * may set `baudrate` (9600 when absent or not a number). The server's
 * `MeshtasticClientConfig` and the older `MeshtasticClientPortConfig` do the
 * same on these lines.
 */
module PortConfig {
  import opened Wrappers
  import opened Text

  const DefaultBaudRate: int := 9600

  /** The parts of a `java.net.URI` the choice reads; an absent scheme is a relative URI. */
  datatype Uri = Uri(scheme: Option<string>, path: string, rawQuery: Option<string>)

  /** What the port is opened with. */
  datatype SerialPortSpec = SerialPortSpec(devicePath: string, baudRate: int)

  /** `scheme.lowercase() == "serial"`: the six letters of `serial`, each in either case. */
  predicate IsSerialScheme(scheme: string): (r: bool)
    ensures r <==> |scheme| == 6 && forall i :: 0 <= i < 6 ==> scheme[i] == "serial"[i] || scheme[i] == "SERIAL"[i]
  {
    var lower := ToLowerAscii(scheme);
    assert lower == "serial" <==> |lower| == 6 && forall i :: 0 <= i < 6 ==> lower[i] == "serial"[i];
    lower == "serial"
  }

  /** One `key=value` item, split at its first `=`; an item with no `=` is dropped. */
  function QueryItem(item: string): (r: Option<(string, string)>)
    ensures r.Some? <==> '=' in item
    ensures r.Some? ==> '=' !in r.value.0 && r.value.0 + "=" + r.value.1 == item
  {
    var kv := SplitOnce(item, '=');
    if |kv| == 2 then Some((kv[0], kv[1])) else None
  }

  /** `associate` over the items: each pair is put in turn, so a later key overwrites an earlier one. */
  function Associate(items: seq<string>): (m: map<string, string>)
    ensures forall k :: k in m <==> exists i :: 0 <= i < |items| && QueryItem(items[i]).Some? && QueryItem(items[i]).value.0 == k
  {
    if |items| == 0 then map[]
    else
      var m := Associate(items[..|items| - 1]);
      var last := items[|items| - 1];
      assert forall i :: 0 <= i < |items| - 1 ==> items[..|items| - 1][i] == items[i];
      match QueryItem(last)
      case None => m
      case Some(kv) => m[kv.0 := kv.1]
  }

  /** The query map: a missing query is empty, otherwise its `&`-separated items associated. */
  function QueryMap(rawQuery: Option<string>): (m: map<string, string>)
    ensures rawQuery.None? ==> m == map[]
    ensures forall k :: k in m ==> '=' !in k && '&' !in k
  {
    var items := Split(rawQuery.GetOr(""), '&');
    assert rawQuery.None? ==> items == [""] && QueryItem(items[0]).None?;
    forall i | 0 <= i < |items| && QueryItem(items[i]).Some?
      ensures '&' !in QueryItem(items[i]).value.0
    {
      var kv := QueryItem(items[i]).value;
      assert items[i] == kv.0 + "=" + kv.1;
      assert forall j :: 0 <= j < |kv.0| ==> kv.0[j] == items[i][j];
    }
    Associate(items)
  }

  /** For a repeated key the last occurrence wins. */
  lemma {:induction false} LastOccurrenceWins(items: seq<string>, i: nat, k: string, v: string)
    requires i < |items| && QueryItem(items[i]) == Some((k, v))
    requires forall j :: i < j < |items| && QueryItem(items[j]).Some? ==> QueryItem(items[j]).value.0 != k
    ensures k in Associate(items) && Associate(items)[k] == v
    decreases |items|
  {
    var prefix := items[..|items| - 1];
    if i < |items| - 1 {
      assert prefix[i] == items[i];
      forall j | i < j < |prefix| && QueryItem(prefix[j]).Some?
        ensures QueryItem(prefix[j]).value.0 != k
      {
        assert prefix[j] == items[j];
      }
      LastOccurrenceWins(prefix, i, k, v);
    }
  }

  /** `queryMap["baudrate"]?.toIntOrNull() ?: 9600`. */
  function BaudRate(query: map<string, string>): (b: int)
    ensures "baudrate" !in query ==> b == DefaultBaudRate
    ensures "baudrate" in query && ToIntOrNull(query["baudrate"]).None? ==> b == DefaultBaudRate
    ensures "baudrate" in query && ToIntOrNull(query["baudrate"]).Some? ==> b == ToIntOrNull(query["baudrate"]).value
  {
    if "baudrate" in query then ToIntOrNull(query["baudrate"]).GetOr(DefaultBaudRate) else DefaultBaudRate
  }

  /**
   * `clientPort`/`createSerialPort`: a scheme other than `serial` (in any
   * letter case), or none at all, is refused; otherwise the device path and
   * the baud rate.
   */
  function ClientPort(uri: Uri): (r: Result<SerialPortSpec, string>)
    ensures r.Ok? <==> uri.scheme.Some? && IsSerialScheme(uri.scheme.value)
    ensures r.Ok? ==> r.value == SerialPortSpec(uri.path, BaudRate(QueryMap(uri.rawQuery)))
  {
    if uri.scheme.None? then Err("URI has no scheme")
    else if IsSerialScheme(uri.scheme.value) then Ok(SerialPortSpec(uri.path, BaudRate(QueryMap(uri.rawQuery))))
    else Err("Unsupported scheme: " + uri.scheme.value)
  }

  /** The scheme test ignores ASCII letter case. */
  lemma SchemeCase()
    ensures IsSerialScheme("serial") && IsSerialScheme("SERIAL") && IsSerialScheme("Serial")
    ensures !IsSerialScheme("tcp") && !IsSerialScheme("serial2")
  {
    assert ToLowerAscii("SERIAL") == "serial";
    assert ToLowerAscii("Serial") == "serial";
    assert ToLowerAscii("serial") == "serial";
    assert |ToLowerAscii("serial2")| == 7;
  }

  /** The item `baudrate=<n>` for an `Int` n: no `&` in it, and it reads back as the pair ("baudrate", n). */
  lemma BaudItem(n: int)
    ensures '&' !in "baudrate=" + IntToString(n)
    ensures QueryItem("baudrate=" + IntToString(n)) == Some(("baudrate", IntToString(n)))
  {
    var digits := IntToString(n);
    var item := "baudrate=" + digits;
    IntToStringNoSeparator(n);
    forall i | 0 <= i < |item|
      ensures item[i] != '&'
    {
      if i >= 9 { assert item[i] == digits[i - 9]; }
    }
    FirstIndexIs(item, '=', 8);
    assert item[..8] == "baudrate";
    assert item[9..] == digits;
  }

  /**
   * A query ending in `baudrate=<n>` sets the baud rate to `n`, whatever
   * items come before it.
   */
  lemma BaudRateFromQuery(before: seq<string>, n: int)
    requires IntMin <= n <= IntMax
    requires forall j :: 0 <= j < |before| ==> '&' !in before[j]
    ensures BaudRate(QueryMap(Some(Join(before + ["baudrate=" + IntToString(n)], '&')))) == n
  {
    var items := before + ["baudrate=" + IntToString(n)];
    BaudItem(n);
    forall j | 0 <= j < |items|
      ensures '&' !in items[j]
    {
      if j < |before| { assert items[j] == before[j]; }
    }
    SplitJoin(items, '&');
    LastOccurrenceWins(items, |items| - 1, "baudrate", IntToString(n));
    IntToStringRoundTrip(n);
  }

  /** A decimal rendering holds digits and perhaps a minus sign, never an `&` or `=`. */
  lemma IntToStringNoSeparator(n: int)
    ensures forall i :: 0 <= i < |IntToString(n)| ==> IntToString(n)[i] != '&' && IntToString(n)[i] != '='
  {
    var digits := NatToString(if n < 0 then -n else n);
    assert AllDigits(digits);
    if n < 0 {
      var s := IntToString(n);
      assert s == "-" + digits;
      forall i | 1 <= i < |s|
        ensures s[i] != '&' && s[i] != '='
      {
        assert s[i] == digits[i - 1];
      }
    }
  }

  /** No query, or one without a `baudrate` item, means 9600. */
  lemma DefaultBaud(rawQuery: Option<string>)
    requires rawQuery.None? || forall i :: 0 <= i < |Split(rawQuery.value, '&')| ==>
      QueryItem(Split(rawQuery.value, '&')[i]).None? || QueryItem(Split(rawQuery.value, '&')[i]).value.0 != "baudrate"
    ensures BaudRate(QueryMap(rawQuery)) == DefaultBaudRate
  {
    var items := Split(rawQuery.GetOr(""), '&');
    if rawQuery.None? {
      assert items == [""];
      assert QueryItem(items[0]).None?;
    } else {
      assert items == Split(rawQuery.value, '&');
    }

  }
}
