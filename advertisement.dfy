/**
 * The pure half of the capture callback: pick out the traffic-signal maker's
 * manufacturer data, and turn an accepted advertisement into one CSV row.
 */
module Advertisement {
  import opened Wrappers
  import opened Hex

  /** Bluetooth company identifiers are 16-bit. */
  type ManufacturerId = x: int | 0 <= x < 0x1_0000

  /** The traffic-signal maker's company identifier. */
  const TRAFFIC_MID: ManufacturerId := 0x01CE

  /** One advertisement report as the scanner hands it over (device address plus advertisement data). */
  datatype Event = Event(
    address: string,
    rssi: int,
    manufacturerData: map<ManufacturerId, seq<Byte>>,
    serviceData: map<string, seq<Byte>>)

  /**
   * One data row. `serviceData` is the dictionary that is passed to
   * `json.dumps`; its JSON text is not modelled.
   */
  datatype Row = Row(
    timestamp: string,
    address: string,
    rssi: int,
    manufacturerId: string,
    rawMdata: string,
    serviceData: map<string, string>)

  /** The CSV column names, in column order. */
  const FIELD_NAMES: seq<string> :=
    ["timestamp", "address", "rssi", "manufacturer_id", "raw_mdata", "service_data"]

  /** `adv.manufacturer_data.get(id)`: the payload under `id`, or no match. */
  function Filter(ev: Event, id: ManufacturerId): (r: Option<seq<Byte>>)
    ensures r.None? <==> id !in ev.manufacturerData
    ensures r.Some? ==> id in ev.manufacturerData && r.value == ev.manufacturerData[id]
  {
    if id in ev.manufacturerData then Some(ev.manufacturerData[id]) else None
  }

  /** `{uuid: d.hex() for uuid, d in service_data.items()}`. */
  function ServiceHex(sd: map<string, seq<Byte>>): (m: map<string, string>)
    ensures m.Keys == sd.Keys
    ensures forall u :: u in m ==> |m[u]| == 2 * |sd[u]|
    ensures forall u :: u in m ==> forall i :: 0 <= i < |m[u]| ==> IsLowerHexDigit(m[u][i])
  {
    map u | u in sd :: ToHex(sd[u])
  }

  /** Every value of the hex-encoded service data decodes back to the original bytes. */
  lemma ServiceHexDecodes(sd: map<string, seq<Byte>>)
    ensures forall u :: u in ServiceHex(sd) ==> Unhex(ServiceHex(sd)[u]) == Some(sd[u])
  {
    forall u | u in sd
      ensures Unhex(ServiceHex(sd)[u]) == Some(sd[u])
    {
      UnhexHex(sd[u]);
    }
  }

  /** Distinct service-data maps give distinct hex maps: nothing is lost by the encoding. */
  lemma ServiceHexInjective(a: map<string, seq<Byte>>, b: map<string, seq<Byte>>)
    requires ServiceHex(a) == ServiceHex(b)
    ensures a == b
  {
    forall u | u in a
      ensures u in b && a[u] == b[u]
    {
      HexInjective(a[u], b[u]);
    }
  }

  /** The id written for the traffic-signal maker is the string "0x01CE". */
  lemma TrafficIdText()
    ensures FormatId(TRAFFIC_MID) == "0x01CE"
  {
    assert UpperHexDigits(0x01CE) == UpperHexDigits(0x1C) + ['E'];
    assert UpperHexDigits(0x1C) == ['1', 'C'];
    assert ZeroPad("1CE", 4) == "01CE";
  }

  /**
   * The row the callback writes for an accepted event: the caller-supplied
   * time, address and RSSI unchanged, the fixed manufacturer id, the payload
   * and every service-data value as lower-case hex.
   */
  function BuildRow(ev: Event, payload: seq<Byte>, now: string): (r: Row)
    ensures r.timestamp == now && r.address == ev.address && r.rssi == ev.rssi
    ensures r.manufacturerId == FormatId(TRAFFIC_MID)
    ensures |r.rawMdata| == 2 * |payload| && Unhex(r.rawMdata) == Some(payload)
    ensures forall i :: 0 <= i < |r.rawMdata| ==> IsLowerHexDigit(r.rawMdata[i])
    ensures r.serviceData.Keys == ev.serviceData.Keys
    ensures forall u :: u in r.serviceData ==> Unhex(r.serviceData[u]) == Some(ev.serviceData[u])
    ensures forall u :: u in r.serviceData ==>
      forall i :: 0 <= i < |r.serviceData[u]| ==> IsLowerHexDigit(r.serviceData[u][i])
  {
    TrafficIdText();
    UnhexHex(payload);
    ServiceHexDecodes(ev.serviceData);
    Row(now, ev.address, ev.rssi, FormatId(TRAFFIC_MID), ToHex(payload), ServiceHex(ev.serviceData))
  }

  /** The id column of every row is the text "0x01CE". */
  lemma BuildRowId(ev: Event, payload: seq<Byte>, now: string)
    ensures BuildRow(ev, payload, now).manufacturerId == "0x01CE"
  {
    TrafficIdText();
  }

  /** The pure part of one callback: no row unless the traffic-signal id is present. */
  function Process(ev: Event, now: string): (r: Option<Row>)
    ensures r.None? <==> TRAFFIC_MID !in ev.manufacturerData
    ensures r.Some? ==> r.value == BuildRow(ev, ev.manufacturerData[TRAFFIC_MID], now)
  {
    match Filter(ev, TRAFFIC_MID)
    case None => None
    case Some(mdata) => Some(BuildRow(ev, mdata, now))
  }

  /** The payload 12 34 is written as "1234". */
  lemma PayloadHexExample()
    ensures ToHex([0x12, 0x34]) == "1234"
  {
    assert LowerDigit(1) == '1' && LowerDigit(2) == '2';
    assert LowerDigit(3) == '3' && LowerDigit(4) == '4';
    assert ToHex([0x34]) == ByteHex(0x34) + ToHex([]);
  }

  /** A report carrying {0x01CE: 12 34} gives the id "0x01CE" and the payload "1234". */
  lemma ProcessAcceptExample(now: string)
    ensures var r := Process(Event("AA:BB", -60, map[0x01CE := [0x12, 0x34]], map[]), now);
      r.Some? && r.value.manufacturerId == "0x01CE" && r.value.rawMdata == "1234"
      && r.value.serviceData == map[]
  {
    var ev := Event("AA:BB", -60, map[0x01CE := [0x12, 0x34]], map[]);
    PayloadHexExample();
    assert Filter(ev, TRAFFIC_MID) == Some([0x12, 0x34]);
  }

  /** A report carrying only another maker's data (0x004C) gives no row. */
  lemma ProcessRejectExample(now: string)
    ensures Process(Event("AA:BB", -60, map[0x004C := [0x12]], map[]), now).None?
  {
  }
}
