/**
 * The stateful half of the capture script: the CSV file, opened fresh, given
 * its header once, then extended by one row per accepted advertisement in the
 * order the scanner delivers them.
 */
module TrafficLog {
  import opened Advertisement
  import opened Sequences

  /** One line of the CSV file, before CSV quoting. */
  datatype Line = Header(names: seq<string>) | Data(row: Row)

  /** One delivery of the scanner's detection callback, with the wall-clock time read in it. */
  datatype Arrival = Arrival(event: Event, now: string)

  /** The file as the script leaves it: the header first, and only data rows after it. */
  ghost predicate WellFormed(lines: seq<Line>) {
    && |lines| >= 1
    && lines[0] == Header(FIELD_NAMES)
    && forall i :: 1 <= i < |lines| ==> lines[i].Data?
  }

  /** The data row a line holds, if it holds one. */
  function LineRows(line: Line): (rows: seq<Row>) {
    if line.Data? then [line.row] else []
  }

  /** The data rows of a file, in file order. */
  function DataRows(lines: seq<Line>): (rows: seq<Row>)
    ensures |rows| <= |lines|
  {
    FlatMapAtMostOne(LineRows, lines);
    FlatMap(LineRows, lines)
  }

  /** In a well-formed file the data rows are exactly the lines after the header. */
  lemma DataRowsAfterHeader(lines: seq<Line>)
    requires WellFormed(lines)
    ensures |DataRows(lines)| == |lines| - 1
    ensures forall i :: 0 <= i < |lines| - 1 ==> DataRows(lines)[i] == lines[i + 1].row
  {
    var body := lines[1..];
    assert lines == [lines[0]] + body;
    FlatMapAppend(LineRows, [lines[0]], body);
    FlatMapSnoc(LineRows, [], lines[0]);
    assert FlatMap(LineRows, [lines[0]]) == [];
    FlatMapExactlyOne(LineRows, body);
  }

  /** The rows one delivery produces: none, or the one row the callback writes. */
  function RowsFor(a: Arrival): (rows: seq<Row>)
    ensures |rows| <= 1
    ensures rows == [] <==> TRAFFIC_MID !in a.event.manufacturerData
    ensures rows != [] ==> rows[0] == BuildRow(a.event, a.event.manufacturerData[TRAFFIC_MID], a.now)
  {
    match Process(a.event, a.now)
    case Some(r) => [r]
    case None => []
  }

  /** The rows the callback writes for a sequence of deliveries, in delivery order. */
  function Accepted(arrivals: seq<Arrival>): (rows: seq<Row>)
    ensures |rows| <= |arrivals|
  {
    FlatMapAtMostOne(RowsFor, arrivals);
    FlatMap(RowsFor, arrivals)
  }

  /** Deliveries split in two give the rows of the first part followed by those of the second. */
  lemma AcceptedAppend(a: seq<Arrival>, b: seq<Arrival>)
    ensures Accepted(a + b) == Accepted(a) + Accepted(b)
  {
    FlatMapAppend(RowsFor, a, b);
  }

  /** One more delivery adds its rows, and only those, at the end. */
  lemma AcceptedSnoc(arrivals: seq<Arrival>, a: Arrival)
    ensures Accepted(arrivals + [a]) == Accepted(arrivals) + RowsFor(a)
  {
    FlatMapSnoc(RowsFor, arrivals, a);
  }

  /**
   * Every row written carries the traffic-signal id "0x01CE" and is the row
   * built from some delivery that had that id.
   */
  lemma AcceptedIds(arrivals: seq<Arrival>)
    ensures forall j :: 0 <= j < |Accepted(arrivals)| ==> Accepted(arrivals)[j].manufacturerId == "0x01CE"
    ensures forall j :: 0 <= j < |Accepted(arrivals)| ==>
      (exists i :: 0 <= i < |arrivals| && TRAFFIC_MID in arrivals[i].event.manufacturerData &&
         Accepted(arrivals)[j]
           == BuildRow(arrivals[i].event, arrivals[i].event.manufacturerData[TRAFFIC_MID], arrivals[i].now))
  {
    var rows := Accepted(arrivals);
    forall j | 0 <= j < |rows|
      ensures rows[j].manufacturerId == "0x01CE"
      ensures (exists i :: 0 <= i < |arrivals| && TRAFFIC_MID in arrivals[i].event.manufacturerData &&
                 rows[j] == BuildRow(arrivals[i].event, arrivals[i].event.manufacturerData[TRAFFIC_MID], arrivals[i].now))
    {
      FlatMapOrigin(RowsFor, arrivals, j);
      var i :| 0 <= i < |arrivals| && rows[j] in RowsFor(arrivals[i]);
      RowsForId(arrivals[i], rows[j]);
      assert TRAFFIC_MID in arrivals[i].event.manufacturerData &&
        rows[j] == BuildRow(arrivals[i].event, arrivals[i].event.manufacturerData[TRAFFIC_MID], arrivals[i].now);
    }
  }

  lemma RowsForId(a: Arrival, r: Row)
    requires r in RowsFor(a)
    ensures TRAFFIC_MID in a.event.manufacturerData
    ensures r == BuildRow(a.event, a.event.manufacturerData[TRAFFIC_MID], a.now)
    ensures r.manufacturerId == "0x01CE"
  {
    var payload := a.event.manufacturerData[TRAFFIC_MID];
    assert r == BuildRow(a.event, payload, a.now);
    BuildRowId(a.event, payload, a.now);
  }

  /** Deliveries without the traffic-signal id leave no trace in the file. */
  lemma AcceptedNone(arrivals: seq<Arrival>)
    requires forall i :: 0 <= i < |arrivals| ==> TRAFFIC_MID !in arrivals[i].event.manufacturerData
    ensures Accepted(arrivals) == []
  {
    FlatMapNone(RowsFor, arrivals);
  }

  /**
   * When every delivery carries the traffic-signal id there is one row per
   * delivery, the i-th row built from the i-th delivery: no deduplication.
   */
  lemma AcceptedAll(arrivals: seq<Arrival>)
    requires forall i :: 0 <= i < |arrivals| ==> TRAFFIC_MID in arrivals[i].event.manufacturerData
    ensures |Accepted(arrivals)| == |arrivals|
    ensures forall i :: 0 <= i < |arrivals| ==>
      Accepted(arrivals)[i]
        == BuildRow(arrivals[i].event, arrivals[i].event.manufacturerData[TRAFFIC_MID], arrivals[i].now)
  {
    FlatMapExactlyOne(RowsFor, arrivals);
  }

  /** The open output file (`csv.DictWriter` over `f`), as the sequence of lines written so far. */
  class CsvLog {
    var lines: seq<Line>

    /** `open(output_file, "w")`: the file starts empty. */
    constructor Open()
      ensures lines == []
    {
      lines := [];
    }

    /** `writer.writeheader()`: appends the column names as one line. */
    method WriteHeader()
      modifies this
      ensures lines == old(lines) + [Header(FIELD_NAMES)]
      ensures old(lines) == [] ==> WellFormed(lines) && DataRows(lines) == []
    {
      lines := lines + [Header(FIELD_NAMES)];
      FlatMapSnoc(LineRows, old(lines), Header(FIELD_NAMES));
    }

    /** `writer.writerow(row)` followed by `f.flush()`: appends one data line. */
    method WriteRow(row: Row)
      modifies this
      ensures lines == old(lines) + [Data(row)]
      ensures DataRows(lines) == DataRows(old(lines)) + [row]
      ensures WellFormed(old(lines)) ==> WellFormed(lines)
    {
      lines := lines + [Data(row)];
      FlatMapSnoc(LineRows, old(lines), Data(row));
    }

    /**
     * The detection callback: a report without the traffic-signal id is
     * dropped and the file is unchanged; otherwise exactly one row is
     * appended at the end and the earlier lines stay as they were.
     */
    method OnAdvertisement(ev: Event, now: string) returns (written: bool)
      modifies this
      ensures written <==> TRAFFIC_MID in ev.manufacturerData
      ensures written ==> lines == old(lines) + [Data(BuildRow(ev, ev.manufacturerData[TRAFFIC_MID], now))]
      ensures !written ==> lines == old(lines)
      ensures DataRows(lines) == DataRows(old(lines)) + RowsFor(Arrival(ev, now))
      ensures WellFormed(old(lines)) ==> WellFormed(lines)
    {
      var mdata := Filter(ev, TRAFFIC_MID);
      if mdata.None? {
        assert RowsFor(Arrival(ev, now)) == [];
        return false;
      }
      WriteRow(BuildRow(ev, mdata.value, now));
      written := true;
    }
  }

  /** After the callback for delivery i the file holds the rows of the first i + 1 deliveries. */
  lemma SessionStep(arrivals: seq<Arrival>, i: nat, before: seq<Line>, after: seq<Line>)
    requires i < |arrivals|
    requires DataRows(before) == Accepted(arrivals[..i])
    requires DataRows(after) == DataRows(before) + RowsFor(Arrival(arrivals[i].event, arrivals[i].now))
    ensures DataRows(after) == Accepted(arrivals[..i + 1])
  {
    assert arrivals[..i + 1] == arrivals[..i] + [arrivals[i]];
    AcceptedSnoc(arrivals[..i], arrivals[i]);
  }

  /**
   * One capture session over the reports the scanner delivered before it was
   * stopped: open the file, write the header, run the callback on each report
   * in turn. The file holds the header and then exactly the accepted rows, in
   * delivery order.
   */
  method RunSession(arrivals: seq<Arrival>) returns (lines: seq<Line>)
    ensures WellFormed(lines)
    ensures DataRows(lines) == Accepted(arrivals)
    ensures |lines| == 1 + |Accepted(arrivals)|
  {
    var log := new CsvLog.Open();
    log.WriteHeader();
    var i := 0;
    while i < |arrivals|
      invariant 0 <= i <= |arrivals|
      invariant WellFormed(log.lines)
      invariant DataRows(log.lines) == Accepted(arrivals[..i])
    {
      ghost var before := log.lines;
      var _ := log.OnAdvertisement(arrivals[i].event, arrivals[i].now);
      SessionStep(arrivals, i, before, log.lines);
      i := i + 1;
    }
    assert arrivals[..i] == arrivals;
    lines := log.lines;
    DataRowsAfterHeader(lines);
  }
}
