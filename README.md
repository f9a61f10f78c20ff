# Traffic_BLE capture pipeline, modelled in Dafny

`get_traffic_sample.py` scans for Bluetooth Low Energy advertisements for a fixed time. It keeps those that carry
manufacturer data from the traffic-signal maker, company id `0x01CE`, and writes each one as a row of a CSV file.
The file starts with one header row. Every row holds the capture time, the device address, the RSSI, the manufacturer
id as `0x01CE`, the manufacturer payload as lower-case hex, and the service data as a JSON object of hex strings.

This project models that pipeline:

- `hex.dfy` (module `Hex`) models the two text formats the row uses. `ToHex` is `bytes.hex()`: two lower-case digits
  per byte. `FormatId` is the `f"0x{id:04X}"` format. Each has a decoder (`Unhex`, `HexValue`) that it is proved
  against.
- `advertisement.dfy` (module `Advertisement`) is the pure part of the detection callback. It holds the `Event` and
  `Row` records, the manufacturer-id filter (`Filter`), the service-data conversion (`ServiceHex`), the row builder
  (`BuildRow`) and their composition (`Process`).
- `traffic_log.dfy` (module `TrafficLog`) is the stateful part. The class `CsvLog` is the open file: a sequence of
  lines that `WriteHeader`, `WriteRow` and the callback `OnAdvertisement` extend. `RunSession` is one capture run over
  the reports the scanner delivered. `Accepted` is the function that says which rows a run writes.
- `sequences.dfy` (module `Sequences`) holds a generic "map each element to a short list and concatenate" function.
  Its lemmas are proved once and reused for "rows of a run" and "data rows of a file".
- `wrappers.dfy` (module `Wrappers`) holds the `Option` type that `dict.get` returns.

The manufacturer id is the fixed constant `TRAFFIC_MID` (`0x01CE`). The timestamp is the
`datetime.now().isoformat()` string read in each callback. The model takes it as an opaque input (`Arrival.now`).

## Model

| member | source | states |
|---|---|---|
| `Hex.ByteHex` | get_traffic_sample.py:34 | one byte becomes two lower-case hex digits, high digit first, whose values give back the byte |
| `Hex.ToHex` | get_traffic_sample.py:34 | `raw_mdata` has exactly two characters per payload byte, and every character is one of `0-9a-f`; an empty payload gives `""` |
| `Hex.Unhex` | get_traffic_sample.py:34 | the decoder used as the partner of `ToHex` succeeds exactly on even-length strings of hex digits, giving half as many bytes |
| `Hex.UnhexHex` | get_traffic_sample.py:34 | decoding the hex text of any payload gives back exactly that payload |
| `Hex.HexUnhex` | get_traffic_sample.py:34 | the converse: lower-case hex text that decodes to some bytes is exactly the hex text of those bytes |
| `Hex.HexInjective` | get_traffic_sample.py:34 | two payloads with the same hex text are equal, so the encoding loses nothing |
| `Hex.UpperHexDigits` | get_traffic_sample.py:42 | the `X` conversion writes at least one digit, all from `0-9A-F` |
| `Hex.HexValueOfDigits` | get_traffic_sample.py:42 | the upper-case digits written for `n` denote `n` |
| `Hex.ZeroPad` | get_traffic_sample.py:42 | the `04` width: the result has length max(4, digits), ends with the digits unchanged, and is `0` before them |
| `Hex.HexValueZeroPad` | get_traffic_sample.py:42 | padding with zeros does not change the number the digits denote |
| `Hex.DigitsBound` | get_traffic_sample.py:42 | a number below 16^k needs at most k digits, so no 16-bit id is wider than four |
| `Hex.FormatId` | get_traffic_sample.py:42 | the id text starts with `0x` and is at least six characters long (the `04` width never gives fewer than four digits) |
| `Hex.FormatIdShape` | get_traffic_sample.py:42 | for every 16-bit id the text is `0x` and exactly four upper-case hex digits that denote the id |
| `Advertisement.TrafficIdText` | get_traffic_sample.py:42 | the id text written for `TRAFFIC_MID` is `"0x01CE"` |
| `Advertisement.Filter` | get_traffic_sample.py:29-31 | there is no match exactly when the id is absent from the manufacturer-data map; otherwise the match is the payload stored under the id |
| `Advertisement.ServiceHex` | get_traffic_sample.py:35 | the service-data map keeps exactly the same UUID keys (so an empty map gives an empty map); each value is twice as long as its bytes and uses only the digits `0-9a-f` |
| `Advertisement.ServiceHexDecodes` | get_traffic_sample.py:35 | every value of the converted map decodes back to the bytes of the same UUID |
| `Advertisement.ServiceHexInjective` | get_traffic_sample.py:35 | two service-data maps with the same converted map are equal |
| `Advertisement.BuildRow` | get_traffic_sample.py:38-45 | the row keeps the given time, the address and the RSSI unchanged; its id is the `TRAFFIC_MID` text; `raw_mdata` is lower-case hex of twice the payload length that decodes to the payload; the service map has the event's keys, and each value is lower-case hex that decodes to that UUID's bytes |
| `Advertisement.BuildRowId` | get_traffic_sample.py:42 | every row built has the id `"0x01CE"` |
| `Advertisement.PayloadHexExample` | get_traffic_sample.py:34 | the payload `12 34` is written as `"1234"` |
| `Advertisement.Process` | get_traffic_sample.py:29-45 | the callback's pure part gives no row exactly when `0x01CE` is absent, and otherwise gives the row built from the `0x01CE` payload |
| `Advertisement.ProcessAcceptExample` | get_traffic_sample.py:29-45 | a report with `{0x01CE: 12 34}` and no service data gives id `"0x01CE"`, `raw_mdata` `"1234"` and an empty service map |
| `Advertisement.ProcessRejectExample` | get_traffic_sample.py:29-31 | a report that carries only another maker's data gives no row |
| `TrafficLog.DataRows` | get_traffic_sample.py:22-46 | a file never has more data rows than lines |
| `TrafficLog.DataRowsAfterHeader` | get_traffic_sample.py:24 | in a file that starts with the header and has only data lines after it, the data rows are exactly the lines after the header, in order |
| `TrafficLog.RowsFor` | get_traffic_sample.py:26-46 | one callback writes at most one row; it writes none exactly when `0x01CE` is absent, and otherwise the row built from that payload |
| `TrafficLog.RowsForId` | get_traffic_sample.py:42 | any row one callback writes comes from a report that had `0x01CE`, is the row built from it, and carries `"0x01CE"` |
| `TrafficLog.Accepted` | get_traffic_sample.py:26-46 | a run never writes more rows than it received reports |
| `TrafficLog.AcceptedAppend` | get_traffic_sample.py:38-46 | the rows for two runs of reports back to back are the rows of the first run followed by those of the second, so rows keep callback order |
| `TrafficLog.AcceptedSnoc` | get_traffic_sample.py:38-46 | one more report adds its rows, and only those, at the end |
| `TrafficLog.AcceptedIds` | get_traffic_sample.py:29-45 | every row of a run carries the id `"0x01CE"` and is the row built from some report of the run that had `0x01CE` |
| `TrafficLog.AcceptedNone` | get_traffic_sample.py:29-31 | reports that all lack `0x01CE` write no rows |
| `TrafficLog.AcceptedAll` | get_traffic_sample.py:38-46 | when every report carries `0x01CE` there is one row per report, the i-th row built from the i-th report (repeated broadcasts are not deduplicated) |
| `TrafficLog.CsvLog.Open` | get_traffic_sample.py:22 | opening the file for writing leaves it empty |
| `TrafficLog.CsvLog.WriteHeader` | get_traffic_sample.py:12-24 | appends one header line holding the six field names in order `timestamp, address, rssi, manufacturer_id, raw_mdata, service_data`; on an empty file the result is well formed with no data rows |
| `TrafficLog.CsvLog.WriteRow` | get_traffic_sample.py:38-46 | appends one data line at the end, adds exactly that row to the data rows, and keeps a well-formed file well formed |
| `TrafficLog.CsvLog.OnAdvertisement` | get_traffic_sample.py:26-46 | writes exactly when `0x01CE` is present; then one row built from the report is appended and all earlier lines are unchanged; otherwise the file is unchanged; a well-formed file stays well formed |
| `TrafficLog.SessionStep` | get_traffic_sample.py:26-46 | after the callback for report i the file's data rows are those of the first i + 1 reports |
| `TrafficLog.RunSession` | get_traffic_sample.py:22-54 | after a run, the file is the header followed only by data rows, and those rows are exactly the accepted rows of the delivered reports, in delivery order |

## Left out

- BLE scanning (`BleakScanner`, `start`, `stop`, `register_detection_callback`) belongs to a foreign library and the platform Bluetooth stack. The reports it delivers are an input sequence of `RunSession`.
- The `asyncio` scheduling and the `asyncio.sleep(scan_duration)` timer are concurrency and timing. The model takes the reports delivered before the scan stopped, one callback at a time.
- `datetime.now().isoformat()` reads the wall clock. Its value is an opaque input string, and ISO 8601 formatting is not modelled.
- Opening the file, its text encoding and `f.flush()` durability are I/O. The file is an in-memory sequence of lines. An I/O error raised by `open` or `writerow` is not modelled. The code does not catch such errors anyway.
- `csv.DictWriter`'s byte-level output (quoting, line terminators) and the string escaping of `json.dumps(..., ensure_ascii=False)` are library formatting rules. A row keeps its fields as values, and the service data stays a `map<string, string>`, so `{}` appears as the empty map.
- The console `print` messages are not modelled.
- `Hex.Unhex`: it accepts both digit cases, as `bytes.fromhex` does, but not the whitespace `bytes.fromhex` also skips. It is the partner of `ToHex`, not code from the script.
- The `__main__` entry point (`asyncio.run(run_ble_scan())`) and the default arguments `traffic_raw.csv` and `120.0` are not modelled.
