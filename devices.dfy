/**
  Device discovery (device_helpers/devices.go): the device ID of each USB serial
  number, the tty each serial number is attached to, the USB devices listed by
  lsusb, and the join of the three keyed by serial number.

  The JSON decoding of the mapping list, the shell commands that produce the
  tty and lsusb text, and the two lsusb regular expressions are not modelled:
  the mappings arrive decoded, the command output arrives as text, and each
  regular expression is a matcher function giving its capture group.
 */
module Devices {
  import opened Wrappers
  import opened GoStrings

  /** One entry of the mapping list: a device ID and its USB serial number. */
  datatype DeviceMapping = DeviceMapping(deviceId: string, serialNo: string)

  /** One discovered device: serial number, device ID and the serial port it is attached to. */
  datatype DeviceInfo = DeviceInfo(serialNo: string, deviceId: string, serialPort: string)

  /** A USB device record read from lsusb: at most an "iSerial" and an "iProduct" entry. */
  type Record = map<string, string>

  const SerialKey := "iSerial"
  const ProductKey := "iProduct"
  const ProductMark := "STM32"

  // ---------------------------------------------------------------------------
  // Maps built by assignment

  /** The map left by `m[k] = v` for each pair, in order, starting from an empty map. */
  function Assign(pairs: seq<(string, string)>): map<string, string>
    decreases |pairs|
  {
    if pairs == [] then map[]
    else
      var last := pairs[|pairs| - 1];
      Assign(pairs[..|pairs| - 1])[last.0 := last.1]
  }

  /** The keys are exactly the keys assigned, and each key holds the value of its last assignment. */
  lemma {:induction false} AssignLastWins(pairs: seq<(string, string)>)
    ensures forall k :: k in Assign(pairs) <==> exists i :: 0 <= i < |pairs| && pairs[i].0 == k
    ensures forall i :: 0 <= i < |pairs| && (forall j :: i < j < |pairs| ==> pairs[j].0 != pairs[i].0)
                        ==> Assign(pairs)[pairs[i].0] == pairs[i].1
  {
    AssignKeys(pairs);
    AssignLastValue(pairs);
  }

  /** The keys of the map are exactly the keys assigned. */
  lemma {:induction false} AssignKeys(pairs: seq<(string, string)>)
    ensures forall k :: k in Assign(pairs) <==> exists i :: 0 <= i < |pairs| && pairs[i].0 == k
    decreases |pairs|
  {
    if pairs != [] {
      var init := pairs[..|pairs| - 1];
      AssignKeys(init);
      forall k | k in Assign(pairs) ensures exists i :: 0 <= i < |pairs| && pairs[i].0 == k {
        if k != pairs[|pairs| - 1].0 {
          assert k in Assign(init);
          var i :| 0 <= i < |init| && init[i].0 == k;
          assert pairs[i] == init[i];
        }
      }
    }
  }

  /** A key holds the value of its last assignment. */
  lemma {:induction false} AssignLastValue(pairs: seq<(string, string)>)
    ensures forall i :: 0 <= i < |pairs| && (forall j :: i < j < |pairs| ==> pairs[j].0 != pairs[i].0)
                        ==> pairs[i].0 in Assign(pairs) && Assign(pairs)[pairs[i].0] == pairs[i].1
    decreases |pairs|
  {
    if pairs != [] {
      var init := pairs[..|pairs| - 1];
      AssignLastValue(init);
      forall i | 0 <= i < |pairs| && (forall j :: i < j < |pairs| ==> pairs[j].0 != pairs[i].0)
        ensures pairs[i].0 in Assign(pairs) && Assign(pairs)[pairs[i].0] == pairs[i].1
      {
        if i < |pairs| - 1 {
          assert pairs[i] == init[i];
          assert forall j :: i < j < |init| ==> init[j] == pairs[j];
        }
      }
    }
  }

  /** `parseDeviceMappings`: serial number to device ID, for the decoded mapping list. */
  function ParseDeviceMappings(mappings: seq<DeviceMapping>): map<string, string>
  {
    Assign(seq(|mappings|, i requires 0 <= i < |mappings| => (mappings[i].serialNo, mappings[i].deviceId)))
  }

  /**
    Every listed serial number is a key and nothing else is; when a serial
    number is listed more than once, its last entry's device ID wins.
   */
  lemma ParseDeviceMappingsLastWins(mappings: seq<DeviceMapping>)
    ensures var r := ParseDeviceMappings(mappings);
            && (forall s :: s in r <==> exists i :: 0 <= i < |mappings| && mappings[i].serialNo == s)
            && (forall i :: 0 <= i < |mappings| && (forall j :: i < j < |mappings| ==> mappings[j].serialNo != mappings[i].serialNo)
                            ==> r[mappings[i].serialNo] == mappings[i].deviceId)
  {
    var pairs := seq(|mappings|, i requires 0 <= i < |mappings| => (mappings[i].serialNo, mappings[i].deviceId));
    AssignLastWins(pairs);
    forall s | s in ParseDeviceMappings(mappings) ensures exists i :: 0 <= i < |mappings| && mappings[i].serialNo == s {
      var i :| 0 <= i < |pairs| && pairs[i].0 == s;
      assert mappings[i].serialNo == s;
    }
    forall s | exists i :: 0 <= i < |mappings| && mappings[i].serialNo == s ensures s in ParseDeviceMappings(mappings) {
      var i :| 0 <= i < |mappings| && mappings[i].serialNo == s;
      assert pairs[i].0 == s;
    }
    forall i | 0 <= i < |mappings| && (forall j :: i < j < |mappings| ==> mappings[j].serialNo != mappings[i].serialNo)
      ensures ParseDeviceMappings(mappings)[mappings[i].serialNo] == mappings[i].deviceId
    {
      assert forall j :: i < j < |pairs| ==> pairs[j].0 == mappings[j].serialNo;
      assert pairs[i] == (mappings[i].serialNo, mappings[i].deviceId);
    }
  }

  // ---------------------------------------------------------------------------
  // tty output

  /** The pairs of the lines that split on ':' into exactly two parts. */
  function TtyPairs(lines: seq<string>): seq<(string, string)>
    decreases |lines|
  {
    if lines == [] then []
    else
      var parts := Split(lines[0], ':');
      (if |parts| == 2 then [(parts[0], parts[1])] else []) + TtyPairs(lines[1..])
  }

  /** The line parsing of `getTTYMappings`: serial number to tty path, line by line. */
  function TtyMappings(output: string): map<string, string>
  {
    Assign(TtyPairs(Split(output, '\n')))
  }

  /** A pair is kept exactly when some line splits on ':' into it and nothing more. */
  lemma {:induction false} TtyKeepsTwoPartLines(lines: seq<string>)
    ensures forall k, v :: (k, v) in TtyPairs(lines) <==> exists i :: 0 <= i < |lines| && Split(lines[i], ':') == [k, v]
    decreases |lines|
  {
    if lines != [] {
      TtyKeepsTwoPartLines(lines[1..]);
      forall k, v ensures (k, v) in TtyPairs(lines) <==> exists i :: 0 <= i < |lines| && Split(lines[i], ':') == [k, v] {
        if exists i :: 0 <= i < |lines| && Split(lines[i], ':') == [k, v] {
          var i :| 0 <= i < |lines| && Split(lines[i], ':') == [k, v];
          if i > 0 {
            assert lines[1..][i - 1] == lines[i];
          }
        }
        if (k, v) in TtyPairs(lines[1..]) {
          var i :| 0 <= i < |lines| - 1 && Split(lines[1..][i], ':') == [k, v];
          assert lines[i + 1] == lines[1..][i];
        }
      }
    }
  }

  // ---------------------------------------------------------------------------
  // lsusb output

  predicate IsBusLine(line: string)
  {
    HasPrefix(line, "Bus ")
  }

  /**
    One line's contribution to the current record: its iSerial capture, and its
    iProduct capture when that contains "STM32".
   */
  function Note(rec: Record, line: string, serialOf: string -> Option<string>, productOf: string -> Option<string>): Record
  {
    var withSerial := if serialOf(line).Some? then rec[SerialKey := serialOf(line).value] else rec;
    if productOf(line).Some? && Contains(productOf(line).value, ProductMark)
    then withSerial[ProductKey := productOf(line).value]
    else withSerial
  }

  /** The current record if it is non-empty. */
  function Emit(rec: Record): seq<Record>
  {
    if |rec| > 0 then [rec] else []
  }

  /**
    The records `getUSBDevices` emits for the remaining lines, given the record
    being built: a "Bus " line emits the current record and starts a new one;
    the last record is emitted at the end; empty records never are.
   */
  function Scan(lines: seq<string>, current: Record, serialOf: string -> Option<string>, productOf: string -> Option<string>): seq<Record>
    decreases |lines|
  {
    if lines == [] then Emit(current)
    else if IsBusLine(lines[0]) then Emit(current) + Scan(lines[1..], Note(map[], lines[0], serialOf, productOf), serialOf, productOf)
    else Scan(lines[1..], Note(current, lines[0], serialOf, productOf), serialOf, productOf)
  }

  /** A record of the shape `getUSBDevices` builds: only iSerial and iProduct, and an iProduct naming an STM32. */
  predicate WellFormed(rec: Record)
  {
    && rec.Keys <= {SerialKey, ProductKey}
    && (ProductKey in rec ==> Contains(rec[ProductKey], ProductMark))
  }

  /** Every emitted record is non-empty and well formed. */
  lemma {:induction false} ScanRecords(lines: seq<string>, current: Record, serialOf: string -> Option<string>, productOf: string -> Option<string>)
    requires WellFormed(current)
    ensures forall r :: r in Scan(lines, current, serialOf, productOf) ==> |r| > 0 && WellFormed(r)
    decreases |lines|
  {
    if lines != [] {
      if IsBusLine(lines[0]) {
        ScanRecords(lines[1..], Note(map[], lines[0], serialOf, productOf), serialOf, productOf);
      } else {
        ScanRecords(lines[1..], Note(current, lines[0], serialOf, productOf), serialOf, productOf);
      }
    }
  }

  /** A record never spans a "Bus " line: the lines before it and the lines from it on are scanned independently. */
  lemma {:induction false} ScanSplitsAtBus(a: seq<string>, b: seq<string>, current: Record, serialOf: string -> Option<string>, productOf: string -> Option<string>)
    requires b != [] && IsBusLine(b[0])
    ensures Scan(a + b, current, serialOf, productOf) == Scan(a, current, serialOf, productOf) + Scan(b, map[], serialOf, productOf)
    decreases |a|
  {
    if a == [] {
      assert a + b == b;
      assert Emit(map[]) == [];
    } else {
      assert (a + b)[1..] == a[1..] + b;
      if IsBusLine(a[0]) {
        var next := Note(map[], a[0], serialOf, productOf);
        ScanSplitsAtBus(a[1..], b, next, serialOf, productOf);
        Associative(Emit(current), Scan(a[1..], next, serialOf, productOf), Scan(b, map[], serialOf, productOf));
      } else {
        ScanSplitsAtBus(a[1..], b, Note(current, a[0], serialOf, productOf), serialOf, productOf);
      }
    }
  }

  /** `getUSBDevices` on the lsusb text. */
  function UsbDevices(output: string, serialOf: string -> Option<string>, productOf: string -> Option<string>): seq<Record>
  {
    Scan(Split(output, '\n'), map[], serialOf, productOf)
  }

  /** `getUSBDevices`: the line loop threading the record being built. */
  method GetUsbDevices(output: string, serialOf: string -> Option<string>, productOf: string -> Option<string>)
    returns (devices: seq<Record>)
    ensures devices == UsbDevices(output, serialOf, productOf)
    ensures forall r :: r in devices ==> |r| > 0 && WellFormed(r)
  {
    ScanRecords(Split(output, '\n'), map[], serialOf, productOf);
    var lines := Split(output, '\n');
    devices := [];
    var current: Record := map[];
    for i := 0 to |lines|
      invariant devices + Scan(lines[i..], current, serialOf, productOf) == UsbDevices(output, serialOf, productOf)
    {
      var line := lines[i];
      assert lines[i..][1..] == lines[i + 1..];
      if IsBusLine(line) {
        Associative(devices, Emit(current), Scan(lines[i + 1..], Note(map[], line, serialOf, productOf), serialOf, productOf));
        if |current| > 0 {
          devices := devices + [current];
        }
        current := map[];
      }
      current := Note(current, line, serialOf, productOf);
    }
    assert lines[|lines|..] == [];
    if |current| > 0 {
      devices := devices + [current];
    }
  }

  // ---------------------------------------------------------------------------
  // The join

  /** The entry a USB device contributes to the join: one when its iSerial is a key of both maps. */
  function Joined(deviceIds: map<string, string>, ttys: map<string, string>, device: Record): seq<DeviceInfo>
  {
    if SerialKey in device && device[SerialKey] in deviceIds && device[SerialKey] in ttys
    then [DeviceInfo(device[SerialKey], deviceIds[device[SerialKey]], ttys[device[SerialKey]])]
    else []
  }

  /** `combineInfo`: the entries of the USB devices, in USB order. */
  function CombineInfo(deviceIds: map<string, string>, ttys: map<string, string>, usb: seq<Record>): seq<DeviceInfo>
    decreases |usb|
  {
    if usb == [] then [] else Joined(deviceIds, ttys, usb[0]) + CombineInfo(deviceIds, ttys, usb[1..])
  }

  /**
    An entry is in the join exactly when some USB device has an iSerial that is
    a key of both maps, and the entry is that serial with its device ID and tty.
   */
  lemma {:induction false} CombineInfoMembers(deviceIds: map<string, string>, ttys: map<string, string>, usb: seq<Record>)
    ensures forall info :: info in CombineInfo(deviceIds, ttys, usb) <==>
              exists i :: 0 <= i < |usb| && SerialKey in usb[i] && usb[i][SerialKey] in deviceIds && usb[i][SerialKey] in ttys
                          && info == DeviceInfo(usb[i][SerialKey], deviceIds[usb[i][SerialKey]], ttys[usb[i][SerialKey]])
    decreases |usb|
  {
    if usb != [] {
      CombineInfoMembers(deviceIds, ttys, usb[1..]);
      forall info ensures info in CombineInfo(deviceIds, ttys, usb) <==>
              exists i :: 0 <= i < |usb| && SerialKey in usb[i] && usb[i][SerialKey] in deviceIds && usb[i][SerialKey] in ttys
                          && info == DeviceInfo(usb[i][SerialKey], deviceIds[usb[i][SerialKey]], ttys[usb[i][SerialKey]])
      {
        if info in CombineInfo(deviceIds, ttys, usb[1..]) {
          var i :| 0 <= i < |usb| - 1 && SerialKey in usb[1..][i] && usb[1..][i][SerialKey] in deviceIds && usb[1..][i][SerialKey] in ttys
                   && info == DeviceInfo(usb[1..][i][SerialKey], deviceIds[usb[1..][i][SerialKey]], ttys[usb[1..][i][SerialKey]]);
          assert usb[i + 1] == usb[1..][i];
        }
        if exists i :: 0 <= i < |usb| && SerialKey in usb[i] && usb[i][SerialKey] in deviceIds && usb[i][SerialKey] in ttys
                       && info == DeviceInfo(usb[i][SerialKey], deviceIds[usb[i][SerialKey]], ttys[usb[i][SerialKey]]) {
          var i :| 0 <= i < |usb| && SerialKey in usb[i] && usb[i][SerialKey] in deviceIds && usb[i][SerialKey] in ttys
                   && info == DeviceInfo(usb[i][SerialKey], deviceIds[usb[i][SerialKey]], ttys[usb[i][SerialKey]]);
          if i > 0 {
            assert usb[1..][i - 1] == usb[i];
          }
        }
      }
    }
  }

  /** The join keeps USB order: joining two device lists one after the other is joining their concatenation. */
  lemma {:induction false} CombineInfoAppend(deviceIds: map<string, string>, ttys: map<string, string>, u: seq<Record>, v: seq<Record>)
    ensures CombineInfo(deviceIds, ttys, u + v) == CombineInfo(deviceIds, ttys, u) + CombineInfo(deviceIds, ttys, v)
    decreases |u|
  {
    if u == [] {
      assert u + v == v;
    } else {
      assert (u + v)[1..] == u[1..] + v;
      CombineInfoAppend(deviceIds, ttys, u[1..], v);
      Associative(Joined(deviceIds, ttys, u[0]), CombineInfo(deviceIds, ttys, u[1..]), CombineInfo(deviceIds, ttys, v));
    }
  }

  /** At most one entry per USB device. */
  lemma {:induction false} CombineInfoBound(deviceIds: map<string, string>, ttys: map<string, string>, usb: seq<Record>)
    ensures |CombineInfo(deviceIds, ttys, usb)| <= |usb|
    decreases |usb|
  {
    if usb != [] {
      CombineInfoBound(deviceIds, ttys, usb[1..]);
    }
  }
}
