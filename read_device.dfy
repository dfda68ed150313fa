/** The weather-station session reader: it opens a serial port to the
    instrument, reads ASCII lines until the first line that starts with `*`,
    and collects the comma-separated `tag,value,unit` readings into a
    dictionary.

    The serial port is replaced by two inputs: whether the port opens, and
    the sequence of lines it delivers. Running out of lines stands for the
    read timeout. Exceptions become the `Err` side of a `Result`. */
module ReadDevice {
  import opened Strings

  datatype Option<T> = None | Some(value: T)

  /** The exceptions the reader lets escape, by kind. */
  datatype Fault =
    | ArgumentNull            // constructor given a null or empty port name
    | OpenFailed              // the port could not be opened
    | ReadFailed              // ReadLine timed out: no further line arrived
    | DeviceError(line: string) // the instrument sent a line containing "Error"
    | IndexOutOfRange         // a missing field, or the first character of an empty line
    | DuplicateKey(key: string) // Dictionary.Add with a key already present

  datatype Result<T> = Ok(value: T) | Err(fault: Fault)

  /** One reading: the dictionary key built from tag and unit, and the value. */
  datatype Entry = Entry(key: string, value: string)

  // ---------------------------------------------------------------------------
  // Transport settings applied when the port is opened

  datatype Handshake = HandshakeNone | XOnXOff | RequestToSend | RequestToSendXOnXOff
  datatype Parity = ParityNone | Odd | Even | Mark | Space
  datatype StopBits = StopBitsNone | One | Two | OnePointFive

  datatype PortSettings = PortSettings(
    baudRate: nat, dataBits: nat, handshake: Handshake, parity: Parity,
    readTimeout: nat, stopBits: StopBits, writeTimeout: nat)

  /** The fixed settings the instrument needs: 9600 baud, 8N1, RTS handshake,
      500 ms read timeout, 50 ms write timeout. */
  const InstrumentSettings := PortSettings(9600, 8, RequestToSend, ParityNone, 500, One, 50)

  /** What the reader knows of the serial port object: its name, the
      settings applied to it (`None` until OpenSerialPort sets them) and
      whether it is open. */
  datatype SerialPort = SerialPort(portName: string, settings: Option<PortSettings>, isOpen: bool)

  // ---------------------------------------------------------------------------
  // The line protocol

  const StatusMarker := "Running"
  const FaultMarker := "Error"
  const Terminator := '*'
  const Separator := ','

  /** `string.IsNullOrEmpty`, with `None` for null. */
  predicate IsNullOrEmpty(s: Option<string>)
  {
    s.None? || s.value == ""
  }

  /** What a data line contributes: nothing, an entry, or an exception. */
  datatype LineEffect = NoEntry | NewEntry(entry: Entry) | Abort(fault: Fault)

  /** Build the key and value from the comma fields of a data line. The
      unit field is read before the value field, so a line with a tag and
      fewer than three fields fails on the unit. An empty unit gives the
      key `tag + "-"`; a non-empty unit is dropped from the key. */
  function FieldsEntry(fields: seq<string>): LineEffect
    requires |fields| > 0
  {
    if fields[0] == "" then NoEntry
    else if |fields| < 3 then Abort(IndexOutOfRange)
    else
      var tagAndUnits := if fields[2] == "" then fields[0] + "-" + fields[2] else fields[0];
      var valueReturned := if fields[1] == "" then "" else fields[1];
      NewEntry(Entry(tagAndUnits, valueReturned))
  }

  /** Split a data line on commas and build its reading. */
  function DataLine(line: string): LineEffect
  {
    FieldsEntry(Split(line, Separator))
  }

  /** The keys present in a dictionary given as its entries in insertion order. */
  function Keys(d: seq<Entry>): set<string>
  {
    set e | e in d :: e.key
  }

  /** No key occurs twice: what `Dictionary.Add` maintains. */
  ghost predicate DistinctKeys(d: seq<Entry>)
  {
    forall i, j :: 0 <= i < j < |d| ==> d[i].key != d[j].key
  }

  /** Classify one line and add its entry to the dictionary `d`: a status
      line is skipped, a fault line raises, any other line is a data line. */
  function LineStep(line: string, d: seq<Entry>): Result<seq<Entry>>
  {
    if Contains(line, StatusMarker) then Ok(d)
    else if Contains(line, FaultMarker) then Err(DeviceError(line))
    else match DataLine(line)
      case NoEntry => Ok(d)
      case Abort(f) => Err(f)
      case NewEntry(e) => if e.key in Keys(d) then Err(DuplicateKey(e.key)) else Ok(d + [e])
  }

  /** Where the loop stands after one iteration. */
  datatype Status = Continue(entries: seq<Entry>) | Done(result: Result<seq<Entry>>)

  /** One iteration of the do-while loop: classify the line, then test its
      first character for the terminator (an empty line fails there). */
  function Step(line: string, d: seq<Entry>): Status
  {
    match LineStep(line, d)
    case Err(f) => Done(Err(f))
    case Ok(d') =>
      if |line| == 0 then Done(Err(IndexOutOfRange))
      else if line[0] == Terminator then Done(Ok(d'))
      else Continue(d')
  }

  /** The outcome of reading `lines` with the dictionary `d` collected so far. */
  function Session(lines: seq<string>, d: seq<Entry>): Result<seq<Entry>>
    decreases |lines|
  {
    if lines == [] then Err(ReadFailed)
    else match Step(lines[0], d)
      case Done(r) => r
      case Continue(d') => Session(lines[1..], d')
  }

  /** The outcome of one call to ReadSerialPort. */
  function ReadResult(portAvailable: bool, lines: seq<string>): Result<seq<Entry>>
  {
    if !portAvailable then Err(OpenFailed) else Session(lines, [])
  }

  /** The dictionary as a map from key to value. */
  function ToDictionary(d: seq<Entry>): map<string, string>
  {
    if d == [] then map[] else ToDictionary(d[..|d| - 1])[d[|d| - 1].key := d[|d| - 1].value]
  }

  // ---------------------------------------------------------------------------
  // The reader object

  class WeatherStationReadDevice {
    var serialPort: Option<SerialPort>
    var serialPortName: string

    ghost predicate Valid()
      reads this
    {
      serialPortName != ""
    }

    constructor (portName: string)
      requires portName != ""
      ensures Valid()
      ensures serialPortName == portName && serialPort == None
    {
      serialPortName := portName;
      serialPort := None;
    }

    /** `new WeatherStationReadDevice(portName)`: a null or empty name
        raises; any other name is stored and no port is opened. */
    static method Create(portName: Option<string>) returns (r: Result<WeatherStationReadDevice>)
      ensures r.Err? <==> IsNullOrEmpty(portName)
      ensures r.Err? ==> r.fault == ArgumentNull
      ensures r.Ok? ==> fresh(r.value) && r.value.Valid()
      ensures r.Ok? ==> r.value.serialPortName == portName.value && r.value.serialPort == None
    {
      if IsNullOrEmpty(portName) {
        return Err(ArgumentNull);
      }
      var device := new WeatherStationReadDevice(portName.value);
      r := Ok(device);
    }

    /** Apply the instrument settings, then open the port; `portAvailable`
        says whether the operating system grants it. */
    method OpenSerialPort(portAvailable: bool) returns (ok: bool)
      requires serialPort.Some?
      modifies this
      ensures serialPortName == old(serialPortName)
      ensures serialPort == Some(old(serialPort).value.(settings := Some(InstrumentSettings), isOpen := portAvailable))
      ensures ok == portAvailable
    {
      var port := serialPort.value.(settings := Some(InstrumentSettings));
      serialPort := Some(port.(isOpen := portAvailable));
      ok := portAvailable;
    }

    /** Close the port if it is open. */
    method ClosePort()
      requires serialPort.Some?
      modifies this
      ensures serialPortName == old(serialPortName)
      ensures serialPort == Some(old(serialPort).value.(isOpen := false))
    {
      if serialPort.value.isOpen {
        serialPort := Some(serialPort.value.(isOpen := false));
      }
    }

    /** Read one session from a fresh port. Every exit closes the port. */
    method ReadSerialPort(portAvailable: bool, lines: seq<string>) returns (r: Result<seq<Entry>>)
      requires Valid()
      modifies this
      ensures Valid() && serialPortName == old(serialPortName)
      ensures serialPort == Some(SerialPort(serialPortName, Some(InstrumentSettings), false))
      // Convenience: this follows from the next clause and ReadResult's first branch.
      ensures !portAvailable ==> r == Err(OpenFailed)
      ensures r == ReadResult(portAvailable, lines)
    {
      var dictionary: seq<Entry> := [];
      serialPort := Some(SerialPort(serialPortName, None, false));
      var ok := OpenSerialPort(portAvailable);
      if !ok {
        ClosePort();
        return Err(OpenFailed);
      }
      var i := 0;
      while true
        invariant 0 <= i <= |lines|
        invariant Session(lines, []) == Session(lines[i..], dictionary)
        invariant Valid() && serialPortName == old(serialPortName)
        invariant serialPort == Some(SerialPort(serialPortName, Some(InstrumentSettings), true))
        decreases |lines| - i
      {
        if i == |lines| {
          ClosePort();
          return Err(ReadFailed);
        }
        var buffer := lines[i];
        assert lines[i..][0] == buffer && lines[i..][1..] == lines[i + 1..];
        i := i + 1;
        if !Contains(buffer, StatusMarker) {
          if Contains(buffer, FaultMarker) {
            ClosePort();
            return Err(DeviceError(buffer));
          }
          match DataLine(buffer)
          case NoEntry =>
          case Abort(f) =>
            ClosePort();
            return Err(f);
          case NewEntry(e) =>
            if e.key in Keys(dictionary) {
              ClosePort();
              return Err(DuplicateKey(e.key));
            }
            dictionary := dictionary + [e];
        }
        if |buffer| == 0 {
          ClosePort();
          return Err(IndexOutOfRange);
        }
        if buffer[0] == Terminator {
          break;
        }
      }
      ClosePort();
      r := Ok(dictionary);
    }
  }
}
