# Weather-station session reader

This project models `WeatherStationReadDevice`, the C# class that reads one
session of readings from a weather-station instrument over a serial port.
The constructor takes a port name. `ReadSerialPort` opens the port with
fixed settings and reads ASCII lines until the first line that starts with
`*`. Each line is classified as follows:

- a line containing `Running` is a status line and adds nothing;
- a line containing `Error` raises, carrying the line's text;
- any other line is a data line. It is split on `,` into tag, value and
  unit. An empty tag is skipped. Otherwise the key is `tag-` when the unit
  is empty and `tag` when it is not. The value is the second field, and the
  pair is added to a dictionary.

The serial port becomes two inputs: whether it opens, and the sequence of
lines it delivers. Running out of lines stands for the read timeout.
Exceptions become the `Err` side of a `Result`, tagged by kind:

- `ArgumentNull`
- `OpenFailed`
- `ReadFailed`
- `DeviceError(line)`
- `IndexOutOfRange`
- `DuplicateKey(key)`

Files:

- `strings.dfy` (module `Strings`) models `String.Contains` and
  `String.Split(char)` with .NET semantics. Empty fields are kept, and
  `""` splits to `[""]`. `Join` is the inverse of `Split`, and both round
  trips are proved.
- `read_device.dfy` (module `ReadDevice`) models the class
  `WeatherStationReadDevice`, with its fields `serialPort` and
  `serialPortName`. `ReadSerialPort` is a method with a loop. It is proved
  equal to the pure function `ReadResult`. That function is built from
  `Step` (one iteration of the `do … while`) and `Session` (the whole
  loop). Because `ReadResult` is a function of its inputs, the result
  depends only on whether the port opens and on the line sequence. The
  dictionary is the sequence of its entries in insertion order.
  `ToDictionary` gives its map view.
- `read_device_properties.dfy` (module `ReadDeviceProperties`) states when
  a session succeeds, using a reference definition (`Accepted`,
  `EntriesOf`, `FirstTerminator`) that is independent of the loop. It also
  proves the per-line rules as lemmas about `Session`.

Several behaviours of the code are easy to misread. The model follows the
code:

- The terminator line is classified like any other line before the `*`
  test (line 102 of the source). So `*,v,u` adds the key `*`, and a bare
  `*` fails with an index out of range at line 92 before the loop can stop.
- `Dictionary.Add` (line 100) raises on a duplicate key. It does not
  overwrite the earlier value.
- `continue` at line 80 jumps to the loop test at line 102. A `Running`
  line therefore still ends the session if it starts with `*`.
- An empty line has an empty tag, so it adds nothing. It then fails at
  `buffer[0]` in the loop test.
- The unit field `bufferArray[2]` is read before the value field
  `bufferArray[1]`. A tagged line with two fields therefore fails on the
  unit.
- The unit never appears in a key. A non-empty unit is dropped, and an
  empty unit gives `tag-`.

## Model

| member | source | states |
|---|---|---|
| ReadDevice.WeatherStationReadDevice.Create | WeatherStationWeb/WeatherStationReadDevice/WeatherStationReadDevice.cs:24-31 | construction fails with ArgumentNull exactly when the name is null or empty; otherwise the new object stores the name and has no port |
| ReadDevice.WeatherStationReadDevice.constructor | WeatherStationWeb/WeatherStationReadDevice/WeatherStationReadDevice.cs:24-31 | a non-empty name is stored and no port exists yet |
| ReadDevice.WeatherStationReadDevice.OpenSerialPort | WeatherStationWeb/WeatherStationReadDevice/WeatherStationReadDevice.cs:33-51 | the port gets the instrument settings (9600 baud, 8 data bits, RTS handshake, no parity, 500 ms read timeout, one stop bit, 50 ms write timeout) and is open exactly when the system grants it; the outcome is reported |
| ReadDevice.WeatherStationReadDevice.ClosePort | WeatherStationWeb/WeatherStationReadDevice/WeatherStationReadDevice.cs:53-59 | afterwards the port is closed and nothing else about it has changed |
| ReadDevice.WeatherStationReadDevice.ReadSerialPort | WeatherStationWeb/WeatherStationReadDevice/WeatherStationReadDevice.cs:67-109 | the loop returns exactly the outcome of the session function `ReadResult`; an open failure gives OpenFailed; on every exit the port is left configured and closed, and the name is kept |
| Strings.ContainsIff | WeatherStationWeb/WeatherStationReadDevice/WeatherStationReadDevice.cs:78 | `Contains` holds exactly when the pattern occurs at some position of the line |
| Strings.Split | WeatherStationWeb/WeatherStationReadDevice/WeatherStationReadDevice.cs:88 | a split gives one more field than there are separators, and no field holds a separator |
| Strings.SplitFirstEmpty | WeatherStationWeb/WeatherStationReadDevice/WeatherStationReadDevice.cs:88-89 | the first field is empty exactly when the line is empty or starts with a comma |
| Strings.JoinSplit | WeatherStationWeb/WeatherStationReadDevice/WeatherStationReadDevice.cs:88 | joining the fields of a split with the separator gives back the line |
| Strings.SplitJoin | WeatherStationWeb/WeatherStationReadDevice/WeatherStationReadDevice.cs:88 | splitting a join of separator-free fields gives back those fields |
| Strings.SplitPrefix | WeatherStationWeb/WeatherStationReadDevice/WeatherStationReadDevice.cs:88 | a separator-free prefix becomes part of the first field |
| ReadDeviceProperties.DataLineNoEntry | WeatherStationWeb/WeatherStationReadDevice/WeatherStationReadDevice.cs:88-89 | a data line adds nothing exactly when its tag field is empty (an empty line, or one starting with a comma) |
| ReadDeviceProperties.DataLineAbort | WeatherStationWeb/WeatherStationReadDevice/WeatherStationReadDevice.cs:88-94 | a data line raises exactly when it has a tag and fewer than three fields, and then with an index out of range |
| ReadDeviceProperties.DataLineFields | WeatherStationWeb/WeatherStationReadDevice/WeatherStationReadDevice.cs:88-98 | for `tag,value,unit[,…]` with a non-empty tag, the value is the second field and the key is `tag-` when the unit is empty, `tag` otherwise |
| ReadDeviceProperties.FieldsEntryOfThree | WeatherStationWeb/WeatherStationReadDevice/WeatherStationReadDevice.cs:92-98 | with at least three fields and a tag, the key and value are built from fields 0, 2 and 1 as above |
| ReadDeviceProperties.LineStepSpec | WeatherStationWeb/WeatherStationReadDevice/WeatherStationReadDevice.cs:78-100 | classifying a line succeeds exactly when the line raises nothing and its reading brings no duplicate key; the dictionary then grows by exactly that reading |
| ReadDeviceProperties.StepSpec | WeatherStationWeb/WeatherStationReadDevice/WeatherStationReadDevice.cs:77-102 | an iteration continues exactly when the line passes, is not a terminator and brings no duplicate key; it stops with success exactly when the same holds of a terminator line; in both cases the dictionary grows by that line's reading |
| ReadDeviceProperties.FirstTerminator | WeatherStationWeb/WeatherStationReadDevice/WeatherStationReadDevice.cs:102 | the index found is a line starting with `*` (or the end) and no earlier line starts with `*` |
| ReadDeviceProperties.SessionReaches | WeatherStationWeb/WeatherStationReadDevice/WeatherStationReadDevice.cs:75-102 | once reading gets past the first `j` lines, the session goes on from line `j` with those lines' readings added in order |
| ReadDeviceProperties.AcceptedSessionOk | WeatherStationWeb/WeatherStationReadDevice/WeatherStationReadDevice.cs:75-107 | an accepted session succeeds with the readings up to its first terminator |
| ReadDeviceProperties.SessionOkAccepted | WeatherStationWeb/WeatherStationReadDevice/WeatherStationReadDevice.cs:75-107 | a session that succeeds is accepted |
| ReadDeviceProperties.SessionOkIff | WeatherStationWeb/WeatherStationReadDevice/WeatherStationReadDevice.cs:69-107 | a session succeeds exactly when it is accepted, and then returns the readings of the lines up to and including the first terminator, in arrival order |
| ReadDeviceProperties.ReadResultOk | WeatherStationWeb/WeatherStationReadDevice/WeatherStationReadDevice.cs:67-109 | ReadSerialPort succeeds exactly when the port opens and the lines form an accepted session; the result then holds the readings up to the first terminator, in order, with distinct keys |
| ReadDeviceProperties.ToDictionaryKeys | WeatherStationWeb/WeatherStationReadDevice/WeatherStationReadDevice.cs:100 | the map view has exactly the keys of the entries |
| ReadDeviceProperties.ToDictionaryContents | WeatherStationWeb/WeatherStationReadDevice/WeatherStationReadDevice.cs:100-107 | for entries with distinct keys, the dictionary returned has one key per entry, and each key maps to its entry's value |
| ReadDeviceProperties.DistinctKeysAdd | WeatherStationWeb/WeatherStationReadDevice/WeatherStationReadDevice.cs:100 | adding an entry keeps the keys distinct exactly when its key is new |
| ReadDeviceProperties.StatusLineSkipped | WeatherStationWeb/WeatherStationReadDevice/WeatherStationReadDevice.cs:78-102 | a `Running` line raises nothing, even if it also contains `Error`, and adds nothing; the session stops successfully on it if it starts with `*`, and otherwise goes on |
| ReadDeviceProperties.FaultLineAborts | WeatherStationWeb/WeatherStationReadDevice/WeatherStationReadDevice.cs:83-86 | a line containing `Error` but not `Running` ends the session with a device error carrying exactly that line |
| ReadDeviceProperties.EmptyTagSkipped | WeatherStationWeb/WeatherStationReadDevice/WeatherStationReadDevice.cs:88-102 | a non-empty line starting with a comma adds nothing and the session goes on |
| ReadDeviceProperties.EmptyLineFails | WeatherStationWeb/WeatherStationReadDevice/WeatherStationReadDevice.cs:88-102 | an empty line ends the session with an index out of range at the terminator test |
| ReadDeviceProperties.ShortLineFails | WeatherStationWeb/WeatherStationReadDevice/WeatherStationReadDevice.cs:88-94 | a tagged data line with fewer than three fields ends the session with an index out of range |
| ReadDeviceProperties.BareTerminatorFails | WeatherStationWeb/WeatherStationReadDevice/WeatherStationReadDevice.cs:92-102 | a bare `*` line fails on its missing unit field before the loop can stop on it |
| ReadDeviceProperties.DuplicateKeyFails | WeatherStationWeb/WeatherStationReadDevice/WeatherStationReadDevice.cs:100 | a reading whose key is already in the dictionary ends the session with a duplicate-key error instead of overwriting |
| ReadDeviceProperties.DataLineAdds | WeatherStationWeb/WeatherStationReadDevice/WeatherStationReadDevice.cs:88-102 | a line `tag,value,unit` with a tag and a new key adds exactly that reading; the session stops with it if the line starts with `*` (so `*,v,u` adds the key `*`), and goes on otherwise |
| ReadDeviceProperties.LinesAfterTerminatorUnread | WeatherStationWeb/WeatherStationReadDevice/WeatherStationReadDevice.cs:75-102 | lines after the first terminator that is reached do not change the outcome |
| ReadDeviceProperties.ExhaustedLinesFail | WeatherStationWeb/WeatherStationReadDevice/WeatherStationReadDevice.cs:77 | running out of lines before a terminator is a read timeout |

## Left out

- WeatherStation/weather.py is not part of this model. It drives sensor hardware, converts units in floating point and runs an endless sampling loop.
- WeatherStationPhoneApp/WeatherStationPhoneApp/MainPage.xaml.cs is not part of this model. It only handles UI navigation events.
- The real `System.IO.Ports.SerialPort` is not modelled. The settings are kept as constants. Opening is an input that says whether the port opens. The blocking `ReadLine` and its 500 ms timeout become running out of lines.
- Exception objects are reduced to their kind plus the offending line or key. Messages, inner exceptions and the generic wrapper thrown by `OpenSerialPort` are not modelled.
- ReadDevice.WeatherStationReadDevice.ReadSerialPort returns the dictionary as its entries in insertion order. `ToDictionary` gives the `IDictionary` it stands for, and `ToDictionaryContents` relates the two.
- ReadDevice.WeatherStationReadDevice.ClosePort is never called in the source. The source closes the port with `Close()` at line 104 on success and relies on the `using` block's `Dispose` (lines 71 and 105) on every exception path. The model sends every exit through `ClosePort` to stand for those two. The end state is the same either way: the port is closed. The second close done by `Dispose` after `Close()` is not modelled. `ClosePort` requires a port object. In the source, calling it before any read would dereference null.
- Concurrency and re-entrancy (two reads on one object at once) are not modelled.
