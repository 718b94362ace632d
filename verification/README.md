# demand-cli core, modelled in Dafny

This project models two separate parts of the demand-cli repository.

The first is the TCP latency proxy `add_latency.py`:
- the `host:port` and route parsers of its command line;
- the three default routes;
- the delay queue inside `forward`. A reader appends each chunk it reads, stamped with its arrival time and a release time one one-way delay later. A writer sends each chunk once its release time has come, records the delay, and prints a statistics line every `window_report` chunks.

The second is a set of small state machines from the mining proxy (Rust):
- the version-rolling mask choice, the `AbortOnDrop` handle list and the `UserId` display (`src/shared/utils.rs`);
- the translator's task table, keyed by connection id (`src/translator/downstream/task_manager.rs`);
- the two share monitors: one sends shares in batches of 20, the other sends whatever is pending (`src/shares_monitor.rs`, `src/monitor/shares.rs`);
- configuration resolution with the precedence command line > file > environment > default, the log-level checks, the environment name, and the first half of `parse_hashrate` (`src/config.rs`).

Modules:

- `Wrappers`: `Option` and `Result`.
- `Text`: strings and characters.
  - Decimal digits and the decimal text of integers.
  - Python's and Rust's whitespace sets, and trimming with either.
  - First and last separator splits, character counts, and ASCII lower-casing.
- `PyNumbers`: Python's `int()` and `float()` on text.
  - A float is a real number, an infinity or NaN; binary64 rounding is not modelled.
- `Routes`: `_parse_hostport`, `_parse_route`, and the routes that `parse_args` settles on.
- `Forward`: `forward` as the class `Forwarder`.
  - State: the queue, the `done` flag, the written payloads, the delay list and the statistics lines printed.
  - Time is an abstract integer clock that only moves forward.
  - Reader passes, writer passes and clock ticks are interleaved as single atomic steps.
  - `Valid()` holds the delivery invariant: the written payloads followed by the queued ones are exactly the chunks read.
- `Utils`: `sv1_rolling` on `bv32`, the class `AbortOnDrop` (a sequence of task ids), and `UserId`'s display.
- `TaskManagement`: the class `TaskManager`.
  - It holds the task channel as a sequence of `(Option<u32>, Task)` messages, the `tasks` map and the take-once `abort` handle.
  - Aborting a task is recorded as its task id in a log of abort calls.
- `Shares`: one class `SharesMonitor` for both monitors. They differ only in their flush policy: `AtLeast(20)` or `AnyPending`.
- `Config`: `load_config` as a function of the parsed command line, the parsed file (absent when missing or unreadable) and the environment map, plus the read-back helpers.

## Model

| member | source | states |
|---|---|---|
| Routes.ParseHostPort | add_latency.py:18-35 | A refusal is `invalid address` or `port out of range`. The range check only happens without brackets, and an unbracketed success has 0 < port < 65536. |
| Routes.HostPortSplitsAtLastColon | add_latency.py:28-35 | An accepted unbracketed address has its host equal to everything before the last ':'. Its port is `int()` of the text after it, which holds no ':'. |
| Routes.HostPortInBrackets | add_latency.py:20-27 | An accepted bracketed address has its host equal to the text up to the first ']', which must be followed by ':' and an integer. |
| Routes.HostPortRoundTrip | add_latency.py:28-35 | `host + ":" + str(port)` parses back to `(host, port)` for every 0 < port < 65536, even when the host holds ':'. The host must not start with '['. |
| Routes.NoColonNoAddress | add_latency.py:18-32 | Text with no ':' is refused as an invalid address, bracketed or not. |
| Routes.SeparatorInPortRefused | add_latency.py:18-35 | A port text starting with one of U+001C to U+001F makes the address invalid on both the bracketed and the unbracketed path. |
| Routes.NonIntegerPortRefused | add_latency.py:28-32 | Without brackets, a last field that `int()` refuses makes the address invalid. |
| Routes.PortRangeChecked | add_latency.py:33-34 | Without brackets, port 0 and ports of 65536 and above are refused as out of range, for every port `int()` reads (at most 4300 digits). |
| Routes.InRangePortParses | add_latency.py:30 | A port below 65536 takes at most five digits, so `int()` reads its text back as the port. |
| Routes.OverlongPortRefused | add_latency.py:28-32 | Without brackets, a port of more than 4300 digits makes the address invalid: `int()` refuses it before any range check. |
| Routes.OverlongBracketedPortRefused | add_latency.py:20-27 | In brackets, a port of more than 4300 digits makes the address invalid. |
| Routes.UnclosedBracketRefused | add_latency.py:20-27 | In brackets, text with no ']' is refused. |
| Routes.BracketWithoutColonRefused | add_latency.py:20-27 | In brackets, a first ']' that is not followed by ':' is refused. |
| Routes.BracketRoundTrip | add_latency.py:20-25 | `"[" + host + "]:" + str(port)` parses to `(host, port)` for every natural port of at most 4300 digits, with no range check. |
| Routes.BracketedZeroAccepted | add_latency.py:20-25 | `[::1]:0` is accepted with port 0. |
| Routes.UnbracketedZeroRefused | add_latency.py:33-34 | `127.0.0.1:0` is refused as out of range. |
| Routes.RouteFieldsNeedTwoCommas | add_latency.py:39-44 | A route has its three fields exactly when it holds at least two commas. |
| Routes.RouteFieldsOf | add_latency.py:40 | The fields are cut at the first two commas and each is stripped. The third field keeps any further commas. |
| Routes.ParseRoute | add_latency.py:37-53 | An accepted route never has a negative latency. |
| Routes.AcceptedRoute | add_latency.py:37-53 | An accepted route has a latency that `float()` reads and that is not negative. Its endpoints are exactly `_parse_hostport` of the second and third fields. |
| Routes.NegativeLatencyIff | add_latency.py:45-50 | `latency must be >= 0` is raised exactly when the fields exist and the latency parses to a negative float, whatever the addresses hold. |
| Routes.MalformedRouteIff | add_latency.py:39-44 | The "route must be ..." error is raised exactly when the argument has fewer than two commas. |
| Routes.RouteRoundTrip | add_latency.py:37-53 | A latency text and two in-range addresses, written as a route, parse back to that route. |
| Routes.ParseAll | add_latency.py:77-84 | An accepted list has one route per argument. |
| Routes.ParseAllRoutes | add_latency.py:77-84 | Repeated `--route` arguments are accepted exactly when each one is. The routes then keep the order given. |
| Routes.ParseArgsRoutes | add_latency.py:99-102 | When some `--route` was given, those routes are used. |
| Routes.DefaultRoutes | add_latency.py:55-102 | With no `--route`, the routes are three 0.25 s routes on 127.0.0.1, in order: 20000 to 19000, 21000 to 18000, and 22000 to 17000. |
| Routes.EachDefaultRoute | add_latency.py:56-60 | Each default route text parses to its 0.25 s loopback route. |
| PyNumbers.ParseInt | add_latency.py:24-30 | `int()` only accepts text of at most 4300 decimal digits once stripped. It strips only the whitespace `int()` skips: C `isspace` plus non-ASCII Unicode whitespace, not U+001C to U+001F. |
| PyNumbers.SeparatorNotSkipped | add_latency.py:24-30 | U+001C to U+001F are whitespace for `str.strip()` but not for `int()`; a number text starting with one is refused. |
| PyNumbers.ParseIntOfDigits | add_latency.py:24-30 | A run of plain digits reads as the number it spells when it has at most 4300 digits, and is refused when it has more. |
| PyNumbers.ParseIntOfNatString | add_latency.py:30 | `int(str(n)) == n` for every natural n of at most 4300 digits. A longer `str(n)` is refused. |
| PyNumbers.ParseIntNeedsDigit | add_latency.py:30 | Text without a decimal digit is never an integer. |
| PyNumbers.ParseFloat | add_latency.py:46 | Text that is empty once stripped is never a float. |
| PyNumbers.ParseFloatOfDecimal | add_latency.py:46 | `float(w + "." + f)` on digit strings is the decimal fraction they spell. |
| PyNumbers.QuarterSecond | add_latency.py:57 | "0.250" reads as 0.25. |
| PyNumbers.NanIsNotNegative | add_latency.py:46-50 | "nan" is a float and is not negative, so the latency check lets it through. |
| Forward.P95Index | add_latency.py:144 | The p95 position of a window of n samples is floor(95n/100), and it lies inside a non-empty window. |
| Forward.ReportsAreWindows | add_latency.py:140-144 | `Reports` prints a line after each appended delay when reporting is on and the count is a multiple of window_report. So with reporting on, n delays give exactly n / window_report lines, and line k covers the k-th block of window_report delays. With reporting off there are none. |
| Forward.QueueOrdered | add_latency.py:115-120 | Queued chunks are in arrival order, each released one-way after its arrival, none later than now. |
| Forward.Forwarder.constructor | add_latency.py:106-110 | Starts with an empty queue, no delays, nothing written, `done` unset and the invariant holding. |
| Forward.Forwarder.Tick | add_latency.py:115 | Time moves forward and nothing else changes. The invariant is kept. |
| Forward.Forwarder.Read | add_latency.py:112-120 | An empty read sets `done`. Any other read appends `(now, now + one_way, data)` to the queue and to what was received. |
| Forward.Forwarder.Write | add_latency.py:122-145 | On an empty queue, the writer returns (trying `write_eof`, whose failure is ignored) exactly when `done` is set, and yields otherwise. A head that is not yet due is waited for. A due head is popped, written, and its delay `now - arrival` recorded. |
| Forward.Forwarder.Send | add_latency.py:132-145 | Pops the due head, appends its payload to the output and its delay to the delay list, and keeps the statistics lines equal to the windows. |
| Forward.Forwarder.SendDue | add_latency.py:123-140 | The writer loop at a fixed time sends the due chunks in queue order. It stops at the first chunk not yet due. The payloads are written in that order, and each sent chunk's delay, now minus its arrival, is recorded in that order. |
| Forward.DeliveryGuarantees | add_latency.py:106-147 | Every recorded delay is at least one-way. The output is a prefix of the chunks read, in order. Once the writer has returned or EOF was passed on, everything read has been written. |
| Utils.Sv1Rolling | src/shared/utils.rs:48-63 | The mask granted has no bit outside 0x1FFFE000, that is, only bits 13 to 28. It is 0 when none was asked for. The minimum bit count is passed through, with 0 when absent. |
| Utils.GrantedBits | src/shared/utils.rs:55-58 | The mask granted holds only bits that were asked for, and every allowed bit that was asked for. |
| Utils.RollingMaskIdempotent | src/shared/utils.rs:55-58 | Asking again for the granted mask grants it unchanged. |
| Utils.AbortOnDrop.constructor | src/shared/utils.rs:13-16 | Holds exactly the one handle given. |
| Utils.AbortOnDrop.IsFinished | src/shared/utils.rs:18-25 | True exactly when every held task has finished, so true with no handle. |
| Utils.AbortOnDrop.AddTask | src/shared/utils.rs:27-29 | Appends one handle and keeps the others in order. |
| Utils.AbortOnDrop.Drop | src/shared/utils.rs:32-38 | Aborts every held task, in order. |
| Utils.UserIdText | src/shared/utils.rs:65-71 | The display starts with '-' exactly for negative ids and reads back as the id. |
| TaskManagement.Aborter | src/translator/downstream/task_manager.rs:151-161 | Converting a task gives the handle it wraps: putting that handle back into the same kind of task gives the task back. |
| TaskManagement.Filed | src/translator/downstream/task_manager.rs:35-40 | Filing a handle under a key appends it to that key's list, which starts empty if the key was missing. Every other key keeps its list. |
| TaskManagement.FiledAllLists | src/translator/downstream/task_manager.rs:34-45 | After the receive loop, each key's list is its old list followed by the handles sent for that key, in the order sent. |
| TaskManagement.FiledAllKeys | src/translator/downstream/task_manager.rs:34-45 | After the receive loop, a key has an entry exactly when it had one before or a message was sent for it. |
| TaskManagement.TaskManager.Initialize | src/translator/downstream/task_manager.rs:25-56 | Starts with an empty table, an empty channel and the receiving task's own handle stored. |
| TaskManagement.TaskManager.GetAborter | src/translator/downstream/task_manager.rs:58-60 | Returns the stored handle and leaves `None`, so later calls get `None`. |
| TaskManagement.TaskManager.AddReceiveDownstream | src/translator/downstream/task_manager.rs:62-72 | Sends the task under `Some(connection_id)`. |
| TaskManagement.TaskManager.AddUpdate | src/translator/downstream/task_manager.rs:73-83 | Sends the task under `Some(connection_id)`. |
| TaskManagement.TaskManager.AddNotify | src/translator/downstream/task_manager.rs:84-94 | Sends the task under `Some(connection_id)`. |
| TaskManagement.TaskManager.AddSendDownstream | src/translator/downstream/task_manager.rs:95-105 | Sends the task under `Some(connection_id)`. |
| TaskManagement.TaskManager.AddAcceptConnection | src/translator/downstream/task_manager.rs:106-115 | Sends the task under `None`. |
| TaskManagement.TaskManager.AddSharesMonitor | src/translator/downstream/task_manager.rs:117-126 | Sends the task under `None`. |
| TaskManagement.TaskManager.ReceiveOne | src/translator/downstream/task_manager.rs:34-40 | Takes the oldest message and files its handle under its key. The channel invariant is kept: a connection id is present exactly for per-connection tasks. |
| TaskManagement.TaskManager.ReceiveAll | src/translator/downstream/task_manager.rs:34-45 | Drains the channel, leaving the table with every message filed in order. |
| TaskManagement.TaskManager.AbortTasksForConnectionId | src/translator/downstream/task_manager.rs:129-147 | Removes exactly the entry `Some(id)` and aborts its handles in order. Every other entry, `None` included, is kept, and a missing id changes nothing. |
| Shares.ReasonText | src/shares_monitor.rs:181-189 | Each rejection reason displays as a non-empty fixed text. |
| Shares.ReasonTextsDistinct | src/monitor/shares.rs:120-128 | The four reasons display as four different texts. |
| Shares.MonitoringServerUrl | src/shares_monitor.rs:15-24 | The URL is one of the four server base URLs followed by `/api/share/save`. |
| Shares.ShareUrlForConfiguration | src/shares_monitor.rs:15-24 | The configured environment always matches one of the four cases, never "testnet3". Shares go to `<server>/api/share/save` of the staging, local or production server. |
| Shares.SharesMonitor.Batched | src/shares_monitor.rs:62-67 | Starts empty, with the batch threshold of 20. |
| Shares.SharesMonitor.Flushing | src/monitor/shares.rs:46-50 | Starts empty, with no threshold. |
| Shares.SharesMonitor.InsertShare | src/shares_monitor.rs:70-79 | Appends the share and keeps earlier shares unchanged. |
| Shares.SharesMonitor.GetPendingShares | src/shares_monitor.rs:82-90 | Returns the pending list and changes nothing. |
| Shares.SharesMonitor.ClearPendingShares | src/shares_monitor.rs:93-102 | Empties the pending list. |
| Shares.SharesMonitor.Tick | src/shares_monitor.rs:105-134 | Sends the pending list exactly when it is non-empty and meets the threshold: 20 here, none for the other monitor at src/monitor/shares.rs:88-109. The list is then cleared whatever the send returned; otherwise it is unchanged. Afterwards fewer than a batch is pending, or nothing for the flushing monitor. No share is lost or sent twice. |
| Config.ParseU64 | src/config.rs:221-231 | Accepted text is an optional '+' followed by decimal digits only: no sign other than '+', no whitespace. |
| Config.ParseU64OfText | src/config.rs:221-231 | The decimal text of a 64-bit value, read back from the environment, gives the value. |
| Config.SplitHashrate | src/config.rs:322-329 | Refuses exactly the input that is empty after trimming. Otherwise the unit is the last character and the number is the trimmed text before it. |
| Config.ParseHashrate | src/config.rs:322-351 | Blank text, and only blank text, gives the empty-hashrate error. A success is the number-and-unit parse of the trimmed text without its last character, and that character. |
| Config.SplitHashrateAsWritten | src/config.rs:328-329 | The byte slice panics exactly when the trimmed text is non-empty and one byte before its end is not a character boundary. Otherwise it agrees with `SplitHashrate`. |
| Config.LastByteBoundary | src/config.rs:329 | One byte before the end is a character boundary exactly when the last character is ASCII. |
| Config.NonAsciiUnitPanics | src/config.rs:328-329 | "1µ" makes the slice panic, where a split by characters gives number "1" and unit 'µ'. |
| Config.LogLevel | src/config.rs:143-154 | Returns the configured text, in its own case, when it names a level in any case. Otherwise returns "info". |
| Config.LogLevelIsValid | src/config.rs:143-154 | The result always names a level, and applying `loglevel` to it again returns it unchanged. |
| Config.LogLevelKeepsCase | src/config.rs:144-145 | "DEBUG" is accepted and returned as "DEBUG". |
| Config.NcLogLevel | src/config.rs:156-167 | Always returns a level name. It returns the configured text exactly when that text is a level name, in lower case. |
| Config.NcLogLevelIsCaseSensitive | src/config.rs:157-158 | "DEBUG" gives "off". |
| Config.Environment | src/config.rs:183-191 | "staging" exactly when staging is set. "local" exactly when local is set and staging is not. "production" exactly when neither is set. |
| Config.FirstSet | src/config.rs:221-225 | The first of command line, file and environment that is set, else the default. |
| Config.ValuePrecedence | src/config.rs:221-286 | Interval, delay, API port, log level and noise log level follow command line > file > environment > default. The defaults are 120000, 0, "3001", "info" and "off". An unparseable environment number counts as unset. |
| Config.LoadConfig | src/config.rs:210-265 | A token, TP address or listening address given on the command line is taken as given. |
| Config.OptionalPrecedence | src/config.rs:210-265 | When the command line leaves the token, TP address or listening address unset, the file's value is taken. When the file leaves it unset too, the environment variable is taken if set (TOKEN, TP_ADDRESS, and DOWNSTREAM_HASHRATE for the listening address); otherwise it stays unset. |
| Config.HashratePrecedence | src/config.rs:233-259 | The hashrate is the first that parses of: command line, the file's text through `parse_hashrate`, the environment. Otherwise it is the default hashpower. |
| Config.SwitchResolution | src/config.rs:288-300 | sv1_log, staging, local and monitor are on exactly when some source turns them on. auto_update is off exactly when the file says false, the flag is off and AUTO_UPDATE is unset. |
| Config.MissingFileIsEmpty | src/config.rs:204-208 | A missing or unparseable file resolves like an empty `ConfigFile`. |
| Config.Defaults | src/config.rs:202-318 | With no input at all, every setting takes its default and auto_update is on. |

## Left out

- Floating point.
  - Latencies and hashrates are exact reals; binary64 and f32 rounding are not modelled, nor is a large literal such as "1e400" overflowing to infinity.
  - `Forward.P95Index` is the exact floor of 95n/100, not `int(0.95 * n)` in binary64.
  - The mean and p95 values of a statistics line are left out; a line records only its window and its index.
- Python's `int()` and `float()` are modelled on ASCII digits only. Non-ASCII Unicode digits, which Python also accepts, are not modelled. The whitespace they skip around the number is modelled for all of Unicode (`Text.Numeric`).
- `PyNumbers.ParseInt`: the digit limit is fixed at 4300, the default of `sys.get_int_max_str_digits()` since Python 3.11. A limit changed with `sys.set_int_max_str_digits` or `PYTHONINTMAXSTRDIGITS`, and older interpreters without the limit, are not modelled.
- `Routes.ParseHostPort`: Python runs with assertions on. Under `python -O` the assert at add_latency.py:23 is skipped; `[::1]80` would then parse with port `int("0") == 0`, where the model refuses it.
- Time and concurrency.
  - `time.perf_counter` is an integer clock passed to `Forwarder.Tick`.
  - The asyncio tasks are interleaved as single atomic steps, and `drain()` back-pressure is left out.
  - The socket connection plumbing (`handle_connection`, `serve_route`, the main loop and the argparse help text) is I/O and is left out.
- `Forward.Forwarder.SendDue`: the writer sends the head once `asyncio.sleep(delay)` returns, without reading the clock again (add_latency.py:135-136). asyncio may wake a timer up to its clock resolution early, so in the source a recorded delay can fall short of the one-way delay by that much; the model's exact integer clock does not capture this.
- `Forward.Forwarder.Read`: the reader's `read(read_chunk)` result is an argument; the model only requires it to be at most `read_chunk` bytes.
- `Forward.DeliveryGuarantees`: the one-way delay is a finite, non-negative number of clock units, so the bound "every delay is at least one-way" covers finite latencies only. The route parser also accepts "nan" and "inf" (`PyNumbers.NanIsNotNegative`), which the forwarder does not model. With nan, `release` is nan and `delay > 0` is false (add_latency.py:119, 133-134), so every chunk is sent at once. With inf, `asyncio.sleep(inf)` never returns (add_latency.py:135) and nothing is written.
- `Forward.Forwarder.Write`: exceptions from `source.read`, `dest.write` and `dest.drain` (add_latency.py:114, 138-139) are not modelled; the only error step is the ignored `write_eof` failure. In the source, a failing read ends the reader without setting `done`, so the writer never returns once the queue is empty and EOF is never passed on. A failing write or drain ends the writer with the popped chunk unrecorded and the rest still queued. The guarantees of `Forward.DeliveryGuarantees` hold for runs without such exceptions.
- `Routes.DefaultRoutes`: the three default route texts are built as "0.250," + "127.0.0.1:" + port + "," + "127.0.0.1:" + port (`DefaultRouteText`). They are not given as the literal strings of the source.
- The task channel's capacity of 10, its back-pressure, and the `Err(())` returned by `add_*` once the receiver is gone are left out. Channel sends always succeed here.
- The final keep-alive loop of the receiving task is left out.
- Mutex poisoning: every `safe_lock` error branch (log, `ProxyState` update, empty result) is left out.
- A share inserted while a monitor tick runs lands between the copy and the clear in the source and is lost. The model's tick is atomic, so it cannot show this.
- The 60-second interval and the skipped first tick of both monitors are left out.
- The HTTP side is left out: `send_shares`, the token lookup and the `MonitorAPI` URL parse. The send result only picks a log line.
- `ShareInfo::new` reads the system clock; the timestamp is a field supplied by the caller.
- The server base URLs (`STAGING_URL` and the others) are defined outside the core; they are a `ServerUrls` parameter.
- Config inputs are taken already read.
  - Reading the command line, the `config.toml` file and the environment is I/O: the model takes the parsed arguments, the parsed file (None when missing or not valid TOML) and the environment map.
  - `std::env::var` failing on non-Unicode values is left out.
- `Config.LoadConfig`: the file's hashrate text goes through the corrected split (`Config.SplitHashrate`), so "1µ" is passed over like any unreadable hashrate. In the source, `parse_hashrate` panics on that text (src/config.rs:239 calling src/config.rs:329), and so does the command-line value of `-d`, which clap hands to the same function (src/config.rs:21). `Config.HashratePrecedence` therefore describes the intended resolution; the panic is shown by `Config.NonAsciiUnitPanics` (see Findings).
- `Config.HashratePrecedence`: states the resolution with the corrected split, so for a file or command-line hashrate such as "1µ" it promises the next source or the default, where the source panics (src/config.rs:329).
- The float half of `parse_hashrate` (f32 parse, `HashUnit` lookup, multiplication, infinity/NaN check) and the f32 parse of the DOWNSTREAM_HASHRATE variable are function parameters (`HashrateParsers`).
- `DEFAULT_SV1_HASHPOWER` is a parameter.
- `Config.LogLevel`: Rust's `to_lowercase` is modelled as ASCII lower-casing. It matches Unicode lower-casing when deciding whether the text is a level name, except that the Kelvin sign (U+212A) lower-cases to 'k' and is not modelled. No level name contains a 'k', so the result is the same.
- The remaining files are out of scope:
  - accept_connection, receive_from_downstream and intermediate_downstream: task orchestration over types not shown;
  - monitor/logs.rs, worker_activity.rs and error.rs: logging and HTTP wrappers;
  - `parse_address` and `fetch_pool_urls` in src/config.rs: network I/O.

## Findings

| source | as written | input that shows it | evidently intended | confidence | as-written member | corrected member |
|---|---|---|---|---|---|---|
| src/config.rs:328-329 | The unit is the last character, but the number is `hashrate_str[..len() - 1]`, where `len()` counts bytes. When the last character takes more than one byte, that slice ends inside the character and panics. | `"1µ"` (for example `downstream_hashrate = "1µ"` in the config file) | Take the text before the last character, as the unit does, and let the unit lookup refuse 'µ' with an error | high for the panic, not executed | Config.SplitHashrateAsWritten | Config.SplitHashrate |
