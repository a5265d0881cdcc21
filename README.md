# Web serial monitor: port engine and subscriber registry

This project is a Dafny model of the core of a small bridge between serial devices and
Socket.IO clients. Clients subscribe to a serial port over the `/serial` namespace. The
server keeps one record per port in the process-wide `connected_serials` registry. The
record holds the first subscriber's baud rate, the engine thread handle, the subscriber
count and an outbound message queue. The first subscriber starts a port engine. The
engine frames the device's bytes into lines for the port's room and relays queued
messages to the device. The last subscriber's departure removes the record. The engine
polls for its port's record every 50 ms and stops once the record is gone. If a new
subscriber arrives before that poll, the record is re-created and a second engine is
started, while the first one keeps running (see "## Findings").

Besides `Wrappers` (the optional value) and `Bytes` (the octet type), the model has five
modules:

- `Framing` (`framing.dfy`) models the line framer of `SerialMonitor.data_received`.
  It rewrites CR LF and then lone CR to LF, then repeatedly splits the buffer at its
  first LF. Its independent reference definition, `Lines`/`Tail`, splits raw bytes at
  every CR or LF and drops empty pieces. The lemmas prove the two agree, that chunk
  boundaries do not matter, and that no byte is lost.
- `Utf8` (`utf8.dfy`) is the UTF-8 encoding applied to each outbound message before it
  is written.
- `Extensions` (`extensions.dfy`) is the shared state as a `Server` object. It holds the
  registry map, the port room each socket session has entered, a log of emitted events,
  and a log of engine starts. It also states the registry invariant and the agreement
  between subscriber counts and room membership.
- `SerialHandlers` (`serial_handlers.dfy`) models the connect, disconnect and send
  handlers. They run one at a time.
- `SerialManager` (`serial_manager.dfy`) is the `SerialMonitor` class. It holds the
  framer buffer, the writer's queue and the log of device writes. The module also has
  the engine loop's relay step and its exit clean-up.

`socketio.emit` is modelled as an append to `Server.events`.
`socketio.start_background_task` is modelled as an append to `Server.started`, which
records the port and baud rate. The device transport is modelled as the `written` log.

## Model

| member | source | states |
|---|---|---|
| `Framing.ReplaceCRLF` | serial_manager.py:27 | Rewriting CR LF to LF never lengthens the buffer. It keeps an LF in the buffer exactly when there was one. |
| `Framing.ReplaceCR` | serial_manager.py:28 | After rewriting lone CR to LF, no CR is left. Every other byte is unchanged and the length is kept. |
| `Framing.SplitOnce` | serial_manager.py:30-31 | `split(b'\n', 1)` on a buffer holding an LF gives a head and a rest. The buffer is the head, one LF, then the rest, and the head holds no LF. |
| `Framing.LinesWellFramed` | serial_manager.py:30-37 | Every line is non-empty and holds no CR or LF. The retained tail holds neither CR nor LF. |
| `Framing.NormalizePreservesFraming` | serial_manager.py:26-31 | Normalising CR LF and CR to LF changes neither the lines nor the tail. So normalise-then-split-on-LF gives the non-empty pieces of the raw input split at CR, LF or CR LF. |
| `Framing.LinesAppend` | serial_manager.py:24-37 | The lines of `a + b` are the lines of `a`, then the lines of `a`'s tail followed by `b`. The tail of `a + b` is the tail of that second part. |
| `Framing.ChunkingIndependent` | serial_manager.py:24-37 | Feeding `c1` then `c2` gives the same lines and the same final buffer as feeding `c1 + c2`. This holds also when `c1` ends in CR and `c2` starts with LF. |
| `Framing.SplitOnceFraming` | serial_manager.py:30-35 | Splitting a CR-free buffer at its first LF yields its first line, if that line is non-empty. The rest of the buffer keeps the remaining lines and the tail. |
| `Framing.SplitOffSegment` | serial_manager.py:31 | Splitting off one segment loses no byte. The split-off segments, each followed by LF, then the unsplit rest, still make up the normalised buffer. |
| `Framing.SplittingStart` | serial_manager.py:27-30 | The splitting loop starts from the whole normalised buffer, with nothing split off. |
| `Framing.SplittingStep` | serial_manager.py:30-37 | One pass of the splitting loop keeps its state consistent. |
| `Framing.SplittingDone` | serial_manager.py:30 | When no LF is left, the loop has emitted exactly the lines of the normalised buffer. It retains exactly its tail, which holds no terminator. |
| `SerialManager.SerialMonitor.constructor` | serial_manager.py:10-15 | A new monitor has an empty buffer, an empty send queue and no writes. |
| `SerialManager.SerialMonitor.DataReceived` | serial_manager.py:23-39 | The lines emitted for `chunk` are exactly `Lines(buffer + chunk)`, in order. Each is non-empty and holds no CR or LF. One `serial_data_recv` event per line goes to the port's room. The new buffer is the tail and holds neither CR nor LF. The normalised input equals the split segments, each with its LF, followed by the new buffer. Across all calls, the delivered lines equal the lines of all bytes received. |
| `SerialManager.SerialMonitor.WriteData` | serial_manager.py:46-53 | Every queued message is written once, in queue order, and the queue ends empty. |
| `SerialManager.MoveFirstKeepsOrder` | serial_manager.py:64-67 | Moving the oldest message, encoded, to the back of the queue ahead of it keeps the order of all pending messages. |
| `SerialManager.RelayStep` | serial_manager.py:64-67 | One loop pass runs only while the port has a record. It moves at most one message, from the head of the record's queue to the tail of the monitor's queue, encoded. The pending messages keep their order. The registry invariant and the count agreement are kept. |
| `SerialManager.LatestStart` | serial_handlers.py:41-45 | Finds the latest engine start for a port: it is a start for that port, and no later start is. It is absent exactly when the port's engine was never started. |
| `SerialManager.RelayStepOwned` | serial_manager.py:64-67 | Corrected loop pass: it runs only while the port has a record and the engine is the port's latest start. An engine whose port was restarted changes nothing. Otherwise it moves messages as `RelayStep` does, keeping both invariants. |
| `SerialManager.ExitEvents` | serial_manager.py:74-79 | A normal shutdown emits nothing. An error ending emits exactly one `serial_error` event for the port to the port's room. |
| `SerialManager.EngineExit` | serial_manager.py:70-83 | After the engine ends, the port has no record and the other records are unchanged. An error is reported once. Removing an absent record changes nothing, so ending twice is harmless. The count agreement is kept exactly when no session is left in the port's room. |
| `SerialManager.EngineExitClosingRoom` | serial_manager.py:80-83 | Like `EngineExit`, then it also closes the port's room. The count agreement is then always kept. |
| `SerialManager.StaleSubscriberScenario` | serial_handlers.py:50-59 | A ends up removing B's record while B is still in the port's room. A subscribes, the engine fails, B subscribes, then A disconnects. |
| `SerialManager.ClosedRoomScenario` | serial_handlers.py:50-59 | Same sequence with the room closed on failure: B's record survives A's disconnect with one subscriber. |
| `SerialManager.RestartRaceScenario` | serial_manager.py:64 | A subscribes to X and leaves, then B subscribes to X before the first engine's next poll and sends "hi". Two engines have been started for X, and the first one still runs and takes B's message for its own device writer. |
| `SerialManager.EngineExitOwned` | serial_manager.py:80-83 | Corrected exit: the error is reported as by `EngineExit`. The port's record is removed only when the ending engine is the port's latest start; an engine whose port was restarted leaves the new record, and the count agreement, untouched. |
| `SerialManager.OwnedRestartScenario` | serial_manager.py:64 | Same sequence with `RelayStepOwned` and `EngineExitOwned`: the first engine stops and exits, B's record survives, and the second engine runs and relays B's message. |
| `Utf8.EncodeChar` | serial_manager.py:67 | Each character encodes to one to four bytes. ASCII encodes to itself. Longer encodings start with a lead byte followed by continuation bytes. |
| `Utf8.Encode` | serial_manager.py:67 | The encoding of a string takes between one and four bytes per character. |
| `Utf8.EncodeAppend` | serial_manager.py:67 | Encoding a concatenation concatenates the encodings. |
| `Utf8.EncodeAscii` | serial_manager.py:67 | ASCII text is written byte for byte, unchanged. |
| `Utf8.EncodeKeepsSuffix` | serial_handlers.py:70-71 | A message that ends with its terminator is encoded as the rest of the message followed by the terminator's own encoding, so the device receives the terminator's bytes last. |
| `SerialHandlers.ParseBaudrate` | serial_handlers.py:14-17 | The baud rate of a connect request: `int()` of the argument, or 115200 when it is absent or `int()` raises. Its meaning is proved by `ParseShowInt`, `BaudrateFromDecimal`, `BaudrateFallback` and `BaudrateTooManyDigits`. |
| `SerialHandlers.ParseShowInt` | serial_handlers.py:15 | Parsing reads every integer back from its signed decimal form, provided the form has at most 4300 digits. |
| `SerialHandlers.BaudrateFromDecimal` | serial_handlers.py:15 | A decimal baud rate argument of at most 4300 digits is used as given. |
| `SerialHandlers.BaudrateFallback` | serial_handlers.py:14-17 | An empty baud rate becomes 115200. So does one containing a printable, non-space ASCII character that is not a digit, a sign or an underscore. |
| `SerialHandlers.BaudrateTooManyDigits` | serial_handlers.py:14-17 | A decimal baud rate of more than 4300 digits, which `int()` refuses, becomes 115200. |
| `SerialHandlers.WithTerminator` | serial_handlers.py:65-71 | The payload always ends with the terminator and starts with the data. It equals the data exactly when the data already ends with the terminator, so the terminator is never duplicated. Otherwise it is the data followed by the terminator. |
| `SerialHandlers.WithTerminatorIdempotent` | serial_handlers.py:70-71 | Terminating twice is the same as terminating once. |
| `SerialHandlers.OnConnect` | serial_handlers.py:12-46 | A missing or empty port is refused. The registry, the rooms and the engine starts are then unchanged, and the session has no port. Otherwise the session enters the port's room. If the port name is not the session's own id, a later lookup of the session's port gives back the requested port. An absent port gets a record with the parsed baud rate, one client, a started engine and an empty queue, and exactly one engine start is logged. A present port's count goes up by exactly one and nothing else changes; in particular no engine is started. The registry invariant is kept. The count agreement is kept unless the port name is the session's own id. |
| `SerialHandlers.OnDisconnect` | serial_handlers.py:48-61 | Afterwards the session has no port. Before that, the port is found as its room other than its own id. If the session's port has a record, its count goes down by one, and the record is removed exactly when the count reaches zero. Otherwise nothing changes. Other ports' records are never touched. The registry invariant and the count agreement are kept. |
| `SerialHandlers.OnSerialDataSend` | serial_handlers.py:63-72 | If the sender's port has a record, the terminated payload goes to the tail of its queue. `end_with` defaults to CR LF and `data` to the empty string. Otherwise nothing changes. |
| `Extensions.Server.constructor` | extensions.py:8 | The registry starts empty, with no rooms, no events and no engine starts. |
| `Extensions.Server.PortOf` | serial_handlers.py:50 | The session's first room other than its own id room, as the `next(...)` lookups at lines 50 and 64 do. Its meaning is proved through `OnConnect` (after joining a port other than its own id, the lookup gives that port back) and `OnDisconnect` (afterwards it gives none). |
| `Extensions.TrackedJoin` | serial_handlers.py:24-36 | A new session joining a port's room while that port's count goes up by one keeps counts equal to room sizes. |
| `Extensions.TrackedLeave` | serial_handlers.py:50-59 | A session leaving while its port's count goes down, with the record removed at zero, keeps counts equal to room sizes. |
| `Extensions.SetQueueKeepsInvariants` | serial_handlers.py:72 | Replacing a port's queue keeps the registry invariant and the count agreement. |

The registry invariant (`Server.Valid`) has three parts:

- no record exists for the empty port name;
- every record has at least one subscriber;
- every record's engine has been started.

The count agreement (`Server.Tracked`) has two parts:

- every record's count is the number of sessions in its room;
- every session in a port room has a record.

`OnConnect` keeps the count agreement unless the requested port name equals the
caller's own session id. The source's `next(room for room in rooms if room != sid)`
then finds no port for the session, so the count it added is never taken back.

One would expect a record to exist exactly while its subscriber count is positive. The
code also deletes the record when the engine fails with subscribers still connected
(serial_manager.py:80-83). The model follows the code.

## Findings

| source | as written | input that shows it | evidently intended | confidence | as-written member | corrected member |
|---|---|---|---|---|---|---|
| serial_manager.py:80-83 | When the engine ends, it deletes the port's record. The sessions still in the port's room stay there, and their later disconnect decrements whatever record the port has by then. | Session A connects to port X. X's engine fails, which deletes the record. Session B connects to X, creating a new record with one client. A disconnects. B's record drops to zero and is deleted while B is still connected, so B's engine stops and B's messages are dropped. | Sessions left from a failed engine no longer count against a record created later, for example because the failed port's room is closed. | medium; not executed | `SerialManager.StaleSubscriberScenario` | `SerialManager.EngineExitClosingRoom` |
| serial_manager.py:64 | The engine's only stop test is whether its port has a record, checked every 50 ms. Nothing ties the record to the engine that was started for it. | Session A connects to port X and X's engine starts. A disconnects, which removes the record. Within 50 ms, session B connects to X. The record is re-created and a second engine is started for X. The first engine still sees a record for X, so it keeps running and takes B's queued messages for its own writer. If it ends with a device error while B's record is still present, its `finally` clause deletes B's record. When it ends normally, B has already left and there is nothing to delete. (This assumes the device can be opened twice, as pyserial allows by default on POSIX. Where the second open fails, the second engine's `finally` deletes B's record instead.) | Each engine stops once the record it was started for is gone, and on the way out it removes only its own record, so a port has one running engine and B keeps its record. For example, the loop and the clean-up also check that the record's engine is itself. | low; not executed | `SerialManager.RestartRaceScenario` | `SerialManager.RelayStepOwned`, `SerialManager.EngineExitOwned` |

## Left out

- UTF-8 decoding with replacement (serial_manager.py:34) is not modelled. Lines and `serial_data_recv` payloads are kept as bytes. Decoding with replacement maps empty input to empty text and non-empty input to non-empty text, so the emptiness filter on bytes is the same as the filter on text.
- The `try`/`except` around decoding and emitting (serial_manager.py:33-39) only logs, so it is not modelled. Logging is left out throughout.
- `connection_made` (RTS/DTR), `connection_lost`, `create_serial_connection`, `asyncio.run`, the 50 ms sleep, cancelling the write task and closing the transport are left out. They are asyncio and pyserial plumbing. The engine's loop is modelled by its relay step, its writer and its exit; the scheduler decides how they interleave.
- `SerialManager.SerialMonitor.WriteData`: the source's writer waits forever for the next message. The model drains the messages queued at the time of the call; `task_done` has no observable effect here.
- The per-record `threading.Lock` and thread interleavings are left out. The handlers run one at a time, so the double-checked engine start is one test.
- The engine itself is not run from `OnConnect`. Its start is logged in `Server.started` with the port and the caller's baud rate.
- Delivery of a room's events to its member sessions is done by the Socket.IO server. The model records each event with its room.
- `SerialHandlers.ParseInt`, `SerialHandlers.ParseBaudrate`: Python's `int()` also accepts surrounding whitespace, underscores between digits and non-ASCII decimal digits. The model treats such arguments as unparseable, so they fall back to 115200. The model does include the default limit of 4300 digits, beyond which `int()` raises.
- `Utf8.Encode`: message text is limited to Unicode scalar values. A Python `str` can also hold lone surrogates, for example from a JSON `"\ud800"` escape, and `encode('utf-8', errors='ignore')` silently drops them. That dropping is not modelled.
- Messages whose `data` or `end_with` is not a string, or whose payload is not a mapping, would raise in the source. These are left out, because the model's message fields are strings.
- `OnConnect` requires a session id that has not yet entered a room, because the socket server raises one connect event per session. `OnDisconnect` also takes the session out of its rooms; in the source the socket server does this, not the handler.
- The browser page, the port listing route, the standalone client and the device simulator are not part of this model.
