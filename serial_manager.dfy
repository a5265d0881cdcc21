/**
 * The port engine: the serial monitor protocol that frames the bytes read
 * from the device into lines and writes queued messages to it, and the steps
 * of the engine's main loop that move messages from the port's record to the
 * monitor and remove the record when the engine ends.
 */
module SerialManager {
  import opened Wrappers
  import opened Bytes
  import opened Framing
  import opened Utf8
  import opened Extensions
  import SerialHandlers

  /** Message of the error event sent when the engine fails for an unexpected reason. */
  const UnexpectedErrorMessage := "An unexpected error occurred."

  /** One `serial_data_recv` event to the room of `port` per line, in order. */
  function DataEvents(port: string, lines: seq<seq<byte>>): seq<Event>
  {
    seq(|lines|, i requires 0 <= i < |lines| => DataRecv(port, lines[i]))
  }

  lemma DataEventsSnoc(port: string, lines: seq<seq<byte>>, line: seq<byte>)
    ensures DataEvents(port, lines + [line]) == DataEvents(port, lines) + [DataRecv(port, line)]
  {
  }

  /** The bytes written to the device for each message, in order. */
  function EncodeAll(messages: seq<string>): seq<seq<byte>>
  {
    seq(|messages|, i requires 0 <= i < |messages| => Encode(messages[i]))
  }

  /**
   * Moving the oldest message of a queue, encoded, to the back of the queue
   * that precedes it keeps the order of all pending messages.
   */
  lemma MoveFirstKeepsOrder(ahead: seq<seq<byte>>, messages: seq<string>)
    requires messages != []
    ensures (ahead + [Encode(messages[0])]) + EncodeAll(messages[1..]) == ahead + EncodeAll(messages)
  {
    assert EncodeAll(messages) == [Encode(messages[0])] + EncodeAll(messages[1..]);
  }

  class SerialMonitor {
    /** The port this monitor reads and writes. */
    const port: string
    /** The bytes after the last line terminator seen so far. */
    var buffer: seq<byte>
    /** Encoded messages waiting for the writer, oldest first. */
    var sendQueue: seq<seq<byte>>
    /** Every write made to the device, oldest first. */
    var written: seq<seq<byte>>

    /** Every byte received from the device. */
    ghost var received: seq<byte>
    /** Every line sent to the port's room. */
    ghost var delivered: seq<seq<byte>>

    /**
     * The framer's invariant: the lines delivered so far are exactly the
     * lines of everything received, and the buffer is its unterminated tail.
     */
    ghost predicate Valid()
      reads this
    {
      delivered == Lines(received) && buffer == Tail(received)
    }

    constructor (port: string)
      ensures this.port == port && Valid()
      ensures buffer == [] && sendQueue == [] && written == []
      ensures received == [] && delivered == []
    {
      this.port := port;
      buffer := [];
      sendQueue := [];
      written := [];
      received := [];
      delivered := [];
    }

    /**
     * The device delivered `chunk`.  Line endings in the buffer are
     * normalised to LF; each segment before an LF is split off, and the
     * non-empty ones are sent to the port's room as lines, in order.  The
     * `segments` are all the split-off pieces, empty ones included.
     */
    method DataReceived(chunk: seq<byte>, srv: Server) returns (lines: seq<seq<byte>>, ghost segments: seq<seq<byte>>)
      requires Valid()
      modifies this`buffer, this`received, this`delivered, srv`events
      ensures Valid()
      ensures received == old(received) + chunk && delivered == old(delivered) + lines
      ensures lines == Lines(old(buffer) + chunk) && buffer == Tail(old(buffer) + chunk)
      ensures WellFramed(lines) && Unterminated(buffer)
      ensures Normalize(old(buffer) + chunk) == Joined(segments) + buffer
      ensures lines == NonEmpty(segments)
      ensures srv.events == old(srv.events) + DataEvents(port, lines)
    {
      ghost var data := buffer + chunk;
      buffer := buffer + chunk;
      buffer := ReplaceCRLF(buffer);
      buffer := ReplaceCR(buffer);
      ghost var norm := buffer;
      SplittingStart(data);

      lines, segments := [], [];
      while LF in buffer
        invariant Splitting(norm, segments, lines, buffer)
        invariant srv.events == old(srv.events) + DataEvents(port, lines)
        invariant received == old(received) && delivered == old(delivered)
        decreases |buffer|
      {
        var (line, rest) := SplitOnce(buffer);
        SplittingStep(norm, segments, lines, buffer);
        segments := segments + [line];
        buffer := rest;
        if line != [] {
          DataEventsSnoc(port, lines, line);
          srv.events := srv.events + [DataRecv(port, line)];
          lines := lines + [line];
        } else {
          assert lines + Emit(line) == lines;
        }
      }

      SplittingDone(norm, segments, lines, buffer);
      NormalizePreservesFraming(data);
      LinesWellFramed(data);
      LinesAppend(received, chunk);
      received := received + chunk;
      delivered := delivered + lines;
    }

    /** The writer: every queued message is written to the device, in queue order. */
    method WriteData()
      modifies this`sendQueue, this`written
      ensures sendQueue == [] && written == old(written) + old(sendQueue)
    {
      while sendQueue != []
        invariant written + sendQueue == old(written) + old(sendQueue)
        decreases |sendQueue|
      {
        var message := sendQueue[0];
        assert sendQueue == [message] + sendQueue[1..];
        sendQueue := sendQueue[1..];
        written := written + [message];
      }
    }
  }

  /**
   * One pass of the engine's main loop for `monitor.port`: while the port has
   * a record, the oldest message of its queue, if any, is encoded and put at
   * the back of the monitor's queue.  `running` says whether the record is
   * still there.  The messages not yet written, in the monitor's queue and
   * then in the record's queue, keep their order.
   */
  method RelayStep(srv: Server, monitor: SerialMonitor) returns (running: bool)
    requires srv.Valid()
    modifies srv`connectedSerials, monitor`sendQueue
    ensures srv.Valid() && (old(srv.Tracked()) ==> srv.Tracked())
    ensures running <==> monitor.port in old(srv.connectedSerials)
    ensures running && old(srv.connectedSerials)[monitor.port].sendData != [] ==>
      var s := old(srv.connectedSerials)[monitor.port];
      srv.connectedSerials == old(srv.connectedSerials)[monitor.port := s.(sendData := s.sendData[1..])] &&
      monitor.sendQueue == old(monitor.sendQueue) + [Encode(s.sendData[0])]
    ensures !running || old(srv.connectedSerials)[monitor.port].sendData == [] ==>
      srv.connectedSerials == old(srv.connectedSerials) && monitor.sendQueue == old(monitor.sendQueue)
    ensures running ==>
      monitor.sendQueue + EncodeAll(srv.connectedSerials[monitor.port].sendData) ==
      old(monitor.sendQueue) + EncodeAll(old(srv.connectedSerials)[monitor.port].sendData)
  {
    var port := monitor.port;
    running := port in srv.connectedSerials;
    if running && srv.connectedSerials[port].sendData != [] {
      var s := srv.connectedSerials[port];
      var dataToSend := s.sendData[0];
      SetQueueKeepsInvariants(srv.connectedSerials, srv.rooms, port, s.sendData[1..]);
      srv.connectedSerials := srv.connectedSerials[port := s.(sendData := s.sendData[1..])];
      MoveFirstKeepsOrder(monitor.sendQueue, s.sendData);
      monitor.sendQueue := monitor.sendQueue + [Encode(dataToSend)];
    } else if running {
      assert EncodeAll([]) == [];
    }
  }

  /**
   * The position in `started` of the latest engine start for `port`, if it
   * was ever started.  An engine is known by the position of its start.
   */
  function LatestStart(started: seq<(string, int)>, port: string): (r: Option<nat>)
    ensures r.None? <==> forall j :: 0 <= j < |started| ==> started[j].0 != port
    ensures r.Some? ==>
      r.value < |started| && started[r.value].0 == port &&
      forall j :: r.value < j < |started| ==> started[j].0 != port
  {
    if started == [] then None
    else if started[|started| - 1].0 == port then Some(|started| - 1)
    else LatestStart(started[..|started| - 1], port)
  }

  /**
   * `RelayStep` for the engine started at position `engine` of `srv.started`,
   * which also stops once a later engine has been started for its port: only
   * the port's latest engine relays its record's messages.
   */
  method RelayStepOwned(srv: Server, monitor: SerialMonitor, engine: nat) returns (running: bool)
    requires srv.Valid()
    modifies srv`connectedSerials, monitor`sendQueue
    ensures srv.Valid() && (old(srv.Tracked()) ==> srv.Tracked())
    ensures running <==>
      monitor.port in old(srv.connectedSerials) && LatestStart(srv.started, monitor.port) == Some(engine)
    ensures running ==> forall j :: engine < j < |srv.started| ==> srv.started[j].0 != monitor.port
    ensures running && old(srv.connectedSerials)[monitor.port].sendData != [] ==>
      var s := old(srv.connectedSerials)[monitor.port];
      srv.connectedSerials == old(srv.connectedSerials)[monitor.port := s.(sendData := s.sendData[1..])] &&
      monitor.sendQueue == old(monitor.sendQueue) + [Encode(s.sendData[0])]
    ensures !running || old(srv.connectedSerials)[monitor.port].sendData == [] ==>
      srv.connectedSerials == old(srv.connectedSerials) && monitor.sendQueue == old(monitor.sendQueue)
  {
    if LatestStart(srv.started, monitor.port) == Some(engine) {
      running := RelayStep(srv, monitor);
    } else {
      running := false;
    }
  }

  /** How the engine's main loop ended. */
  datatype ExitReason =
    | Shutdown                     // the port's record disappeared
    | SerialFailure(reason: string)  // the device could not be opened or failed
    | Unexpected                   // any other error

  /** The error event, if any, that an engine ending for `reason` sends to the room of `port`. */
  function ExitEvents(port: string, reason: ExitReason): (r: seq<Event>)
    ensures reason.Shutdown? <==> r == []
    ensures |r| <= 1
    ensures r != [] ==> r[0].SerialError? && r[0].room == port && r[0].port == port
  {
    match reason
    case Shutdown => []
    case SerialFailure(message) => [SerialError(port, port, message)]
    case Unexpected => [SerialError(port, port, UnexpectedErrorMessage)]
  }

  /**
   * The engine for `port` ends: an error ending is reported once to the
   * port's room, then the port's record is removed if it is still there.
   * Removing an absent record changes nothing, so ending twice is harmless.
   */
  method EngineExit(srv: Server, port: string, reason: ExitReason)
    requires srv.Valid()
    modifies srv`connectedSerials, srv`events
    ensures srv.Valid()
    ensures port !in srv.connectedSerials
    ensures srv.connectedSerials == old(srv.connectedSerials) - {port}
    ensures port !in old(srv.connectedSerials) ==> srv.connectedSerials == old(srv.connectedSerials)
    ensures srv.events == old(srv.events) + ExitEvents(port, reason)
    ensures old(srv.Tracked()) ==> (srv.Tracked() <==> srv.Members(port) == {})
  {
    srv.events := srv.events + ExitEvents(port, reason);
    if port in srv.connectedSerials {
      srv.connectedSerials := srv.connectedSerials - {port};
    }
    if old(srv.Tracked()) && srv.Members(port) != {} {
      ghost var m :| m in srv.Members(port);
      assert m in srv.rooms && srv.rooms[m] != m && srv.rooms[m] !in srv.connectedSerials;
    }
  }

  /**
   * `EngineExit` for the engine started at position `engine` of
   * `srv.started`, which removes the port's record only when it is that
   * engine's own: an engine whose port was restarted leaves the new record
   * alone.
   */
  method EngineExitOwned(srv: Server, port: string, engine: nat, reason: ExitReason)
    requires srv.Valid()
    modifies srv`connectedSerials, srv`events
    ensures srv.Valid()
    ensures srv.events == old(srv.events) + ExitEvents(port, reason)
    ensures LatestStart(srv.started, port) == Some(engine) ==>
      srv.connectedSerials == old(srv.connectedSerials) - {port}
    ensures LatestStart(srv.started, port) != Some(engine) ==>
      srv.connectedSerials == old(srv.connectedSerials)
    ensures old(srv.Tracked()) && LatestStart(srv.started, port) != Some(engine) ==> srv.Tracked()
    ensures old(srv.Tracked()) && LatestStart(srv.started, port) == Some(engine) ==>
      (srv.Tracked() <==> srv.Members(port) == {})
  {
    if LatestStart(srv.started, port) == Some(engine) {
      EngineExit(srv, port, reason);
    } else {
      srv.events := srv.events + ExitEvents(port, reason);
    }
  }

  /**
   * `EngineExit` followed by closing the port's room, so that the sessions
   * still in it no longer count toward a record created later for the same
   * port.  Subscriber counts and room membership stay in agreement.
   */
  method EngineExitClosingRoom(srv: Server, port: string, reason: ExitReason)
    requires srv.Valid()
    modifies srv`connectedSerials, srv`events, srv`rooms
    ensures srv.Valid()
    ensures srv.connectedSerials == old(srv.connectedSerials) - {port}
    ensures srv.events == old(srv.events) + ExitEvents(port, reason)
    ensures srv.Members(port) == {}
    ensures forall sid :: sid in srv.rooms <==> sid in old(srv.rooms) && old(srv.rooms)[sid] != port
    ensures forall sid :: sid in srv.rooms ==> srv.rooms[sid] == old(srv.rooms)[sid]
    ensures old(srv.Tracked()) ==> srv.Tracked()
  {
    ghost var oldRooms := srv.rooms;
    EngineExit(srv, port, reason);
    srv.rooms := map sid | sid in srv.rooms && srv.rooms[sid] != port :: srv.rooms[sid];
    if old(srv.Tracked()) {
      forall p | p in srv.connectedSerials
        ensures srv.connectedSerials[p].clients == |srv.Members(p)|
      {
        assert srv.Members(p) == MembersOf(oldRooms, p);
      }
    }
  }

  /**
   * A session left behind by a failed engine takes a later subscriber's
   * record down with it: A subscribes to X, X's engine fails, B subscribes to
   * X, A disconnects; B is still in X's room but X has no record, so B's
   * engine stops and B's messages are dropped.
   */
  method StaleSubscriberScenario() returns (bInRoom: bool, recordPresent: bool)
    ensures bInRoom && !recordPresent
  {
    var srv := new Server();
    var args := SerialHandlers.ConnectArgs(Some("X"), Some("9600"));
    var ok := SerialHandlers.OnConnect(srv, "A", args);
    EngineExit(srv, "X", SerialFailure("could not open port X"));
    ok := SerialHandlers.OnConnect(srv, "B", args);
    SerialHandlers.OnDisconnect(srv, "A");
    bInRoom := srv.PortOf("B") == Some("X");
    recordPresent := "X" in srv.connectedSerials;
  }

  /** With the room closed when the engine fails, B's record survives A's disconnect. */
  method ClosedRoomScenario() returns (bInRoom: bool, clients: int)
    ensures bInRoom && clients == 1
  {
    var srv := new Server();
    var args := SerialHandlers.ConnectArgs(Some("X"), Some("9600"));
    var ok := SerialHandlers.OnConnect(srv, "A", args);
    EngineExitClosingRoom(srv, "X", SerialFailure("could not open port X"));
    ok := SerialHandlers.OnConnect(srv, "B", args);
    SerialHandlers.OnDisconnect(srv, "A");
    bInRoom := srv.PortOf("B") == Some("X");
    clients := srv.connectedSerials["X"].clients;
  }

  /**
   * The port X restarted while its first engine is still polling: A
   * subscribes to X and X's engine starts; A disconnects, which removes the
   * record; B subscribes before that engine's next poll, so a second engine
   * is started for X; B sends "hi".  `first` and `second` are the two
   * engines' monitors.
   */
  method RestartedPort() returns (srv: Server, first: SerialMonitor, second: SerialMonitor)
    ensures fresh(srv) && fresh(first) && fresh(second) && first != second
    ensures srv.Valid()
    ensures first.port == "X" && second.port == "X" && first.sendQueue == [] && second.sendQueue == []
    ensures "X" in srv.connectedSerials && srv.connectedSerials["X"].sendData == ["hi\r\n"]
    ensures |srv.started| == 2 && srv.started[0].0 == "X" && srv.started[1].0 == "X"
  {
    srv := new Server();
    first := new SerialMonitor("X");
    second := new SerialMonitor("X");
    var args := SerialHandlers.ConnectArgs(Some("X"), Some("9600"));
    var ok := SerialHandlers.OnConnect(srv, "A", args);
    SerialHandlers.OnDisconnect(srv, "A");
    ok := SerialHandlers.OnConnect(srv, "B", args);
    assert SerialHandlers.WithTerminator("hi", "\r\n") == "hi\r\n";
    SerialHandlers.OnSerialDataSend(srv, "B", SerialHandlers.SendMessage(Some("hi"), None));
  }

  /**
   * After the restart, two engines run for X, and the first one, which should
   * have stopped when A left, still finds a record for X and relays B's
   * message to the device.
   */
  method RestartRaceScenario() returns (engines: nat, oldRunning: bool, oldQueue: seq<seq<byte>>)
    ensures engines == 2 && oldRunning
    ensures oldQueue == [Encode("hi\r\n")]
  {
    var srv, first, second := RestartedPort();
    engines := |srv.started|;
    oldRunning := RelayStep(srv, first);
    oldQueue := first.sendQueue;
  }

  /**
   * With each engine stopping once its port is restarted, and leaving a
   * record that is not its own in place when it ends, the first engine stops
   * and exits, B's record survives, and only B's engine relays B's message.
   */
  method OwnedRestartScenario() returns (oldRunning: bool, recordPresent: bool, newRunning: bool,
                                         newQueue: seq<seq<byte>>)
    ensures !oldRunning && recordPresent && newRunning
    ensures newQueue == [Encode("hi\r\n")]
  {
    var srv, first, second := RestartedPort();
    assert LatestStart(srv.started, "X") == Some(1);
    oldRunning := RelayStepOwned(srv, first, 0);
    EngineExitOwned(srv, "X", 0, Shutdown);
    recordPresent := "X" in srv.connectedSerials;
    newRunning := RelayStepOwned(srv, second, 1);
    newQueue := second.sendQueue;
  }
}
