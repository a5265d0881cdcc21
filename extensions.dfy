/**
 * The state shared by the socket handlers and the port engines: the
 * `connected_serials` registry, the socket server's room membership, the
 * events the server emits, and the engines it has started.
 */
module Extensions {
  import opened Wrappers
  import opened Bytes

  /** A socket session id. */
  type Sid = string

  /**
   * The registry's record of one port: the baud rate of its first subscriber,
   * whether its engine thread has been started (`serial_thread` is not
   * `None`), its subscriber count, and the outbound messages not yet taken by
   * the engine.  The thread lock is left out: calls run one at a time here.
   */
  datatype Session = Session(baudrate: int, serialThread: bool, clients: int, sendData: seq<string>)

  /** An event the server emits to every session in `room`. */
  datatype Event =
    | DataRecv(room: string, data: seq<byte>)
    | SerialError(room: string, port: string, message: string)

  /** The session ids in `rooms` whose port room is `port`. */
  ghost function MembersOf(rooms: map<Sid, string>, port: string): set<Sid> {
    set sid | sid in rooms && rooms[sid] == port && port != sid
  }

  /** A new session joining the room of `port` adds itself to that room only. */
  lemma MembersJoin(rooms: map<Sid, string>, sid: Sid, port: string, q: string)
    requires sid !in rooms && port != sid
    ensures sid !in MembersOf(rooms, q)
    ensures MembersOf(rooms[sid := port], q) ==
      if q == port then MembersOf(rooms, q) + {sid} else MembersOf(rooms, q)
  {
  }

  /** A session leaving takes itself out of every room and changes nothing else. */
  lemma MembersLeave(rooms: map<Sid, string>, sid: Sid, q: string)
    ensures MembersOf(rooms - {sid}, q) == MembersOf(rooms, q) - {sid}
  {
  }

  /**
   * Subscriber counts agree with room membership: every record counts exactly
   * the sessions in its room, and every session in a port room has a record.
   */
  ghost predicate TrackedIn(serials: map<string, Session>, rooms: map<Sid, string>) {
    (forall p :: p in serials ==> serials[p].clients == |MembersOf(rooms, p)|) &&
    (forall sid :: sid in rooms && rooms[sid] != sid ==> rooms[sid] in serials)
  }

  /** Two registries that differ at most in what they record besides the subscriber counts. */
  ghost predicate SameCounts(a: map<string, Session>, b: map<string, Session>) {
    a.Keys == b.Keys && forall p :: p in a ==> a[p].clients == b[p].clients
  }

  /** Changing queues, thread flags or baud rates keeps counts and rooms in agreement. */
  lemma TrackedSameCounts(a: map<string, Session>, b: map<string, Session>, rooms: map<Sid, string>)
    requires TrackedIn(a, rooms) && SameCounts(a, b)
    ensures TrackedIn(b, rooms)
  {
  }

  /**
   * A new session joining the room of `port` while that port's count goes up
   * by one (from zero when it had no record) keeps counts and rooms in
   * agreement.
   */
  lemma TrackedJoin(a: map<string, Session>, b: map<string, Session>, rooms: map<Sid, string>,
                    sid: Sid, port: string)
    requires TrackedIn(a, rooms) && sid !in rooms && port != sid
    requires b.Keys == a.Keys + {port}
    requires forall p :: p in a && p != port ==> b[p].clients == a[p].clients
    requires b[port].clients == (if port in a then a[port].clients else 0) + 1
    ensures TrackedIn(b, rooms[sid := port])
  {
    var rooms' := rooms[sid := port];
    forall p | p in b
      ensures b[p].clients == |MembersOf(rooms', p)|
    {
      MembersJoin(rooms, sid, port, p);
      if p == port && port !in a {
        assert forall m :: m in rooms && rooms[m] != m ==> rooms[m] != port;
        assert MembersOf(rooms, p) == {};
      }
    }
  }

  /**
   * A session of `port` leaving while that port's count goes down by one, and
   * its record is removed when the count reaches zero, keeps counts and rooms
   * in agreement; a session without a port room leaving changes no count.
   */
  lemma TrackedLeave(a: map<string, Session>, b: map<string, Session>, rooms: map<Sid, string>,
                     sid: Sid)
    requires TrackedIn(a, rooms)
    requires sid in rooms && rooms[sid] != sid ==>
      var port := rooms[sid];
      port in a &&
      (if a[port].clients == 1 then b.Keys == a.Keys - {port} else b.Keys == a.Keys) &&
      (port in b ==> b[port].clients == a[port].clients - 1) &&
      forall p :: p in b && p != port ==> b[p].clients == a[p].clients
    requires !(sid in rooms && rooms[sid] != sid) ==> SameCounts(a, b)
    ensures TrackedIn(b, rooms - {sid})
  {
    var rooms' := rooms - {sid};
    forall p | p in b
      ensures b[p].clients == |MembersOf(rooms', p)|
    {
      MembersLeave(rooms, sid, p);
      if sid in rooms && rooms[sid] != sid && p == rooms[sid] {
        assert sid in MembersOf(rooms, p);
      } else {
        assert sid !in MembersOf(rooms, p);
      }
    }
    forall other | other in rooms' && rooms'[other] != other
      ensures rooms'[other] in b
    {
      var q := rooms'[other];
      assert other in MembersOf(rooms, q);
      MembersLeave(rooms, sid, q);
      assert other in MembersOf(rooms', q);
      if sid in rooms && rooms[sid] != sid && q == rooms[sid] {
        var m := MembersOf(rooms, q);
        assert sid in m && other in m - {sid};
        assert |m - {sid}| == |m| - 1;
        assert a[q].clients >= 2;
      }
    }
  }

  /** The registry's invariant: see `Server.Valid`. */
  ghost predicate ValidIn(serials: map<string, Session>) {
    forall p :: p in serials ==> p != "" && serials[p].clients >= 1 && serials[p].serialThread
  }

  /** Storing a started record with subscribers under a non-empty port name keeps the registry's invariant. */
  lemma ValidInStore(serials: map<string, Session>, port: string, s: Session)
    requires ValidIn(serials) && port != "" && s.clients >= 1 && s.serialThread
    ensures ValidIn(serials[port := s])
  {
  }

  /** Replacing a port's queue keeps the registry's invariant and the counts' agreement with rooms. */
  lemma SetQueueKeepsInvariants(serials: map<string, Session>, rooms: map<Sid, string>,
                                port: string, queue: seq<string>)
    requires port in serials
    ensures var serials' := serials[port := serials[port].(sendData := queue)];
      (ValidIn(serials) ==> ValidIn(serials')) &&
      (TrackedIn(serials, rooms) ==> TrackedIn(serials', rooms))
  {
    var serials' := serials[port := serials[port].(sendData := queue)];
    assert SameCounts(serials, serials');
    if TrackedIn(serials, rooms) {
      TrackedSameCounts(serials, serials', rooms);
    }
  }

  class Server {
    /** `connected_serials`: port name to its record. */
    var connectedSerials: map<string, Session>
    /** The port room each session id has entered. */
    var rooms: map<Sid, string>
    /** Every event emitted, oldest first. */
    var events: seq<Event>
    /** Every engine start, as (port, baud rate), oldest first. */
    var started: seq<(string, int)>

    constructor ()
      ensures connectedSerials == map[] && rooms == map[] && events == [] && started == []
    {
      connectedSerials := map[];
      rooms := map[];
      events := [];
      started := [];
    }

    /**
     * The registry's invariant: no record for the empty port name, every
     * record has at least one subscriber, and its engine has been started.
     */
    ghost predicate Valid()
      reads this
    {
      ValidIn(connectedSerials)
    }

    /**
     * The port room of `sid`: the first of its rooms that is not its own
     * session room `sid`.
     */
    function PortOf(sid: Sid): Option<string>
      reads this
    {
      if sid in rooms && rooms[sid] != sid then Some(rooms[sid]) else None
    }

    /** The session ids that `PortOf` attributes to `port`. */
    ghost function Members(port: string): set<Sid>
      reads this
    {
      MembersOf(rooms, port)
    }

    /** Subscriber counts agree with room membership (`TrackedIn`). */
    ghost predicate Tracked()
      reads this
    {
      TrackedIn(connectedSerials, rooms)
    }
  }
}
