/**
 * The socket event handlers of the `/serial` namespace: a subscriber connects
 * to a port, disconnects from it, or sends a message to the device behind it.
 * Each handler runs to completion before the next one starts; the request's
 * query arguments and session id are parameters.
 */
module SerialHandlers {
  import opened Wrappers
  import opened Extensions

  /** Baud rate used when the `baudrate` argument is absent or not an integer. */
  const DefaultBaudrate := 115200

  /** Terminator used when a message has no `end_with` key. */
  const DefaultEndWith := "\r\n"

  /** The query arguments of a connect request. */
  datatype ConnectArgs = ConnectArgs(port: Option<string>, baudrate: Option<string>)

  /** The payload of a `serial_data_send` event. */
  datatype SendMessage = SendMessage(data: Option<string>, endWith: Option<string>)

  // ---------------------------------------------------------------------------
  // Baud rate parsing

  predicate IsDigit(c: char) {
    '0' <= c <= '9'
  }

  predicate AllDigits(s: string) {
    forall i :: 0 <= i < |s| ==> IsDigit(s[i])
  }

  predicate IsSign(c: char) {
    c == '+' || c == '-'
  }

  /** The value of a string of decimal digits, most significant first. */
  function DigitsValue(s: string): nat
    requires AllDigits(s)
  {
    if s == [] then 0 else DigitsValue(s[..|s| - 1]) * 10 + (s[|s| - 1] as int - '0' as int)
  }

  /**
   * The most digits Python's `int()` converts from a decimal string; longer
   * ones raise (the default of `sys.set_int_max_str_digits`).
   */
  const MaxStrDigits := 4300

  /** Python's `int(s)` on an optional sign followed by decimal digits; `None` where it raises. */
  function ParseInt(s: string): Option<int> {
    var digits := if s != [] && IsSign(s[0]) then s[1..] else s;
    if digits == [] || !AllDigits(digits) || |digits| > MaxStrDigits then None
    else if s[0] == '-' then Some(-(DigitsValue(digits) as int))
    else Some(DigitsValue(digits))
  }

  /** The decimal digits of `n`, without leading zeros. */
  function ShowNat(n: nat): (s: string)
    ensures s != [] && AllDigits(s)
  {
    var last := ('0' as int + n % 10) as char;
    if n < 10 then [last] else ShowNat(n / 10) + [last]
  }

  /** The decimal form of `n`, with a minus sign when it is negative. */
  function ShowInt(n: int): string {
    if n < 0 then "-" + ShowNat(-n) else ShowNat(n)
  }

  lemma {:induction false} DigitsValueShowNat(n: nat)
    ensures DigitsValue(ShowNat(n)) == n
  {
    var s := ShowNat(n);
    if n >= 10 {
      DigitsValueShowNat(n / 10);
      assert s[..|s| - 1] == ShowNat(n / 10);
    }
  }

  /**
   * Parsing inverts printing: every integer whose decimal form is within the
   * digit limit is read back from it.
   */
  lemma ParseShowInt(n: int)
    requires |ShowNat(if n < 0 then -n else n)| <= MaxStrDigits
    ensures ParseInt(ShowInt(n)) == Some(n)
  {
    var s := ShowInt(n);
    if n < 0 {
      assert s[1..] == ShowNat(-n);
      DigitsValueShowNat(-n);
    } else {
      assert !IsSign(s[0]);
      DigitsValueShowNat(n);
    }
  }

  /**
   * The baud rate of a connect request: the parsed argument, or the default
   * when the argument is absent or does not parse.
   */
  function ParseBaudrate(arg: Option<string>): int {
    match arg
    case None => DefaultBaudrate
    case Some(s) => ParseInt(s).GetOr(DefaultBaudrate)
  }

  /** A baud rate written in decimal, within the digit limit, is taken as given. */
  lemma BaudrateFromDecimal(n: int)
    requires |ShowNat(if n < 0 then -n else n)| <= MaxStrDigits
    ensures ParseBaudrate(Some(ShowInt(n))) == n
  {
    ParseShowInt(n);
  }

  /**
   * A printable ASCII character other than a space that `int()` never accepts
   * in a decimal integer: not a digit, a sign or an underscore.
   */
  predicate IsStray(c: char) {
    '!' <= c <= '~' && !IsDigit(c) && !IsSign(c) && c != '_'
  }

  /**
   * An empty baud rate, or one holding a stray character, falls back to
   * 115200.
   */
  lemma {:induction false} BaudrateFallback(s: string)
    requires s == [] || exists i :: 0 <= i < |s| && IsStray(s[i])
    ensures ParseBaudrate(Some(s)) == 115200
  {
    if s != [] {
      var i :| 0 <= i < |s| && IsStray(s[i]);
      if IsSign(s[0]) {
        assert s[1..][i - 1] == s[i];
      } else {
        assert !AllDigits(s);
      }
    }
  }

  /** A decimal baud rate longer than the digit limit falls back to 115200. */
  lemma BaudrateTooManyDigits(s: string)
    requires AllDigits(s) && |s| > MaxStrDigits
    ensures ParseBaudrate(Some(s)) == 115200
  {
  }

  // ---------------------------------------------------------------------------
  // Outbound message terminator

  predicate EndsWith(s: string, suffix: string) {
    |suffix| <= |s| && s[|s| - |suffix|..] == suffix
  }

  /**
   * The payload put on the port's queue: `data` with `endWith` appended
   * unless `data` already ends with it.
   */
  function WithTerminator(data: string, endWith: string): (r: string)
    ensures EndsWith(r, endWith)
    ensures data <= r
    ensures r == data <==> EndsWith(data, endWith)
    ensures !EndsWith(data, endWith) ==> |r| == |data| + |endWith|
  {
    if EndsWith(data, endWith) then data else data + endWith
  }

  /** Adding the terminator twice is the same as adding it once. */
  lemma WithTerminatorIdempotent(data: string, endWith: string)
    ensures WithTerminator(WithTerminator(data, endWith), endWith) == WithTerminator(data, endWith)
  {
  }

  // ---------------------------------------------------------------------------
  // Handlers

  /**
   * A session connects with query arguments `args`.  Without a non-empty port
   * it is refused and nothing changes.  Otherwise it enters the port's room;
   * the port's record is created with one subscriber, or its count goes up by
   * one; the engine is started when the record has none, which happens only
   * when the record has just been created.
   */
  method OnConnect(srv: Server, sid: Sid, args: ConnectArgs) returns (accepted: bool)
    requires srv.Valid()
    requires sid !in srv.rooms
    modifies srv
    ensures srv.Valid()
    ensures accepted <==> args.port.Some? && args.port.value != ""
    ensures srv.events == old(srv.events)
    ensures !accepted ==>
      srv.connectedSerials == old(srv.connectedSerials) && srv.rooms == old(srv.rooms) &&
      srv.started == old(srv.started)
    ensures accepted ==> srv.rooms == old(srv.rooms)[sid := args.port.value]
    ensures accepted && args.port.value != sid ==> srv.PortOf(sid) == args.port
    ensures !accepted ==> srv.PortOf(sid) == None
    ensures accepted && args.port.value !in old(srv.connectedSerials) ==>
      var baudrate := ParseBaudrate(args.baudrate);
      srv.connectedSerials ==
        old(srv.connectedSerials)[args.port.value := Session(baudrate, true, 1, [])] &&
      srv.started == old(srv.started) + [(args.port.value, baudrate)]
    ensures accepted && args.port.value in old(srv.connectedSerials) ==>
      var s := old(srv.connectedSerials)[args.port.value];
      srv.connectedSerials == old(srv.connectedSerials)[args.port.value := s.(clients := s.clients + 1)] &&
      srv.started == old(srv.started)
    ensures old(srv.Tracked()) && args.port != Some(sid) ==> srv.Tracked()
  {
    var baudrate := ParseBaudrate(args.baudrate);
    if args.port.None? || args.port.value == "" {
      return false;
    }
    var port := args.port.value;
    ghost var oldRooms := srv.rooms;
    srv.rooms := srv.rooms[sid := port];

    if port !in srv.connectedSerials {
      srv.connectedSerials := srv.connectedSerials[port := Session(baudrate, false, 1, [])];
    } else {
      var s := srv.connectedSerials[port];
      srv.connectedSerials := srv.connectedSerials[port := s.(clients := s.clients + 1)];
    }

    // The second test of the double-checked start is made under the record's
    // lock; with one handler running at a time it sees the same answer.
    if !srv.connectedSerials[port].serialThread {
      var s := srv.connectedSerials[port];
      srv.connectedSerials := srv.connectedSerials[port := s.(serialThread := true)];
      srv.started := srv.started + [(port, baudrate)];
    }
    ValidInStore(old(srv.connectedSerials), port, srv.connectedSerials[port]);
    assert srv.connectedSerials == old(srv.connectedSerials)[port := srv.connectedSerials[port]];

    if old(srv.Tracked()) && port != sid {
      TrackedJoin(old(srv.connectedSerials), srv.connectedSerials, oldRooms, sid, port);
    }
    return true;
  }

  /**
   * A session disconnects.  When its port still has a record, the count goes
   * down by one and the record is removed when it reaches zero; records of
   * other ports are untouched, and nothing happens when the port is unknown
   * or already gone.  The session leaves its rooms.
   */
  method OnDisconnect(srv: Server, sid: Sid)
    requires srv.Valid()
    modifies srv
    ensures srv.Valid()
    ensures srv.rooms == old(srv.rooms) - {sid}
    ensures srv.PortOf(sid) == None
    ensures srv.events == old(srv.events) && srv.started == old(srv.started)
    ensures var port := old(srv.PortOf(sid));
      if port.Some? && port.value in old(srv.connectedSerials) then
        var s := old(srv.connectedSerials)[port.value];
        if s.clients == 1 then srv.connectedSerials == old(srv.connectedSerials) - {port.value}
        else srv.connectedSerials == old(srv.connectedSerials)[port.value := s.(clients := s.clients - 1)]
      else srv.connectedSerials == old(srv.connectedSerials)
    ensures old(srv.Tracked()) ==> srv.Tracked()
  {
    var port := srv.PortOf(sid);
    ghost var oldRooms := srv.rooms;

    if port.Some? && port.value != "" && port.value in srv.connectedSerials {
      var p := port.value;
      var s := srv.connectedSerials[p];
      srv.connectedSerials := srv.connectedSerials[p := s.(clients := s.clients - 1)];
      if srv.connectedSerials[p].clients == 0 {
        srv.connectedSerials := srv.connectedSerials - {p};
      }
    }

    // Leaving every room on disconnect is done by the socket server itself.
    srv.rooms := srv.rooms - {sid};

    if old(srv.Tracked()) {
      TrackedLeave(old(srv.connectedSerials), srv.connectedSerials, oldRooms, sid);
    }
  }

  /**
   * A session sends `message`.  When its port has a record, the message's
   * data, terminated by its `end_with` (CR LF by default) unless it already
   * ends with it, goes to the back of the port's queue; otherwise nothing
   * happens.
   */
  method OnSerialDataSend(srv: Server, sid: Sid, message: SendMessage)
    requires srv.Valid()
    modifies srv`connectedSerials
    ensures srv.Valid()
    ensures var port := old(srv.PortOf(sid));
      if port.Some? && port.value in old(srv.connectedSerials) then
        var s := old(srv.connectedSerials)[port.value];
        var payload := WithTerminator(message.data.GetOr(""), message.endWith.GetOr(DefaultEndWith));
        srv.connectedSerials == old(srv.connectedSerials)[port.value := s.(sendData := s.sendData + [payload])]
      else srv.connectedSerials == old(srv.connectedSerials)
    ensures old(srv.Tracked()) ==> srv.Tracked()
  {
    var port := srv.PortOf(sid);
    var endWith := message.endWith.GetOr(DefaultEndWith);

    if port.Some? && port.value != "" && port.value in srv.connectedSerials {
      var sendData := message.data.GetOr("");
      sendData := WithTerminator(sendData, endWith);
      var s := srv.connectedSerials[port.value];
      srv.connectedSerials := srv.connectedSerials[port.value := s.(sendData := s.sendData + [sendData])];
    }
    if old(srv.Tracked()) {
      TrackedSameCounts(old(srv.connectedSerials), srv.connectedSerials, srv.rooms);
    }
  }
}
