/**
 * BattleNetClient: one Battle.net connection and the decision each of its
 * asynchronous callbacks makes.
 *
 * The socket is an `open` flag; the read loop is a phase (no read pending,
 * a header read pending, or a body read of a known length pending); the bytes
 * handed to `async_write` are appended to `sent`; the server-side
 * `removeClient(this)` effect is the flag `removed`. Each completion handler
 * is a method whose new state is given by a specification function on an
 * abstract state, and the properties of the read loop are lemmas about those
 * functions.
 */
module BattleNetClient {
  import opened Wrappers
  import opened Protocol

  /** The completion status asio reports. End of file and connection reset
      differ from other errors only in how they are logged. */
  datatype IoStatus = NoError | Eof | ConnectionReset | OtherError

  datatype Phase = Idle | AwaitingHeader | AwaitingBody(length: nat)

  /** Everything the callbacks read or change. */
  datatype ClientState = ClientState(
    open: bool,
    phase: Phase,
    readBuffer: Bytes,
    header: Header,
    authenticated: bool,
    accountLogin: string,
    sent: seq<Bytes>,
    removed: bool)

  const MOCK_LOGIN: string := "testuser_srp"

  function ZeroBytes(n: nat): (b: Bytes)
    ensures |b| == n && forall i :: 0 <= i < n ==> b[i] == 0
  {
    if n == 0 then [] else ZeroBytes(n - 1) + [0]
  }

  // ---------------------------------------------------------------------
  // Specification of each step
  // ---------------------------------------------------------------------

  /** `close`: shuts the socket only while it is open. */
  function CloseSpec(st: ClientState): ClientState
  {
    if st.open then st.(open := false) else st
  }

  /** `close()` followed by `m_server.removeClient(...)`. */
  function DropSpec(st: ClientState): ClientState
  {
    CloseSpec(st).(removed := true)
  }

  /** `doReadHeader`: with the socket open, a fresh HEADER_SIZE buffer and a
      pending header read. */
  function ReadHeaderSpec(st: ClientState): ClientState
  {
    if !st.open then st
    else st.(readBuffer := ZeroBytes(HEADER_SIZE), phase := AwaitingHeader)
  }

  /** `doReadBody(length)`: with the socket open, a fresh buffer of exactly
      `length` bytes and a pending read of that many bytes. */
  function ReadBodySpec(st: ClientState, length: nat): ClientState
  {
    if !st.open then st
    else st.(readBuffer := ZeroBytes(length), phase := AwaitingBody(length))
  }

  /** `doWrite`: nothing is written on a closed socket. */
  function WriteSpec(st: ClientState, data: Bytes): ClientState
  {
    if !st.open then st else st.(sent := st.sent + [data])
  }

  /** The bytes `sendPacket` writes: the serialized header, whose body_length
      is the payload size cast to 32 bits, then the payload if that length is
      non-zero. */
  function Frame(serviceId: uint16, methodId: uint16, requestId: uint32, payload: Bytes): Bytes
  {
    var len := |payload| % 0x1_0000_0000;
    Encode(Header(serviceId, methodId, requestId, len)) + (if len > 0 then payload else [])
  }

  function SendSpec(st: ClientState, serviceId: uint16, methodId: uint16, requestId: uint32,
                    payload: Bytes): ClientState
  {
    WriteSpec(st, Frame(serviceId, methodId, requestId, payload))
  }

  /** The handler `processPacket` chooses for the current header. */
  function HandlePacketSpec(st: ClientState, body: Bytes): ClientState
  {
    if st.header.serviceId == SERVICE_ID_AUTHENTICATION
       && st.header.methodId == METHOD_ID_AUTH_CHALLENGE_REQUEST then
      SendSpec(st, SERVICE_ID_AUTHENTICATION, METHOD_ID_AUTH_CHALLENGE_RESPONSE, st.header.requestId, [])
    else if st.header.serviceId == SERVICE_ID_AUTHENTICATION
       && st.header.methodId == METHOD_ID_AUTH_SESSION_REQUEST then
      SendSpec(st.(authenticated := true, accountLogin := MOCK_LOGIN),
               SERVICE_ID_AUTHENTICATION, METHOD_ID_LOGON_SUCCESS, st.header.requestId, [])
    else
      st
  }

  /** `processPacket`: dispatch, then re-arm the header read if the socket
      is still open. */
  function DispatchSpec(st: ClientState, body: Bytes): ClientState
  {
    var handled := HandlePacketSpec(st, body);
    if handled.open then ReadHeaderSpec(handled) else handled
  }

  /** `handleReadHeader(ec, bytes_transferred)`, the buffer holding `data`. */
  function HeaderCompleteSpec(st: ClientState, ec: IoStatus, bytesTransferred: nat, data: Bytes): ClientState
    requires |data| == HEADER_SIZE
  {
    var st0 := st.(phase := Idle);
    if !st0.open then st0.(removed := true)
    else if ec != NoError then DropSpec(st0)
    else if bytesTransferred != HEADER_SIZE then DropSpec(st0)
    else
      var st1 := st0.(readBuffer := data, header := Decode(data));
      var len := st1.header.bodyLength;
      if len == 0 then DispatchSpec(st1, [])
      else if len <= MAX_PACKET_BODY_SIZE then ReadBodySpec(st1, len)
      else DropSpec(st1)
  }

  /** `handleReadBody(ec, bytes_transferred, expected)`, the buffer holding
      `data`. */
  function BodyCompleteSpec(st: ClientState, ec: IoStatus, bytesTransferred: nat, data: Bytes): ClientState
  {
    var st0 := st.(phase := Idle);
    if !st0.open then st0.(removed := true)
    else if ec != NoError then DropSpec(st0)
    else if bytesTransferred != |data| then DropSpec(st0)
    else DispatchSpec(st0.(readBuffer := data), data)
  }

  /** `handleWrite(ec, ...)`: only an error has an effect. */
  function WriteCompleteSpec(st: ClientState, ec: IoStatus): ClientState
  {
    if ec == NoError then st else DropSpec(st)
  }

  // ---------------------------------------------------------------------
  // Properties of the read loop
  // ---------------------------------------------------------------------

  predicate FullHeader(st: ClientState, ec: IoStatus, bytesTransferred: nat)
  {
    st.open && ec == NoError && bytesTransferred == HEADER_SIZE
  }

  /** A header announcing an empty body is dispatched at once with an empty
      body; no body read is started. */
  lemma EmptyBodyDispatchedAtOnce(st: ClientState, bytesTransferred: nat, data: Bytes)
    requires |data| == HEADER_SIZE && FullHeader(st, NoError, bytesTransferred)
    requires Decode(data).bodyLength == 0
    ensures var r := HeaderCompleteSpec(st, NoError, bytesTransferred, data);
      r == DispatchSpec(st.(phase := Idle, readBuffer := data, header := Decode(data)), []) &&
      !r.phase.AwaitingBody?
  {
  }

  /** A body length in 1..MAX_PACKET_BODY_SIZE starts a read of exactly that
      many bytes into a buffer of that size, and sends nothing yet. */
  lemma BodyReadOfAnnouncedLength(st: ClientState, bytesTransferred: nat, data: Bytes)
    requires |data| == HEADER_SIZE && FullHeader(st, NoError, bytesTransferred)
    requires 0 < Decode(data).bodyLength <= MAX_PACKET_BODY_SIZE
    ensures var r := HeaderCompleteSpec(st, NoError, bytesTransferred, data);
      r.phase == AwaitingBody(Decode(data).bodyLength) &&
      |r.readBuffer| == Decode(data).bodyLength &&
      r.open && r.removed == st.removed && r.sent == st.sent && r.header == Decode(data)
  {
  }

  /** A body length above MAX_PACKET_BODY_SIZE closes the socket and
      deregisters the client without reading a body or sending anything. */
  lemma OversizedBodyDropsClient(st: ClientState, bytesTransferred: nat, data: Bytes)
    requires |data| == HEADER_SIZE && FullHeader(st, NoError, bytesTransferred)
    requires Decode(data).bodyLength > MAX_PACKET_BODY_SIZE
    ensures var r := HeaderCompleteSpec(st, NoError, bytesTransferred, data);
      !r.open && r.removed && r.phase == Idle && r.sent == st.sent
  {
  }

  /** Any read error and any short read end with the socket closed and the
      client deregistered, with nothing sent, for headers and bodies alike. */
  lemma ReadFailureDropsClient(st: ClientState, ec: IoStatus, bytesTransferred: nat, data: Bytes)
    requires ec != NoError || bytesTransferred != |data|
    ensures |data| == HEADER_SIZE ==>
      var r := HeaderCompleteSpec(st, ec, bytesTransferred, data);
      !r.open && r.removed && r.phase == Idle && r.sent == st.sent
    ensures var r := BodyCompleteSpec(st, ec, bytesTransferred, data);
      !r.open && r.removed && r.phase == Idle && r.sent == st.sent
  {
  }

  /** `close` acts only on an open socket, so calling it again is harmless. */
  lemma CloseIdempotent(st: ClientState)
    ensures !CloseSpec(st).open
    ensures CloseSpec(CloseSpec(st)) == CloseSpec(st)
    ensures DropSpec(DropSpec(st)) == DropSpec(st)
  {
  }

  /** After dispatch the next header read is pending exactly when the socket
      is still open. */
  lemma RearmOnlyIfOpen(st: ClientState, body: Bytes)
    requires st.phase == Idle
    ensures var r := DispatchSpec(st, body);
      r.open == st.open && (r.phase == AwaitingHeader <==> r.open) &&
      (r.open ==> |r.readBuffer| == HEADER_SIZE)
  {
  }

  /** The sent frame has the twelve-byte header carrying the payload length,
      followed by the payload: 12 + |payload| bytes in all. */
  lemma FrameLayout(serviceId: uint16, methodId: uint16, requestId: uint32, payload: Bytes)
    requires |payload| < 0x1_0000_0000
    ensures var f := Frame(serviceId, methodId, requestId, payload);
      |f| == HEADER_SIZE + |payload| &&
      Decode(f) == Header(serviceId, methodId, requestId, |payload|) &&
      f[HEADER_SIZE..] == payload
  {
    var h := Header(serviceId, methodId, requestId, |payload|);
    DecodeIgnoresTrailing(h, if |payload| > 0 then payload else []);
    EncodeLayout(h);
  }

  /** A reply without a body is the bare header. */
  lemma EmptyFrame(serviceId: uint16, methodId: uint16, requestId: uint32)
    ensures Frame(serviceId, methodId, requestId, []) == Encode(Header(serviceId, methodId, requestId, 0))
  {
    var e := Encode(Header(serviceId, methodId, requestId, 0));
    assert e + [] == e;
  }

  /** AUTH_CHALLENGE_REQUEST is answered with AUTH_CHALLENGE_RESPONSE for the
      same request id and an empty body; authentication is unchanged. */
  lemma ChallengeAnswered(st: ClientState, body: Bytes)
    requires st.open
    requires st.header.serviceId == SERVICE_ID_AUTHENTICATION
    requires st.header.methodId == METHOD_ID_AUTH_CHALLENGE_REQUEST
    ensures var r := HandlePacketSpec(st, body);
      r.sent == st.sent + [Encode(Header(SERVICE_ID_AUTHENTICATION, METHOD_ID_AUTH_CHALLENGE_RESPONSE,
                                         st.header.requestId, 0))] &&
      r.authenticated == st.authenticated && r.accountLogin == st.accountLogin
  {
    EmptyFrame(SERVICE_ID_AUTHENTICATION, METHOD_ID_AUTH_CHALLENGE_RESPONSE, st.header.requestId);
  }

  /** AUTH_SESSION_REQUEST authenticates unconditionally as "testuser_srp"
      and answers LOGON_SUCCESS for the same request id. */
  lemma SessionAuthenticates(st: ClientState, body: Bytes)
    requires st.open
    requires st.header.serviceId == SERVICE_ID_AUTHENTICATION
    requires st.header.methodId == METHOD_ID_AUTH_SESSION_REQUEST
    ensures var r := HandlePacketSpec(st, body);
      r.authenticated && r.accountLogin == "testuser_srp" &&
      r.sent == st.sent + [Encode(Header(SERVICE_ID_AUTHENTICATION, METHOD_ID_LOGON_SUCCESS,
                                         st.header.requestId, 0))]
  {
    EmptyFrame(SERVICE_ID_AUTHENTICATION, METHOD_ID_LOGON_SUCCESS, st.header.requestId);
  }

  /** Unknown service or method ids send nothing and change nothing. */
  lemma UnknownPacketIgnored(st: ClientState, body: Bytes)
    requires st.header.serviceId != SERVICE_ID_AUTHENTICATION ||
             (st.header.methodId != METHOD_ID_AUTH_CHALLENGE_REQUEST &&
              st.header.methodId != METHOD_ID_AUTH_SESSION_REQUEST)
    ensures HandlePacketSpec(st, body) == st
  {
  }

  /** A write error closes and deregisters; a completed write changes nothing. */
  lemma WriteCompletion(st: ClientState, ec: IoStatus)
    ensures ec == NoError ==> WriteCompleteSpec(st, ec) == st
    ensures ec != NoError ==> !WriteCompleteSpec(st, ec).open && WriteCompleteSpec(st, ec).removed
  {
  }

  // ---------------------------------------------------------------------
  // The connection object
  // ---------------------------------------------------------------------

  class Client {
    var open: bool
    var phase: Phase
    var readBuffer: Bytes
    const currentHeader: PacketHeader
    var isAuthenticated: bool
    var accountLogin: string
    var clientIpAddress: string
    var sent: seq<Bytes>
    var removed: bool

    function State(): ClientState
      reads this, currentHeader
    {
      ClientState(open, phase, readBuffer, currentHeader.Value(), isAuthenticated, accountLogin, sent, removed)
    }

    /** A freshly accepted connection: open, unauthenticated, with a
        header-sized read buffer; the address is "unknown" when the remote
        endpoint cannot be read. The header fields start at zero (they are
        only read after a header has been deserialised). */
    constructor (remoteAddress: Option<string>)
      ensures open && phase == Idle && !isAuthenticated && accountLogin == []
      ensures |readBuffer| == HEADER_SIZE && sent == [] && !removed
      ensures clientIpAddress == if remoteAddress.Some? then remoteAddress.value else "unknown"
    {
      open := true;
      phase := Idle;
      readBuffer := ZeroBytes(HEADER_SIZE);
      currentHeader := new PacketHeader(Header(0, 0, 0, 0));
      isAuthenticated := false;
      accountLogin := [];
      clientIpAddress := if remoteAddress.Some? then remoteAddress.value else "unknown";
      sent := [];
      removed := false;
    }

    method Close()
      modifies this
      ensures State() == CloseSpec(old(State()))
      ensures clientIpAddress == old(clientIpAddress)
    {
      if open {
        open := false;
      }
    }

    method RemoveFromServer()
      modifies this
      ensures State() == old(State()).(removed := true)
      ensures clientIpAddress == old(clientIpAddress)
    {
      removed := true;
    }

    method Start()
      modifies this
      ensures State() == ReadHeaderSpec(old(State()))
      ensures clientIpAddress == old(clientIpAddress)
    {
      DoReadHeader();
    }

    method DoReadHeader()
      modifies this
      ensures State() == ReadHeaderSpec(old(State()))
      ensures clientIpAddress == old(clientIpAddress)
    {
      if !open {
        return;
      }
      readBuffer := ZeroBytes(HEADER_SIZE);
      phase := AwaitingHeader;
    }

    method DoReadBody(bodyLength: nat)
      modifies this
      ensures State() == ReadBodySpec(old(State()), bodyLength)
      ensures clientIpAddress == old(clientIpAddress)
    {
      if !open {
        return;
      }
      readBuffer := ZeroBytes(bodyLength);
      phase := AwaitingBody(bodyLength);
    }

    /** Completion of the header read; `data` is what asio left in the
        header-sized buffer. */
    method HandleReadHeader(ec: IoStatus, bytesTransferred: nat, data: Bytes)
      requires |data| == HEADER_SIZE
      modifies this, currentHeader
      ensures State() == HeaderCompleteSpec(old(State()), ec, bytesTransferred, data)
      ensures clientIpAddress == old(clientIpAddress)
    {
      phase := Idle;
      if !open {
        RemoveFromServer();
        return;
      }
      if ec == NoError {
        if bytesTransferred == HEADER_SIZE {
          readBuffer := data;
          var ok := currentHeader.Deserialize(readBuffer);
          // A full header-sized buffer always deserialises.
          assert ok;
          var len := currentHeader.bodyLength;
          if len == 0 {
            ProcessPacket([]);
          } else if len <= MAX_PACKET_BODY_SIZE {
            DoReadBody(len);
          } else {
            Close();
            RemoveFromServer();
          }
        } else {
          Close();
          RemoveFromServer();
        }
      } else {
        Close();
        RemoveFromServer();
      }
    }

    /** Completion of the body read; `data` is what asio left in the
        body-sized buffer. */
    method HandleReadBody(ec: IoStatus, bytesTransferred: nat, data: Bytes)
      modifies this, currentHeader
      ensures State() == BodyCompleteSpec(old(State()), ec, bytesTransferred, data)
      ensures clientIpAddress == old(clientIpAddress)
    {
      phase := Idle;
      if !open {
        RemoveFromServer();
        return;
      }
      if ec == NoError {
        if bytesTransferred == |data| {
          readBuffer := data;
          ProcessPacket(readBuffer);
        } else {
          Close();
          RemoveFromServer();
        }
      } else {
        Close();
        RemoveFromServer();
      }
    }

    method ProcessPacket(packetData: Bytes)
      modifies this
      ensures State() == DispatchSpec(old(State()), packetData)
      ensures clientIpAddress == old(clientIpAddress)
    {
      var h := currentHeader.Value();
      if h.serviceId == SERVICE_ID_AUTHENTICATION {
        if h.methodId == METHOD_ID_AUTH_CHALLENGE_REQUEST {
          HandleAuthChallenge();
        } else if h.methodId == METHOD_ID_AUTH_SESSION_REQUEST {
          HandleAuthSession(packetData);
        }
      }
      if open {
        DoReadHeader();
      }
    }

    method HandleAuthChallenge()
      modifies this
      ensures State() == SendSpec(old(State()), SERVICE_ID_AUTHENTICATION,
        METHOD_ID_AUTH_CHALLENGE_RESPONSE, old(currentHeader.requestId), [])
      ensures clientIpAddress == old(clientIpAddress)
    {
      SendPacket(SERVICE_ID_AUTHENTICATION, METHOD_ID_AUTH_CHALLENGE_RESPONSE, currentHeader.requestId, []);
    }

    /** The session request is accepted unconditionally (the failure branch
        of the source is unreachable and not modelled). */
    method HandleAuthSession(requestData: Bytes)
      modifies this
      ensures State() == SendSpec(old(State()).(authenticated := true, accountLogin := MOCK_LOGIN),
        SERVICE_ID_AUTHENTICATION, METHOD_ID_LOGON_SUCCESS, old(currentHeader.requestId), [])
      ensures clientIpAddress == old(clientIpAddress)
    {
      isAuthenticated := true;
      accountLogin := MOCK_LOGIN;
      SendPacket(SERVICE_ID_AUTHENTICATION, METHOD_ID_LOGON_SUCCESS, currentHeader.requestId, []);
    }

    method SendPacket(serviceId: uint16, methodId: uint16, requestId: uint32, payload: Bytes)
      modifies this
      ensures State() == SendSpec(old(State()), serviceId, methodId, requestId, payload)
      ensures clientIpAddress == old(clientIpAddress)
    {
      var header := new PacketHeader(Header(serviceId, methodId, requestId, |payload| % 0x1_0000_0000));
      var packet := header.Serialize();
      if header.bodyLength > 0 {
        packet := packet + payload;
      } else {
        assert packet + [] == packet;
      }
      DoWrite(packet);
    }

    method DoWrite(data: Bytes)
      modifies this
      ensures State() == WriteSpec(old(State()), data)
      ensures clientIpAddress == old(clientIpAddress)
    {
      if !open {
        return;
      }
      sent := sent + [data];
    }

    method HandleWrite(ec: IoStatus, bytesTransferred: nat, expectedBytes: nat)
      modifies this
      ensures State() == WriteCompleteSpec(old(State()), ec)
      ensures clientIpAddress == old(clientIpAddress)
    {
      if !open && ec == NoError {
        return;
      }
      if ec != NoError {
        Close();
        RemoveFromServer();
      }
    }
  }
}
