// client_UDPR_lib.c with its loops, buffers and 32-bit counters.

/** The UDPR client in the shape of its source, proved to compute the step function of
    UdprClientSpec. */
module UdprClient {
  import opened Packets
  import opened StructMemory
  import opened Network
  import opened Chunks
  import opened UdprClientSpec
  import opened ChunkBuffers

  // ----- Runs with positions in the script -----

  datatype Heard = Nothing | TimedOut | Failed | Got(bytes: seq<byte>, env: Env)

  datatype Response = Response(heard: Heard, pos: nat, pinned: Option<nat>)

  /** wait_for_server_response over the script. */
  function NextResponse(t: Transfer, script: seq<Event>, pos: nat, pinned: Option<nat>): (r: Response)
    requires pos <= |script|
    ensures pos <= r.pos <= |script|
    ensures !r.heard.Nothing? ==> pos < r.pos
    ensures r.heard.Nothing? ==> r.pos == |script|
    ensures r.heard.Got? ==> 0 < |r.heard.bytes| <= RESPONSE_BUFF_SIZE
    decreases |script| - pos
  {
    if pos == |script| then Response(Nothing, pos, pinned)
    else match script[pos]
      case Timeout => Response(TimedOut, pos + 1, pinned)
      case Failure => Response(Failed, pos + 1, pinned)
      case Datagram(src, bytes, env) =>
        var got := Truncated(bytes, RESPONSE_BUFF_SIZE);
        if got == [] then Response(if env.eagain then TimedOut else Failed, pos + 1, pinned)
        else
          var pin := if pinned.None? then Some(src.ip) else pinned;
          if Some(src.ip) != pin || src.port != t.server.port then NextResponse(t, script, pos + 1, pin)
          else Response(Got(got, env), pos + 1, pin)
  }

  /** What the client does with the next response it waits for. */
  function AfterResponse(t: Transfer, c: Client, r: Response): Client {
    var heard := c.(pinned := r.pinned);
    match r.heard
    case Nothing => heard
    case TimedOut => OnTimeout(t, heard)
    case Failed => OnError(t, heard)
    case Got(bytes, env) => OnDatagram(t, heard, bytes, env)
  }

  /** RunOver from a position of the script. */
  function RunAt(t: Transfer, sends: seq<bool>, c: Client, script: seq<Event>, pos: nat): Client
    requires pos <= |script|
  {
    RunOver(t, sends, c, script[pos..])
  }

  /** A datagram with bytes in it that the client does not listen to. */
  predicate Ignored(t: Transfer, pinned: Option<nat>, e: Event) {
    e.Datagram? && e.bytes != [] && ((pinned.Some? && Some(e.src.ip) != pinned) || e.src.port != t.server.port)
  }

  lemma {:induction false} RunAtResponds(t: Transfer, sends: seq<bool>, c: Client, script: seq<Event>, pos: nat)
    requires pos <= |script| && !c.phase.Done? && !Refused(sends, c)
    ensures var r := NextResponse(t, script, pos, c.pinned);
            RunAt(t, sends, c, script, pos) == RunAt(t, sends, AfterResponse(t, c, r), script, r.pos)
    decreases |script| - pos
  {
    hide OnTimeout, OnError, OnDatagram;
    assert c == c.(pinned := c.pinned);
    if pos < |script| {
      assert script[pos..][0] == script[pos] && script[pos..][1..] == script[pos + 1..];
      var next := ClientStep(t, c, script[pos]);
      assert RunAt(t, sends, c, script, pos) == RunAt(t, sends, next, script, pos + 1);
      if Ignored(t, c.pinned, script[pos]) {
        RunAtResponds(t, sends, next, script, pos + 1);
      }
    }
  }

  lemma DoneStays(t: Transfer, sends: seq<bool>, c: Client, script: seq<Event>, pos: nat)
    requires pos <= |script| && (c.phase.Done? || (pos == |script| && !Refused(sends, c)))
    ensures RunAt(t, sends, c, script, pos) == c
  {
  }

  lemma RefusedErrs(t: Transfer, sends: seq<bool>, c: Client, script: seq<Event>, pos: nat)
    requires pos <= |script| && !c.phase.Done? && Refused(sends, c)
    ensures RunAt(t, sends, c, script, pos) == RunAt(t, sends, OnError(t, c), script, pos)
  {
  }

  // ----- The client -----

  datatype InitCode = InitSuccess | InitError | InitRejected | InitBlocked

  datatype WaitCode = WaitSuccess | WaitRetransmission | WaitError(result: Result) | WaitBlocked

  class Endpoint {
    const t: Transfer
    const script: seq<Event>          // everything recvfrom is going to return
    const sends: seq<bool>            // and sendto; true is success
    var pos: nat
    var pinned: Option<nat>           // first_wait and real_server_s_addr
    var retransmits: nat              // *nbr_of_retransmits
    var sent: seq<Packet>             // handed to sendto
    const response: array<byte>       // the response buffer
    const chunk: ChunkBuffer          // the buffers of the send loop

    ghost predicate Valid()
      reads this, chunk
    {
      && pos <= |script| && response.Length == RESPONSE_BUFF_SIZE
      && chunk.Valid() && response != chunk.buff && response != chunk.data
    }

    constructor (t: Transfer, script: seq<Event>, sends: seq<bool>)
      ensures Valid() && this.t == t && this.script == script && this.sends == sends
      ensures pos == 0 && pinned.None? && retransmits == 0 && sent == []
      ensures fresh(response) && fresh(chunk.buff) && fresh(chunk.data)
    {
      this.t := t;
      this.script := script;
      this.sends := sends;
      pos, pinned, retransmits, sent := 0, None, 0, [];
      response := new byte[RESPONSE_BUFF_SIZE];
      chunk := new ChunkBuffer();
    }

    /** The state of the client in this phase, as the step function keeps it. */
    function State(phase: Phase, id: nat): Client
      reads this`retransmits, this`pinned, this`sent
    {
      Client(phase, id, retransmits, pinned, sent)
    }

    /** sendto_wrapper: the bytes handed over are the encoding of a packet. */
    method Sendto(bytes: seq<byte>, packet: Packet) returns (ok: bool)
      requires bytes == Encode(packet)
      modifies this`sent
      ensures sent == old(sent) + [packet] && (ok <==> Works(sends, |old(sent)|))
    {
      ok := |sends| <= |sent| || sends[|sent|];
      sent := sent + [packet];
    }

    /** memset and recvfrom. */
    method Recvfrom() returns (e: Event, read: nat)
      requires Valid() && pos < |script|
      modifies this`pos, response
      ensures Valid() && pos == old(pos) + 1 && e == script[old(pos)]
      ensures e.Datagram? ==> read <= RESPONSE_BUFF_SIZE && response[..read] == Truncated(e.bytes, RESPONSE_BUFF_SIZE)
    {
      e := script[pos];
      pos := pos + 1;
      var got := if e.Datagram? then Truncated(e.bytes, RESPONSE_BUFF_SIZE) else [];
      read := |got|;
      forall i | 0 <= i < response.Length {
        response[i] := if i < |got| then got[i] else 0;
      }
      assert response[..read] == got;
    }

    /** wait_for_server_response. */
    method WaitForServerResponse() returns (heard: Heard)
      requires Valid()
      modifies this`pos, this`pinned, response
      ensures Valid()
      ensures Response(heard, pos, pinned) == NextResponse(t, script, old(pos), old(pinned))
      ensures heard.Got? ==> |heard.bytes| <= RESPONSE_BUFF_SIZE && response[..|heard.bytes|] == heard.bytes
    {
      while pos < |script|
        invariant Valid() && old(pos) <= pos
        invariant NextResponse(t, script, pos, pinned) == NextResponse(t, script, old(pos), old(pinned))
        decreases |script| - pos
      {
        var e, read := Recvfrom();
        match e
        case Timeout => return TimedOut;
        case Failure => return Failed;
        case Datagram(src, _, env) =>
          if read == 0 {
            return if env.eagain then TimedOut else Failed;
          }
          if pinned.None? {
            pinned := Some(src.ip);
          }
          if Some(src.ip) == pinned && src.port == t.server.port {
            return Got(response[..read], env);
          }
      }
      return Nothing;
    }

    /** cast_buff_to and ntoh_CONACC or ntoh_RCVD over an uninitialised struct. */
    method CastHead(length: nat, stale: HeadMem) returns (typeId: byte, session: uint64)
      requires Valid() && length <= response.Length
      ensures var m := Overlay(stale, response[..length]); typeId == m[0] && session == Value64(m[1..9])
    {
      var mem := new byte[HEAD_SIZE](i requires 0 <= i < HEAD_SIZE => stale[i]);
      assert mem[..] == stale;
      CastBuffTo(mem, response[..length]);
      ghost var m := mem[..];
      assert m[1..9] == mem[1..9];
      NtohHead(mem);
      typeId, session := mem[0], Host64(mem[..], 1);
    }

    /** cast_buff_to and ntoh_ACC over an uninitialised struct. */
    method CastAcc(length: nat, stale: AccMem) returns (typeId: byte, session: uint64, id: uint64)
      requires Valid() && length <= response.Length
      ensures var m := Overlay(stale, response[..length]);
              typeId == m[0] && session == Value64(m[1..9]) && id == Value64(m[9..17])
    {
      var mem := new byte[ACC_SIZE](i requires 0 <= i < ACC_SIZE => stale[i]);
      assert mem[..] == stale;
      CastBuffTo(mem, response[..length]);
      ghost var m := mem[..];
      assert m[1..9] == mem[1..9] && m[9..17] == mem[9..17];
      NtohNumbered(mem);
      typeId, session, id := mem[0], Host64(mem[..], 1), Host64(mem[..], 9);
    }

    /** UDPR_client_init_connection. */
    method InitConnection() returns (code: InitCode)
      requires Valid()
      modifies this`pos, this`pinned, this`sent, response
      ensures Valid() && sent == old(sent) + [t.Hello()] && (!code.InitError? ==> !Refused(sends, State(Connecting, 0)))
      ensures var start := old(State(Connecting, 0)).(sent := sent);
              RunAt(t, sends, start, script, old(pos)) ==
              match code
              case InitBlocked => State(Connecting, 0)
              case InitRejected => End(State(Connecting, 0), Rejected)
              case InitError => RunAt(t, sends, Retry(t, State(Connecting, 0)), script, pos)
              case InitSuccess => RunAt(t, sends, SendNext(t, State(Connecting, 0)), script, pos)
    {
      hide NextResponse, Retry, SendNext;
      var conn := new byte[CONN_SIZE];
      InitConn(conn, t.session, UDPR_PROTOCOL, |t.data|);
      var ok := Sendto(conn[..], t.Hello());
      if !ok {
        RefusedErrs(t, sends, State(Connecting, 0), script, pos);
        return InitError;
      }
      RunAtResponds(t, sends, State(Connecting, 0), script, pos);
      var heard := WaitForServerResponse();
      if heard.Nothing? {
        DoneStays(t, sends, State(Connecting, 0), script, pos);
        return InitBlocked;
      }
      if !heard.Got? {
        return InitError;
      }
      var typeId, session := CastHead(|heard.bytes|, heard.env.head);
      if typeId == CONRJT_ID && session == t.session {
        DoneStays(t, sends, End(State(Connecting, 0), Rejected), script, pos);
        return InitRejected;
      }
      if |heard.bytes| != HEAD_SIZE || typeId != CONACC_ID || session != t.session {
        return InitError;
      }
      return InitSuccess;
    }

    /** One packet examined by UDPR_client_handle_ACC; None is `continue`. */
    method ExamineAck(id: nat, heard: Heard) returns (code: Option<WaitCode>)
      requires Valid() && heard.Got? && |heard.bytes| <= response.Length && response[..|heard.bytes|] == heard.bytes
      modifies this`retransmits
      ensures Valid()
      ensures var r := OnAck(t, old(State(Sending, id)), heard.bytes, heard.env.acc);
              match code
              case None => r == State(Sending, id)
              case Some(WaitSuccess) => r == SendNext(t, State(Sending, id + 1))
              case Some(WaitRetransmission) => r == SendNext(t, State(Sending, id))
              case Some(WaitError(result)) => r == End(State(Sending, id), result)
              case Some(WaitBlocked) => false
    {
      hide SendNext;
      var typeId, session, ackId := CastAcc(|heard.bytes|, heard.env.acc);
      if typeId == CONACC_ID {
        if |heard.bytes| != HEAD_SIZE { return Some(WaitError(WrongSize)); }
        if session == t.session && id == 0 { return None; }
        return Some(WaitError(if id != 0 then LateConacc else WrongSession));
      }
      if typeId == RCVD_ID {
        if session != t.session { return Some(WaitError(WrongSession)); }
        if |heard.bytes| != HEAD_SIZE { return Some(WaitError(WrongSize)); }
        retransmits := retransmits + 1;
        if retransmits > MAX_RETRANSMITS { return Some(WaitError(Exhausted)); }
        return Some(WaitRetransmission);
      }
      if typeId != ACC_ID { return Some(WaitError(WrongKind(typeId))); }
      if session != t.session { return Some(WaitError(WrongSession)); }
      if |heard.bytes| != ACC_SIZE { return Some(WaitError(WrongSize)); }
      if ackId < id { return None; }
      if ackId > id { return Some(WaitError(FutureAcc)); }
      return Some(WaitSuccess);
    }

    /** UDPR_client_handle_ACC; is_before_first_acc holds exactly for id 0. */
    method HandleAck(id: nat) returns (code: WaitCode)
      requires Valid() && !Refused(sends, State(Sending, id))
      modifies this`pos, this`pinned, this`retransmits, response
      ensures Valid()
      ensures RunAt(t, sends, old(State(Sending, id)), script, old(pos)) ==
              match code
              case WaitBlocked => State(Sending, id)
              case WaitError(result) => End(State(Sending, id), result)
              case WaitRetransmission => RunAt(t, sends, SendNext(t, State(Sending, id)), script, pos)
              case WaitSuccess => RunAt(t, sends, SendNext(t, State(Sending, id + 1)), script, pos)
      ensures !code.WaitBlocked? && !code.WaitError? ==> old(pos) < pos
    {
      hide NextResponse, SendNext, OnAck;
      ghost var goal := RunAt(t, sends, State(Sending, id), script, pos);
      while true
        invariant Valid() && old(pos) <= pos && sent == old(sent)
        invariant goal == RunAt(t, sends, State(Sending, id), script, pos)
        decreases |script| - pos
      {
        RunAtResponds(t, sends, State(Sending, id), script, pos);
        NextAdvances(t, script, pos, pinned);
        var heard := WaitForServerResponse();
        match heard
        case Nothing =>
          DoneStays(t, sends, State(Sending, id), script, pos);
          return WaitBlocked;
        case TimedOut =>
          retransmits := retransmits + 1;
          if retransmits > MAX_RETRANSMITS {
            DoneStays(t, sends, End(State(Sending, id), Exhausted), script, pos);
            return WaitError(Exhausted);
          }
          return WaitRetransmission;
        case Failed =>
          DoneStays(t, sends, End(State(Sending, id), ReadBroken), script, pos);
          return WaitError(ReadBroken);
        case Got(_, _) =>
          var examined := ExamineAck(id, heard);
          if examined.Some? {
            if examined.value.WaitError? {
              DoneStays(t, sends, End(State(Sending, id), examined.value.result), script, pos);
            }
            return examined.value;
          }
      }
    }

    /** One turn of the send loop up to the wait: copy the next chunk, send it. */
    method SendPiece(id: nat, bytesLeft: uint32, startCpyPos: nat) returns (shift: nat, ok: bool)
      requires Valid() && 0 < bytesLeft <= |t.data|
      requires Counters(bytesLeft, |t.data| - bytesLeft, startCpyPos) == LoopAfter(|t.data|, id) && id <= t.NumPackets()
      modifies this`sent, chunk.buff, chunk.data
      ensures Valid() && id < t.NumPackets()
      ensures shift == if bytesLeft < SEND_BUFF_SIZE then bytesLeft else SEND_BUFF_SIZE
      ensures sent == old(sent) + [t.Packet(id)] && (ok <==> Works(sends, |old(sent)|))
    {
      LoopCounts(|t.data|, id);
      ChunkAtCounters(t, id);
      shift := if bytesLeft < SEND_BUFF_SIZE then bytesLeft else SEND_BUFF_SIZE;
      chunk.Fill(t, id, startCpyPos, shift);
      ok := Sendto(chunk.data[..INFO_SIZE + shift], t.Packet(id));
    }

    /** UDPR_client_send_DATA. */
    method SendData() returns (code: WaitCode, lastId: nat)
      requires Valid() && !Refused(sends, State(Sending, 0))
      modifies this`pos, this`pinned, this`retransmits, this`sent, response, chunk.buff, chunk.data
      ensures Valid() && (!code.WaitBlocked? && !code.WaitError? ==> !Refused(sends, State(Closing, t.NumPackets())))
      ensures RunAt(t, sends, SendNext(t, old(State(Sending, 0))), script, old(pos)) ==
              match code
              case WaitBlocked => State(Sending, lastId)
              case WaitError(result) => End(State(Sending, lastId), result)
              case _ => RunAt(t, sends, State(Closing, t.NumPackets()), script, pos)
    {
      hide NextResponse, Payload, Encode, Offset, LoopStep, LoopAfter, RunAt;
      var bytesLeft: uint32, bytesSent: uint32, startCpyPos: nat := |t.data|, 0, 0;
      var id: nat := 0;
      lastId := 0;
      CountersStart(|t.data|);
      ghost var goal := RunAt(t, sends, SendNext(t, State(Sending, 0)), script, pos);
      while bytesSent < |t.data|
        invariant Valid() && !Refused(sends, State(Sending, id))
        invariant id <= t.NumPackets() && bytesSent == |t.data| - bytesLeft
        invariant Counters(bytesLeft, bytesSent, startCpyPos) == LoopAfter(|t.data|, id)
        invariant goal == RunAt(t, sends, SendNext(t, State(Sending, id)), script, pos)
        decreases |script| - pos
      {
        ghost var before := State(Sending, id);
        var shift, ok := SendPiece(id, bytesLeft, startCpyPos);
        assert SendNext(t, before) == State(Sending, id);
        lastId := id;
        if !ok {
          RefusedErrs(t, sends, State(Sending, id), script, pos);
          DoneStays(t, sends, End(State(Sending, id), ReadBroken), script, pos);
          return WaitError(ReadBroken), id;
        }
        code := HandleAck(id);
        if code.WaitBlocked? || code.WaitError? {
          return;
        }
        if code.WaitSuccess? {
          CountersStep(|t.data|, id);
          id := id + 1;
          bytesSent := (bytesSent + shift) % TWO_32;
          bytesLeft := bytesLeft - shift;
          startCpyPos := startCpyPos + shift;
        }
      }
      CountersEnd(|t.data|, id);
      code := WaitSuccess;
    }

    /** One packet examined by UDPR_client_handle_RCVD, which was given package id 0;
        None is `continue`. */
    method ExamineClose(id: nat, heard: Heard) returns (result: Option<Result>)
      requires Valid() && heard.Got? && |heard.bytes| <= response.Length && response[..|heard.bytes|] == heard.bytes
      ensures OnClose(t, State(Closing, id), heard.bytes, heard.env.head, heard.env.acc) ==
              if result.None? then State(Closing, id) else End(State(Closing, id), result.value)
    {
      var typeId, session := CastHead(|heard.bytes|, heard.env.head);
      if typeId == ACC_ID {
        if session == t.session {
          var _, _, ackId := CastAcc(|heard.bytes|, heard.env.acc);
          if |heard.bytes| != ACC_SIZE { return Some(WrongSize); }
          if ackId > 0 { return Some(FutureAcc); }
          return None;
        } else {
          return Some(WrongSession);
        }
      }
      if typeId != RCVD_ID { return Some(WrongKind(typeId)); }
      if session != t.session { return Some(WrongSession); }
      if |heard.bytes| != HEAD_SIZE { return Some(WrongSize); }
      return Some(Delivered);
    }

    /** UDPR_client_handle_RCVD. */
    method HandleRcvd(id: nat) returns (result: Option<Result>)
      requires Valid() && !Refused(sends, State(Closing, id))
      modifies this`pos, this`pinned, response
      ensures Valid()
      ensures RunAt(t, sends, old(State(Closing, id)), script, old(pos)) ==
              if result.None? then State(Closing, id) else End(State(Closing, id), result.value)
    {
      hide NextResponse, OnClose;
      ghost var goal := RunAt(t, sends, State(Closing, id), script, pos);
      while true
        invariant Valid()
        invariant goal == RunAt(t, sends, State(Closing, id), script, pos)
        decreases |script| - pos
      {
        RunAtResponds(t, sends, State(Closing, id), script, pos);
        NextAdvances(t, script, pos, pinned);
        var heard := WaitForServerResponse();
        match heard
        case Nothing =>
          DoneStays(t, sends, State(Closing, id), script, pos);
          return None;
        case TimedOut =>
          DoneStays(t, sends, End(State(Closing, id), NoRcvd), script, pos);
          return Some(NoRcvd);
        case Failed =>
          DoneStays(t, sends, End(State(Closing, id), ReadBroken), script, pos);
          return Some(ReadBroken);
        case Got(_, _) =>
          result := ExamineClose(id, heard);
          if result.Some? {
            DoneStays(t, sends, End(State(Closing, id), result.value), script, pos);
            return;
          }
      }
    }

    /** The connection loop of UDPR_client_handler. */
    method Connect() returns (code: InitCode)
      requires Valid() && retransmits == 0
      modifies this`pos, this`pinned, this`retransmits, this`sent, response
      ensures Valid() && (!code.InitError? ==> !Refused(sends, State(Connecting, 0)))
      ensures RunAt(t, sends, old(State(Connecting, 0)).(sent := old(sent) + [t.Hello()]), script, old(pos)) ==
              match code
              case InitBlocked => State(Connecting, 0)
              case InitRejected => End(State(Connecting, 0), Rejected)
              case InitError => End(State(Connecting, 0), Exhausted)
              case InitSuccess => RunAt(t, sends, SendNext(t, State(Sending, 0)), script, pos)
    {
      hide RunAt;
      ghost var goal := RunAt(t, sends, State(Connecting, 0).(sent := sent + [t.Hello()]), script, pos);
      while true
        invariant Valid() && retransmits <= MAX_RETRANSMITS
        invariant goal == RunAt(t, sends, State(Connecting, 0).(sent := sent + [t.Hello()]), script, pos)
        decreases MAX_RETRANSMITS - retransmits
      {
        code := InitConnection();
        if !code.InitError? {
          return;
        }
        retransmits := retransmits + 1;
        if retransmits > MAX_RETRANSMITS {
          DoneStays(t, sends, End(State(Connecting, 0), Exhausted), script, pos);
          return;
        }
      }
    }

    /** UDPR_client_handler over the whole script: the final state is the one the step
        function reaches. */
    method UdprClientHandler() returns (final: Client)
      requires Valid() && pos == 0 && retransmits == 0 && sent == [] && pinned.None?
      modifies this`pos, this`pinned, this`retransmits, this`sent, response, chunk.buff, chunk.data
      ensures final == RunOver(t, sends, ClientStart(t), script)
    {
      hide SendNext;
      assert script[0..] == script && sent + [t.Hello()] == [t.Hello()];
      var code := Connect();
      match code
      case InitBlocked => return State(Connecting, 0);
      case InitRejected => return End(State(Connecting, 0), Rejected);
      case InitError => return End(State(Connecting, 0), Exhausted);
      case InitSuccess =>
        var sending, lastId := SendData();
        if sending.WaitBlocked? { return State(Sending, lastId); }
        if sending.WaitError? { return End(State(Sending, lastId), sending.result); }
        var result := HandleRcvd(t.NumPackets());
        if result.None? { return State(Closing, t.NumPackets()); }
        return End(State(Closing, t.NumPackets()), result.value);
    }
  }

  lemma NextAdvances(t: Transfer, script: seq<Event>, pos: nat, pinned: Option<nat>)
    requires pos <= |script|
    ensures var r := NextResponse(t, script, pos, pinned); !r.heard.Nothing? ==> pos < r.pos
  {
  }
}
