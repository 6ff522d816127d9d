// server_UDP_lib.c as a step function over receive events.

/** One UDP or UDPR session of the server, and the session loop around it: what one
    result of recvfrom does to the state. Session.accepted has one element for each
    accepted DATA packet: the payload handed to the print call. */
module UdpSession {
  import opened Packets
  import opened StructMemory
  import opened Network

  datatype Kind = Udp | Udpr

  datatype Outcome =
    | Running
    | Received   // everything came and RCVD was sent
    | Overshot   // more bytes came than CONN declared
    | GaveUp     // out of retransmissions, or a UDP timeout
    | Broken     // recvfrom failed
    | Violated   // the peer broke the protocol

  /** The local variables of UDP_data_receive and UDPR_data_receive; `replyTo` is the
      static client_address, overwritten by every datagram from anywhere. */
  datatype Session = Session(
    peer: Addr, session: uint64, size: uint64,
    recvd: uint64, cur: uint64, retransmits: nat, first: bool,
    replyTo: Addr, accepted: seq<seq<byte>>, outcome: Outcome, sent: seq<Sent>)

  // ----- check_if_correct_DATA_packet and handle_ret_val -----

  datatype DataInfo = DataInfo(typeId: byte, session: uint64, id: uint64, n: uint32)

  datatype Code = Success | WrongType | WrongSession | WrongId | TooLong | WrongSize

  datatype Verdict = Accept | Ignore | Reject(replies: seq<Packet>)

  /** The fields after cast_buff_to and ntoh_DATA_INFO over a struct holding `mem`. */
  function CastInfo(mem: InfoMem, got: seq<byte>): DataInfo {
    var m := Overlay(mem, got);
    DataInfo(m[0], Value64(m[1..9]), Value64(m[9..17]), Value32(m[17..21]))
  }

  function CheckData(d: DataInfo, readBytes: nat, session: uint64, cur: uint64): Code {
    if d.typeId != DATA_ID then WrongType
    else if d.session != session then WrongSession
    else if d.id != cur then WrongId
    else if d.n > MAX_ALLOWED_PACKET_SIZE then TooLong
    else if readBytes != INFO_SIZE + d.n then WrongSize
    else Success
  }

  function HandleRetVal(code: Code, d: DataInfo, readBytes: nat, session: uint64, cur: uint64, first: bool): Verdict {
    match code
    case Success => Accept
    case WrongType =>
      if d.typeId == CONN_ID && readBytes == CONN_SIZE && first then Ignore else Reject([])
    case WrongSession => Reject([Rjt(session, cur)])
    case WrongId =>
      if d.id >= cur then Reject([Rjt(session, d.id)])
      else if readBytes != INFO_SIZE + d.n then Reject([])
      else Ignore
    case _ => Reject([Rjt(session, d.id)])
  }

  function JudgeUdp(code: Code, d: DataInfo, session: uint64): Verdict {
    if code.Success? then Accept else Reject([Rjt(session, d.id)])
  }

  function Judge(kind: Kind, s: Session, got: seq<byte>, mem: InfoMem): Verdict {
    var d := CastInfo(mem, got);
    var code := CheckData(d, |got|, s.session, s.cur);
    if kind.Udp? then JudgeUdp(code, d, s.session)
    else HandleRetVal(code, d, |got|, s.session, s.cur, s.first)
  }

  // ----- The receive loops -----

  /** The reply to a datagram from anyone but the peer. */
  function ForeignReply(src: Addr, got: seq<byte>, env: Env): seq<Sent> {
    var conn := Overlay(env.conn, got);
    var info := CastInfo(env.info, got);
    if conn[0] == CONN_ID then
      if |got| == CONN_SIZE then [Sent(src, Conrjt(Value64(conn[1..9])))] else []
    else if conn[0] == DATA_ID then [Sent(src, Rjt(info.session, info.id))]
    else []
  }

  /** The loop guard, and what follows the loop. */
  function Finish(kind: Kind, s: Session): Session {
    if s.recvd < s.size then s
    else if s.recvd == s.size then
      s.(outcome := Received, sent := s.sent + [Sent(s.replyTo, Rcvd(s.session))])
    else if kind.Udp? then s.(outcome := Overshot)
    else s.(outcome := Overshot, sent := s.sent + [Sent(s.replyTo, Rjt(s.session, s.cur))])
  }

  function Start(kind: Kind, peer: Addr, session: uint64, size: uint64, replyTo: Addr, sent: seq<Sent>): Session {
    Finish(kind, Session(peer, session, size, 0, 0, 0, true, replyTo, [], Running, sent))
  }

  /** curr_package_id - 1 in uint64_t arithmetic. */
  function Previous(cur: uint64): uint64 {
    (cur + TWO_64 - 1) % TWO_64
  }

  /** do_retransmission. */
  function Retransmit(s: Session): Session {
    var again := s.(retransmits := s.retransmits + 1);
    if again.retransmits > MAX_RETRANSMITS then again.(outcome := GaveUp)
    else
      var packet := if s.first then Conacc(s.session) else Acc(s.session, Previous(s.cur));
      again.(sent := s.sent + [Sent(s.peer, packet)])
  }

  /** An accepted DATA packet is acknowledged (UDPR) and counted. */
  function Credit(kind: Kind, s: Session, got: seq<byte>, n: uint32): Session {
    var acks := if kind.Udp? then [] else [Sent(s.replyTo, Acc(s.session, s.cur))];
    var payload := if |got| >= INFO_SIZE then got[INFO_SIZE..] else [];
    s.(sent := s.sent + acks, first := false, cur := (s.cur + 1) % TWO_64,
       recvd := (s.recvd + n) % TWO_64, accepted := s.accepted + [payload])
  }

  function Replies(dst: Addr, packets: seq<Packet>): seq<Sent> {
    seq(|packets|, i requires 0 <= i < |packets| => Sent(dst, packets[i]))
  }

  /** A nonempty datagram from the peer. */
  function FromPeer(kind: Kind, s: Session, got: seq<byte>, mem: InfoMem): Session {
    match Judge(kind, s, got, mem)
    case Accept => Finish(kind, Credit(kind, s, got, CastInfo(mem, got).n))
    case Ignore => s
    case Reject(replies) => s.(outcome := Violated, sent := s.sent + Replies(s.replyTo, replies))
  }

  function Step(kind: Kind, s: Session, e: Event): Session {
    match e
    case Failure => s.(outcome := Broken)
    case Timeout => if kind.Udp? then s.(outcome := GaveUp) else Retransmit(s)
    case Datagram(src, bytes, env) =>
      var got := Truncated(bytes, RECEIVE_BUFFOR_SIZE);
      var heard := s.(replyTo := src);
      if src != s.peer then heard.(sent := s.sent + ForeignReply(src, got, env))
      else if got == [] then heard.(outcome := Broken)
      else FromPeer(kind, heard, got, env.info)
  }

  /** A session over a receive script; events after its end stay in the socket. */
  function Run(kind: Kind, s: Session, script: seq<Event>): Session
    decreases |script|
  {
    if script == [] || !s.outcome.Running? then s
    else Run(kind, Step(kind, s, script[0]), script[1..])
  }

  lemma {:induction false} RunConcat(kind: Kind, s: Session, a: seq<Event>, b: seq<Event>)
    ensures Run(kind, s, a + b) == Run(kind, Run(kind, s, a), b)
    decreases |a|
  {
    if a == [] {
      assert a + b == b;
    } else if s.outcome.Running? {
      assert (a + b)[0] == a[0] && (a + b)[1..] == a[1..] + b;
      RunConcat(kind, Step(kind, s, a[0]), a[1..], b);
    }
  }

  // ----- UDP_server_handler -----

  datatype Live = Live(kind: Kind, session: Session)

  /** `udpAddr` and `udprAddr` are the static addresses of the two receive functions,
      which outlive the sessions; `log` keeps the finished sessions. */
  datatype Server = Server(live: Option<Live>, udpAddr: Addr, udprAddr: Addr, log: seq<Session>, idleSent: seq<Sent>)
  {
    function Sends(): seq<Sent> {
      if live.Some? then live.value.session.sent else idleSent
    }

    /** Every session so far, the running one last. */
    function Sessions(): seq<Session> {
      if live.Some? then log + [live.value.session] else log
    }
  }

  function Resume(srv: Server, kind: Kind, s: Session): Server {
    if s.outcome.Running? then srv.(live := Some(Live(kind, s)))
    else
      var done := srv.(live := None, log := srv.log + [s], idleSent := s.sent);
      if kind.Udp? then done.(udpAddr := s.replyTo) else done.(udprAddr := s.replyTo)
  }

  function Idle(srv: Server, e: Event): Server {
    match e
    case Failure => srv
    case Timeout => srv
    case Datagram(src, bytes, env) =>
      var got := Truncated(bytes, RECEIVE_BUFFOR_SIZE);
      var conn := Overlay(env.conn, got);
      var session := Value64(conn[1..9]);
      if got == [] then srv
      else if |got| != CONN_SIZE || conn[0] != CONN_ID || (conn[9] != UDP_PROTOCOL && conn[9] != UDPR_PROTOCOL)
      then srv.(idleSent := srv.idleSent + [Sent(src, Conrjt(session))])
      else if !env.sendOk then srv
      else
        var kind := if conn[9] == UDP_PROTOCOL then Udp else Udpr;
        var last := if kind.Udp? then srv.udpAddr else srv.udprAddr;
        Resume(srv, kind, Start(kind, src, session, Value64(conn[10..18]), last,
                                srv.idleSent + [Sent(src, Conacc(session))]))
  }

  function ServerStep(srv: Server, e: Event): Server {
    match srv.live
    case None => Idle(srv, e)
    case Some(l) => Resume(srv, l.kind, Step(l.kind, l.session, e))
  }

  function ServerRun(srv: Server, script: seq<Event>): Server
    decreases |script|
  {
    if script == [] then srv else ServerRun(ServerStep(srv, script[0]), script[1..])
  }
}
