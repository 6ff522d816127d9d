// server_UDP_lib.c with its loops, buffers and static variables.

/** The UDP server in the shape of its source, proved to compute the step functions of
    UdpSession. */
module UdpServer {
  import opened Packets
  import opened StructMemory
  import opened Network
  import opened UdpSession

  // ----- Runs with positions in the script -----

  datatype ReadResult = Blocked | TimedOut | Failed | Got(bytes: seq<byte>, env: Env)

  datatype Read = Read(result: ReadResult, pos: nat, addr: Addr, sent: seq<Sent>)

  /** read_data_to_buffer over the script: answer other senders until something else
      happens. Without a peer (the session loop) nobody is foreign. */
  function NextRead(script: seq<Event>, pos: nat, peer: Option<Addr>, addr: Addr, sent: seq<Sent>): (r: Read)
    requires pos <= |script|
    ensures pos <= r.pos <= |script|
    ensures !r.result.Blocked? ==> pos < r.pos
    ensures r.result.Blocked? ==> r.pos == |script|
    ensures r.result.Got? && peer.Some? ==> r.addr == peer.value
    ensures r.result.Got? ==> 0 < |r.result.bytes| <= RECEIVE_BUFFOR_SIZE
    decreases |script| - pos
  {
    if pos == |script| then Read(Blocked, pos, addr, sent)
    else match script[pos]
      case Timeout => Read(TimedOut, pos + 1, addr, sent)
      case Failure => Read(Failed, pos + 1, addr, sent)
      case Datagram(src, bytes, env) =>
        var got := Truncated(bytes, RECEIVE_BUFFOR_SIZE);
        if peer.Some? && src != peer.value
        then NextRead(script, pos + 1, peer, src, sent + ForeignReply(src, got, env))
        else if got == [] then Read(Failed, pos + 1, src, sent)
        else Read(Got(got, env), pos + 1, src, sent)
  }

  datatype Ran = Ran(session: Session, pos: nat)

  /** A session from a position of the script: its final state and where it stopped. */
  function RunFrom(kind: Kind, s: Session, script: seq<Event>, pos: nat): (r: Ran)
    requires pos <= |script|
    ensures pos <= r.pos <= |script|
    ensures r.session.outcome.Running? ==> r.pos == |script|
    decreases |script| - pos
  {
    if pos == |script| || !s.outcome.Running? then Ran(s, pos)
    else RunFrom(kind, Step(kind, s, script[pos]), script, pos + 1)
  }

  lemma {:induction false} RunFromIsRun(kind: Kind, s: Session, script: seq<Event>, pos: nat)
    requires pos <= |script|
    ensures RunFrom(kind, s, script, pos).session == Run(kind, s, script[pos..])
    decreases |script| - pos
  {
    hide Step;
    if pos == |script| || !s.outcome.Running? {
    } else {
      assert script[pos..][0] == script[pos] && script[pos..][1..] == script[pos + 1..];
      RunFromIsRun(kind, Step(kind, s, script[pos]), script, pos + 1);
    }
  }

  /** What the session does with the next thing it reads. */
  function AfterRead(kind: Kind, s: Session, r: Read): Session {
    var heard := s.(replyTo := r.addr, sent := r.sent);
    match r.result
    case Blocked => heard
    case TimedOut => Step(kind, heard, Timeout)
    case Failed => heard.(outcome := Broken)
    case Got(bytes, env) => FromPeer(kind, heard, bytes, env.info)
  }

  lemma {:induction false} RunFromReads(kind: Kind, s: Session, script: seq<Event>, pos: nat)
    requires pos <= |script| && s.outcome.Running?
    ensures var r := NextRead(script, pos, Some(s.peer), s.replyTo, s.sent);
            RunFrom(kind, s, script, pos) == RunFrom(kind, AfterRead(kind, s, r), script, r.pos)
    decreases |script| - pos
  {
    hide FromPeer, ForeignReply;
    if pos == |script| {
      assert s == s.(replyTo := s.replyTo, sent := s.sent);
    } else if script[pos].Datagram? && script[pos].src != s.peer {
      RunFromReads(kind, Step(kind, s, script[pos]), script, pos + 1);
    } else {
      assert s == s.(replyTo := s.replyTo, sent := s.sent);
    }
  }

  /** The session loop resumes where the session stopped. */
  lemma {:induction false} ServerRunsSession(srv: Server, kind: Kind, s: Session, script: seq<Event>, pos: nat)
    requires pos <= |script| && srv.live.None?
    ensures var r := RunFrom(kind, s, script, pos);
            ServerRun(Resume(srv, kind, s), script[pos..]) == ServerRun(Resume(srv, kind, r.session), script[r.pos..])
    decreases |script| - pos
  {
    hide Step, Idle;
    if pos == |script| || !s.outcome.Running? {
    } else {
      var next := Step(kind, s, script[pos]);
      assert script[pos..][0] == script[pos] && script[pos..][1..] == script[pos + 1..];
      assert Resume(Resume(srv, kind, s), kind, next) == Resume(srv, kind, next);
      ServerRunsSession(srv, kind, next, script, pos + 1);
    }
  }

  // ----- The server -----

  datatype Status = ReadTimeout | ReadError | ReadSuccess | ReadBlocked

  class Socket {
    const script: seq<Event>  // everything recvfrom is going to return
    var pos: nat
    const buff: array<byte>   // the static receive buffer
    var sent: seq<Sent>

    ghost predicate Valid()
      reads this
    {
      pos <= |script| && buff.Length == RECEIVE_BUFFOR_SIZE
    }

    constructor (script: seq<Event>)
      ensures Valid() && this.script == script && pos == 0 && sent == [] && fresh(buff)
    {
      this.script := script;
      pos := 0;
      buff := new byte[RECEIVE_BUFFOR_SIZE];
      sent := [];
    }

    /** sendto_wrapper: the bytes handed over are the encoding of a packet. */
    method Sendto(dst: Addr, bytes: seq<byte>, packet: Packet)
      requires bytes == Encode(packet)
      modifies this`sent
      ensures sent == old(sent) + [Sent(dst, packet)]
    {
      sent := sent + [Sent(dst, packet)];
    }

    /** send_CONACC, send_CONRJT and send_RCVD. */
    method SendHead(dst: Addr, packet: Packet)
      requires packet.Conacc? || packet.Conrjt? || packet.Rcvd?
      modifies this`sent
      ensures sent == old(sent) + [Sent(dst, packet)]
    {
      var mem := new byte[HEAD_SIZE];
      InitHead(mem, packet);
      Sendto(dst, mem[..], packet);
    }

    /** send_ACC and send_RJT. */
    method SendNumbered(dst: Addr, packet: Packet)
      requires packet.Acc? || packet.Rjt?
      modifies this`sent
      ensures sent == old(sent) + [Sent(dst, packet)]
    {
      var mem := new byte[ACC_SIZE];
      InitNumbered(mem, packet);
      Sendto(dst, mem[..], packet);
    }

    /** memset and recvfrom: nothing stays of the previous datagram. */
    method Recvfrom() returns (e: Event, read: nat)
      requires Valid() && pos < |script|
      modifies this`pos, buff
      ensures Valid() && pos == old(pos) + 1 && e == script[old(pos)]
      ensures e.Datagram? ==> read <= RECEIVE_BUFFOR_SIZE && buff[..read] == Truncated(e.bytes, RECEIVE_BUFFOR_SIZE)
      ensures forall i :: read <= i < buff.Length ==> buff[i] == 0
    {
      e := script[pos];
      pos := pos + 1;
      var got := if e.Datagram? then Truncated(e.bytes, RECEIVE_BUFFOR_SIZE) else [];
      read := |got|;
      forall i | 0 <= i < buff.Length {
        buff[i] := if i < |got| then got[i] else 0;
      }
      assert buff[..read] == got;
    }

    /** cast_buff_to and ntoh_DATA_INFO over an uninitialised struct. */
    method CastDataInfo(read: nat, stale: InfoMem) returns (d: DataInfo)
      requires Valid() && read <= buff.Length
      ensures d == CastInfo(stale, buff[..read])
    {
      var mem := new byte[INFO_SIZE](i requires 0 <= i < INFO_SIZE => stale[i]);
      assert mem[..] == stale;
      CastBuffTo(mem, buff[..read]);
      ghost var m := mem[..];
      assert m == Overlay(stale, buff[..read]);
      assert m[1..9] == mem[1..9] && m[9..17] == mem[9..17] && m[17..21] == mem[17..21];
      NtohDataInfo(mem);
      d := DataInfo(mem[0], Host64(mem[..], 1), Host64(mem[..], 9), Host32(mem[..], 17));
    }

    /** cast_buff_to and ntoh_CONN over an uninitialised struct. */
    method CastConn(read: nat, stale: ConnMem) returns (typeId: byte, session: uint64, protocol: byte, size: uint64)
      requires Valid() && read <= buff.Length
      ensures var m := Overlay(stale, buff[..read]);
              typeId == m[0] && session == Value64(m[1..9]) && protocol == m[9] && size == Value64(m[10..18])
    {
      var mem := new byte[CONN_SIZE](i requires 0 <= i < CONN_SIZE => stale[i]);
      assert mem[..] == stale;
      CastBuffTo(mem, buff[..read]);
      ghost var m := mem[..];
      assert m == Overlay(stale, buff[..read]);
      assert m[1..9] == mem[1..9] && m[10..18] == mem[10..18];
      NtohConn(mem);
      typeId, session, protocol, size := mem[0], Host64(mem[..], 1), mem[9], Host64(mem[..], 10);
    }

    /** The replies of read_data_to_buffer to other senders. */
    method AnswerForeign(src: Addr, read: nat, env: Env)
      requires Valid() && read <= buff.Length
      modifies this`sent
      ensures sent == old(sent) + ForeignReply(src, buff[..read], env)
    {
      var typeId, session, _, _ := CastConn(read, env.conn);
      if typeId == CONN_ID {
        if read == CONN_SIZE {
          SendHead(src, Conrjt(session));
        }
      } else if typeId == DATA_ID {
        var d := CastDataInfo(read, env.info);
        SendNumbered(src, Rjt(d.session, d.id));
      }
    }

    /** read_data_to_buffer. */
    method ReadDataToBuffer(correct: Option<Addr>, from: Addr)
      returns (status: Status, addr: Addr, read: nat, env: Env)
      requires Valid()
      modifies this`pos, this`sent, buff
      ensures Valid() && read <= buff.Length
      ensures var r := NextRead(script, old(pos), correct, from, old(sent));
              && pos == r.pos && addr == r.addr && sent == r.sent
              && match r.result
                 case Blocked => status.ReadBlocked?
                 case TimedOut => status.ReadTimeout?
                 case Failed => status.ReadError?
                 case Got(bytes, e) => status.ReadSuccess? && env == e && buff[..read] == bytes
    {
      hide ForeignReply;
      addr := from;
      read := 0;
      env := Env(seq(CONN_SIZE, _ => 0), seq(INFO_SIZE, _ => 0), seq(ACC_SIZE, _ => 0), seq(HEAD_SIZE, _ => 0), true, true);
      while pos < |script|
        invariant Valid() && old(pos) <= pos
        invariant NextRead(script, pos, correct, addr, sent) == NextRead(script, old(pos), correct, from, old(sent))
        decreases |script| - pos
      {
        var e, n := Recvfrom();
        read := if e.Datagram? then n else 0;
        match e
        case Timeout => return ReadTimeout, addr, 0, env;
        case Failure => return ReadError, addr, 0, env;
        case Datagram(src, bytes, choice) =>
          addr, env := src, choice;
          if correct.Some? && src != correct.value {
            AnswerForeign(src, read, env);
          } else if read == 0 {
            return ReadError, addr, 0, env;
          } else {
            return ReadSuccess, addr, read, env;
          }
      }
      return ReadBlocked, addr, 0, env;
    }

    /** check_if_correct_DATA_packet. */
    method CheckIfCorrectDataPacket(read: nat, session: uint64, cur: uint64, stale: InfoMem)
      returns (code: Code, d: DataInfo)
      requires Valid() && read <= buff.Length
      ensures d == CastInfo(stale, buff[..read]) && code == CheckData(d, read, session, cur)
    {
      d := CastDataInfo(read, stale);
      if d.typeId != DATA_ID { return WrongType, d; }
      if d.session != session { return WrongSession, d; }
      if d.id != cur { return WrongId, d; }
      if d.n > MAX_ALLOWED_PACKET_SIZE { return TooLong, d; }
      if read != INFO_SIZE + d.n { return WrongSize, d; }
      return Success, d;
    }

    /** handle_ret_val: the verdict, with its refusal sent. */
    method HandleRetValue(code: Code, dst: Addr, read: nat, cur: uint64, d: DataInfo, session: uint64, first: bool)
      returns (v: Verdict)
      modifies this`sent
      ensures v == HandleRetVal(code, d, read, session, cur, first)
      ensures sent == old(sent) + (if v.Reject? then Replies(dst, v.replies) else [])
    {
      if code == WrongType {
        if d.typeId == CONN_ID {
          if read != CONN_SIZE { return Reject([]); }
          if first { return Ignore; } else { return Reject([]); }
        } else {
          return Reject([]);
        }
      } else if code == WrongSession {
        SendNumbered(dst, Rjt(session, cur));
        return Reject([Rjt(session, cur)]);
      } else if code == WrongId {
        if d.id < cur {
          if read != INFO_SIZE + d.n { return Reject([]); }
          return Ignore;
        } else {
          SendNumbered(dst, Rjt(session, d.id));
          return Reject([Rjt(session, d.id)]);
        }
      } else if code != Success {
        SendNumbered(dst, Rjt(session, d.id));
        return Reject([Rjt(session, d.id)]);
      }
      return Accept;
    }
  }

  class Handler {
    const socket: Socket
    var udpAddr: Addr   // static client_address of UDP_data_receive
    var udprAddr: Addr  // static client_address of UDPR_data_receive
    ghost var log: seq<Session>

    ghost predicate Valid()
      reads this, socket
    {
      socket.Valid()
    }

    constructor (socket: Socket, udpAddr: Addr, udprAddr: Addr)
      requires socket.Valid()
      ensures Valid() && this.socket == socket && this.udpAddr == udpAddr && this.udprAddr == udprAddr && log == []
    {
      this.socket := socket;
      this.udpAddr := udpAddr;
      this.udprAddr := udprAddr;
      log := [];
    }

    /** UDP_data_receive; `s` holds its local variables and the static address. */
    method UdpDataReceive(session: uint64, size: uint64, peer: Addr) returns (s: Session)
      requires Valid()
      modifies this`udpAddr, socket`pos, socket`sent, socket.buff
      ensures Valid() && socket.sent == s.sent && udpAddr == s.replyTo
      ensures Ran(s, socket.pos) == RunFrom(Udp,
                Start(Udp, peer, session, size, old(udpAddr), old(socket.sent)), socket.script, old(socket.pos))
    {
      hide Judge, ForeignReply, CastInfo, CheckData, NextRead;
      s := Session(peer, session, size, 0, 0, 0, true, udpAddr, [], Running, socket.sent);
      ghost var goal := RunFrom(Udp, Finish(Udp, s), socket.script, socket.pos);
      while s.recvd < s.size
        invariant Valid() && s.peer == peer && s.outcome.Running? && s.sent == socket.sent && s.replyTo == udpAddr
        invariant goal == RunFrom(Udp, Finish(Udp, s), socket.script, socket.pos)
        decreases |socket.script| - socket.pos
      {
        RunFromReads(Udp, s, socket.script, socket.pos);
        var status, addr, read, env := socket.ReadDataToBuffer(Some(peer), udpAddr);
        udpAddr := addr;
        s := s.(replyTo := addr, sent := socket.sent);
        if status.ReadBlocked? {
          return;
        }
        if status.ReadTimeout? || status.ReadError? {
          s := s.(outcome := if status.ReadTimeout? then GaveUp else Broken);
          return;
        }
        s := UdpCheckAndCount(s, read, env);
        if s.outcome.Violated? {
          return;
        }
      }
      if s.recvd == s.size {
        socket.SendHead(udpAddr, Rcvd(s.session));
        s := s.(outcome := Received, sent := socket.sent);
      } else {
        s := s.(outcome := Overshot);
      }
    }

    /** The rest of the loop body, once a datagram of the peer is in the buffer. */
    method UdpCheckAndCount(before: Session, read: nat, env: Env) returns (s: Session)
      requires Valid() && read <= socket.buff.Length && before.outcome.Running? && before.sent == socket.sent
      modifies socket`sent
      ensures s.sent == socket.sent && s.replyTo == before.replyTo && s.peer == before.peer
      ensures s.outcome.Running? || s.outcome.Violated?
      ensures FromPeer(Udp, before, socket.buff[..read], env.info) == if s.outcome.Running? then Finish(Udp, s) else s
    {
      hide CastInfo, CheckData;
      s := before;
      var code, d := socket.CheckIfCorrectDataPacket(read, s.session, s.cur, env.info);
      if code != Success {
        socket.SendNumbered(s.replyTo, Rjt(s.session, d.id));
        s := s.(outcome := Violated, sent := socket.sent);
        return;
      }
      s := s.(first := false, cur := (s.cur + 1) % TWO_64, recvd := (s.recvd + d.n) % TWO_64);
      s := s.(accepted := s.accepted + [if read >= INFO_SIZE then socket.buff[INFO_SIZE..read] else []]);
    }

    /** do_retransmission. */
    method DoRetransmission(before: Session) returns (s: Session)
      requires Valid() && before.outcome.Running? && before.sent == socket.sent
      modifies socket`sent
      ensures s == Retransmit(before) && s.sent == socket.sent
    {
      s := before.(retransmits := before.retransmits + 1);
      if s.retransmits > MAX_RETRANSMITS {
        s := s.(outcome := GaveUp);
        return;
      }
      if s.first {
        socket.SendHead(s.peer, Conacc(s.session));
      } else {
        socket.SendNumbered(s.peer, Acc(s.session, Previous(s.cur)));
      }
      s := s.(sent := socket.sent);
    }

    /** The checks of UDPR_data_receive and its acknowledgement. */
    method UdprCheckAndCount(before: Session, read: nat, env: Env) returns (s: Session)
      requires Valid() && read <= socket.buff.Length && before.outcome.Running? && before.sent == socket.sent
      requires before.recvd < before.size
      modifies socket`sent
      ensures s.sent == socket.sent && s.replyTo == before.replyTo && s.peer == before.peer
      ensures s.outcome.Running? || s.outcome.Violated?
      ensures FromPeer(Udpr, before, socket.buff[..read], env.info) == if s.outcome.Running? then Finish(Udpr, s) else s
    {
      hide CastInfo, CheckData, HandleRetVal;
      s := before;
      var code, d := socket.CheckIfCorrectDataPacket(read, s.session, s.cur, env.info);
      var v := socket.HandleRetValue(code, s.replyTo, read, s.cur, d, s.session, s.first);
      s := s.(sent := socket.sent);
      if v.Reject? {
        s := s.(outcome := Violated);
        return;
      }
      if v.Ignore? {
        return;
      }
      socket.SendNumbered(s.replyTo, Acc(s.session, s.cur));
      s := s.(sent := socket.sent, first := false, cur := (s.cur + 1) % TWO_64, recvd := (s.recvd + d.n) % TWO_64);
      s := s.(accepted := s.accepted + [if read >= INFO_SIZE then socket.buff[INFO_SIZE..read] else []]);
    }

    /** UDPR_data_receive; `s` holds its local variables and the static address. */
    method UdprDataReceive(session: uint64, size: uint64, peer: Addr) returns (s: Session)
      requires Valid()
      modifies this`udprAddr, socket`pos, socket`sent, socket.buff
      ensures Valid() && socket.sent == s.sent && udprAddr == s.replyTo
      ensures Ran(s, socket.pos) == RunFrom(Udpr,
                Start(Udpr, peer, session, size, old(udprAddr), old(socket.sent)), socket.script, old(socket.pos))
    {
      hide Judge, ForeignReply, CastInfo, CheckData, NextRead;
      s := Session(peer, session, size, 0, 0, 0, true, udprAddr, [], Running, socket.sent);
      ghost var goal := RunFrom(Udpr, Finish(Udpr, s), socket.script, socket.pos);
      while s.recvd < s.size
        invariant Valid() && s.peer == peer && s.outcome.Running? && s.sent == socket.sent && s.replyTo == udprAddr
        invariant goal == RunFrom(Udpr, Finish(Udpr, s), socket.script, socket.pos)
        decreases |socket.script| - socket.pos
      {
        RunFromReads(Udpr, s, socket.script, socket.pos);
        var status, addr, read, env := socket.ReadDataToBuffer(Some(peer), udprAddr);
        udprAddr := addr;
        s := s.(replyTo := addr, sent := socket.sent);
        if status.ReadBlocked? {
          return;
        }
        if status.ReadError? {
          s := s.(outcome := Broken);
          return;
        }
        if status.ReadTimeout? {
          s := DoRetransmission(s);
          if s.outcome.GaveUp? {
            return;
          }
        } else {
          s := UdprCheckAndCount(s, read, env);
          if s.outcome.Violated? {
            return;
          }
        }
      }
      if s.recvd == s.size {
        socket.SendHead(udprAddr, Rcvd(s.session));
        s := s.(outcome := Received, sent := socket.sent);
      } else {
        socket.SendNumbered(udprAddr, Rjt(s.session, s.cur));
        s := s.(outcome := Overshot, sent := socket.sent);
      }
    }

    /** One turn of the session loop as far as CONACC; without a session to start, the
        state it leaves is that of an idle server. */
    method AwaitConn() returns (blocked: bool, conn: Option<ConnRequest>)
      requires Valid()
      modifies socket`pos, socket`sent, socket.buff
      ensures Valid() && (blocked <==> old(socket.pos) == |socket.script|)
      ensures blocked ==> conn.None? && socket.pos == old(socket.pos) && socket.sent == old(socket.sent)
      ensures !blocked ==>
        && socket.pos == old(socket.pos) + 1
        && var next := Idle(Server(None, udpAddr, udprAddr, log, old(socket.sent)), socket.script[old(socket.pos)]);
           match conn
           case None => next == Server(None, udpAddr, udprAddr, log, socket.sent)
           case Some(c) => next == Resume(Server(None, udpAddr, udprAddr, log, old(socket.sent)), c.kind,
             Start(c.kind, c.src, c.session, c.size, if c.kind.Udp? then udpAddr else udprAddr, socket.sent))
    {
      ghost var e := if socket.pos < |socket.script| then socket.script[socket.pos] else Failure;
      var status, src, read, env := socket.ReadDataToBuffer(None, Addr(0, 0));
      if status.ReadBlocked? {
        return true, None;
      }
      if status.ReadError? || status.ReadTimeout? {
        return false, None;
      }
      assert e.Datagram? && env == e.env && src == e.src;
      var typeId, session, protocol, size := socket.CastConn(read, env.conn);
      if read != CONN_SIZE || typeId != CONN_ID || (protocol != UDP_PROTOCOL && protocol != UDPR_PROTOCOL) {
        socket.SendHead(src, Conrjt(session));
        return false, None;
      }
      if !env.sendOk {
        return false, None;
      }
      socket.SendHead(src, Conacc(session));
      return false, Some(ConnRequest(if protocol == UDP_PROTOCOL then Udp else Udpr, src, session, size));
    }

    /** UDP_server_handler over the whole script: sessions follow one another, each on
        what the previous one left in the socket and in the static addresses. */
    method UdpServerHandler() returns (live: Option<Live>)
      requires Valid()
      modifies this, socket`pos, socket`sent, socket.buff
      ensures Valid() && socket.pos == |socket.script|
      ensures var srv := ServerRun(Server(None, old(udpAddr), old(udprAddr), old(log), old(socket.sent)),
                                   socket.script[old(socket.pos)..]);
              && srv.live == live && srv.log == log && srv.Sends() == socket.sent
              && (live.None? ==> srv.udpAddr == udpAddr && srv.udprAddr == udprAddr)
    {
      hide Idle, Start, RunFrom, Step;
      live := None;
      ghost var goal := ServerRun(Server(None, udpAddr, udprAddr, log, socket.sent), socket.script[socket.pos..]);
      while socket.pos < |socket.script|
        invariant Valid() && live.None?
        invariant goal == ServerRun(Server(None, udpAddr, udprAddr, log, socket.sent), socket.script[socket.pos..])
        decreases |socket.script| - socket.pos
      {
        ghost var srv := Server(None, udpAddr, udprAddr, log, socket.sent);
        ghost var rest := socket.script[socket.pos..];
        assert rest[0] == socket.script[socket.pos] && rest[1..] == socket.script[socket.pos + 1..];
        var _, conn := AwaitConn();
        if conn.Some? {
          var c := conn.value;
          ghost var start := Start(c.kind, c.src, c.session, c.size, if c.kind.Udp? then udpAddr else udprAddr, socket.sent);
          ServerRunsSession(srv, c.kind, start, socket.script, socket.pos);
          var s: Session;
          if c.kind.Udp? {
            s := UdpDataReceive(c.session, c.size, c.src);
          } else {
            s := UdprDataReceive(c.session, c.size, c.src);
          }
          if s.outcome.Running? {
            live := Some(Live(c.kind, s));
            assert socket.script[socket.pos..] == [];
            return;
          }
          log := log + [s];
        }
      }
      assert socket.script[socket.pos..] == [];
    }
  }

  datatype ConnRequest = ConnRequest(kind: Kind, src: Addr, session: uint64, size: uint64)
}
