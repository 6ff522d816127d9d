// What the server does with a CONN or a DATA packet, whichever state it is in.

/** README.md:38 promises that the server ignores packets it has received before. Over
    every state of the server, and whatever its structs held: when it does, and what it
    does otherwise. */
module Repeats {
  import opened Packets
  import opened StructMemory
  import opened Network
  import opened UdpSession
  import opened UdpSessionProperties

  /** The session loop keeps a session for as long as it runs. */
  predicate WellKept(srv: Server) {
    srv.live.Some? ==> srv.live.value.session.outcome.Running?
  }

  lemma StaysWellKept(srv: Server, e: Event)
    requires WellKept(srv)
    ensures WellKept(ServerStep(srv, e))
  {
    hide Step, Start;
  }

  /** Nothing was sent, accepted, begun or ended; at most the static reply address of the
      running session is another. */
  predicate Unmoved(before: Server, after: Server) {
    match before.live
    case None => after == before
    case Some(l) =>
      after.live.Some?
      && after == before.(live := Some(l.(session := l.session.(replyTo := after.live.value.session.replyTo))))
  }

  /** A session with this address, over UDPR, is running. */
  predicate Serves(srv: Server, src: Addr) {
    srv.live.Some? && srv.live.value.kind.Udpr? && srv.live.value.session.peer == src
  }

  lemma WholeConn(p: Packet, mem: ConnMem)
    requires p.Conn?
    ensures var got := Truncated(Encode(p), RECEIVE_BUFFOR_SIZE); var m := Overlay(mem, got);
            && got == Encode(p) && LooksLikeConn(got)
            && m[0] == CONN_ID && m[9] == p.protocol && Value64(m[1..9]) == p.session && Value64(m[10..18]) == p.size
  {
    EncodedFields(p);
    assert Overlay(mem, Encode(p)) == Encode(p);
  }

  /** How a running session of the sender takes a CONN. */
  lemma ConnInSession(kind: Kind, s: Session, got: seq<byte>, mem: InfoMem)
    requires s.outcome.Running? && LooksLikeConn(got)
    ensures if kind.Udpr? && s.first then FromPeer(kind, s, got, mem) == s
            else FromPeer(kind, s, got, mem).outcome.Violated? && FromPeer(kind, s, got, mem).accepted == s.accepted
  {
    JudgeMeansParse(kind, s, got, mem);
    if kind.Udpr? {
      OldConnInSession(s, got, mem);
    }
  }

  /** A UDPR CONN, new or old. Nothing changes exactly if a session with its sender is
      running and has accepted nothing, or if the server is idle and its CONACC cannot be
      sent. Otherwise an idle server begins a session, the transfer anew if it is an old
      CONN; a session of the sender ends; and in a session of another it is refused. */
  lemma ConnAtServer(srv: Server, src: Addr, session: uint64, size: uint64, env: Env)
    requires WellKept(srv)
    ensures var after := ServerStep(srv, Datagram(src, Encode(Conn(session, UDPR_PROTOCOL, size)), env));
            && (Unmoved(srv, after) <==>
                if srv.live.None? then !env.sendOk else Serves(srv, src) && srv.live.value.session.first)
            && match srv.live
               case None =>
                 env.sendOk ==>
                   && |after.Sessions()| == |srv.Sessions()| + 1 && after.Sessions()[..|srv.Sessions()|] == srv.Sessions()
                   && after.Sessions()[|srv.Sessions()|]
                      == Start(Udpr, src, session, size, srv.udprAddr, srv.idleSent + [Sent(src, Conacc(session))])
               case Some(l) =>
                 if l.session.peer != src
                 then after.Sends() == srv.Sends() + [Sent(src, Conrjt(session))] && after.live.Some?
                 else !Unmoved(srv, after) ==>
                        && after.live.None? && |after.log| == |srv.log| + 1
                        && after.log[|srv.log|].outcome.Violated? && after.log[|srv.log|].accepted == l.session.accepted
  {
    hide Encode, FromPeer, Start;
    var p := Conn(session, UDPR_PROTOCOL, size);
    WholeConn(p, env.conn);
    if srv.live.None? {
      assert srv.idleSent + [Sent(src, Conacc(session))] != srv.idleSent;
      if env.sendOk {
        Begins(srv, src, session, size);
      }
    } else {
      var l := srv.live.value;
      var heard, got := l.session.(replyTo := src), Encode(p);
      if l.session.peer == src {
        ConnInSession(l.kind, heard, got, env.info);
      } else {
        ForeignAnswer(src, got, env);
        EncodedFields(p);
        assert l.session.sent + [Sent(src, Conrjt(session))] != l.session.sent;
      }
    }
  }

  lemma Begins(srv: Server, src: Addr, session: uint64, size: uint64)
    requires srv.live.None?
    ensures var s := Start(Udpr, src, session, size, srv.udprAddr, srv.idleSent + [Sent(src, Conacc(session))]);
            Resume(srv, Udpr, s).Sessions() == srv.Sessions() + [s]
  {
    hide Start;
  }

  lemma WholeData(p: Packet, mem: InfoMem)
    requires p.Data? && |p.payload| <= MAX_ALLOWED_PACKET_SIZE
    ensures var got := Encode(p);
            && Truncated(got, RECEIVE_BUFFOR_SIZE) == got && Parse(got) == Some(p)
            && |got| == INFO_SIZE + |p.payload| && got[INFO_SIZE..] == p.payload
            && got[0] == DATA_ID && Value64(got[1..9]) == p.session && Value64(got[9..17]) == p.id
  {
    EncodedFields(p);
    ParseEncode(p);
  }

  /** How a running session of the sender takes a DATA packet. */
  lemma DataInSession(kind: Kind, s: Session, p: Packet, mem: InfoMem)
    requires s.outcome.Running? && p.Data? && |p.payload| <= MAX_ALLOWED_PACKET_SIZE
    ensures var t := FromPeer(kind, s, Encode(p), mem);
            if p.session == s.session && p.id == s.cur then t.accepted == s.accepted + [p.payload]
            else if kind.Udpr? && p.session == s.session && p.id < s.cur then t == s
            else t.outcome.Violated? && t.accepted == s.accepted
  {
    hide Encode;
    WholeData(p, mem);
    JudgeMeansParse(kind, s, Encode(p), mem);
  }

  /** A DATA packet, new or old. Nothing changes exactly if a session with its sender and
      its session id is running over UDPR and is past its id. Otherwise it is accepted if
      it is the next; ends a session of the sender; and is refused by an idle server with
      CONRJT and in a session of another with RJT. */
  lemma DataAtServer(srv: Server, src: Addr, p: Packet, env: Env)
    requires WellKept(srv) && p.Data? && |p.payload| <= MAX_ALLOWED_PACKET_SIZE
    ensures var after := ServerStep(srv, Datagram(src, Encode(p), env));
            && (Unmoved(srv, after) <==>
                Serves(srv, src) && srv.live.value.session.session == p.session && p.id < srv.live.value.session.cur)
            && match srv.live
               case None => after == srv.(idleSent := srv.idleSent + [Sent(src, Conrjt(p.session))])
               case Some(l) =>
                 if l.session.peer != src
                 then after.Sends() == srv.Sends() + [Sent(src, Rjt(p.session, p.id))] && after.live.Some?
                 else var t := after.Sessions()[|srv.log|];
                      if p.session == l.session.session && p.id == l.session.cur
                      then t.accepted == l.session.accepted + [p.payload]
                      else !Unmoved(srv, after) ==> t.outcome.Violated? && t.accepted == l.session.accepted
  {
    hide Encode, FromPeer, Start;
    WholeData(p, env.info);
    var got := Encode(p);
    if srv.live.None? {
      HeadSurvivesCast(p, env.conn);
      assert srv.idleSent + [Sent(src, Conrjt(p.session))] != srv.idleSent;
    } else {
      var l := srv.live.value;
      var heard := l.session.(replyTo := src);
      if l.session.peer == src {
        DataInSession(l.kind, heard, p, env.info);
        assert heard.accepted + [p.payload] != heard.accepted;
        ResumeLogs(srv, l.kind, FromPeer(l.kind, heard, got, env.info));
      } else {
        ForeignData(src, p, env);
        assert l.session.sent + [Sent(src, Rjt(p.session, p.id))] != l.session.sent;
      }
    }
  }

  lemma ResumeLogs(srv: Server, kind: Kind, t: Session)
    ensures |Resume(srv, kind, t).Sessions()| == |srv.log| + 1 && Resume(srv, kind, t).Sessions()[|srv.log|] == t
  {
  }

  lemma ForeignData(src: Addr, p: Packet, env: Env)
    requires p.Data? && |p.payload| <= MAX_ALLOWED_PACKET_SIZE
    ensures ForeignReply(src, Encode(p), env) == [Sent(src, Rjt(p.session, p.id))]
  {
    hide Encode, ForeignReply;
    WholeData(p, env.info);
    ForeignAnswer(src, Encode(p), env);
    var replies := ForeignReply(src, Encode(p), env);
    assert replies == [replies[0]];
  }
}
