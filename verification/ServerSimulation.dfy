// The server of the closed system against the abstract receiver.

/** On the packets of one client, UDP_server_handler and UDPR_data_receive move like the
    receiver of Protocol, and the bytes a session accepts are the client's chunks. */
module ServerSimulation {
  import opened Packets
  import opened StructMemory
  import opened Network
  import opened Chunks
  import opened UdpSession
  import opened UdpSessionProperties
  import opened ClosedSystem
  import P = Protocol
  import S = Safety

  /** A session of this transfer that has accepted exactly its first e.cur payloads. */
  predicate MatchesSession(sys: System, s: Session, e: P.Episode) {
    && s.peer == sys.me && s.session == sys.t.session && s.size == |sys.t.data|
    && e.cur <= sys.t.NumPackets()
    && s.accepted == Payloads(sys.t.data, e.cur)
    && s.cur == e.cur && s.recvd == Offset(|sys.t.data|, e.cur)
    && (s.first <==> e.cur == 0)
    && s.retransmits == e.retransmits && s.outcome == e.outcome
  }

  ghost predicate MatchesServer(sys: System, srv: Server, r: P.Receiver) {
    && |srv.Sessions()| == |r.episodes|
    && (forall k :: 0 <= k < |r.episodes| ==> MatchesSession(sys, srv.Sessions()[k], r.episodes[k]))
    && (srv.live.Some? <==> r.live)
    && (srv.live.Some? ==> srv.live.value.kind.Udpr? && r.Last().outcome.Running?)
  }

  // ----- One session -----

  predicate SessionFollows(sys: System, before: Session, after: Session, e: P.Episode, out: seq<P.Msg>) {
    MatchesSession(sys, after, e) && after.sent == before.sent + AllTo(sys, out)
  }

  lemma StaysFollows(sys: System, s: Session, t: Session, e: P.Episode)
    requires MatchesSession(sys, s, e) && t == s.(replyTo := t.replyTo, outcome := t.outcome)
    ensures SessionFollows(sys, s, t, e.(outcome := t.outcome), [])
  {
    AllToSmall(sys, P.Hello, P.Hello);
    assert s.sent + [] == s.sent;
  }

  lemma HelloPacket(sys: System)
    ensures var got := Encode(sys.t.Hello());
            |got| == CONN_SIZE && got[0] == CONN_ID && Parse(got) == Some(sys.t.Hello()) && LooksLikeConn(got)
  {
    EncodedFields(sys.t.Hello());
    ParseEncode(sys.t.Hello());
  }

  lemma SessionHearsHello(sys: System, s: Session, e: P.Episode, env: Env)
    requires MatchesSession(sys, s, e) && s.outcome.Running?
    ensures SessionFollows(sys, s, Step(Udpr, s, Datagram(sys.me, Encode(sys.t.Hello()), env)),
                           if e.cur == 0 then e else e.(outcome := Violated), [])
  {
    hide Judge, Encode, Parse;
    var got := Encode(sys.t.Hello());
    var t := Step(Udpr, s, Datagram(sys.me, got, env));
    HelloPacket(sys);
    JudgeMeansParse(Udpr, s.(replyTo := sys.me), got, env.info);
    assert e == e.(outcome := s.outcome);
    OldConnInSession(s.(replyTo := sys.me), got, env.info);
    StaysFollows(sys, s, t, e);
  }

  lemma PiecePacket(sys: System, i: nat)
    requires i < sys.t.NumPackets()
    ensures var got := Encode(sys.t.Packet(i));
            && INFO_SIZE <= |got| == INFO_SIZE + |Payload(sys.t.data, i)| <= RECEIVE_BUFFOR_SIZE
            && Parse(got) == Some(sys.t.Packet(i)) && got[INFO_SIZE..] == Payload(sys.t.data, i)
            && Value64(got[9..17]) == i && Value64(got[1..9]) == sys.t.session && got[0] == DATA_ID
  {
    EncodedFields(sys.t.Packet(i));
    ParseEncode(sys.t.Packet(i));
  }

  lemma FutureRefused(sys: System, s: Session, i: nat, mem: InfoMem)
    requires i < sys.t.NumPackets() && s.session == sys.t.session && i > s.cur
    ensures FromPeer(Udpr, s, Encode(sys.t.Packet(i)), mem)
            == s.(outcome := Violated, sent := s.sent + [Sent(s.replyTo, Rjt(s.session, i))])
  {
    hide Encode;
    PiecePacket(sys, i);
    CastIsReceived(mem, Encode(sys.t.Packet(i)));
    assert Replies(s.replyTo, [Rjt(s.session, i)]) == [Sent(s.replyTo, Rjt(s.session, i))];
  }

  lemma ChunkCounts(data: seq<byte>, k: nat)
    requires k < NumChunks(|data|) && |data| < TWO_32
    ensures Payloads(data, k) + [Payload(data, k)] == Payloads(data, k + 1)
    ensures (Offset(|data|, k) + |Payload(data, k)|) % TWO_64 == Offset(|data|, k + 1)
    ensures (k + 1) % TWO_64 == k + 1
  {
    ChunkSize(data, k);
  }

  /** Accepting the expected chunk. */
  lemma CreditFollows(sys: System, s: Session, e: P.Episode)
    requires MatchesSession(sys, s, e) && s.outcome.Running? && e.cur < sys.t.NumPackets() && s.replyTo == sys.me
    ensures SessionFollows(sys, s,
              Credit(Udpr, s, Encode(sys.t.Packet(e.cur)), |Payload(sys.t.data, e.cur)|),
              e.(cur := e.cur + 1), [P.Ack(e.cur)])
  {
    hide Encode, Parse, Payloads, Payload, Offset;
    PiecePacket(sys, e.cur);
    ChunkCounts(sys.t.data, e.cur);
    AllToSmall(sys, P.Ack(e.cur), P.Hello);
  }

  lemma FinishFollows(sys: System, s: Session, e: P.Episode)
    requires MatchesSession(sys, s, e) && s.outcome.Running? && s.replyTo == sys.me && |sys.t.data| > 0
    ensures if e.cur == sys.t.NumPackets()
            then SessionFollows(sys, s, Finish(Udpr, s), e.(outcome := Received), [P.Finished])
            else Finish(Udpr, s) == s
  {
    AllToSmall(sys, P.Finished, P.Hello);
  }

  /** The expected chunk. */
  lemma SessionHearsNext(sys: System, s: Session, e: P.Episode, env: Env)
    requires MatchesSession(sys, s, e) && s.outcome.Running? && e.cur < sys.t.NumPackets() && |sys.t.data| > 0
    ensures var t := Step(Udpr, s, Datagram(sys.me, Encode(sys.t.Packet(e.cur)), env));
            if e.cur + 1 == sys.t.NumPackets()
            then SessionFollows(sys, s, t, e.(cur := e.cur + 1, outcome := Received), [P.Ack(e.cur), P.Finished])
            else SessionFollows(sys, s, t, e.(cur := e.cur + 1), [P.Ack(e.cur)])
  {
    hide Judge, Encode, Parse, Credit, Finish, Payloads, Payload, Offset;
    var got, heard := Encode(sys.t.Packet(e.cur)), s.(replyTo := sys.me);
    var t := Step(Udpr, s, Datagram(sys.me, got, env));
    PiecePacket(sys, e.cur);
    JudgeMeansParse(Udpr, heard, got, env.info);
    AllToSmall(sys, P.Ack(e.cur), P.Finished);
    AllToSmall(sys, P.Finished, P.Finished);
    CreditFollows(sys, heard, e);
    var credited := Credit(Udpr, heard, got, |got| - INFO_SIZE);
    CreditKeeps(heard, got, |got| - INFO_SIZE);
    FinishFollows(sys, credited, e.(cur := e.cur + 1));
    assert t == Finish(Udpr, credited);
    if e.cur + 1 == sys.t.NumPackets() {
      assert heard.sent + AllTo(sys, [P.Ack(e.cur)]) + AllTo(sys, [P.Finished])
          == s.sent + AllTo(sys, [P.Ack(e.cur), P.Finished]);
    }
  }

  lemma SessionHearsPiece(sys: System, s: Session, e: P.Episode, i: nat, env: Env)
    requires MatchesSession(sys, s, e) && s.outcome.Running? && i < sys.t.NumPackets() && e.cur < sys.t.NumPackets()
    requires |sys.t.data| > 0
    ensures var t := Step(Udpr, s, Datagram(sys.me, Encode(sys.t.Packet(i)), env));
            if i < e.cur then SessionFollows(sys, s, t, e, [])
            else if i > e.cur then SessionFollows(sys, s, t, e.(outcome := Violated), [P.Rejection(i)])
            else if e.cur + 1 == sys.t.NumPackets()
            then SessionFollows(sys, s, t, e.(cur := e.cur + 1, outcome := Received), [P.Ack(e.cur), P.Finished])
            else SessionFollows(sys, s, t, e.(cur := e.cur + 1), [P.Ack(e.cur)])
  {
    hide Judge, Encode, Parse, Credit, Finish, Payloads, Payload, Offset;
    var got, heard := Encode(sys.t.Packet(i)), s.(replyTo := sys.me);
    var t := Step(Udpr, s, Datagram(sys.me, got, env));
    if i == e.cur {
      SessionHearsNext(sys, s, e, env);
    } else {
      PiecePacket(sys, i);
      JudgeMeansParse(Udpr, heard, got, env.info);
      if i < e.cur {
        StaysFollows(sys, s, t, e);
        assert e == e.(outcome := s.outcome);
      } else {
        AllToSmall(sys, P.Rejection(i), P.Finished);
        FutureRefused(sys, heard, i, env.info);
      }
    }
  }

  lemma CreditKeeps(s: Session, got: seq<byte>, n: uint32)
    ensures Credit(Udpr, s, got, n).replyTo == s.replyTo && Credit(Udpr, s, got, n).outcome == s.outcome
  {
  }

  lemma SessionAlone(sys: System, s: Session, e: P.Episode)
    requires MatchesSession(sys, s, e) && s.outcome.Running?
    ensures SessionFollows(sys, s, Step(Udpr, s, Failure), e.(outcome := Broken), [])
    ensures var again := e.(retransmits := e.retransmits + 1);
            if again.retransmits > MAX_RETRANSMITS
            then SessionFollows(sys, s, Step(Udpr, s, Timeout), again.(outcome := GaveUp), [])
            else SessionFollows(sys, s, Step(Udpr, s, Timeout), again, [if e.cur == 0 then P.Welcome else P.Ack(e.cur - 1)])
  {
    hide Payloads;
    StaysFollows(sys, s, Step(Udpr, s, Failure), e);
    AllToSmall(sys, if e.cur == 0 then P.Welcome else P.Ack(e.cur - 1), P.Hello);
    assert s.sent + [] == s.sent;
  }

  // ----- The session loop -----

  /** The server's sends and state after one event, as a move of the receiver. */
  ghost predicate ServerFollows(sys: System, before: Server, after: Server, move: P.ReceiverMove) {
    MatchesServer(sys, after, move.receiver) && after.Sends() == before.Sends() + AllTo(sys, move.out)
  }

  lemma ResumeFollows(sys: System, srv: Server, r: P.Receiver, s: Session, e: P.Episode, out: seq<P.Msg>)
    requires MatchesServer(sys, srv, r) && r.live && r.episodes != []
    requires SessionFollows(sys, srv.live.value.session, s, e, out)
    ensures ServerFollows(sys, srv, Resume(srv, Udpr, s), P.ReceiverMove(r.WithLast(e), out))
  {
    var after := Resume(srv, Udpr, s);
    assert after.Sessions() == srv.log + [s];
    forall k | 0 <= k < |r.episodes|
      ensures MatchesSession(sys, after.Sessions()[k], r.WithLast(e).episodes[k])
    {
      if k < |srv.log| {
        assert srv.Sessions()[k] == srv.log[k];
      }
    }
  }

  lemma LiveSession(sys: System, srv: Server, r: P.Receiver)
    requires MatchesServer(sys, srv, r) && r.live
    ensures r.episodes != [] && MatchesSession(sys, srv.live.value.session, r.Last())
    ensures srv.live.value.session.outcome.Running?
  {
    assert srv.Sessions()[|srv.log|] == srv.live.value.session;
  }

  lemma LiveHearsFollows(sys: System, srv: Server, r: P.Receiver, m: P.Msg, env: Env)
    requires MatchesServer(sys, srv, r) && r.live && |sys.t.data| > 0 && S.ReceiverOk(sys.t.NumPackets(), r)
    requires m.Hello? || (m.Piece? && m.i < sys.t.NumPackets())
    ensures ServerFollows(sys, srv, ServerStep(srv, Datagram(sys.me, Encode(Pack(sys.t, m)), env)),
                          P.ReceiverHears(sys.t.NumPackets(), r, m, env.sendOk))
  {
    hide Step, Encode, Resume, MatchesServer, MatchesSession, SessionFollows;
    LiveSession(sys, srv, r);
    LiveKind(sys, srv, r);
    LastUnchanged(sys, srv, r);
    var s, e := srv.live.value.session, r.Last();
    var t := Step(Udpr, s, Datagram(sys.me, Encode(Pack(sys.t, m)), env));
    if m.Hello? {
      SessionHearsHello(sys, s, e, env);
      ResumeFollows(sys, srv, r, t, if e.cur == 0 then e else e.(outcome := Violated), []);
    } else {
      RunningShort(sys, r);
      SessionHearsPiece(sys, s, e, m.i, env);
      if m.i < e.cur {
        ResumeFollows(sys, srv, r, t, e, []);
      } else if m.i > e.cur {
        ResumeFollows(sys, srv, r, t, e.(outcome := Violated), [P.Rejection(m.i)]);
      } else if e.cur + 1 == sys.t.NumPackets() {
        ResumeFollows(sys, srv, r, t, e.(cur := e.cur + 1, outcome := Received), [P.Ack(e.cur), P.Finished]);
      } else {
        ResumeFollows(sys, srv, r, t, e.(cur := e.cur + 1), [P.Ack(e.cur)]);
      }
    }
  }

  lemma LiveKind(sys: System, srv: Server, r: P.Receiver)
    requires MatchesServer(sys, srv, r) && r.live
    ensures srv.live.Some? && srv.live.value.kind.Udpr?
  {
  }

  lemma LastUnchanged(sys: System, srv: Server, r: P.Receiver)
    requires MatchesServer(sys, srv, r) && r.live && r.episodes != []
    ensures r.WithLast(r.Last()) == r
  {
  }

  lemma RunningShort(sys: System, r: P.Receiver)
    requires S.ReceiverOk(sys.t.NumPackets(), r) && r.live && r.episodes != []
    ensures r.Last().cur < sys.t.NumPackets()
  {
    assert S.EpisodeOk(sys.t.NumPackets(), r.episodes[|r.episodes| - 1]);
  }

  lemma ServerAloneFollows(sys: System, srv: Server, r: P.Receiver)
    requires MatchesServer(sys, srv, r) && r.live
    ensures ServerFollows(sys, srv, ServerStep(srv, Timeout), P.ReceiverTimeout(r))
    ensures ServerFollows(sys, srv, ServerStep(srv, Failure), P.ReceiverError(r))
  {
    hide Step, Resume, MatchesServer, MatchesSession, SessionFollows;
    LiveSession(sys, srv, r);
    LiveKind(sys, srv, r);
    var s, e := srv.live.value.session, r.Last();
    SessionAlone(sys, s, e);
    ResumeFollows(sys, srv, r, Step(Udpr, s, Failure), e.(outcome := Broken), []);
    var again := e.(retransmits := e.retransmits + 1);
    if again.retransmits > MAX_RETRANSMITS {
      ResumeFollows(sys, srv, r, Step(Udpr, s, Timeout), again.(outcome := GaveUp), []);
    } else {
      ResumeFollows(sys, srv, r, Step(Udpr, s, Timeout), again, [if e.cur == 0 then P.Welcome else P.Ack(e.cur - 1)]);
    }
  }

  // ----- The idle server -----

  lemma ConnCast(sys: System, mem: ConnMem)
    ensures var m := Overlay(mem, Encode(sys.t.Hello()));
            && m[0] == CONN_ID && m[9] == UDPR_PROTOCOL
            && Value64(m[1..9]) == sys.t.session && Value64(m[10..18]) == |sys.t.data|
  {
    EncodedFields(sys.t.Hello());
    assert Overlay(mem, Encode(sys.t.Hello())) == Encode(sys.t.Hello());
  }

  lemma FreshSession(sys: System, replyTo: Addr, sent: seq<Sent>)
    requires |sys.t.data| > 0
    ensures MatchesSession(sys, Start(Udpr, sys.me, sys.t.session, |sys.t.data|, replyTo, sent), P.Episode(0, 0, Running))
    ensures Start(Udpr, sys.me, sys.t.session, |sys.t.data|, replyTo, sent).sent == sent
  {
  }

  lemma IdleHearsHello(sys: System, srv: Server, r: P.Receiver, env: Env)
    requires MatchesServer(sys, srv, r) && !r.live && |sys.t.data| > 0
    ensures ServerFollows(sys, srv, ServerStep(srv, Datagram(sys.me, Encode(sys.t.Hello()), env)),
                          P.ReceiverHears(sys.t.NumPackets(), r, P.Hello, env.sendOk))
  {
    hide Encode, Start, MatchesSession;
    HelloPacket(sys);
    ConnCast(sys, env.conn);
    AllToSmall(sys, P.Welcome, P.Hello);
    assert srv.idleSent + [] == srv.idleSent;
    if env.sendOk {
      var sent := srv.idleSent + [Sent(sys.me, Conacc(sys.t.session))];
      var s := Start(Udpr, sys.me, sys.t.session, |sys.t.data|, srv.udprAddr, sent);
      FreshSession(sys, srv.udprAddr, sent);
      OpenFollows(sys, srv, r, s);
    }
  }

  lemma OpenFollows(sys: System, srv: Server, r: P.Receiver, s: Session)
    requires MatchesServer(sys, srv, r) && !r.live
    requires MatchesSession(sys, s, P.Episode(0, 0, Running))
    ensures Resume(srv, Udpr, s) == srv.(live := Some(Live(Udpr, s)))
    ensures MatchesServer(sys, Resume(srv, Udpr, s), P.Receiver(r.episodes + [P.Episode(0, 0, Running)], true))
  {
    var after := srv.(live := Some(Live(Udpr, s)));
    assert after.Sessions() == srv.Sessions() + [s];
  }

  lemma IdleHearsPiece(sys: System, srv: Server, r: P.Receiver, i: nat, env: Env)
    requires MatchesServer(sys, srv, r) && !r.live && i < sys.t.NumPackets()
    ensures ServerFollows(sys, srv, ServerStep(srv, Datagram(sys.me, Encode(sys.t.Packet(i)), env)),
                          P.ReceiverHears(sys.t.NumPackets(), r, P.Piece(i), env.sendOk))
  {
    hide Encode, Start, Resume, MatchesSession;
    PiecePacket(sys, i);
    HeadSurvivesCast(sys.t.Packet(i), env.conn);
    AllToSmall(sys, P.Refusal, P.Hello);
    var after := ServerStep(srv, Datagram(sys.me, Encode(sys.t.Packet(i)), env));
    assert after == srv.(idleSent := srv.idleSent + [Sent(sys.me, Conrjt(sys.t.session))]);
    assert after.Sessions() == srv.Sessions();
  }

  /** Any packet of the client, at any moment. */
  lemma ServerHearsFollows(sys: System, srv: Server, r: P.Receiver, m: P.Msg, env: Env)
    requires MatchesServer(sys, srv, r) && |sys.t.data| > 0 && S.ReceiverOk(sys.t.NumPackets(), r)
    requires m.Hello? || (m.Piece? && m.i < sys.t.NumPackets())
    ensures ServerFollows(sys, srv, ServerStep(srv, Datagram(sys.me, Encode(Pack(sys.t, m)), env)),
                          P.ReceiverHears(sys.t.NumPackets(), r, m, env.sendOk))
  {
    hide ServerStep, Encode, MatchesServer, S.ReceiverOk, ServerFollows, P.ReceiverHears;
    if r.live {
      LiveHearsFollows(sys, srv, r, m, env);
    } else if m.Hello? {
      IdleHearsHello(sys, srv, r, env);
    } else {
      IdleHearsPiece(sys, srv, r, m.i, env);
    }
  }
}
