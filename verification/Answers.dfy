// Every packet the server sends, to whom, and in answer to what.

/** Over all datagrams: what a running session says to its peer and an idle server to
    anyone. Over all scripts: what a UDP session says in all, and what any session says
    when too much arrives. */
module Answers {
  import opened Packets
  import opened StructMemory
  import opened Network
  import opened Chunks
  import opened UdpSession
  import opened UdpSessionProperties
  import opened UdpSessionInvariants
  import opened UdprClientSpec
  import opened PlainUdp
  import opened UdpPair

  // ----- A running session and its peer -----

  /** The id a datagram holds where DATA has it. */
  predicate Holds(got: seq<byte>, id: uint64) {
    |got| >= ACC_SIZE ==> id == Value64(got[9..17])
  }

  /** The next DATA packet of the session. */
  predicate Next(s: Session, got: seq<byte>) {
    IsData(got, s.session, s.cur) && |got| <= INFO_SIZE + MAX_ALLOWED_PACKET_SIZE
  }

  /** A session's words: everything goes to its peer. */
  predicate Says(before: Session, after: Session, said: seq<Packet>) {
    after.sent == before.sent + Replies(before.peer, said)
  }

  /** The next DATA. UDP says nothing, UDPR acknowledges it; and either confirms when the
      count is reached. When it is passed, UDPR refuses the packet that would be next. */
  lemma NextAnswer(kind: Kind, s: Session, bytes: seq<byte>, env: Env) returns (said: seq<Packet>)
    requires s.outcome.Running? && Next(s, Truncated(bytes, RECEIVE_BUFFOR_SIZE))
    ensures var t := Step(kind, s, Datagram(s.peer, bytes, env));
            && Says(s, t, said)
            && t.cur == (s.cur + 1) % TWO_64
            && t.recvd == (s.recvd + |Truncated(bytes, RECEIVE_BUFFOR_SIZE)| - INFO_SIZE) % TWO_64
            && said == (if kind.Udpr? then [Acc(s.session, s.cur)] else [])
                       + (if t.recvd == s.size then [Rcvd(s.session)]
                          else if t.recvd > s.size && kind.Udpr? then [Rjt(s.session, t.cur)] else [])
  {
    hide Judge, CastInfo;
    var got := Truncated(bytes, RECEIVE_BUFFOR_SIZE);
    var heard := s.(replyTo := s.peer);
    JudgeMeansParse(kind, heard, got, env.info);
    var credited := Credit(kind, heard, got, |got| - INFO_SIZE);
    var acks := if kind.Udpr? then [Acc(s.session, s.cur)] else [];
    var more := if credited.recvd == s.size then [Rcvd(s.session)]
                else if credited.recvd > s.size && kind.Udpr? then [Rjt(s.session, credited.cur)] else [];
    said := acks + more;
    assert Step(kind, s, Datagram(s.peer, bytes, env)) == Finish(kind, credited);
    assert credited.sent == s.sent + Replies(s.peer, acks);
    assert Replies(s.peer, said) == Replies(s.peer, acks) + Replies(s.peer, more);
    assert Finish(kind, credited).sent == credited.sent + Replies(s.peer, more);
  }

  /** Anything else from the peer of a UDP session ends it with one RJT, which names the id
      the datagram holds. */
  lemma UdpAnswer(s: Session, bytes: seq<byte>, env: Env) returns (id: uint64)
    requires s.outcome.Running? && Truncated(bytes, RECEIVE_BUFFOR_SIZE) != []
    requires !Next(s, Truncated(bytes, RECEIVE_BUFFOR_SIZE))
    ensures var t := Step(Udp, s, Datagram(s.peer, bytes, env));
            t.outcome.Violated? && Says(s, t, [Rjt(s.session, id)])
    ensures Holds(Truncated(bytes, RECEIVE_BUFFOR_SIZE), id)
  {
    var got := Truncated(bytes, RECEIVE_BUFFOR_SIZE);
    JudgeMeansParse(Udp, s.(replyTo := s.peer), got, env.info);
    id := CastInfo(env.info, got).id;
    if |got| >= ACC_SIZE {
      CastCovers(env.info, got, 9, 17);
    }
  }

  /** Anything else from the peer of a UDPR session, by its first byte, its length and the
      fields it holds: no DATA gets an answer; under another session id it is refused with
      the id waited for; an older one gets no answer; and any other is refused with its
      own id. Short of its id, only the choice between the last two, and the id, are open. */
  lemma UdprAnswer(s: Session, bytes: seq<byte>, env: Env) returns (said: seq<Packet>)
    requires s.outcome.Running? && Truncated(bytes, RECEIVE_BUFFOR_SIZE) != []
    requires !Next(s, Truncated(bytes, RECEIVE_BUFFOR_SIZE))
    ensures var got := Truncated(bytes, RECEIVE_BUFFOR_SIZE); var t := Step(Udpr, s, Datagram(s.peer, bytes, env));
            && Says(s, t, said)
            && (t.outcome.Violated? <==> !(IsOldData(got, s.session, s.cur) || (LooksLikeConn(got) && s.first)))
            && if got[0] != DATA_ID then said == []
               else if |got| >= HEAD_SIZE && Value64(got[1..9]) != s.session then said == [Rjt(s.session, s.cur)]
               else if |got| >= ACC_SIZE
               then said == if Value64(got[9..17]) < s.cur then [] else [Rjt(s.session, Value64(got[9..17]))]
               else said == [] || exists id: uint64 :: id >= s.cur && said == [Rjt(s.session, id)]
  {
    var got := Truncated(bytes, RECEIVE_BUFFOR_SIZE);
    var d := CastInfo(env.info, got);
    JudgeMeansParse(Udpr, s.(replyTo := s.peer), got, env.info);
    if |got| >= HEAD_SIZE {
      CastCovers(env.info, got, 1, 9);
    }
    if |got| >= ACC_SIZE {
      CastCovers(env.info, got, 9, 17);
    }
    var v := Judge(Udpr, s.(replyTo := s.peer), got, env.info);
    said := if v.Reject? then v.replies else [];
    assert s.sent + Replies(s.peer, []) == s.sent;
  }

  // ----- All a UDP session says -----

  /** The script[i] ended the session: not the next DATA, though from the peer. */
  ghost predicate RefusedAt(s: Session, script: seq<Event>, i: nat, id: uint64) {
    && i < |script| && script[i].Datagram? && script[i].src == s.peer
    && var got := Truncated(script[i].bytes, RECEIVE_BUFFOR_SIZE);
    && got != [] && Holds(got, id)
    && var mid := Run(Udp, s, script[..i]);
    && mid.outcome.Running? && !Next(mid, got)
  }

  lemma SaysTo(s: Session, t: Session, said: seq<Packet>)
    requires Says(s, t, said)
    ensures SentTo(t.sent, s.peer) == SentTo(s.sent, s.peer) + said
  {
    SentToConcat(s.sent, Replies(s.peer, said), s.peer);
    RepliesTo(s.peer, said);
  }

  lemma {:induction false} RepliesTo(dst: Addr, said: seq<Packet>)
    ensures SentTo(Replies(dst, said), dst) == said
  {
    if said == [] {
    } else {
      var before, last := said[..|said| - 1], said[|said| - 1];
      RepliesTo(dst, before);
      assert Replies(dst, said) == Replies(dst, before) + [Sent(dst, last)];
      SentToSnoc(Replies(dst, before), Sent(dst, last), dst);
    }
  }

  /** What a UDP session says to its peer when it hears e, and how it then stands. */
  ghost predicate UdpSays(s: Session, e: Event, t: Session) {
    match t.outcome
    case Received => SentTo(t.sent, s.peer) == SentTo(s.sent, s.peer) + [Rcvd(s.session)]
    case Violated => exists id :: RefusedAt(s, [e], 0, id)
                               && SentTo(t.sent, s.peer) == SentTo(s.sent, s.peer) + [Rjt(s.session, id)]
    case _ => SentTo(t.sent, s.peer) == SentTo(s.sent, s.peer)
  }

  lemma UdpSaysOne(s: Session, e: Event)
    requires s.outcome.Running? && Counted(s) && Countable(s.size)
    ensures UdpSays(s, e, Step(Udp, s, e))
  {
    hide Tallied, CastInfo, ForeignReply, FromPeer;
    StepCounted(Udp, s, e);
    var t := Step(Udp, s, e);
    if e.Datagram? {
      var got := Truncated(e.bytes, RECEIVE_BUFFOR_SIZE);
      if e.src != s.peer {
        ForeignReplyElsewhere(e.src, got, e.env, s.peer);
        SentToConcat(s.sent, ForeignReply(e.src, got, e.env), s.peer);
      } else if got != [] {
        if Next(s, got) {
          var said := NextAnswer(Udp, s, e.bytes, e.env);
          SaysTo(s, t, said);
          NextGoesOn(s, e);
        } else {
          var id := UdpAnswer(s, e.bytes, e.env);
          SaysTo(s, t, [Rjt(s.session, id)]);
          assert RefusedAt(s, [e], 0, id);
        }
      }
    }
  }

  lemma NextGoesOn(s: Session, e: Event)
    requires s.outcome.Running? && e.Datagram? && e.src == s.peer && Next(s, Truncated(e.bytes, RECEIVE_BUFFOR_SIZE))
    ensures var t := Step(Udp, s, e);
            !t.outcome.Violated? && (t.outcome.Received? <==> t.recvd == s.size)
  {
    JudgeMeansParse(Udp, s.(replyTo := s.peer), Truncated(e.bytes, RECEIVE_BUFFOR_SIZE), e.env.info);
  }

  lemma RefusedLater(s: Session, script: seq<Event>, i: nat, id: uint64)
    requires script != [] && s.outcome.Running? && RefusedAt(Step(Udp, s, script[0]), script[1..], i, id)
    ensures RefusedAt(s, script, i + 1, id)
  {
    FixedEnds(Udp, s, script[0]);
    assert script[..i + 1][0] == script[0] && script[..i + 1][1..] == script[1..][..i];
  }

  /** All a UDP session says to its peer, over every script: while it runs, nothing; one RCVD
      when the sizes sum to the declared one; one RJT, with the id it holds, for a datagram
      that is not the next DATA; and nothing when it ends in any other way. */
  lemma {:induction false} UdpSessionSays(s: Session, script: seq<Event>)
    requires s.outcome.Running? && Counted(s) && Countable(s.size)
    ensures var r := Run(Udp, s, script); var before, after := SentTo(s.sent, s.peer), SentTo(r.sent, s.peer);
            match r.outcome
            case Received => after == before + [Rcvd(s.session)]
            case Violated => exists i, id :: RefusedAt(s, script, i, id) && after == before + [Rjt(s.session, id)]
            case _ => after == before
    decreases |script|
  {
    hide Step, Tallied, Holds, Next, SentTo;
    if script != [] {
      var e, t := script[0], Step(Udp, s, script[0]);
      UdpSaysOne(s, e);
      StepCounted(Udp, s, e);
      if t.outcome.Running? {
        UdpSessionSays(t, script[1..]);
        var r := Run(Udp, s, script);
        if r.outcome.Violated? {
          var i, id :| RefusedAt(t, script[1..], i, id) && SentTo(r.sent, t.peer) == SentTo(t.sent, t.peer) + [Rjt(t.session, id)];
          RefusedLater(s, script, i, id);
        }
      } else {
        EndedAtOnce(s, script);
      }
    }
  }

  lemma EndedAtOnce(s: Session, script: seq<Event>)
    requires script != [] && s.outcome.Running? && UdpSays(s, script[0], Step(Udp, s, script[0]))
    requires !Step(Udp, s, script[0]).outcome.Running?
    ensures var r := Run(Udp, s, script);
            && r == Step(Udp, s, script[0])
            && (r.outcome.Violated? ==>
                  exists i, id :: RefusedAt(s, script, i, id)
                               && SentTo(r.sent, s.peer) == SentTo(s.sent, s.peer) + [Rjt(s.session, id)])
  {
    hide Step, Holds, Next, SentTo;
    if Step(Udp, s, script[0]).outcome.Violated? {
      var id :| RefusedAt(s, [script[0]], 0, id)
             && SentTo(Step(Udp, s, script[0]).sent, s.peer) == SentTo(s.sent, s.peer) + [Rjt(s.session, id)];
      assert [script[0]][..0] == script[..0];
      assert RefusedAt(s, script, 0, id);
    }
  }

  // ----- A UDP transfer on a perfect network -----

  /** These packets, one after the other, from the server. */
  function Heard(t: Transfer, ps: seq<Packet>): seq<Event> {
    seq(|ps|, i requires 0 <= i < |ps| => UdpPair.FromServer(t, ps[i]))
  }

  /** When all chunks arrive in order, the session says CONACC and RCVD and nothing else, and
      the client that hears just that is confirmed. */
  lemma UdpConfirms(t: Transfer, me: Addr, replyTo: Addr, idle: seq<Sent>, script: seq<Event>)
    requires |t.data| > 0 && HonestTraffic(t, me, script) && SentTo(idle, me) == []
    requires ChunksInOrder(t, me, PeerEvents(script, me), t.NumPackets())
    ensures var r := Run(Udp, Start(Udp, me, t.session, |t.data|, replyTo, idle + [Sent(me, Conacc(t.session))]), script);
            && r.outcome.Received?
            && SentTo(r.sent, me) == [Conacc(t.session), Rcvd(t.session)]
            && ConfirmedBy(t, Heard(t, SentTo(r.sent, me)))
  {
    hide Run, ChunksInOrder, HonestTraffic, ConfirmedBy, SentTo, Start, PeerEvents, Payloads, RefusedAt, Counted, Heard;
    var sent := idle + [Sent(me, Conacc(t.session))];
    UdpEndToEnd(t, me, replyTo, sent, script);
    StartCounted(Udp, me, t.session, |t.data|, replyTo, sent);
    StartRuns(me, t.session, |t.data|, replyTo, sent);
    UdpSessionSays(Start(Udp, me, t.session, |t.data|, replyTo, sent), script);
    SentToSnoc(idle, Sent(me, Conacc(t.session)), me);
    assert [] + [Conacc(t.session)] + [Rcvd(t.session)] == [Conacc(t.session), Rcvd(t.session)];
    HeardConfirms(t, me);
  }

  lemma StartRuns(peer: Addr, session: uint64, size: uint64, replyTo: Addr, sent: seq<Sent>)
    requires size > 0
    ensures var s := Start(Udp, peer, session, size, replyTo, sent);
            s.outcome.Running? && s.sent == sent && s.peer == peer && s.session == session && s.size == size
  {
  }

  lemma HeardConfirms(t: Transfer, me: Addr)
    ensures ConfirmedBy(t, Heard(t, [Conacc(t.session), Rcvd(t.session)]))
  {
    hide ConfirmedBy;
    PromptAnswers(t, me, [Sent(me, Conacc(t.session)), Sent(me, Rcvd(t.session))]);
    assert Heard(t, [Conacc(t.session), Rcvd(t.session)])
        == [UdpPair.FromServer(t, Conacc(t.session)), UdpPair.FromServer(t, Rcvd(t.session))];
  }

  // ----- Too much -----

  /** A session to which too much was sent: UDP says nothing more, UDPR refuses under the
      number of packets it has accepted. */
  lemma {:induction false} OvershotSays(kind: Kind, s: Session, script: seq<Event>)
    requires s.outcome.Running? && Counted(s) && Countable(s.size)
    requires Run(kind, s, script).outcome.Overshot?
    ensures var r := Run(kind, s, script);
            kind.Udpr? ==> r.sent != [] && r.sent[|r.sent| - 1] == Sent(s.peer, Rjt(s.session, IdOf(|r.accepted|)))
    decreases |script|
  {
    hide Step, Tallied;
    var e, t := script[0], Step(kind, s, script[0]);
    StepCounted(kind, s, e);
    if t.outcome.Running? {
      OvershotSays(kind, t, script[1..]);
    } else {
      OvershotAt(kind, s, e);
    }
  }

  lemma OvershotAt(kind: Kind, s: Session, e: Event)
    requires s.outcome.Running? && Counted(s) && Step(kind, s, e).outcome.Overshot?
    ensures var t := Step(kind, s, e);
            kind.Udpr? ==> t.sent != [] && t.sent[|t.sent| - 1] == Sent(s.peer, Rjt(s.session, t.cur))
    ensures Step(kind, s, e).cur == IdOf(|Step(kind, s, e).accepted|)
  {
    hide CastInfo, ForeignReply, CheckData;
    NextId(|s.accepted|);
  }

  // ----- An idle server -----

  /** A CONN that an idle server accepts. */
  predicate Opening(got: seq<byte>) {
    var p := Parse(got);
    p.Some? && p.value.Conn? && (p.value.protocol == UDP_PROTOCOL || p.value.protocol == UDPR_PROTOCOL)
  }

  lemma OpeningCast(got: seq<byte>, mem: ConnMem)
    requires got != []
    ensures var m := Overlay(mem, got);
            && (Opening(got) <==> |got| == CONN_SIZE && m[0] == CONN_ID && (m[9] == UDP_PROTOCOL || m[9] == UDPR_PROTOCOL))
            && (|got| >= HEAD_SIZE ==> Value64(m[1..9]) == Value64(got[1..9]))
            && (Opening(got) ==> Parse(got).value.protocol == m[9] && Parse(got).value.session == Value64(m[1..9])
                                 && Parse(got).value.size == Value64(m[10..18]))
  {
    var m := Overlay(mem, got);
    if |got| >= HEAD_SIZE {
      CastCovers(mem, got, 1, 9);
    }
    if |got| == CONN_SIZE {
      assert m == got;
    }
  }

  /** A session just begun over this protocol. */
  predicate Begun(s: Session, src: Addr, p: Packet, sent: seq<Sent>)
    requires p.Conn?
  {
    && s.peer == src && s.session == p.session && s.size == p.size && s.accepted == []
    && s.recvd == 0 && s.cur == 0 && s.retransmits == 0 && s.first && s.sent == sent
  }

  /** Whatever an idle server hears. Of a whole CONN for UDP or UDPR it begins a session of
      that kind, after one CONACC, if that can be sent, and otherwise does nothing. Anything
      else that has bytes in it is refused with one CONRJT, under the session id it holds;
      and nothing is said to an empty datagram, a timeout or an error. */
  lemma IdleAnswer(srv: Server, e: Event)
    requires srv.live.None?
    ensures var after := ServerStep(srv, e);
            if !e.Datagram? || e.bytes == [] then after == srv
            else
              var got := Truncated(e.bytes, RECEIVE_BUFFOR_SIZE);
              if !Opening(got)
              then exists id :: (|got| >= HEAD_SIZE ==> id == Value64(got[1..9]))
                             && after == srv.(idleSent := srv.idleSent + [Sent(e.src, Conrjt(id))])
              else if !e.env.sendOk then after == srv
              else
                var p, told := Parse(got).value, srv.idleSent + [Sent(e.src, Conacc(Parse(got).value.session))];
                if p.size > 0
                then && after == srv.(live := after.live) && after.live.Some?
                     && (after.live.value.kind.Udp? <==> p.protocol == UDP_PROTOCOL)
                     && after.live.value.session.outcome.Running? && Begun(after.live.value.session, e.src, p, told)
                else && after == srv.(log := after.log, idleSent := after.idleSent)
                     && |after.log| == |srv.log| + 1 && after.log[..|srv.log|] == srv.log
                     && after.log[|srv.log|].outcome.Received? && after.idleSent == after.log[|srv.log|].sent
                     && Begun(after.log[|srv.log|], e.src, p, told + [Sent(
                          if p.protocol == UDP_PROTOCOL then srv.udpAddr else srv.udprAddr, Rcvd(p.session))])
  {
    hide Encode, Parse;
    if e.Datagram? && e.bytes != [] {
      var got := Truncated(e.bytes, RECEIVE_BUFFOR_SIZE);
      OpeningCast(got, e.env.conn);
      if !Opening(got) {
        var id := Value64(Overlay(e.env.conn, got)[1..9]);
        assert Idle(srv, e) == srv.(idleSent := srv.idleSent + [Sent(e.src, Conrjt(id))]);
      }
    }
  }

  // ----- Other senders during a session -----

  /** Whoever else speaks while a session runs: it is answered as ForeignAnswer says, its
      address is the one left behind, and nothing else changes. */
  lemma OthersAnswer(kind: Kind, s: Session, src: Addr, bytes: seq<byte>, env: Env)
    requires s.outcome.Running? && src != s.peer && Truncated(bytes, RECEIVE_BUFFOR_SIZE) != []
    ensures var got, t := Truncated(bytes, RECEIVE_BUFFOR_SIZE), Step(kind, s, Datagram(src, bytes, env));
            && t == s.(replyTo := src, sent := t.sent)
            && if got[0] == CONN_ID
               then t.sent == s.sent + if |got| == CONN_SIZE then [Sent(src, Conrjt(Value64(got[1..9])))] else []
               else if got[0] == DATA_ID
               then exists session, id :: t.sent == s.sent + [Sent(src, Rjt(session, id))] && Holds(got, id)
                                       && (|got| >= HEAD_SIZE ==> session == Value64(got[1..9]))
               else t.sent == s.sent
  {
    hide ForeignReply;
    var got := Truncated(bytes, RECEIVE_BUFFOR_SIZE);
    ForeignAnswer(src, got, env);
    var replies := ForeignReply(src, got, env);
    if got[0] == DATA_ID {
      var p := replies[0].packet;
      assert replies == [Sent(src, Rjt(p.session, p.id))];
    }
    assert s.sent + [] == s.sent;
  }

  // ----- The end of a session -----

  /** What a session leaves to the server: itself in the log, what it sent, and in the static
      address of its kind the sender of the last datagram that anyone sent. */
  lemma SessionEnds(srv: Server, e: Event)
    requires srv.live.Some?
    ensures var l, after := srv.live.value, ServerStep(srv, e);
            var t := Step(l.kind, l.session, e);
            var last := if e.Datagram? then e.src else l.session.replyTo;
            if t.outcome.Running? then after == srv.(live := Some(Live(l.kind, t))) && t.replyTo == last
            else after == Server(None, if l.kind.Udp? then last else srv.udpAddr, if l.kind.Udpr? then last else srv.udprAddr,
                                 srv.log + [t], t.sent)
  {
    hide Judge, CastInfo, ForeignReply;
  }
}
