// Plain UDP, both ends: what a confirmation is worth.

/** The UDP client and the server among arbitrary other traffic, with any loss, repetition
    and delay. The client is confirmed by CONACC and RCVD alone; since a session without
    data sends its RCVD to whatever address the last session left behind, a stranger can
    have the client confirmed, and the theorems say exactly when. */
module UdpPair {
  import opened Packets
  import opened StructMemory
  import opened Network
  import opened Chunks
  import opened UdpSession
  import opened UdpSessionProperties
  import opened UdpSessionInvariants
  import opened UdprClientSpec
  import opened UdprClient
  import opened FirstSpeaker
  import opened PlainUdp
  import opened Repeats

  // ----- The server -----

  /** What speaks for the client was sent by it. */
  ghost predicate HonestEvent(t: Transfer, me: Addr, e: Event) {
    e.Datagram? && e.src == me ==> FromClient(t, e.bytes)
  }

  ghost predicate Mine(t: Transfer, me: Addr, s: Session) {
    s.peer == me ==>
      && s.session == t.session && s.size == |t.data| && Counted(s)
      && |s.accepted| <= t.NumPackets() && s.accepted == Payloads(t.data, |s.accepted|)
  }

  /** A session of the client has received everything. */
  predicate Whole(me: Addr, s: Session) {
    s.peer == me && s.outcome.Received?
  }

  /** A session of another, under the same session id and without data, that found the
      client's address left behind. */
  predicate Twin(t: Transfer, me: Addr, s: Session) {
    s.peer != me && s.session == t.session && s.size == 0 && s.replyTo == me && s.outcome.Received?
  }

  ghost predicate SomeWhole(t: Transfer, me: Addr, sessions: seq<Session>) {
    exists k :: 0 <= k < |sessions| && (Whole(me, sessions[k]) || Twin(t, me, sessions[k]))
  }

  ghost predicate Good(t: Transfer, me: Addr, srv: Server) {
    && (forall k :: 0 <= k < |srv.Sessions()| ==> Mine(t, me, srv.Sessions()[k]))
    && (srv.live.Some? ==> srv.live.value.session.outcome.Running?
                           && (srv.live.value.session.size > 0)
                           && (srv.live.value.session.peer == me ==> srv.live.value.kind.Udp?))
    && (Sent(me, Rcvd(t.session)) in srv.Sends() <==> SomeWhole(t, me, srv.Sessions()))
  }

  /** RCVD is the last thing a session sends, to the sender of the packet that completed
      it, and it sends it exactly when it completes. */
  lemma RcvdAtEnd(kind: Kind, s: Session, e: Event)
    requires s.outcome.Running?
    ensures var t := Step(kind, s, e);
            && SameEnds(s, t) && s.sent <= t.sent
            && (t.outcome.Received? ==> Sent(s.peer, Rcvd(s.session)) in t.sent)
            && forall i :: |s.sent| <= i < |t.sent| && t.sent[i].packet.Rcvd? ==>
                 t.outcome.Received? && t.sent[i] == Sent(s.peer, Rcvd(s.session))
  {
    hide CheckData, CastInfo, ForeignReply;
    FixedEnds(kind, s, e);
    if e.Datagram? {
      var got := Truncated(e.bytes, RECEIVE_BUFFOR_SIZE);
      if e.src != s.peer {
        ForeignNoRcvd(e.src, got, e.env);
      } else if got != [] {
        FromPeerRcvd(kind, s.(replyTo := e.src), got, e.env.info);
      }
    }
  }

  lemma ForeignNoRcvd(src: Addr, got: seq<byte>, env: Env)
    ensures forall i :: 0 <= i < |ForeignReply(src, got, env)| ==> !ForeignReply(src, got, env)[i].packet.Rcvd?
  {
  }

  lemma FromPeerRcvd(kind: Kind, s: Session, got: seq<byte>, mem: InfoMem)
    requires s.outcome.Running? && s.replyTo == s.peer
    ensures var t := FromPeer(kind, s, got, mem);
            && s.sent <= t.sent
            && (t.outcome.Received? ==> Sent(s.peer, Rcvd(s.session)) in t.sent)
            && forall i :: |s.sent| <= i < |t.sent| && t.sent[i].packet.Rcvd? ==>
                 t.outcome.Received? && t.sent[i] == Sent(s.peer, Rcvd(s.session))
  {
    hide CastInfo;
  }

  lemma MineStep(t: Transfer, me: Addr, s: Session, e: Event)
    requires s.peer == me && Mine(t, me, s) && s.outcome.Running? && HonestEvent(t, me, e)
    ensures Mine(t, me, Step(Udp, s, e))
  {
    hide Step, Payload, Encode, Total, Tallied;
    var k, next := |s.accepted|, Step(Udp, s, e);
    StepCounted(Udp, s, e);
    StillToCome(t, s);
    if Accepts(Udp, s, e) {
      AcceptedDelivers(Udp, s, e);
      var part := next.accepted[k];
      DeliversFromPeer(e, me, s.session, s.cur, part);
      CurIsCount(s);
      OnlyOwnChunk(t, me, e, k, part);
      assert next.accepted == s.accepted + [part];
      PayloadsNext(t.data, k);
    } else {
      IdleStep(Udp, s, e);
    }
  }

  lemma CurIsCount(s: Session)
    requires Counted(s) && |s.accepted| < TWO_64
    ensures s.cur == |s.accepted|
  {
  }

  lemma StillToCome(t: Transfer, s: Session)
    requires Counted(s) && s.outcome.Running? && s.size == |t.data|
    requires |s.accepted| <= t.NumPackets() && s.accepted == Payloads(t.data, |s.accepted|)
    ensures |s.accepted| < t.NumPackets() && Countable(s.size)
  {
    PayloadsTotal(t.data, |s.accepted|);
  }

  /** One step of the running session, seen from the whole server. */
  lemma ResumeGood(t: Transfer, me: Addr, srv: Server, next: Session)
    requires Good(t, me, srv) && srv.live.Some? && Mine(t, me, next)
    requires var s := srv.live.value.session;
             && SameEnds(s, next) && s.sent <= next.sent
             && (next.outcome.Received? ==> Sent(s.peer, Rcvd(s.session)) in next.sent)
             && forall i :: |s.sent| <= i < |next.sent| && next.sent[i].packet.Rcvd? ==>
                  next.outcome.Received? && next.sent[i] == Sent(s.peer, Rcvd(s.session))
    ensures Good(t, me, Resume(srv, srv.live.value.kind, next))
  {
    hide Mine;
    var s, after, rcvd := srv.live.value.session, Resume(srv, srv.live.value.kind, next), Sent(me, Rcvd(t.session));
    assert srv.Sessions() == srv.log + [s] && after.Sessions() == srv.log + [next] && after.Sends() == next.sent;
    forall k | 0 <= k < |after.Sessions()|
      ensures Mine(t, me, after.Sessions()[k])
    {
      if k < |srv.log| {
        assert srv.Sessions()[k] == after.Sessions()[k];
      }
    }
    if SomeWhole(t, me, srv.Sessions()) {
      var k :| 0 <= k < |srv.Sessions()| && (Whole(me, srv.Sessions()[k]) || Twin(t, me, srv.Sessions()[k]));
      assert after.Sessions()[k] == srv.Sessions()[k];
    }
    if rcvd in next.sent && rcvd !in s.sent {
      var i :| 0 <= i < |next.sent| && next.sent[i] == rcvd;
      assert i >= |s.sent|;
      assert Whole(me, after.Sessions()[|srv.log|]);
    }
    if SomeWhole(t, me, after.Sessions()) {
      var k :| 0 <= k < |after.Sessions()| && (Whole(me, after.Sessions()[k]) || Twin(t, me, after.Sessions()[k]));
      if k < |srv.log| {
        assert srv.Sessions()[k] == after.Sessions()[k];
        assert rcvd in s.sent;
      } else {
        MineSession(t, me, next);
      }
    }
  }

  lemma MineSession(t: Transfer, me: Addr, s: Session)
    requires Mine(t, me, s)
    ensures s.peer == me ==> s.session == t.session
  {
  }

  /** A session that starts: one with data sends no RCVD, one without sends it at once. */
  lemma OpenGood(t: Transfer, me: Addr, srv: Server, kind: Kind, s: Session, replyTo: Addr, sent: seq<Sent>)
    requires Good(t, me, srv) && srv.live.None? && Mine(t, me, s) && (s.peer == me ==> kind.Udp? && s.size > 0)
    requires s == Start(kind, s.peer, s.session, s.size, replyTo, sent)
    requires exists p: Packet :: p.Conacc? && sent == srv.idleSent + [Sent(s.peer, p)]
    ensures Good(t, me, Resume(srv, kind, s))
  {
    hide Mine;
    var after, rcvd := Resume(srv, kind, s), Sent(me, Rcvd(t.session));
    assert after.Sessions() == srv.Sessions() + [s] && after.Sends() == s.sent;
    assert rcvd in sent <==> rcvd in srv.idleSent;
    if SomeWhole(t, me, srv.Sessions()) {
      var k :| 0 <= k < |srv.Sessions()| && (Whole(me, srv.Sessions()[k]) || Twin(t, me, srv.Sessions()[k]));
      assert after.Sessions()[k] == srv.Sessions()[k];
    }
    if SomeWhole(t, me, after.Sessions()) {
      var k :| 0 <= k < |after.Sessions()| && (Whole(me, after.Sessions()[k]) || Twin(t, me, after.Sessions()[k]));
      if k < |srv.Sessions()| {
        assert srv.Sessions()[k] == after.Sessions()[k];
      }
    }
    if rcvd in s.sent && rcvd !in sent {
      assert Twin(t, me, after.Sessions()[|srv.Sessions()|]);
    }
  }

  predicate Opens(got: seq<byte>, conn: ConnMem) {
    |got| == CONN_SIZE && conn[0] == CONN_ID && (conn[9] == UDP_PROTOCOL || conn[9] == UDPR_PROTOCOL)
  }

  lemma OwnConn(t: Transfer, e: Event, conn: ConnMem)
    requires e.Datagram? && conn == Overlay(e.env.conn, Truncated(e.bytes, RECEIVE_BUFFOR_SIZE))
    requires Opens(Truncated(e.bytes, RECEIVE_BUFFOR_SIZE), conn) && FromClient(t, e.bytes)
    ensures conn[9] == UDP_PROTOCOL && Value64(conn[1..9]) == t.session && Value64(conn[10..18]) == |t.data|
  {
    hide Encode;
    var p := Conn(t.session, UDP_PROTOCOL, |t.data|);
    EncodedFields(p);
    if e.bytes == Encode(p) {
      assert conn == Encode(p);
    } else {
      var i :| 0 <= i < t.NumPackets() && e.bytes == Encode(t.Packet(i));
      PacketFits(t, i);
      EncodedFields(t.Packet(i));
    }
  }

  lemma FreshMine(t: Transfer, me: Addr, replyTo: Addr, sent: seq<Sent>)
    requires |t.data| > 0
    ensures Mine(t, me, Start(Udp, me, t.session, |t.data|, replyTo, sent))
  {
    StartCounted(Udp, me, t.session, |t.data|, replyTo, sent);
  }

  lemma IdleGood(t: Transfer, me: Addr, srv: Server, e: Event)
    requires |t.data| > 0 && Good(t, me, srv) && srv.live.None? && HonestEvent(t, me, e)
    ensures Good(t, me, Idle(srv, e))
  {
    hide Encode, Resume, Start, FromClient;
    if e.Datagram? {
      var got := Truncated(e.bytes, RECEIVE_BUFFOR_SIZE);
      var conn := Overlay(e.env.conn, got);
      var session, size := Value64(conn[1..9]), Value64(conn[10..18]);
      if Opens(got, conn) && e.env.sendOk {
        var kind := if conn[9] == UDP_PROTOCOL then Udp else Udpr;
        var last := if kind.Udp? then srv.udpAddr else srv.udprAddr;
        var sent := srv.idleSent + [Sent(e.src, Conacc(session))];
        var s := Start(kind, e.src, session, size, last, sent);
        StartKeeps(kind, e.src, session, size, last, sent);
        if e.src == me {
          OwnConn(t, e, conn);
          FreshMine(t, me, last, sent);
        }
        assert Conacc(session).Conacc?;
        OpenGood(t, me, srv, kind, s, last, sent);
      } else {
        SilentGood(t, me, srv, Idle(srv, e));
      }
    }
  }

  lemma StartKeeps(kind: Kind, peer: Addr, session: uint64, size: uint64, replyTo: Addr, sent: seq<Sent>)
    ensures var s := Start(kind, peer, session, size, replyTo, sent);
            s.peer == peer && s.session == session && s.size == size
  {
  }

  lemma SilentGood(t: Transfer, me: Addr, srv: Server, after: Server)
    requires Good(t, me, srv) && srv.live.None? && after == srv.(idleSent := after.idleSent)
    requires after.idleSent == srv.idleSent
             || exists d, session :: after.idleSent == srv.idleSent + [Sent(d, Conrjt(session))]
    ensures Good(t, me, after)
  {
    hide Mine, SomeWhole;
    assert after.Sessions() == srv.Sessions();
  }

  lemma StepGood(t: Transfer, me: Addr, srv: Server, e: Event)
    requires |t.data| > 0 && Good(t, me, srv) && HonestEvent(t, me, e)
    ensures Good(t, me, ServerStep(srv, e))
  {
    hide Step, Idle, Resume, Mine, SomeWhole, HonestEvent;
    if srv.live.None? {
      IdleGood(t, me, srv, e);
    } else {
      var l := srv.live.value;
      assert srv.Sessions()[|srv.log|] == l.session;
      RcvdAtEnd(l.kind, l.session, e);
      if l.session.peer == me {
        MineStep(t, me, l.session, e);
      } else {
        OthersMine(t, me, Step(l.kind, l.session, e));
      }
      ResumeGood(t, me, srv, Step(l.kind, l.session, e));
    }
  }

  lemma OthersMine(t: Transfer, me: Addr, s: Session)
    requires s.peer != me
    ensures Mine(t, me, s)
  {
  }

  lemma {:induction false} RunGood(t: Transfer, me: Addr, srv: Server, script: seq<Event>)
    requires |t.data| > 0 && Good(t, me, srv) && HonestTraffic(t, me, script)
    ensures Good(t, me, ServerRun(srv, script))
    decreases |script|
  {
    hide ServerStep, Good, FromClient;
    if script != [] {
      StepGood(t, me, srv, script[0]);
      RunGood(t, me, ServerStep(srv, script[0]), script[1..]);
    }
  }

  /** The server before anything happened, with any addresses left in its static
      variables. */
  function Fresh(udpAddr: Addr, udprAddr: Addr): Server {
    Server(None, udpAddr, udprAddr, [], [])
  }

  /** RCVD of the transfer was sent to the client exactly if a session of the client has
      received everything, or a session of another under its id and without data found
      its address left behind. */
  lemma RcvdMeans(t: Transfer, me: Addr, udpAddr: Addr, udprAddr: Addr, script: seq<Event>)
    requires |t.data| > 0 && HonestTraffic(t, me, script)
    ensures var srv := ServerRun(Fresh(udpAddr, udprAddr), script);
            && (Sent(me, Rcvd(t.session)) in srv.Sends() <==> SomeWhole(t, me, srv.Sessions()))
            && forall k :: 0 <= k < |srv.Sessions()| && Whole(me, srv.Sessions()[k]) ==>
                 srv.Sessions()[k].accepted == Payloads(t.data, t.NumPackets())
  {
    hide ServerRun;
    RunGood(t, me, Fresh(udpAddr, udprAddr), script);
    var srv := ServerRun(Fresh(udpAddr, udprAddr), script);
    forall k | 0 <= k < |srv.Sessions()| && Whole(me, srv.Sessions()[k])
      ensures srv.Sessions()[k].accepted == Payloads(t.data, t.NumPackets())
    {
      assert Mine(t, me, srv.Sessions()[k]);
      ReceivedIsAll(t, srv.Sessions()[k]);
    }
  }

  lemma ReceivedIsAll(t: Transfer, s: Session)
    requires Counted(s) && s.outcome.Received? && s.size == |t.data| > 0
    requires |s.accepted| <= t.NumPackets() && s.accepted == Payloads(t.data, |s.accepted|)
    ensures |s.accepted| == t.NumPackets()
  {
    PayloadsTotal(t.data, |s.accepted|);
  }

  // ----- The client -----

  /** What the client received, as UdpClientHandler takes it: CONACC, and then RCVD. */
  predicate ConfirmedBy(t: Transfer, script: seq<Event>) {
    var r1 := NextResponse(t, script, 0, None);
    Answered(r1, Conacc(t.session))
    && Answered(NextResponse(t, script, r1.pos, r1.pinned), Rcvd(t.session))
  }

  /** What speaks for the server was sent by it to the client, and the client took the IP
      address of the server for the server's. */
  ghost predicate Genuine(t: Transfer, me: Addr, sends: seq<Sent>, script: seq<Event>) {
    && (FirstIp(script).Some? ==> FirstIp(script).value == t.server.ip)
    && forall i :: 0 <= i < |script| && Speaks(script[i]) && script[i].src == t.server ==>
         exists p :: Sent(me, p) in sends && script[i].bytes == Encode(p)
  }

  /** A response comes from the pinned address on the server's port. */
  lemma {:induction false} ResponseFrom(t: Transfer, script: seq<Event>, pos: nat, pinned: Option<nat>) returns (i: nat)
    requires pos <= |script| && NextResponse(t, script, pos, pinned).heard.Got?
    ensures var r := NextResponse(t, script, pos, pinned);
            && i < |script| && Speaks(script[i]) && script[i].src.port == t.server.port
            && r.pinned == Some(script[i].src.ip) && r.heard.bytes == Truncated(script[i].bytes, RESPONSE_BUFF_SIZE)
            && r.pinned == (if pinned.Some? then pinned else FirstIp(script[pos..]))
    decreases |script| - pos
  {
    var e := script[pos];
    assert script[pos..][0] == e && script[pos..][1..] == script[pos + 1..];
    i := pos;
    if e.Datagram? {
      var pin := if pinned.None? then Some(e.src.ip) else pinned;
      if Some(e.src.ip) != pin || e.src.port != t.server.port {
        i := ResponseFrom(t, script, pos + 1, pin);
      }
    }
  }

  lemma OnlyHeadParses(p: Packet, q: Packet)
    requires q.Conacc? || q.Rcvd?
    requires Parse(Truncated(Encode(p), RESPONSE_BUFF_SIZE)) == Some(q)
    ensures p == q
  {
    EncodedFields(p);
    ParseEncode(p);
  }

  lemma AnswerWasSent(t: Transfer, me: Addr, sends: seq<Sent>, script: seq<Event>, pos: nat, pinned: Option<nat>, q: Packet)
    requires Genuine(t, me, sends, script) && pos <= |script| && (q.Conacc? || q.Rcvd?)
    requires Answered(NextResponse(t, script, pos, pinned), q)
    requires if pinned.Some? then pinned.value == t.server.ip else pos == 0
    ensures Sent(me, q) in sends && NextResponse(t, script, pos, pinned).pinned == Some(t.server.ip)
  {
    hide NextResponse, Encode, Parse;
    var i := ResponseFrom(t, script, pos, pinned);
    assert script[0..] == script;
    assert script[i].src == t.server;
    var p :| Sent(me, p) in sends && script[i].bytes == Encode(p);
    OnlyHeadParses(p, q);
  }

  function FromServer(t: Transfer, p: Packet): Event {
    Datagram(t.server, Encode(p), ENV)
  }

  lemma PromptAnswers(t: Transfer, me: Addr, sends: seq<Sent>)
    requires Sent(me, Conacc(t.session)) in sends && Sent(me, Rcvd(t.session)) in sends
    ensures var script := [FromServer(t, Conacc(t.session)), FromServer(t, Rcvd(t.session))];
            Genuine(t, me, sends, script) && ConfirmedBy(t, script)
  {
    hide Encode, Parse;
    var script := [FromServer(t, Conacc(t.session)), FromServer(t, Rcvd(t.session))];
    ReplyFits(t.server, Conacc(t.session));
    ReplyFits(t.server, Rcvd(t.session));
    assert NextResponse(t, script, 0, None) == Response(Got(Encode(Conacc(t.session)), ENV), 1, Some(t.server.ip));
    assert NextResponse(t, script, 1, Some(t.server.ip)) == Response(Got(Encode(Rcvd(t.session)), ENV), 2, Some(t.server.ip));
  }

  // ----- Both -----

  /** A confirmed client: some session of it has accepted all its chunks, or it is misled
      by a session of another under its id and without data. */
  lemma ConfirmedMeans(t: Transfer, me: Addr, udpAddr: Addr, udprAddr: Addr, heard: seq<Event>, script: seq<Event>)
    requires |t.data| > 0 && HonestTraffic(t, me, script)
    requires Genuine(t, me, ServerRun(Fresh(udpAddr, udprAddr), script).Sends(), heard)
    requires ConfirmedBy(t, heard)
    ensures var sessions := ServerRun(Fresh(udpAddr, udprAddr), script).Sessions();
            exists k :: 0 <= k < |sessions|
                     && ((sessions[k].peer == me && sessions[k].accepted == Payloads(t.data, t.NumPackets()))
                         || Twin(t, me, sessions[k]))
  {
    hide ServerRun, NextResponse, Payloads;
    var srv := ServerRun(Fresh(udpAddr, udprAddr), script);
    BothSent(t, me, srv.Sends(), heard);
    RcvdMeans(t, me, udpAddr, udprAddr, script);
    var k :| 0 <= k < |srv.Sessions()| && (Whole(me, srv.Sessions()[k]) || Twin(t, me, srv.Sessions()[k]));
  }

  lemma BothSent(t: Transfer, me: Addr, sends: seq<Sent>, heard: seq<Event>)
    requires Genuine(t, me, sends, heard) && ConfirmedBy(t, heard)
    ensures Sent(me, Conacc(t.session)) in sends && Sent(me, Rcvd(t.session)) in sends
  {
    hide NextResponse, Genuine, Answered;
    var r1 := NextResponse(t, heard, 0, None);
    AnswerWasSent(t, me, sends, heard, 0, None, Conacc(t.session));
    AnswerWasSent(t, me, sends, heard, r1.pos, r1.pinned, Rcvd(t.session));
  }

  /** Exactly when a client can be confirmed: the server has accepted its CONN, and a
      session of it has received everything or another misleads it. */
  lemma ConfirmableExactly(t: Transfer, me: Addr, udpAddr: Addr, udprAddr: Addr, script: seq<Event>)
    requires |t.data| > 0 && HonestTraffic(t, me, script)
    ensures var srv := ServerRun(Fresh(udpAddr, udprAddr), script);
            (exists heard :: Genuine(t, me, srv.Sends(), heard) && ConfirmedBy(t, heard))
            <==> Sent(me, Conacc(t.session)) in srv.Sends() && SomeWhole(t, me, srv.Sessions())
  {
    hide ServerRun, NextResponse, Genuine, ConfirmedBy, SomeWhole;
    var sends := ServerRun(Fresh(udpAddr, udprAddr), script).Sends();
    RcvdMeans(t, me, udpAddr, udprAddr, script);
    if heard :| Genuine(t, me, sends, heard) && ConfirmedBy(t, heard) {
      BothSent(t, me, sends, heard);
    }
    if Sent(me, Conacc(t.session)) in sends && Sent(me, Rcvd(t.session)) in sends {
      PromptAnswers(t, me, sends);
    }
  }

  // ----- A client that is misled -----

  /** Every client can be: its CONN is delivered twice, which ends its session and leaves its
      address behind, and a stranger begins a session under its id without data. */
  lemma Misled(t: Transfer, me: Addr, stranger: Addr, udpAddr: Addr, udprAddr: Addr)
    requires |t.data| > 0 && stranger != me
    ensures exists script, heard ::
              var srv := ServerRun(Fresh(udpAddr, udprAddr), script);
              && HonestTraffic(t, me, script) && Genuine(t, me, srv.Sends(), heard) && ConfirmedBy(t, heard)
              && forall k :: 0 <= k < |srv.Sessions()| ==> srv.Sessions()[k].accepted == []
  {
    hide ServerRun, ServerStep, Encode, NextResponse, Genuine, ConfirmedBy, HonestTraffic;
    var own, other := Conn(t.session, UDP_PROTOCOL, |t.data|), Conn(t.session, UDP_PROTOCOL, 0);
    var e, f := Datagram(me, Encode(own), ENV), Datagram(stranger, Encode(other), ENV);
    var script := [e, e, f];
    var srv0 := Fresh(udpAddr, udprAddr);
    var srv1 := ServerStep(srv0, e);
    var srv2 := ServerStep(srv1, e);
    var srv3 := ServerStep(srv2, f);
    Unfolds3(srv0, e, e, f);
    Accepts1(t, me, srv0, e);
    Ends2(t, me, srv1, e);
    Misleads3(t, me, srv2, f);
    SentTwice(t, me, e, f);
    PromptAnswers(t, me, srv3.Sends());
    assert ServerRun(srv0, script) == srv3;
  }

  lemma SentTwice(t: Transfer, me: Addr, e: Event, f: Event)
    requires e == Datagram(me, Encode(Conn(t.session, UDP_PROTOCOL, |t.data|)), ENV) && f.Datagram? && f.src != me
    ensures HonestTraffic(t, me, [e, e, f])
  {
    hide Encode;
    assert FromClient(t, e.bytes);
  }

  lemma Unfolds3(srv: Server, a: Event, b: Event, c: Event)
    ensures ServerRun(srv, [a, b, c]) == ServerStep(ServerStep(ServerStep(srv, a), b), c)
  {
    hide ServerStep;
    assert [a, b, c][1..] == [b, c] && [b, c][1..] == [c] && [c][1..] == [];
    assert ServerRun(srv, [a, b, c]) == ServerRun(ServerStep(srv, a), [b, c]);
    assert ServerRun(ServerStep(srv, a), [b, c]) == ServerRun(ServerStep(ServerStep(srv, a), b), [c]);
  }

  lemma UdpConn(p: Packet, mem: ConnMem)
    requires p.Conn? && p.protocol == UDP_PROTOCOL
    ensures var got := Truncated(Encode(p), RECEIVE_BUFFOR_SIZE); var m := Overlay(mem, got);
            && got == Encode(p) && |got| == CONN_SIZE && got[0] == CONN_ID
            && m[0] == CONN_ID && m[9] == UDP_PROTOCOL && Value64(m[1..9]) == p.session && Value64(m[10..18]) == p.size
  {
    EncodedFields(p);
    assert Overlay(mem, Encode(p)) == Encode(p);
  }

  lemma Accepts1(t: Transfer, me: Addr, srv: Server, e: Event)
    requires |t.data| > 0 && srv.live.None? && srv.log == [] && srv.idleSent == []
    requires e == Datagram(me, Encode(Conn(t.session, UDP_PROTOCOL, |t.data|)), ENV)
    ensures var after := ServerStep(srv, e);
            && after.live.Some? && after.live.value.kind.Udp? && after.log == []
            && var s := after.live.value.session;
            && s.peer == me && s.session == t.session && s.accepted == [] && s.outcome.Running?
            && s.sent == [Sent(me, Conacc(t.session))]
  {
    hide Encode;
    UdpConn(Conn(t.session, UDP_PROTOCOL, |t.data|), ENV.conn);
  }

  lemma Ends2(t: Transfer, me: Addr, srv: Server, e: Event)
    requires srv.live.Some? && srv.live.value.kind.Udp? && srv.log == []
    requires var s := srv.live.value.session;
             && s.peer == me && s.session == t.session && s.accepted == [] && s.outcome.Running?
             && s.sent == [Sent(me, Conacc(t.session))]
    requires e == Datagram(me, Encode(Conn(t.session, UDP_PROTOCOL, |t.data|)), ENV)
    ensures var after := ServerStep(srv, e);
            && after.live.None? && after.udpAddr == me && |after.log| == 1 && after.log[0].accepted == []
            && Sent(me, Conacc(t.session)) in after.idleSent
  {
    hide Encode, Step, FromPeer;
    var s, got := srv.live.value.session, e.bytes;
    UdpConn(Conn(t.session, UDP_PROTOCOL, |t.data|), ENV.conn);
    RcvdAtEnd(Udp, s, e);
    EndsInSession(s, me, e);
    var next := Step(Udp, s, e);
    assert next.sent[0] == s.sent[0];
    assert ServerStep(srv, e) == Resume(srv, Udp, next);
  }

  lemma EndsInSession(s: Session, me: Addr, e: Event)
    requires s.outcome.Running? && s.peer == me && e.Datagram? && e.src == me
    requires LooksLikeConn(Truncated(e.bytes, RECEIVE_BUFFOR_SIZE))
    ensures var t := Step(Udp, s, e); t.outcome.Violated? && t.accepted == s.accepted && t.replyTo == me
  {
    hide CastInfo;
    ConnInSession(Udp, s.(replyTo := me), Truncated(e.bytes, RECEIVE_BUFFOR_SIZE), e.env.info);
  }

  lemma Misleads3(t: Transfer, me: Addr, srv: Server, f: Event)
    requires srv.live.None? && srv.udpAddr == me && |srv.log| == 1 && srv.log[0].accepted == []
    requires Sent(me, Conacc(t.session)) in srv.idleSent
    requires f.Datagram? && f.bytes == Encode(Conn(t.session, UDP_PROTOCOL, 0)) && f.env == ENV
    ensures var after := ServerStep(srv, f);
            && Sent(me, Conacc(t.session)) in after.Sends() && Sent(me, Rcvd(t.session)) in after.Sends()
            && forall k :: 0 <= k < |after.Sessions()| ==> after.Sessions()[k].accepted == []
  {
    hide Start, ServerStep, Resume, Encode;
    var sent := srv.idleSent + [Sent(f.src, Conacc(t.session))];
    var s := Start(Udp, f.src, t.session, 0, me, sent);
    EmptyStart(f.src, t.session, me, sent);
    BeginsAt(t, srv, f);
    Logged(srv, s);
    assert s.sent[|sent|] == Sent(me, Rcvd(t.session));
  }

  lemma Logged(srv: Server, s: Session)
    requires srv.live.None? && !s.outcome.Running? && |srv.log| == 1
    ensures var after := Resume(srv, Udp, s); after.Sessions() == [srv.log[0], s] && after.Sends() == s.sent
  {
  }

  lemma EmptyStart(peer: Addr, session: uint64, last: Addr, sent: seq<Sent>)
    ensures var s := Start(Udp, peer, session, 0, last, sent);
            s.accepted == [] && s.outcome.Received? && s.sent == sent + [Sent(last, Rcvd(session))]
  {
  }

  lemma BeginsAt(t: Transfer, srv: Server, f: Event)
    requires srv.live.None? && f.Datagram? && f.bytes == Encode(Conn(t.session, UDP_PROTOCOL, 0)) && f.env == ENV
    ensures ServerStep(srv, f)
         == Resume(srv, Udp, Start(Udp, f.src, t.session, 0, srv.udpAddr, srv.idleSent + [Sent(f.src, Conacc(t.session))]))
  {
    hide Encode, Start, Resume;
    UdpConn(Conn(t.session, UDP_PROTOCOL, 0), ENV.conn);
  }
}
