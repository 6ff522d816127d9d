// UDPR end to end while other clients use the same server.

/** One client and the server among arbitrary other traffic. No channels are modelled: the
    server can hear from the client any packet it has ever sent, as often and as late as
    may be, and from everyone else anything; sessions of others come and go between those
    of the client, under any session ids. Of the client only the condition of FirstSpeaker
    is asked, that it did not pin another IP address. */
module SharedServer {
  import opened Packets
  import opened StructMemory
  import opened Network
  import opened Chunks
  import opened UdpSession
  import opened UdprClientSpec
  import opened UdprClientProperties
  import opened FirstSpeaker
  import opened ClosedSystem
  import opened ServerSimulation
  import P = Protocol
  import S = Safety

  datatype State = State(client: Client, server: Server)

  datatype Move = ClientGets(e: Event) | ServerGets(e: Event)

  function Begin(sys: System): State {
    State(ClientStart(sys.t), Server(None, sys.udpAddr, sys.udprAddr, [], []))
  }

  function Next(sys: System, w: State, m: Move): State {
    match m
    case ClientGets(e) => w.(client := ClientStep(sys.t, w.client, e))
    case ServerGets(e) => w.(server := ServerStep(w.server, e))
  }

  /** What speaks in the name of the two ends was sent by them. */
  ghost predicate Genuine(sys: System, w: State, m: Move) {
    match m
    case ClientGets(e) =>
      && !w.client.phase.Done?
      && (Speaks(e) && e.src == sys.t.server ==>
            exists p :: Sent(sys.me, p) in w.server.Sends() && e.bytes == Encode(p))
      && (Speaks(e) && w.client.pinned.None? ==> e.src.ip == sys.t.server.ip)
    case ServerGets(e) =>
      e.Datagram? && e.src == sys.me ==> exists p :: p in w.client.sent && e.bytes == Encode(p)
  }

  ghost predicate Possible(sys: System, moves: seq<Move>) {
    moves == [] ||
    (var before := moves[..|moves| - 1];
     Possible(sys, before) && Genuine(sys, Reached(sys, before), moves[|moves| - 1]))
  }

  function Reached(sys: System, moves: seq<Move>): State {
    if moves == [] then Begin(sys) else Next(sys, Reached(sys, moves[..|moves| - 1]), moves[|moves| - 1])
  }

  // ----- The invariant -----

  function EpisodeOf(s: Session): P.Episode {
    P.Episode(|s.accepted|, s.retransmits, s.outcome)
  }

  /** A session with this client is one of its transfer and has accepted exactly the first
      chunks. */
  predicate Mine(sys: System, s: Session) {
    s.peer == sys.me ==> MatchesSession(sys, s, EpisodeOf(s)) && S.EpisodeOk(sys.t.NumPackets(), EpisodeOf(s))
  }

  /** Some session with this client has accepted more than k packets. */
  ghost predicate Accepted(sys: System, sessions: seq<Session>, k: nat) {
    exists j :: 0 <= j < |sessions| && sessions[j].peer == sys.me && |sessions[j].accepted| > k
  }

  ghost predicate TrueAcks(sys: System, srv: Server) {
    forall i :: 0 <= i < |srv.Sends()| && srv.Sends()[i].dst == sys.me && srv.Sends()[i].packet.Acc? ==>
      Accepted(sys, srv.Sessions(), srv.Sends()[i].packet.id)
  }

  ghost predicate ServerGood(sys: System, srv: Server) {
    && (forall k :: 0 <= k < |srv.Sessions()| ==> Mine(sys, srv.Sessions()[k]))
    && (srv.live.Some? ==> srv.live.value.session.outcome.Running?
                           && (srv.live.value.session.peer == sys.me ==> srv.live.value.kind.Udpr?))
    && TrueAcks(sys, srv)
  }

  ghost predicate Good(sys: System, w: State) {
    && Accounted(sys.t, w.client)
    && (w.client.pinned.Some? ==> w.client.pinned.value == sys.t.server.ip)
    && (w.client.id > 0 ==> Accepted(sys, w.server.Sessions(), w.client.id - 1))
    && ServerGood(sys, w.server)
  }

  // ----- The server's steps -----

  /** One session's step as seen from here: what it sent before stands, and a new ACC to
      the client is of a session with the client and names what that has accepted. */
  ghost predicate Fair(sys: System, before: Session, after: Session) {
    && after.peer == before.peer
    && before.accepted <= after.accepted
    && before.sent <= after.sent
    && forall i :: |before.sent| <= i < |after.sent| && after.sent[i].dst == sys.me && after.sent[i].packet.Acc? ==>
         after.peer == sys.me && after.sent[i].packet.id < |after.accepted|
  }

  lemma OthersFair(sys: System, kind: Kind, s: Session, e: Event)
    requires s.peer != sys.me
    ensures Fair(sys, s, Step(kind, s, e))
  {
    hide CheckData, CastInfo, ForeignReply;
    if e.Datagram? {
      var got := Truncated(e.bytes, RECEIVE_BUFFOR_SIZE);
      if e.src != s.peer {
        ForeignSendsNoAck(e.src, got, e.env);
      }
    }
  }

  lemma ForeignSendsNoAck(src: Addr, got: seq<byte>, env: Env)
    ensures forall i :: 0 <= i < |ForeignReply(src, got, env)| ==> !ForeignReply(src, got, env)[i].packet.Acc?
  {
  }

  lemma FollowsFair(sys: System, s: Session, t: Session, e: P.Episode, out: seq<P.Msg>)
    requires s.peer == sys.me && MatchesSession(sys, s, EpisodeOf(s)) && SessionFollows(sys, s, t, e, out)
    requires e.cur >= |s.accepted| && S.EpisodeOk(sys.t.NumPackets(), e)
    requires forall i :: 0 <= i < |out| && out[i].Ack? ==> out[i].i < e.cur
    ensures Mine(sys, t) && Fair(sys, s, t)
  {
    hide Payloads, Offset;
    PayloadsPrefix(sys.t.data, |s.accepted|, e.cur);
    AllToEach(sys, out);
    MatchedCount(sys, t, e);
    forall i | |s.sent| <= i < |t.sent| && t.sent[i].packet.Acc?
      ensures t.sent[i].packet.id < |t.accepted|
    {
      assert t.sent[i] == AllTo(sys, out)[i - |s.sent|];
      AckOnly(sys.t, out[i - |s.sent|]);
    }
  }

  lemma MatchedCount(sys: System, s: Session, e: P.Episode)
    requires MatchesSession(sys, s, e)
    ensures |s.accepted| == e.cur && EpisodeOf(s) == e
  {
  }

  lemma AckOnly(t: Transfer, m: P.Msg)
    requires Pack(t, m).Acc?
    ensures m.Ack? && Pack(t, m).id <= m.i
  {
  }

  lemma AllToEach(sys: System, ms: seq<P.Msg>)
    ensures forall i :: 0 <= i < |ms| ==> AllTo(sys, ms)[i] == Sent(sys.me, Pack(sys.t, ms[i]))
  {
  }

  lemma MineFair(sys: System, s: Session, e: Event)
    requires |sys.t.data| > 0 && s.peer == sys.me && Mine(sys, s) && s.outcome.Running?
    requires e.Datagram? && e.src == sys.me ==>
               e.bytes == Encode(sys.t.Hello()) || exists i :: 0 <= i < sys.t.NumPackets() && e.bytes == Encode(sys.t.Packet(i))
    ensures Mine(sys, Step(Udpr, s, e)) && Fair(sys, s, Step(Udpr, s, e))
  {
    hide Step, Payloads, Encode, Offset, SessionFollows, MatchesSession, Fair;
    var ep, t := EpisodeOf(s), Step(Udpr, s, e);
    match e
    case Failure =>
      SessionAlone(sys, s, ep);
      FollowsFair(sys, s, t, ep.(outcome := Broken), []);
    case Timeout =>
      SessionAlone(sys, s, ep);
      var again := ep.(retransmits := ep.retransmits + 1);
      if again.retransmits > MAX_RETRANSMITS {
        FollowsFair(sys, s, t, again.(outcome := GaveUp), []);
      } else {
        FollowsFair(sys, s, t, again, [if ep.cur == 0 then P.Welcome else P.Ack(ep.cur - 1)]);
      }
    case Datagram(src, bytes, env) =>
      if src != sys.me {
        ForeignFair(sys, s, e);
      } else if bytes == Encode(sys.t.Hello()) {
        SessionHearsHello(sys, s, ep, env);
        FollowsFair(sys, s, t, if ep.cur == 0 then ep else ep.(outcome := Violated), []);
      } else {
        var i :| 0 <= i < sys.t.NumPackets() && bytes == Encode(sys.t.Packet(i));
        SessionHearsPiece(sys, s, ep, i, env);
        if i < ep.cur {
          FollowsFair(sys, s, t, ep, []);
        } else if i > ep.cur {
          FollowsFair(sys, s, t, ep.(outcome := Violated), [P.Rejection(i)]);
        } else if ep.cur + 1 == sys.t.NumPackets() {
          FollowsFair(sys, s, t, ep.(cur := ep.cur + 1, outcome := Received), [P.Ack(ep.cur), P.Finished]);
        } else {
          FollowsFair(sys, s, t, ep.(cur := ep.cur + 1), [P.Ack(ep.cur)]);
        }
      }
  }

  lemma ForeignFair(sys: System, s: Session, e: Event)
    requires s.peer == sys.me && Mine(sys, s) && e.Datagram? && e.src != sys.me
    ensures Mine(sys, Step(Udpr, s, e)) && Fair(sys, s, Step(Udpr, s, e))
  {
    hide ForeignReply, Payloads;
    var got := Truncated(e.bytes, RECEIVE_BUFFOR_SIZE);
    ForeignSendsNoAck(e.src, got, e.env);
  }

  lemma StillAccepted(sys: System, before: seq<Session>, after: seq<Session>, k: nat)
    requires |before| <= |after| && Accepted(sys, before, k)
    requires forall j :: 0 <= j < |before| ==> after[j].peer == before[j].peer && before[j].accepted <= after[j].accepted
    ensures Accepted(sys, after, k)
  {
    var j :| 0 <= j < |before| && before[j].peer == sys.me && |before[j].accepted| > k;
    assert |after[j].accepted| > k;
  }

  lemma ResumeGood(sys: System, srv: Server, t: Session)
    requires ServerGood(sys, srv) && srv.live.Some?
    requires Mine(sys, t) && Fair(sys, srv.live.value.session, t)
    ensures ServerGood(sys, Resume(srv, srv.live.value.kind, t))
    ensures forall k :: Accepted(sys, srv.Sessions(), k) ==> Accepted(sys, Resume(srv, srv.live.value.kind, t).Sessions(), k)
  {
    hide Mine;
    var s, after := srv.live.value.session, Resume(srv, srv.live.value.kind, t);
    assert after.Sessions() == srv.log + [t] && srv.Sessions() == srv.log + [s] && after.Sends() == t.sent;
    forall k | Accepted(sys, srv.Sessions(), k)
      ensures Accepted(sys, after.Sessions(), k)
    {
      StillAccepted(sys, srv.Sessions(), after.Sessions(), k);
    }
    forall i | 0 <= i < |t.sent| && t.sent[i].dst == sys.me && t.sent[i].packet.Acc?
      ensures Accepted(sys, after.Sessions(), t.sent[i].packet.id)
    {
      if i < |s.sent| {
        assert srv.Sends()[i] == t.sent[i];
      } else {
        assert after.Sessions()[|srv.log|] == t;
      }
    }
    forall k | 0 <= k < |after.Sessions()|
      ensures Mine(sys, after.Sessions()[k])
    {
      if k < |srv.log| {
        assert srv.Sessions()[k] == after.Sessions()[k];
      }
    }
  }

  /** A server without a session sends no ACC, and a session it starts is fresh. */
  lemma IdleGood(sys: System, srv: Server, e: Event)
    requires |sys.t.data| > 0 && ServerGood(sys, srv) && srv.live.None?
    requires e.Datagram? && e.src == sys.me ==>
               e.bytes == Encode(sys.t.Hello()) || exists i :: 0 <= i < sys.t.NumPackets() && e.bytes == Encode(sys.t.Packet(i))
    ensures ServerGood(sys, Idle(srv, e))
    ensures forall k :: Accepted(sys, srv.Sessions(), k) ==> Accepted(sys, Idle(srv, e).Sessions(), k)
  {
    hide Encode, Resume, Start, Mine;
    if e.Datagram? {
      var got, conn := Truncated(e.bytes, RECEIVE_BUFFOR_SIZE), Overlay(e.env.conn, Truncated(e.bytes, RECEIVE_BUFFOR_SIZE));
      var session, size := Value64(conn[1..9]), Value64(conn[10..18]);
      if Opens(got, conn) && e.env.sendOk {
        var kind := if conn[9] == UDP_PROTOCOL then Udp else Udpr;
        var last := if kind.Udp? then srv.udpAddr else srv.udprAddr;
        var sent := srv.idleSent + [Sent(e.src, Conacc(session))];
        var s := Start(kind, e.src, session, size, last, sent);
        StartsFair(kind, e.src, session, size, last, sent);
        if e.src == sys.me {
          OwnConn(sys, e, conn);
          FreshSession(sys, last, sent);
          MatchedCount(sys, s, P.Episode(0, 0, Running));
        }
        FreshMine(sys, s);
        OpenGood(sys, srv, kind, s);
      } else {
        IdleKeeps(srv, e);
        SendsGood(sys, srv, Idle(srv, e));
      }
    }
  }

  predicate Opens(got: seq<byte>, conn: ConnMem) {
    |got| == CONN_SIZE && conn[0] == CONN_ID && (conn[9] == UDP_PROTOCOL || conn[9] == UDPR_PROTOCOL)
  }

  lemma IdleKeeps(srv: Server, e: Event)
    requires srv.live.None? && e.Datagram?
    requires var got := Truncated(e.bytes, RECEIVE_BUFFOR_SIZE); !Opens(got, Overlay(e.env.conn, got)) || !e.env.sendOk
    ensures var after := Idle(srv, e);
            after == srv.(idleSent := after.idleSent)
            && (after.idleSent == srv.idleSent
                || exists d, p: Packet :: !p.Acc? && after.idleSent == srv.idleSent + [Sent(d, p)])
  {
    hide Resume, Start;
    var session := Value64(Overlay(e.env.conn, Truncated(e.bytes, RECEIVE_BUFFOR_SIZE))[1..9]);
    assert !Conrjt(session).Acc?;
  }

  lemma SendsGood(sys: System, srv: Server, after: Server)
    requires ServerGood(sys, srv) && srv.live.None? && after == srv.(idleSent := after.idleSent)
    requires after.idleSent == srv.idleSent || exists d, p: Packet :: !p.Acc? && after.idleSent == srv.idleSent + [Sent(d, p)]
    ensures ServerGood(sys, after) && after.Sessions() == srv.Sessions()
  {
    hide Mine;
    assert after.Sessions() == srv.Sessions();
    forall i | 0 <= i < |after.idleSent| && after.idleSent[i].dst == sys.me && after.idleSent[i].packet.Acc?
      ensures Accepted(sys, after.Sessions(), after.idleSent[i].packet.id)
    {
      assert srv.Sends()[i] == after.idleSent[i];
    }
  }

  /** The client's own CONN, whatever the struct held. */
  lemma OwnConn(sys: System, e: Event, conn: ConnMem)
    requires e.Datagram? && conn == Overlay(e.env.conn, Truncated(e.bytes, RECEIVE_BUFFOR_SIZE))
    requires Opens(Truncated(e.bytes, RECEIVE_BUFFOR_SIZE), conn)
    requires e.bytes == Encode(sys.t.Hello()) || exists i :: 0 <= i < sys.t.NumPackets() && e.bytes == Encode(sys.t.Packet(i))
    ensures conn[9] == UDPR_PROTOCOL && Value64(conn[1..9]) == sys.t.session && Value64(conn[10..18]) == |sys.t.data|
  {
    hide Encode;
    if e.bytes == Encode(sys.t.Hello()) {
      HelloPacket(sys);
      ConnCast(sys, e.env.conn);
    } else {
      var i :| 0 <= i < sys.t.NumPackets() && e.bytes == Encode(sys.t.Packet(i));
      PiecePacket(sys, i);
    }
  }

  lemma StartsFair(kind: Kind, peer: Addr, session: uint64, size: uint64, replyTo: Addr, sent: seq<Sent>)
    ensures var s := Start(kind, peer, session, size, replyTo, sent);
            && s.peer == peer && s.accepted == [] && sent <= s.sent
            && forall i :: |sent| <= i < |s.sent| ==> !s.sent[i].packet.Acc?
  {
  }

  lemma FreshMine(sys: System, s: Session)
    requires s.accepted == [] && |sys.t.data| > 0
    requires s.peer == sys.me ==> MatchesSession(sys, s, P.Episode(0, 0, Running))
    ensures Mine(sys, s)
  {
  }

  lemma OpenGood(sys: System, srv: Server, kind: Kind, s: Session)
    requires ServerGood(sys, srv) && srv.live.None? && Mine(sys, s) && (s.peer == sys.me ==> kind.Udpr?)
    requires srv.idleSent <= s.sent && forall i :: |srv.idleSent| <= i < |s.sent| ==> !s.sent[i].packet.Acc?
    ensures ServerGood(sys, Resume(srv, kind, s))
    ensures forall k :: Accepted(sys, srv.Sessions(), k) ==> Accepted(sys, Resume(srv, kind, s).Sessions(), k)
  {
    hide Mine;
    var after := Resume(srv, kind, s);
    assert after.Sessions() == srv.Sessions() + [s] && after.Sends() == s.sent;
    forall k | Accepted(sys, srv.Sessions(), k)
      ensures Accepted(sys, after.Sessions(), k)
    {
      StillAccepted(sys, srv.Sessions(), after.Sessions(), k);
    }
    forall i | 0 <= i < |s.sent| && s.sent[i].dst == sys.me && s.sent[i].packet.Acc?
      ensures Accepted(sys, after.Sessions(), s.sent[i].packet.id)
    {
      assert srv.Sends()[i] == s.sent[i];
    }
  }

  lemma ServerStepGood(sys: System, srv: Server, e: Event)
    requires |sys.t.data| > 0 && ServerGood(sys, srv)
    requires e.Datagram? && e.src == sys.me ==>
               e.bytes == Encode(sys.t.Hello()) || exists i :: 0 <= i < sys.t.NumPackets() && e.bytes == Encode(sys.t.Packet(i))
    ensures ServerGood(sys, ServerStep(srv, e))
    ensures forall k :: Accepted(sys, srv.Sessions(), k) ==> Accepted(sys, ServerStep(srv, e).Sessions(), k)
  {
    hide Step, Encode, Idle, Resume, Mine, Fair, TrueAcks, Accepted;
    if srv.live.None? {
      IdleGood(sys, srv, e);
    } else {
      var s := srv.live.value.session;
      assert srv.Sessions()[|srv.log|] == s;
      if s.peer == sys.me {
        MineFair(sys, s, e);
      } else {
        OthersFair(sys, srv.live.value.kind, s, e);
        NotMine(sys, s, Step(srv.live.value.kind, s, e));
      }
      ResumeGood(sys, srv, Step(srv.live.value.kind, s, e));
    }
  }

  lemma NotMine(sys: System, s: Session, t: Session)
    requires s.peer != sys.me && Fair(sys, s, t)
    ensures Mine(sys, t)
  {
  }

  // ----- The client's steps -----

  /** The client goes on to the next packet only for the ACC of this one, sent by the server
      to it. */
  lemma AdvanceMeansAck(t: Transfer, c: Client, e: Event)
    requires Sane(t, c) && !c.phase.Done? && ClientStep(t, c, e).id != c.id
    ensures e.Datagram? && Speaks(e) && c.phase.Sending? && ClientStep(t, c, e).id == c.id + 1 <= t.NumPackets()
    ensures e.src.port == t.server.port && (c.pinned.Some? ==> Some(e.src.ip) == c.pinned)
    ensures Parse(Truncated(e.bytes, RESPONSE_BUFF_SIZE)) == Some(Acc(t.session, c.id % TWO_64))
  {
    hide Parse, OnAck, OnReply, OnClose;
    AdvanceMeansHeard(t, c, e);
    if c.phase.Sending? {
      AckMeansParse(t, c.(pinned := Some(e.src.ip)), Truncated(e.bytes, RESPONSE_BUFF_SIZE), e.env.acc);
    }
  }

  lemma AdvanceMeansHeard(t: Transfer, c: Client, e: Event)
    requires !c.phase.Done? && ClientStep(t, c, e).id != c.id
    ensures e.Datagram? && Speaks(e) && c.phase.Sending?
    ensures e.src.port == t.server.port && (c.pinned.Some? ==> Some(e.src.ip) == c.pinned)
    ensures ClientStep(t, c, e)
         == OnAck(t, c.(pinned := Some(e.src.ip)), Truncated(e.bytes, RESPONSE_BUFF_SIZE), e.env.acc)
  {
    hide OnAck;
  }

  lemma OnlyAcksParse(p: Packet, session: uint64, id: uint64)
    requires Parse(Truncated(Encode(p), RESPONSE_BUFF_SIZE)) == Some(Acc(session, id))
    ensures p == Acc(session, id)
  {
    EncodedFields(p);
    ParseEncode(p);
  }

  lemma ClientStepGood(sys: System, w: State, e: Event)
    requires Good(sys, w) && Genuine(sys, w, ClientGets(e))
    ensures Good(sys, Next(sys, w, ClientGets(e)))
  {
    hide ClientStep, ServerGood, Accounted, Parse, Encode, Accepted;
    var t, c := sys.t, w.client;
    var d := ClientStep(t, c, e);
    StepAccounted(t, c, e);
    PinStays(t, c, e);
    if d.id != c.id {
      AccountedSane(t, c);
      AdvanceMeansAck(t, c, e);
      var p :| Sent(sys.me, p) in w.server.Sends() && e.bytes == Encode(p);
      OnlyAcksParse(p, t.session, c.id % TWO_64);
      AckIsTrue(sys, w.server, p);
      assert c.id % TWO_64 == c.id;
    }
  }

  lemma AccountedSane(t: Transfer, c: Client)
    requires Accounted(t, c)
    ensures Sane(t, c)
  {
  }

  lemma PinStays(t: Transfer, c: Client, e: Event)
    ensures ClientStep(t, c, e).pinned == c.pinned
            || (c.pinned.None? && Speaks(e) && ClientStep(t, c, e).pinned == Some(e.src.ip))
  {
  }

  lemma AckIsTrue(sys: System, srv: Server, p: Packet)
    requires ServerGood(sys, srv) && p.Acc? && Sent(sys.me, p) in srv.Sends()
    ensures Accepted(sys, srv.Sessions(), p.id)
  {
    var i :| 0 <= i < |srv.Sends()| && srv.Sends()[i] == Sent(sys.me, p);
  }

  // ----- Every run -----

  lemma SentByClient(sys: System, w: State, p: Packet)
    requires Accounted(sys.t, w.client) && p in w.client.sent
    ensures p == sys.t.Hello() || exists i :: 0 <= i < sys.t.NumPackets() && p == sys.t.Packet(i)
  {
    var j :| 0 <= j < |w.client.sent| && w.client.sent[j] == p;
    assert OfTransfer(sys.t, w.client.id, w.client.sent[j]);
  }

  lemma MoveGood(sys: System, w: State, m: Move)
    requires |sys.t.data| > 0 && Good(sys, w) && Genuine(sys, w, m)
    ensures Good(sys, Next(sys, w, m))
  {
    hide ServerStep, ServerGood, Accounted, Encode, Accepted;
    match m
    case ClientGets(e) => ClientStepGood(sys, w, e);
    case ServerGets(e) =>
      if e.Datagram? && e.src == sys.me {
        var p :| p in w.client.sent && e.bytes == Encode(p);
        SentByClient(sys, w, p);
      }
      ServerStepGood(sys, w.server, e);
  }

  lemma {:induction false} AlwaysGood(sys: System, moves: seq<Move>)
    requires |sys.t.data| > 0 && Possible(sys, moves)
    ensures Good(sys, Reached(sys, moves))
  {
    hide Next, Genuine, Good;
    if moves == [] {
      BeginGood(sys);
    } else {
      AlwaysGood(sys, moves[..|moves| - 1]);
      MoveGood(sys, Reached(sys, moves[..|moves| - 1]), moves[|moves| - 1]);
    }
  }

  lemma BeginGood(sys: System)
    ensures Good(sys, Begin(sys))
  {
  }

  /** Among any other clients, and with any loss, repetition and delay: every session with
      the client has accepted exactly the first chunks of its data; a client past packet
      i - 1 has a session that accepted i packets; a delivered client has one that
      accepted them all. */
  lemma SafeAmongOthers(sys: System, moves: seq<Move>)
    requires |sys.t.data| > 0 && Possible(sys, moves)
    ensures var w, n := Reached(sys, moves), sys.t.NumPackets();
            && (forall k :: 0 <= k < |w.server.Sessions()| && w.server.Sessions()[k].peer == sys.me ==>
                  var s := w.server.Sessions()[k];
                  && |s.accepted| <= n && s.accepted == Payloads(sys.t.data, |s.accepted|)
                  && (s.outcome.Received? <==> |s.accepted| == n))
            && (w.client.id > 0 ==>
                  exists k :: 0 <= k < |w.server.Sessions()| && w.server.Sessions()[k].peer == sys.me
                           && |w.server.Sessions()[k].accepted| >= w.client.id)
            && (w.client.phase == Done(Delivered) ==>
                  exists k :: 0 <= k < |w.server.Sessions()| && w.server.Sessions()[k].peer == sys.me
                           && w.server.Sessions()[k].accepted == Payloads(sys.t.data, n))
  {
    hide Reached, Payloads;
    AlwaysGood(sys, moves);
    var w, n := Reached(sys, moves), sys.t.NumPackets();
    forall k | 0 <= k < |w.server.Sessions()| && w.server.Sessions()[k].peer == sys.me
      ensures var s := w.server.Sessions()[k];
              && |s.accepted| <= n && s.accepted == Payloads(sys.t.data, |s.accepted|)
              && (s.outcome.Received? <==> |s.accepted| == n)
    {
      assert Mine(sys, w.server.Sessions()[k]);
    }
  }
}
