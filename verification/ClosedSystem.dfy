// The code of client and server joined by a network of encoded packets.

/** One UDPR client and the UDP server, each running the step functions of its source
    over byte strings, simulate the abstract protocol step by step. */
module ClosedSystem {
  import opened Packets
  import opened Network
  import opened UdpSession
  import opened UdprClientSpec
  import opened UdprClientProperties
  import P = Protocol
  import S = Safety

  /** The transfer, the client's address, and what the server's static addresses held
      before. */
  datatype System = System(t: Transfer, me: Addr, udpAddr: Addr, udprAddr: Addr)

  datatype World = World(client: Client, server: Server, toServer: seq<Packet>, toClient: seq<Packet>)

  function Init(sys: System): World {
    World(ClientStart(sys.t), Server(None, sys.udpAddr, sys.udprAddr, [], []), [sys.t.Hello()], [])
  }

  function Added<T>(before: seq<T>, after: seq<T>): seq<T> {
    if |before| <= |after| then after[|before|..] else []
  }

  function ClientDoes(w: World, left: seq<Packet>, c: Client): World {
    World(c, w.server, w.toServer + Added(w.client.sent, c.sent), left)
  }

  function ServerDoes(sys: System, w: World, left: seq<Packet>, srv: Server): World {
    World(w.client, srv, left, w.toClient + SentTo(Added(w.server.Sends(), srv.Sends()), sys.me))
  }

  /** The two ends exchange datagrams; the actions are those of the abstract protocol. */
  function Apply(sys: System, w: World, a: P.Action): World {
    match a
    case ClientTakes(i, env) =>
      if i < |w.toClient| then
        ClientDoes(w, P.Without(w.toClient, i), ClientStep(sys.t, w.client, Datagram(sys.t.server, Encode(w.toClient[i]), env)))
      else w
    case ClientTimeout => ClientDoes(w, w.toClient, ClientStep(sys.t, w.client, Timeout))
    case ClientError => ClientDoes(w, w.toClient, ClientStep(sys.t, w.client, Failure))
    case ServerTakes(i, env) =>
      if i < |w.toServer| then
        ServerDoes(sys, w, P.Without(w.toServer, i), ServerStep(w.server, Datagram(sys.me, Encode(w.toServer[i]), env)))
      else w
    case ServerTimeout => ServerDoes(sys, w, w.toServer, ServerStep(w.server, Timeout))
    case ServerError => ServerDoes(sys, w, w.toServer, ServerStep(w.server, Failure))
    case LoseToServer(i) => if i < |w.toServer| then w.(toServer := P.Without(w.toServer, i)) else w
    case LoseToClient(i) => if i < |w.toClient| then w.(toClient := P.Without(w.toClient, i)) else w
    case CopyToServer(i) => if i < |w.toServer| then w.(toServer := w.toServer + [w.toServer[i]]) else w
    case CopyToClient(i) => if i < |w.toClient| then w.(toClient := w.toClient + [w.toClient[i]]) else w
  }

  predicate Enabled(w: World, a: P.Action) {
    match a
    case ClientTakes(i, _) => !w.client.phase.Done? && i < |w.toClient|
    case ClientTimeout => !w.client.phase.Done?
    case ClientError => !w.client.phase.Done?
    case ServerTakes(i, _) => i < |w.toServer|
    case ServerTimeout => w.server.live.Some?
    case ServerError => w.server.live.Some?
    case LoseToServer(i) => i < |w.toServer|
    case LoseToClient(i) => i < |w.toClient|
    case CopyToServer(i) => i < |w.toServer|
    case CopyToClient(i) => i < |w.toClient|
  }

  /** A run: every action was possible where it was taken. */
  predicate Feasible(sys: System, net: P.Net, acts: seq<P.Action>) {
    acts == [] ||
    (var before, a := acts[..|acts| - 1], acts[|acts| - 1];
     Feasible(sys, net, before) && P.Allowed(net, a) && Enabled(After(sys, before), a))
  }

  function After(sys: System, acts: seq<P.Action>): World {
    if acts == [] then Init(sys) else Apply(sys, After(sys, acts[..|acts| - 1]), acts[|acts| - 1])
  }

  // ----- Messages and packets -----

  function Pack(t: Transfer, m: P.Msg): Packet {
    match m
    case Hello => t.Hello()
    case Piece(i) => if i < t.NumPackets() then t.Packet(i) else t.Hello()
    case Welcome => Conacc(t.session)
    case Ack(i) => Acc(t.session, i % TWO_64)
    case Finished => Rcvd(t.session)
    case Refusal => Conrjt(t.session)
    case Rejection(i) => Rjt(t.session, i % TWO_64)
  }

  function PackAll(t: Transfer, ms: seq<P.Msg>): (ps: seq<Packet>)
    ensures |ps| == |ms| && forall i :: 0 <= i < |ms| ==> ps[i] == Pack(t, ms[i])
  {
    if ms == [] then [] else PackAll(t, ms[..|ms| - 1]) + [Pack(t, ms[|ms| - 1])]
  }

  lemma PackConcat(t: Transfer, a: seq<P.Msg>, b: seq<P.Msg>)
    ensures PackAll(t, a + b) == PackAll(t, a) + PackAll(t, b)
  {
  }

  lemma PackWithout(t: Transfer, ms: seq<P.Msg>, i: nat)
    requires i < |ms|
    ensures PackAll(t, P.Without(ms, i)) == P.Without(PackAll(t, ms), i)
  {
  }

  function AllTo(sys: System, ms: seq<P.Msg>): (ss: seq<Sent>)
    ensures |ss| == |ms|
  {
    if ms == [] then [] else AllTo(sys, ms[..|ms| - 1]) + [Sent(sys.me, Pack(sys.t, ms[|ms| - 1]))]
  }

  lemma {:induction false} SentToAll(sys: System, ms: seq<P.Msg>)
    ensures SentTo(AllTo(sys, ms), sys.me) == PackAll(sys.t, ms)
  {
    if ms == [] {
    } else {
      SentToAll(sys, ms[..|ms| - 1]);
      SentToSnoc(AllTo(sys, ms[..|ms| - 1]), Sent(sys.me, Pack(sys.t, ms[|ms| - 1])), sys.me);
    }
  }

  lemma AllToSmall(sys: System, a: P.Msg, b: P.Msg)
    ensures AllTo(sys, []) == []
    ensures AllTo(sys, [a]) == [Sent(sys.me, Pack(sys.t, a))]
    ensures AllTo(sys, [a, b]) == [Sent(sys.me, Pack(sys.t, a)), Sent(sys.me, Pack(sys.t, b))]
  {
    assert [a][..0] == [] && [a, b][..1] == [a];
    assert AllTo(sys, [a]) == AllTo(sys, []) + [Sent(sys.me, Pack(sys.t, a))];
    assert AllTo(sys, [a, b]) == AllTo(sys, [a]) + [Sent(sys.me, Pack(sys.t, b))];
  }

  lemma PackSmall(t: Transfer, m: P.Msg)
    ensures PackAll(t, []) == [] && PackAll(t, [m]) == [Pack(t, m)]
  {
  }

  // ----- The client simulates the sender -----

  predicate MatchesClient(t: Transfer, c: Client, s: P.Sender) {
    && c.phase == s.phase && c.id == s.id && c.retransmits == s.retransmits
    && (c.pinned.Some? ==> c.pinned.value == t.server.ip)
  }

  predicate ClientFollows(t: Transfer, before: Client, after: Client, move: P.SenderMove) {
    MatchesClient(t, after, move.sender) && after.sent == before.sent + PackAll(t, move.out)
  }

  lemma SendNextFollows(t: Transfer, c: Client, s: P.Sender)
    requires MatchesClient(t, c, s) && s.id <= t.NumPackets()
    ensures ClientFollows(t, c, SendNext(t, c), P.Proceed(t.NumPackets(), s))
  {
    PackSmall(t, P.Piece(s.id));
  }

  lemma RetryFollows(t: Transfer, c: Client, s: P.Sender)
    requires MatchesClient(t, c, s) && s.id <= t.NumPackets()
    ensures ClientFollows(t, c, Retry(t, c), P.Again(t.NumPackets(), s))
  {
    PackSmall(t, P.Hello);
    PackSmall(t, P.Piece(s.id));
  }

  lemma StandsFollows(t: Transfer, c: Client, r: Client, s: P.Sender)
    requires MatchesClient(t, c, s) && r == c.(phase := r.phase)
    ensures ClientFollows(t, c, r, P.SenderMove(s.(phase := r.phase), []))
  {
    assert c.sent + PackAll(t, []) == c.sent;
  }

  /** The packets a server can send. */
  predicate Reply(t: Transfer, m: P.Msg) {
    !m.Hello? && !m.Piece? && (m.Ack? || m.Rejection? ==> m.i < TWO_64)
  }

  lemma ReplyPacket(t: Transfer, m: P.Msg)
    requires Reply(t, m)
    ensures 0 < |Encode(Pack(t, m))| <= RESPONSE_BUFF_SIZE
    ensures Parse(Encode(Pack(t, m))) == Some(Pack(t, m))
    ensures Encode(Pack(t, m))[0] == P.KindOf(m) && |Encode(Pack(t, m))| >= HEAD_SIZE
    ensures Value64(Encode(Pack(t, m))[1..9]) == t.session
  {
    EncodedFields(Pack(t, m));
    ParseEncode(Pack(t, m));
  }

  lemma ConnectingFollows(t: Transfer, c: Client, s: P.Sender, m: P.Msg, head: HeadMem)
    requires MatchesClient(t, c, s) && s.id <= t.NumPackets() && Reply(t, m) && c.phase.Connecting?
    ensures ClientFollows(t, c, OnReply(t, c, Encode(Pack(t, m)), head), P.SenderHears(t.NumPackets(), s, m))
  {
    hide OnReply, Encode, Parse, Retry, SendNext, ClientFollows;
    var got := Encode(Pack(t, m));
    ReplyPacket(t, m);
    ReplyMeansParse(t, c, got, head);
    SendNextFollows(t, c, s);
    RetryFollows(t, c, s);
    StandsFollows(t, c, End(c, Rejected), s);
  }

  /** Ending a client with a wrong packet: which field was wrong first. */
  lemma WrongKindEnds(t: Transfer, c: Client, m: P.Msg, env: Env)
    requires Reply(t, m) && (m.Refusal? || m.Rejection?)
    ensures OnAck(t, c, Encode(Pack(t, m)), env.acc) == End(c, WrongKind(P.KindOf(m)))
    ensures OnClose(t, c, Encode(Pack(t, m)), env.head, env.acc) == End(c, WrongKind(P.KindOf(m)))
  {
    ReplyPacket(t, m);
    AccCast(env.acc, Encode(Pack(t, m)));
    HeadCast(env.head, Encode(Pack(t, m)));
  }

  lemma AckEnds(t: Transfer, c: Client, m: P.Msg, env: Env)
    requires Reply(t, m)
    ensures m.Welcome? && c.id != 0 ==> OnAck(t, c, Encode(Pack(t, m)), env.acc) == End(c, LateConacc)
    ensures m.Ack? && m.i > c.id ==> OnAck(t, c, Encode(Pack(t, m)), env.acc) == End(c, FutureAcc)
    ensures m.Ack? && m.i > 0 ==> OnClose(t, c, Encode(Pack(t, m)), env.head, env.acc) == End(c, FutureAcc)
    ensures m.Welcome? ==> OnClose(t, c, Encode(Pack(t, m)), env.head, env.acc) == End(c, WrongKind(CONACC_ID))
  {
    var got := Encode(Pack(t, m));
    ReplyPacket(t, m);
    EncodedFields(Pack(t, m));
    AccCast(env.acc, got);
    HeadCast(env.head, got);
  }

  lemma SendingFollows(t: Transfer, c: Client, s: P.Sender, m: P.Msg, env: Env)
    requires MatchesClient(t, c, s) && s.id < t.NumPackets() && Reply(t, m) && c.phase.Sending?
    ensures ClientFollows(t, c, OnAck(t, c, Encode(Pack(t, m)), env.acc), P.SenderHears(t.NumPackets(), s, m))
  {
    hide OnAck, OnClose, Encode, Parse, Retry, SendNext, ClientFollows;
    var got := Encode(Pack(t, m));
    var r := OnAck(t, c, got, env.acc);
    ReplyPacket(t, m);
    AckMeansParse(t, c, got, env.acc);
    AckEnds(t, c, m, env);
    if m.Refusal? || m.Rejection? {
      WrongKindEnds(t, c, m, env);
    }
    RetryFollows(t, c, s);
    SendNextFollows(t, c.(id := c.id + 1), s.(id := s.id + 1));
    if r == c.(phase := r.phase) {
      StandsFollows(t, c, r, s);
      assert s == s.(phase := c.phase);
    }
    if m.Ack? && m.i == c.id {
      CountsFollow(t, c, SendNext(t, c.(id := c.id + 1)), s);
    }
  }

  lemma CountsFollow(t: Transfer, c: Client, r: Client, s: P.Sender)
    requires ClientFollows(t, c.(id := c.id + 1), r, P.Proceed(t.NumPackets(), s.(id := s.id + 1)))
    ensures ClientFollows(t, c, r, P.Proceed(t.NumPackets(), s.(id := s.id + 1)))
  {
  }

  lemma ClosingFollows(t: Transfer, c: Client, s: P.Sender, m: P.Msg, env: Env)
    requires MatchesClient(t, c, s) && Reply(t, m) && c.phase.Closing?
    ensures ClientFollows(t, c, OnClose(t, c, Encode(Pack(t, m)), env.head, env.acc), P.SenderHears(t.NumPackets(), s, m))
  {
    hide OnAck, OnClose, Encode, Parse, ClientFollows;
    var got := Encode(Pack(t, m));
    var r := OnClose(t, c, got, env.head, env.acc);
    ReplyPacket(t, m);
    CloseMeansParse(t, c, got, env.head, env.acc);
    AckEnds(t, c, m, env);
    if m.Refusal? || m.Rejection? {
      WrongKindEnds(t, c, m, env);
    }
    StandsFollows(t, c, r, s);
    assert s == s.(phase := c.phase);
  }

  /** Any packet of the server, over any stale memory. */
  lemma ClientHearsFollows(t: Transfer, c: Client, s: P.Sender, m: P.Msg, env: Env)
    requires MatchesClient(t, c, s) && S.SenderOk(t.NumPackets(), s) && !s.phase.Done? && Reply(t, m)
    ensures ClientFollows(t, c, ClientStep(t, c, Datagram(t.server, Encode(Pack(t, m)), env)),
                          P.SenderHears(t.NumPackets(), s, m))
  {
    hide OnReply, OnAck, OnClose, Encode;
    ReplyPacket(t, m);
    var heard := if c.pinned.None? then c.(pinned := Some(t.server.ip)) else c;
    match c.phase
    case Connecting => ConnectingFollows(t, heard, s, m, env.head);
    case Sending => SendingFollows(t, heard, s, m, env);
    case Closing => ClosingFollows(t, heard, s, m, env);
  }

  lemma ClientAloneFollows(t: Transfer, c: Client, s: P.Sender)
    requires MatchesClient(t, c, s) && S.SenderOk(t.NumPackets(), s) && !s.phase.Done?
    ensures ClientFollows(t, c, ClientStep(t, c, Timeout), P.SenderTimeout(t.NumPackets(), s))
    ensures ClientFollows(t, c, ClientStep(t, c, Failure), P.SenderError(t.NumPackets(), s))
  {
    RetryFollows(t, c, s);
    StandsFollows(t, c, End(c, NoRcvd), s);
    StandsFollows(t, c, End(c, ReadBroken), s);
  }
}
