// client_UDP_lib.c, and plain UDP end to end.

/** The UDP client sends CONN, waits once, sends all chunks in a row and waits once more.
    What the server makes of its datagrams depends on their order alone. */
module PlainUdp {
  import opened Packets
  import opened StructMemory
  import opened Network
  import opened Chunks
  import opened Printing
  import opened UdpSession
  import opened UdpSessionProperties
  import opened UdpSessionInvariants
  import opened UdprClientSpec
  import opened UdprClientProperties
  import opened UdprClient
  import opened ChunkBuffers

  // ----- The client -----

  function PacketsUpTo(t: Transfer, k: nat): (ps: seq<Packet>)
    requires k <= t.NumPackets()
    ensures |ps| == k && forall i :: 0 <= i < k ==> ps[i] == t.Packet(i)
  {
    if k == 0 then [] else PacketsUpTo(t, k - 1) + [t.Packet(k - 1)]
  }

  /** The sends numbered from lo to hi - 1 work. */
  predicate AllWork(sends: seq<bool>, lo: nat, hi: nat) {
    forall i :: lo <= i < hi ==> Works(sends, i)
  }

  class UdpClient {
    const endpoint: Endpoint

    constructor (endpoint: Endpoint)
      ensures this.endpoint == endpoint
    {
      this.endpoint := endpoint;
    }

    /** Copy one chunk into the struct and send it. */
    method SendChunk(id: nat, start: nat, n: nat) returns (ok: bool)
      requires endpoint.Valid() && id < endpoint.t.NumPackets() && n <= SEND_BUFF_SIZE
      requires start + n <= |endpoint.t.data| && endpoint.t.data[start..start + n] == Chunk(endpoint.t.data, id)
      modifies endpoint`sent, endpoint.chunk.buff, endpoint.chunk.data
      ensures endpoint.Valid()
      ensures endpoint.sent == old(endpoint.sent) + [endpoint.t.Packet(id)]
      ensures ok <==> Works(endpoint.sends, |old(endpoint.sent)|)
    {
      hide Encode;
      endpoint.chunk.Fill(endpoint.t, id, start, n);
      ok := endpoint.Sendto(endpoint.chunk.data[..INFO_SIZE + n], endpoint.t.Packet(id));
    }

    /** UDP_client_send_DATA: every chunk once, in order, up to the first send that fails;
        the copy position is not advanced after a short chunk. */
    method SendData() returns (ok: bool, ghost k: nat)
      requires endpoint.Valid()
      modifies endpoint`sent, endpoint.chunk.buff, endpoint.chunk.data
      ensures endpoint.Valid() && k <= endpoint.t.NumPackets()
      ensures endpoint.sent == old(endpoint.sent) + PacketsUpTo(endpoint.t, k)
      ensures var first := |old(endpoint.sent)|;
              if ok then k == endpoint.t.NumPackets() && AllWork(endpoint.sends, first, first + k)
              else k > 0 && AllWork(endpoint.sends, first, first + k - 1) && !Works(endpoint.sends, first + k - 1)
    {
      hide Payload, Encode, Offset, LoopStep, LoopAfter, PacketsUpTo, Works;
      var t := endpoint.t;
      var bytesLeft: uint32, bytesSent: uint32, startCpyPos: nat := |t.data|, 0, 0;
      var id: nat := 0;
      k := 0;
      CountersStart(|t.data|);
      NoPackets(t);
      assert endpoint.sent == old(endpoint.sent) + PacketsUpTo(t, 0);
      while bytesSent != |t.data|
        invariant endpoint.Valid() && id <= t.NumPackets() && bytesSent == |t.data| - bytesLeft && k == id
        invariant LoopAfter(|t.data|, id).left == bytesLeft && LoopAfter(|t.data|, id).sent == bytesSent
        invariant bytesLeft > 0 ==> LoopAfter(|t.data|, id).pos == startCpyPos
        invariant endpoint.sent == old(endpoint.sent) + PacketsUpTo(t, id)
        invariant AllWork(endpoint.sends, |old(endpoint.sent)|, |endpoint.sent|)
        decreases bytesLeft
      {
        LoopCounts(|t.data|, id);
        CountersMeanChunk(t, id);
        CountersStep(|t.data|, id);
        var start, shift := startCpyPos, bytesLeft;
        if bytesLeft < SEND_BUFF_SIZE {
          bytesSent := (bytesSent + bytesLeft) % TWO_32;
          bytesLeft := bytesLeft - bytesLeft;
        } else {
          shift := SEND_BUFF_SIZE;
          bytesSent := (bytesSent + SEND_BUFF_SIZE) % TWO_32;
          bytesLeft := bytesLeft - SEND_BUFF_SIZE;
          startCpyPos := startCpyPos + SEND_BUFF_SIZE;
        }
        ok := SendChunk(id, start, shift);
        OnePacketMore(t, id);
        id := id + 1;
        k := id;
        if !ok {
          return;
        }
      }
      CountersEnd(|t.data|, id);
      ok := true;
    }

    /** UDP_client_CONACC_handler and UDP_client_RCVD_handler differ in the type they
        expect: one wait, and only the whole packet of this session will do. */
    method AwaitHead(expected: Packet) returns (ok: bool)
      requires endpoint.Valid() && (expected.Conacc? || expected.Rcvd?) && expected.session == endpoint.t.session
      modifies endpoint`pos, endpoint`pinned, endpoint.response
      ensures endpoint.Valid()
      ensures var r := NextResponse(endpoint.t, endpoint.script, old(endpoint.pos), old(endpoint.pinned));
              && endpoint.pos == r.pos && endpoint.pinned == r.pinned
              && (ok <==> Answered(r, expected))
    {
      hide NextResponse;
      var heard := endpoint.WaitForServerResponse();
      if !heard.Got? {
        return false;
      }
      NextResponseNonempty(endpoint.t, endpoint.script, old(endpoint.pos), old(endpoint.pinned));
      var typeId, session := endpoint.CastHead(|heard.bytes|, heard.env.head);
      HeadCast(heard.env.head, heard.bytes);
      if typeId != TypeId(expected) { return false; }
      if session != expected.session { return false; }
      return |heard.bytes| == HEAD_SIZE;
    }

    /** UDP_client_handler: CONN, and if it could be sent and the first response is the
        CONACC, k chunks once each in order: all of them, or as far as the first that
        could not be sent. The client has its confirmation exactly if all could be sent
        and the next response is the RCVD. */
    method UdpClientHandler() returns (confirmed: bool, ghost k: nat)
      requires endpoint.Valid()
      modifies endpoint`sent, endpoint`pos, endpoint`pinned, endpoint.response,
               endpoint.chunk.buff, endpoint.chunk.data
      ensures var t, sends, script, first := endpoint.t, endpoint.sends, endpoint.script, |old(endpoint.sent)|;
              var r1 := NextResponse(t, script, old(endpoint.pos), old(endpoint.pinned));
              var r2 := NextResponse(t, script, r1.pos, r1.pinned);
              && k <= t.NumPackets()
              && endpoint.sent == old(endpoint.sent) + [Conn(t.session, UDP_PROTOCOL, |t.data|)] + PacketsUpTo(t, k)
              && if !Works(sends, first) || !Answered(r1, Conacc(t.session)) then k == 0 && !confirmed
                 else if AllWork(sends, first, first + 1 + t.NumPackets())
                 then k == t.NumPackets() && (confirmed <==> Answered(r2, Rcvd(t.session)))
                 else k > 0 && !confirmed && AllWork(sends, first, first + k) && !Works(sends, first + k)
    {
      hide NextResponse, Answered, PacketsUpTo, Works;
      var t := endpoint.t;
      var conn := new byte[CONN_SIZE];
      k := 0;
      NoPackets(t);
      InitConn(conn, t.session, UDP_PROTOCOL, |t.data|);
      confirmed := endpoint.Sendto(conn[..], Conn(t.session, UDP_PROTOCOL, |t.data|));
      assert endpoint.sent + [] == endpoint.sent;
      if !confirmed {
        return;
      }
      confirmed := AwaitHead(Conacc(t.session));
      if !confirmed {
        return;
      }
      confirmed, k := SendData();
      if !confirmed {
        return;
      }
      confirmed := AwaitHead(Rcvd(t.session));
    }
  }

  lemma OnePacketMore(t: Transfer, k: nat)
    requires k < t.NumPackets()
    ensures PacketsUpTo(t, k + 1) == PacketsUpTo(t, k) + [t.Packet(k)]
  {
  }

  lemma NoPackets(t: Transfer)
    ensures PacketsUpTo(t, 0) == []
  {
  }

  /** The response the client waits for is exactly this packet. */
  predicate Answered(r: Response, expected: Packet) {
    r.heard.Got? && Parse(r.heard.bytes) == Some(expected)
  }

  lemma NextResponseNonempty(t: Transfer, script: seq<Event>, pos: nat, pinned: Option<nat>)
    requires pos <= |script|
    ensures var r := NextResponse(t, script, pos, pinned); r.heard.Got? ==> r.heard.bytes != []
  {
  }

  // ----- End to end -----

  /** A datagram of this client: its CONN or one of its DATA packets. */
  ghost predicate FromClient(t: Transfer, bytes: seq<byte>) {
    bytes == Encode(Conn(t.session, UDP_PROTOCOL, |t.data|))
    || exists i :: 0 <= i < t.NumPackets() && bytes == Encode(t.Packet(i))
  }

  /** The network may lose, repeat and reorder the client's datagrams, and add timeouts,
      errors and datagrams of others. */
  ghost predicate HonestTraffic(t: Transfer, me: Addr, script: seq<Event>) {
    forall i :: 0 <= i < |script| && script[i].Datagram? && script[i].src == me ==> FromClient(t, script[i].bytes)
  }

  /** The first k events are the chunks 0 to k - 1 in order. */
  ghost predicate ChunksInOrder(t: Transfer, me: Addr, es: seq<Event>, k: nat)
    requires k <= t.NumPackets()
  {
    k <= |es| && forall i :: 0 <= i < k ==> es[i].Datagram? && es[i].src == me && es[i].bytes == Encode(t.Packet(i))
  }

  lemma {:induction false} HonestPeerEvents(t: Transfer, me: Addr, script: seq<Event>)
    requires HonestTraffic(t, me, script)
    ensures HonestTraffic(t, me, PeerEvents(script, me))
    decreases |script|
  {
    if script == [] {
    } else {
      assert HonestTraffic(t, me, script[1..]);
      HonestPeerEvents(t, me, script[1..]);
      if !Foreign(script[0], me) {
        var rest := PeerEvents(script[1..], me);
        assert PeerEvents(script, me) == [script[0]] + rest;
        assert forall i :: 0 < i < |[script[0]] + rest| ==> ([script[0]] + rest)[i] == rest[i - 1];
      }
    }
  }

  lemma PacketFits(t: Transfer, i: nat)
    requires i < t.NumPackets()
    ensures Truncated(Encode(t.Packet(i)), RECEIVE_BUFFOR_SIZE) == Encode(t.Packet(i))
  {
    EncodedFields(t.Packet(i));
  }

  /** What an honest client's datagram can deliver under id i is its chunk i. */
  lemma OnlyOwnChunk(t: Transfer, me: Addr, e: Event, i: nat, part: seq<byte>)
    requires i < t.NumPackets() && Delivers(e, me, t.session, i, part) && FromClient(t, e.bytes)
    ensures part == Payload(t.data, i) && e.bytes == Encode(t.Packet(i))
  {
    hide Encode, Payload;
    var conn := Conn(t.session, UDP_PROTOCOL, |t.data|);
    EncodedFields(conn);
    if e.bytes == Encode(conn) {
      EncodeInjective(conn, Data(t.session, i, part));
    } else {
      var j :| 0 <= j < t.NumPackets() && e.bytes == Encode(t.Packet(j));
      PacketFits(t, j);
      EncodeInjective(t.Packet(j), Data(t.session, i, part));
    }
  }

  lemma DeliveredIsOwn(t: Transfer, me: Addr, es: seq<Event>, parts: seq<seq<byte>>, k: nat)
    requires HonestTraffic(t, me, es) && DeliversInOrder(es, me, t.session, 0, parts)
    requires k <= |parts| && k <= t.NumPackets()
    ensures parts[..k] == Payloads(t.data, k) && ChunksInOrder(t, me, es, k)
  {
    hide Encode, Payload, Delivers;
    forall i | 0 <= i < k
      ensures parts[i] == Payload(t.data, i) && es[i].Datagram? && es[i].src == me && es[i].bytes == Encode(t.Packet(i))
    {
      assert Delivers(es[i], me, t.session, IdOf(0 + i), parts[i]);
      DeliversFromPeer(es[i], me, t.session, IdOf(i), parts[i]);
      OnlyOwnChunk(t, me, es[i], i, parts[i]);
    }
  }

  lemma DeliversFromPeer(e: Event, me: Addr, session: uint64, id: uint64, part: seq<byte>)
    requires Delivers(e, me, session, id, part)
    ensures e.Datagram? && e.src == me
  {
  }

  /** The only payloads that can complete the session are the client's chunks. */
  lemma CompleteIsAll(t: Transfer, parts: seq<seq<byte>>)
    requires ReachedOnlyAtEnd(parts, |t.data|) && Total(parts) == |t.data|
    requires var k := if |parts| < t.NumPackets() then |parts| else t.NumPackets(); parts[..k] == Payloads(t.data, k)
    ensures parts == Payloads(t.data, t.NumPackets())
  {
    hide Payloads, Total, ReachedOnlyAtEnd;
    var n := t.NumPackets();
    if |parts| < n {
      assert parts[..|parts|] == parts;
      PayloadsTotal(t.data, |parts|);
    } else {
      PayloadsTotal(t.data, n);
      if |parts| > n {
        StillShort(parts, parts[..n], |t.data|);
        assert false;
      } else {
        assert parts[..n] == parts;
      }
    }
  }

  lemma InOrderDelivers(t: Transfer, me: Addr, es: seq<Event>)
    requires ChunksInOrder(t, me, es, t.NumPackets())
    ensures DeliversInOrder(es, me, t.session, 0, Payloads(t.data, t.NumPackets()))
  {
    hide Encode, Payload;
    forall i | 0 <= i < t.NumPackets()
      ensures Delivers(es[i], me, t.session, IdOf(0 + i), Payloads(t.data, t.NumPackets())[i])
    {
      PacketFits(t, i);
    }
  }

  lemma PayloadsReach(data: seq<byte>)
    ensures ReachedOnlyAtEnd(Payloads(data, NumChunks(|data|)), |data|)
    ensures Total(Payloads(data, NumChunks(|data|))) == |data|
  {
    var n := NumChunks(|data|);
    PayloadsTotal(data, n);
    forall k | 0 <= k < n
      ensures Total(Payloads(data, n)[..k]) < |data|
    {
      PayloadsPrefix(data, k, n);
      PayloadsTotal(data, k);
    }
  }

  /** Plain UDP end to end: over any loss, repetition and reordering of an honest client's
      datagrams the session completes exactly when, other senders aside, chunks 0 to
      n - 1 come first and in order, with no timeout or error before the last; what it
      then has accepted is every chunk of the client's data, and what comes out in print
      is the data exactly when it has no NUL. */
  lemma UdpEndToEnd(t: Transfer, me: Addr, replyTo: Addr, sent: seq<Sent>, script: seq<Event>)
    requires |t.data| > 0 && HonestTraffic(t, me, script)
    ensures var r := Run(Udp, Start(Udp, me, t.session, |t.data|, replyTo, sent), script);
            && (r.outcome.Received? <==> ChunksInOrder(t, me, PeerEvents(script, me), t.NumPackets()))
            && (r.outcome.Received? ==> r.accepted == Payloads(t.data, t.NumPackets()))
            && (r.outcome.Received? ==> (Printed(r.accepted) == t.data <==> 0 !in t.data))
  {
    hide Printed, Run, Encode, Payload, Payloads, Total, ReachedOnlyAtEnd, DeliversInOrder, ChunksInOrder, HonestTraffic, Tallied;
    var s := Start(Udp, me, t.session, |t.data|, replyTo, sent);
    var es, all := PeerEvents(script, me), Payloads(t.data, t.NumPackets());
    StartCounted(Udp, me, t.session, |t.data|, replyTo, sent);
    PrintedIsData(t.data);
    HonestPeerEvents(t, me, script);
    var r := Run(Udp, s, script);
    if r.outcome.Received? {
      UdpReceivesExactly(s, script, r.accepted);
      var k := if |r.accepted| < t.NumPackets() then |r.accepted| else t.NumPackets();
      DeliveredIsOwn(t, me, es, r.accepted, k);
      CompleteIsAll(t, r.accepted);
      PayloadsCount(t);
    }
    if ChunksInOrder(t, me, es, t.NumPackets()) {
      InOrderDelivers(t, me, es);
      PayloadsReach(t.data);
      UdpReceivesExactly(s, script, all);
    }
  }

  lemma PayloadsCount(t: Transfer)
    ensures |Payloads(t.data, t.NumPackets())| == t.NumPackets()
  {
  }
}
