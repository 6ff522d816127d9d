// TCP framing: what the client writes and how the server reads it.

/** The client writes the whole DATA struct for every packet, the server reads a header
    and then as many bytes as the header declares. */
module TcpFraming {
  import opened Packets
  import opened Chunks
  import opened Printing
  import opened UdpSession
  import opened UdprClientSpec

  const DATA_SIZE := INFO_SIZE + SEND_BUFF_SIZE

  type Area = s: seq<byte> | |s| == SEND_BUFF_SIZE witness seq<byte>(SEND_BUFF_SIZE, _ => 0)

  // ----- The client's side -----

  /** seq_of_bytes of the reused struct after packet k was put into it. */
  function AreaAfter(t: Transfer, k: nat, area: Area): (r: Area)
    requires k < t.NumPackets()
  {
    Payload(t.data, k) + area[|Payload(t.data, k)|..]
  }

  function Header(t: Transfer, k: nat): (h: seq<byte>)
    requires k < t.NumPackets()
    ensures |h| == INFO_SIZE
  {
    Info(t.session, k, |Payload(t.data, k)|)
  }

  /** Everything written from packet k on. */
  function StreamFrom(t: Transfer, k: nat, area: Area): seq<byte>
    requires k <= t.NumPackets()
    decreases t.NumPackets() - k
  {
    if k == t.NumPackets() then []
    else Header(t, k) + AreaAfter(t, k, area) + StreamFrom(t, k + 1, AreaAfter(t, k, area))
  }

  // ----- The server's side -----

  datatype Ending = AllReceived | BadPacket

  /** The end of a session: the payloads it took, what it replied, what it left unread. */
  datatype Served = Served(ending: Ending, payloads: seq<seq<byte>>, reply: Packet, rest: seq<byte>)

  predicate GoodInfo(d: DataInfo, session: uint64, cur: uint64) {
    d.typeId == DATA_ID && d.session == session && d.id == cur && d.n <= MAX_ALLOWED_PACKET_SIZE
  }

  function InfoOf(h: seq<byte>): DataInfo
    requires |h| == INFO_SIZE
  {
    DataInfo(h[0], Value64(h[1..9]), Value64(h[9..17]), Value32(h[17..21]))
  }

  datatype Turn =
    | Taken(payload: seq<byte>, total: uint64, rest: seq<byte>)
    | Refused(id: uint64, rest: seq<byte>)

  /** One turn of the session loop of TCP_server_handler: header, checks, payload. The id
      a refusal names is already the next one if the payload was cut off. */
  function ReadPacket(stream: seq<byte>, session: uint64, size: uint64, recvd: uint64, cur: uint64): (turn: Turn)
    ensures turn.Taken? ==> |turn.rest| < |stream|
  {
    if |stream| < INFO_SIZE then Refused(cur, [])
    else
      var d, rest := InfoOf(stream[..INFO_SIZE]), stream[INFO_SIZE..];
      var total := (recvd + d.n) % TWO_64;
      if !GoodInfo(d, session, cur) || total > size then Refused(cur, rest)
      else if |rest| < d.n then Refused((cur + 1) % TWO_64, [])
      else Taken(rest[..d.n], total, rest[d.n..])
  }

  /** The session loop over all the bytes the client will write. */
  function Serve(stream: seq<byte>, session: uint64, size: uint64,
                 recvd: uint64, cur: uint64, payloads: seq<seq<byte>>): Served
    decreases |stream|
  {
    if recvd >= size then Served(AllReceived, payloads, Rcvd(session), stream)
    else
      match ReadPacket(stream, session, size, recvd, cur)
      case Refused(id, rest) => Served(BadPacket, payloads, Rjt(session, id), rest)
      case Taken(payload, total, rest) => Serve(rest, session, size, total, (cur + 1) % TWO_64, payloads + [payload])
  }

  lemma {:induction false} TakenGrows(stream: seq<byte>, session: uint64, size: uint64,
                                        recvd: uint64, cur: uint64, payloads: seq<seq<byte>>)
    ensures payloads <= Serve(stream, session, size, recvd, cur, payloads).payloads
    decreases |stream|
  {
    hide ReadPacket;
    var turn := ReadPacket(stream, session, size, recvd, cur);
    if recvd < size && turn.Taken? {
      TakenGrows(turn.rest, session, size, turn.total, (cur + 1) % TWO_64, payloads + [turn.payload]);
    }
  }

  // ----- Round trip -----

  lemma HeaderFields(t: Transfer, k: nat)
    requires k < t.NumPackets()
    ensures InfoOf(Header(t, k)) == DataInfo(DATA_ID, t.session, k, |Payload(t.data, k)|)
  {
  }

  /** A good header and its payload are read, whatever follows. */
  lemma ReadsOne(h: seq<byte>, payload: seq<byte>, more: seq<byte>, session: uint64, size: uint64, recvd: uint64, cur: uint64)
    requires |h| == INFO_SIZE && recvd + |payload| <= size
    requires |payload| <= MAX_ALLOWED_PACKET_SIZE && InfoOf(h) == DataInfo(DATA_ID, session, cur, |payload|)
    ensures ReadPacket(h + payload + more, session, size, recvd, cur) == Taken(payload, recvd + |payload|, more)
  {
    hide InfoOf;
    var stream := h + payload + more;
    assert stream[..INFO_SIZE] == h && stream[INFO_SIZE..] == payload + more;
    assert (payload + more)[..|payload|] == payload && (payload + more)[|payload|..] == more;
  }

  /** One frame read, whatever follows it: the padding of the struct is left unread. */
  lemma FrameServed(t: Transfer, k: nat, area: Area, more: seq<byte>)
    requires k < t.NumPackets()
    ensures var n := |Payload(t.data, k)|;
            var stream := Header(t, k) + AreaAfter(t, k, area) + more;
            Serve(stream, t.session, |t.data|, Offset(|t.data|, k), k, Payloads(t.data, k))
            == Serve(area[n..] + more, t.session, |t.data|, Offset(|t.data|, k + 1), k + 1, Payloads(t.data, k + 1))
  {
    hide ReadPacket, Payload, Payloads, Header, InfoOf, Offset;
    PayloadSize(t, k);
    HeaderFields(t, k);
    var h, payload := Header(t, k), Payload(t.data, k);
    assert h + (payload + area[|payload|..]) + more == h + payload + (area[|payload|..] + more);
    ReadsOne(h, payload, area[|payload|..] + more, t.session, |t.data|, Offset(|t.data|, k), k);
  }

  lemma PayloadSize(t: Transfer, k: nat)
    requires k < t.NumPackets()
    ensures 1 <= |Payload(t.data, k)| <= SEND_BUFF_SIZE
    ensures k + 1 < t.NumPackets() ==> |Payload(t.data, k)| == SEND_BUFF_SIZE
    ensures Offset(|t.data|, k) < |t.data| && Offset(|t.data|, k + 1) == Offset(|t.data|, k) + |Payload(t.data, k)| <= |t.data|
    ensures Offset(|t.data|, k + 1) == |t.data| <==> k + 1 == t.NumPackets()
    ensures Payloads(t.data, k + 1) == Payloads(t.data, k) + [Payload(t.data, k)]
  {
    ChunkSize(t.data, k);
  }

  /** The bytes of the last frame that are not payload. */
  function Padding(t: Transfer, k: nat, area: Area): seq<byte>
    requires k < t.NumPackets()
    decreases t.NumPackets() - k
  {
    if k + 1 == t.NumPackets() then area[|Payload(t.data, k)|..]
    else Padding(t, k + 1, AreaAfter(t, k, area))
  }

  lemma {:induction false} StreamServed(t: Transfer, k: nat, area: Area)
    requires k < t.NumPackets()
    ensures Serve(StreamFrom(t, k, area), t.session, |t.data|, Offset(|t.data|, k), k, Payloads(t.data, k))
            == Served(AllReceived, Payloads(t.data, t.NumPackets()), Rcvd(t.session), Padding(t, k, area))
    ensures |Padding(t, k, area)| == SEND_BUFF_SIZE * t.NumPackets() - |t.data|
    decreases t.NumPackets() - k
  {
    hide Payload, Payloads, Header;
    var next := AreaAfter(t, k, area);
    PayloadSize(t, k);
    FrameServed(t, k, area, StreamFrom(t, k + 1, next));
    if k + 1 == t.NumPackets() {
      assert area[|Payload(t.data, k)|..] + [] == area[|Payload(t.data, k)|..];
      LastOffset(t, k);
    } else {
      // Full frames have no padding, so the next header follows at once.
      assert area[SEND_BUFF_SIZE..] == [];
      assert [] + StreamFrom(t, k + 1, next) == StreamFrom(t, k + 1, next);
      StreamServed(t, k + 1, next);
    }
  }

  lemma LastOffset(t: Transfer, k: nat)
    requires k + 1 == t.NumPackets()
    ensures |Payload(t.data, k)| == |t.data| - SEND_BUFF_SIZE * k
  {
    ChunkSize(t.data, k);
  }

  /** For all data of 1 to 2^32 - 1 bytes and whatever the struct held at first: the
      server receives every chunk of what the client writes, answers RCVD, and leaves
      exactly the padding of the last frame unread. The bytes it received are the data
      exactly when no chunk has other bytes after a NUL; those that come out in print are
      the data, or as many as the data has, exactly when it has no NUL. */
  lemma TcpRoundTrip(t: Transfer, area: Area)
    requires |t.data| > 0
    ensures var r := Serve(StreamFrom(t, 0, area), t.session, |t.data|, 0, 0, []);
            && r.ending.AllReceived? && r.reply == Rcvd(t.session)
            && r.payloads == Payloads(t.data, t.NumPackets())
            && |r.rest| == SEND_BUFF_SIZE * t.NumPackets() - |t.data|
            && (Joined(r.payloads) == t.data <==> NulsEndChunks(t.data, t.NumPackets()))
            && (Printed(r.payloads) == t.data <==> 0 !in t.data)
            && (|Printed(r.payloads)| == |t.data| <==> 0 !in t.data)
  {
    StreamServed(t, 0, area);
    PayloadsSpellData(t.data);
    PrintedIsData(t.data);
    assert Payloads(t.data, 0) == [];
  }
}
