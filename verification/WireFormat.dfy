// The numbers of the protocol, as packet_structures.h and constants.h fix them.

/** Encodings written out in digits, the constants that both ends must agree on with other
    implementations, and what the sizes of the receive buffers mean. */
module WireFormat {
  import opened Packets
  import opened StructMemory
  import opened Network
  import opened Chunks
  import opened UdpSession
  import opened UdpSessionProperties
  import opened UdprClientSpec
  import opened UdprClientProperties

  // ----- Digits -----

  /** The bytes of a number in network order, by division. */
  function Digits(x: nat, width: nat): (bs: seq<byte>)
    ensures |bs| == width
  {
    seq(width, i requires 0 <= i < width => (PowerPositive(width - 1 - i); x / Pow256(width - 1 - i) % 256))
  }

  lemma {:induction false} BigEndianDigits(x: nat, width: nat, i: nat)
    requires i < width
    ensures Pow256(width - 1 - i) >= 1 && BigEndian(x, width)[i] == x / Pow256(width - 1 - i) % 256
    decreases width
  {
    PowerPositive(width - 1 - i);
    if i < width - 1 {
      BigEndianDigits(x / 256, width - 1, i);
      DivideTwice(x, Pow256(width - 2 - i));
    }
  }

  lemma {:induction false} PowerPositive(width: nat)
    ensures Pow256(width) >= 1
  {
    if width > 0 {
      PowerPositive(width - 1);
    }
  }

  lemma DivideTwice(x: nat, p: nat)
    requires p >= 1
    ensures x / 256 / p == x / (256 * p)
  {
    var a := x / 256;
    var q, r := a / p, a % p;
    assert x == 256 * (p * q + r) + x % 256;
    assert 256 * (p * q + r) == (256 * p) * q + 256 * r;
    assert 256 * r + x % 256 < 256 * p;
    Quotient(x, 256 * p, q, 256 * r + x % 256);
  }

  lemma Quotient(x: nat, d: nat, q: nat, r: nat)
    requires 0 <= r < d && x == d * q + r
    ensures x / d == q
  {
    var y := x / d;
    assert d * y <= x < d * y + d;
    if y < q {
      Multiplied(d, y + 1, q);
    } else if q < y {
      Multiplied(d, q + 1, y);
    }
  }

  lemma Multiplied(d: nat, a: nat, b: nat)
    requires a <= b
    ensures d * a <= d * b
  {
  }

  lemma BigEndianIsDigits(x: nat, width: nat)
    ensures BigEndian(x, width) == Digits(x, width)
  {
    forall i | 0 <= i < width
      ensures BigEndian(x, width)[i] == Digits(x, width)[i]
    {
      BigEndianDigits(x, width, i);
    }
  }

  /** Every packet, byte for byte. */
  lemma Layout(p: Packet)
    ensures Encode(p) ==
            match p
            case Conn(session, protocol, size) => [1] + Digits(session, 8) + [protocol] + Digits(size, 8)
            case Conacc(session) => [2] + Digits(session, 8)
            case Conrjt(session) => [3] + Digits(session, 8)
            case Data(session, id, payload) =>
              [4] + Digits(session, 8) + Digits(id, 8) + Digits(|payload|, 4) + payload
            case Acc(session, id) => [5] + Digits(session, 8) + Digits(id, 8)
            case Rjt(session, id) => [6] + Digits(session, 8) + Digits(id, 8)
            case Rcvd(session) => [7] + Digits(session, 8)
  {
    hide Digits;
    BigEndianIsDigits(p.session, 8);
    match p
    case Conn(_, _, size) => BigEndianIsDigits(size, 8);
    case Data(_, id, payload) => BigEndianIsDigits(id, 8); BigEndianIsDigits(|payload|, 4);
    case Acc(_, id) => BigEndianIsDigits(id, 8);
    case Rjt(_, id) => BigEndianIsDigits(id, 8);
    case _ =>
  }

  /** One byte under session 258 and id 1. */
  lemma OneByteOnTheWire(b: byte)
    ensures Encode(Data(258, 1, [b]))
         == [4, 0, 0, 0, 0, 0, 0, 1, 2, 0, 0, 0, 0, 0, 0, 0, 1, 0, 0, 0, 1, b]
  {
    hide BigEndian;
    Zeros();
    OneDigitMore(0, 3);
    OneDigitMore(1, 4);
    OneDigitMore(1, 7);
    OneDigitMore(1, 8);
    OneDigitMore(258, 8);
  }

  lemma OneDigitMore(x: nat, width: nat)
    requires width > 0
    ensures BigEndian(x, width) == BigEndian(x / 256, width - 1) + [x % 256]
  {
  }

  lemma Zeros()
    ensures BigEndian(0, 3) == [0, 0, 0] && BigEndian(0, 6) == [0, 0, 0, 0, 0, 0] && BigEndian(0, 7) == [0, 0, 0, 0, 0, 0, 0]
  {
    assert BigEndian(0, 1) == [0];
    assert BigEndian(0, 2) == [0, 0];
    assert BigEndian(0, 4) == [0, 0, 0, 0];
    assert BigEndian(0, 5) == [0, 0, 0, 0, 0];
  }

  // ----- Numbers -----

  /** The protocol bytes of UDP and UDPR, the sizes of packets, and the limit on resends. */
  lemma Numbers()
    ensures UDP_PROTOCOL == 2 && UDPR_PROTOCOL == 3
    ensures SEND_BUFF_SIZE == MAX_ALLOWED_PACKET_SIZE == 64000
    ensures RECEIVE_BUFFOR_SIZE == 64032 && RESPONSE_BUFF_SIZE == 200 && MAX_RETRANSMITS == 8
  {
  }

  /** No byte of a packet is taken for the whole of one: what passes the client's checks for a
      packet of the server after it went through its buffer of 200 bytes was that packet. */
  lemma ClientSeesWhole(bytes: seq<byte>, q: Packet)
    requires !q.Data? && Parse(Truncated(bytes, RESPONSE_BUFF_SIZE)) == Some(q)
    ensures bytes == Encode(q)
  {
    EncodeParse(Truncated(bytes, RESPONSE_BUFF_SIZE));
    EncodedFields(q);
  }

  /** And the client judges a datagram of up to 200 bytes by its own length. */
  lemma ClientJudgesLength(t: Transfer, c: Client, src: Addr, bytes: seq<byte>, env: Env)
    requires 0 < |bytes| <= 200 && c.pinned == Some(src.ip) && src.port == t.server.port
    ensures ClientStep(t, c, Datagram(src, bytes, env)) == OnDatagram(t, c, bytes, env)
  {
  }

  /** At the server likewise, up to 64032 bytes; and no datagram beyond 64021 is accepted. */
  lemma ServerJudgesLength(kind: Kind, s: Session, bytes: seq<byte>, env: Env)
    requires s.outcome.Running? && bytes != []
    ensures |bytes| <= 64032 ==>
              Step(kind, s, Datagram(s.peer, bytes, env)) == FromPeer(kind, s.(replyTo := s.peer), bytes, env.info)
    ensures |Step(kind, s, Datagram(s.peer, bytes, env)).accepted| > |s.accepted| ==>
              |bytes| <= 64021 && IsData(bytes, s.session, s.cur)
  {
    var got := Truncated(bytes, RECEIVE_BUFFOR_SIZE);
    JudgeMeansParse(kind, s.(replyTo := s.peer), got, env.info);
  }
}
