// Packet layouts of PPCB (packet_structures.h) and their wire encoding.

/** Fixed-width integers, protocol constants and the seven packet kinds with their
    packed big-endian layout. */
module Packets {

  const TWO_32 := 0x1_0000_0000
  const TWO_64 := 0x1_0000_0000_0000_0000

  type byte = x: int | 0 <= x < 0x100
  type uint32 = x: int | 0 <= x < TWO_32
  type uint64 = x: int | 0 <= x < TWO_64

  const CONN_ID: byte := 1
  const CONACC_ID: byte := 2
  const CONRJT_ID: byte := 3
  const DATA_ID: byte := 4
  const ACC_ID: byte := 5
  const RJT_ID: byte := 6
  const RCVD_ID: byte := 7

  const UDP_PROTOCOL: byte := 2
  const UDPR_PROTOCOL: byte := 3

  const SEND_BUFF_SIZE := 64000
  const RECEIVE_BUFFOR_SIZE := 64032
  const RESPONSE_BUFF_SIZE := 200
  const MAX_ALLOWED_PACKET_SIZE := 64000
  const MAX_RETRANSMITS := 8

  // Sizes of the packed structs.
  const CONN_SIZE := 18
  const HEAD_SIZE := 9
  const INFO_SIZE := 21
  const ACC_SIZE := 17

  datatype Option<+T> = None | Some(value: T)

  // The length field of a DATA packet has 32 bits.
  type PayloadBytes = s: seq<byte> | |s| < TWO_32

  datatype Packet =
    | Conn(session: uint64, protocol: byte, size: uint64)
    | Conacc(session: uint64)
    | Conrjt(session: uint64)
    | Data(session: uint64, id: uint64, payload: PayloadBytes)
    | Acc(session: uint64, id: uint64)
    | Rjt(session: uint64, id: uint64)
    | Rcvd(session: uint64)

  function TypeId(p: Packet): byte {
    match p
    case Conn(_, _, _) => CONN_ID
    case Conacc(_) => CONACC_ID
    case Conrjt(_) => CONRJT_ID
    case Data(_, _, _) => DATA_ID
    case Acc(_, _) => ACC_ID
    case Rjt(_, _) => RJT_ID
    case Rcvd(_) => RCVD_ID
  }

  // ----- Big-endian numbers -----

  function Pow256(width: nat): nat {
    if width == 0 then 1 else 256 * Pow256(width - 1)
  }

  /** The number a big-endian byte string stands for. */
  function Value(bs: seq<byte>): (x: nat)
    ensures x < Pow256(|bs|)
  {
    if bs == [] then 0 else 256 * Value(bs[..|bs| - 1]) + bs[|bs| - 1]
  }

  function BigEndian(x: nat, width: nat): (bs: seq<byte>)
    ensures |bs| == width
  {
    if width == 0 then [] else BigEndian(x / 256, width - 1) + [x % 256]
  }

  lemma {:induction false} ValueOfBigEndian(x: nat, width: nat)
    requires x < Pow256(width)
    ensures Value(BigEndian(x, width)) == x
  {
    if width == 0 {
    } else {
      var bs := BigEndian(x, width);
      assert bs[..width - 1] == BigEndian(x / 256, width - 1);
      ValueOfBigEndian(x / 256, width - 1);
    }
  }

  lemma {:induction false} BigEndianOfValue(bs: seq<byte>)
    ensures BigEndian(Value(bs), |bs|) == bs
  {
    if bs == [] {
    } else {
      BigEndianOfValue(bs[..|bs| - 1]);
      assert bs == bs[..|bs| - 1] + [bs[|bs| - 1]];
    }
  }

  lemma Widths()
    ensures Pow256(4) == TWO_32 && Pow256(8) == TWO_64
  {
    assert Pow256(1) == 256;
    assert Pow256(2) == 65536;
    assert Pow256(3) == 16777216;
    assert Pow256(4) == TWO_32;
    assert Pow256(5) == 256 * TWO_32;
    assert Pow256(6) == 65536 * TWO_32;
    assert Pow256(7) == 16777216 * TWO_32;
  }

  function Value32(bs: seq<byte>): uint32
    requires |bs| == 4
  {
    Widths();
    Value(bs)
  }

  function Value64(bs: seq<byte>): uint64
    requires |bs| == 8
  {
    Widths();
    Value(bs)
  }

  function Bytes32(x: uint32): (bs: seq<byte>)
    ensures |bs| == 4 && Value32(bs) == x
  {
    Widths();
    ValueOfBigEndian(x, 4);
    BigEndian(x, 4)
  }

  function Bytes64(x: uint64): (bs: seq<byte>)
    ensures |bs| == 8 && Value64(bs) == x
  {
    Widths();
    ValueOfBigEndian(x, 8);
    BigEndian(x, 8)
  }

  lemma Bytes64OfValue(bs: seq<byte>)
    requires |bs| == 8
    ensures Bytes64(Value64(bs)) == bs
  {
    BigEndianOfValue(bs);
  }

  lemma Bytes32OfValue(bs: seq<byte>)
    requires |bs| == 4
    ensures Bytes32(Value32(bs)) == bs
  {
    BigEndianOfValue(bs);
  }

  // ----- Encoding -----

  /** Type byte and session id: the first nine bytes of every packet. */
  function Head(id: byte, session: uint64): (bs: seq<byte>)
    ensures |bs| == HEAD_SIZE && bs[0] == id && bs[1..9] == Bytes64(session)
  {
    [id] + Bytes64(session)
  }

  /** The DATA header, without the payload. */
  function Info(session: uint64, id: uint64, n: uint32): (bs: seq<byte>)
    ensures |bs| == INFO_SIZE && bs[0] == DATA_ID && bs[1..9] == Bytes64(session)
    ensures bs[9..17] == Bytes64(id) && bs[17..21] == Bytes32(n)
  {
    Head(DATA_ID, session) + Bytes64(id) + Bytes32(n)
  }

  function Encode(p: Packet): (bs: seq<byte>) {
    match p
    case Conn(s, protocol, size) => Head(CONN_ID, s) + [protocol] + Bytes64(size)
    case Data(s, id, payload) => Info(s, id, |payload|) + payload
    case Acc(s, id) => Head(ACC_ID, s) + Bytes64(id)
    case Rjt(s, id) => Head(RJT_ID, s) + Bytes64(id)
    case _ => Head(TypeId(p), p.session)
  }

  /** Strict parser: a byte string is a packet exactly when its length is the one its
      type, and for DATA its length field, prescribe. */
  function Parse(bs: seq<byte>): Option<Packet> {
    if |bs| < HEAD_SIZE then None
    else
      var s := Value64(bs[1..9]);
      if bs[0] == CONN_ID && |bs| == CONN_SIZE then Some(Conn(s, bs[9], Value64(bs[10..18])))
      else if bs[0] == CONACC_ID && |bs| == HEAD_SIZE then Some(Conacc(s))
      else if bs[0] == CONRJT_ID && |bs| == HEAD_SIZE then Some(Conrjt(s))
      else if bs[0] == RCVD_ID && |bs| == HEAD_SIZE then Some(Rcvd(s))
      else if bs[0] == ACC_ID && |bs| == ACC_SIZE then Some(Acc(s, Value64(bs[9..17])))
      else if bs[0] == RJT_ID && |bs| == ACC_SIZE then Some(Rjt(s, Value64(bs[9..17])))
      else if bs[0] == DATA_ID && |bs| >= INFO_SIZE && |bs| == INFO_SIZE + Value32(bs[17..21])
      then Some(Data(s, Value64(bs[9..17]), bs[21..]))
      else None
  }

  lemma EncodedFields(p: Packet)
    ensures |Encode(p)| >= HEAD_SIZE && Encode(p)[0] == TypeId(p)
    ensures Value64(Encode(p)[1..9]) == p.session
    ensures p.Conn? ==> |Encode(p)| == CONN_SIZE && Encode(p)[9] == p.protocol
                        && Value64(Encode(p)[10..18]) == p.size
    ensures p.Acc? || p.Rjt? ==> |Encode(p)| == ACC_SIZE && Value64(Encode(p)[9..17]) == p.id
    ensures p.Conacc? || p.Conrjt? || p.Rcvd? ==> |Encode(p)| == HEAD_SIZE
    ensures p.Data? ==> |Encode(p)| == INFO_SIZE + |p.payload| && Value64(Encode(p)[9..17]) == p.id
                        && Value32(Encode(p)[17..21]) == |p.payload| && Encode(p)[21..] == p.payload
  {
    var e := Encode(p);
    match p
    case Conn(s, protocol, size) =>
      assert e[1..9] == Bytes64(s) && e[10..18] == Bytes64(size);
    case Data(s, id, payload) =>
      var h := Info(s, id, |payload|);
      assert e[1..9] == h[1..9] && e[9..17] == h[9..17] && e[17..21] == h[17..21];
    case Acc(s, id) =>
      assert e[1..9] == Bytes64(s) && e[9..17] == Bytes64(id);
    case Rjt(s, id) =>
      assert e[1..9] == Bytes64(s) && e[9..17] == Bytes64(id);
    case _ =>
  }

  /** Reading back what was written gives every field of every packet kind. */
  lemma ParseEncode(p: Packet)
    ensures Parse(Encode(p)) == Some(p)
  {
    EncodedFields(p);
  }

  /** And nothing else parses: an accepted byte string is the encoding of its packet. */
  lemma EncodeParse(bs: seq<byte>)
    ensures Parse(bs).Some? ==> Encode(Parse(bs).value) == bs
  {
    if Parse(bs).Some? {
      var p := Parse(bs).value;
      Bytes64OfValue(bs[1..9]);
      assert bs[..9] == Head(bs[0], p.session);
      if bs[0] == CONN_ID {
        Bytes64OfValue(bs[10..18]);
        assert bs == bs[..9] + [bs[9]] + bs[10..18];
      } else if bs[0] == DATA_ID {
        Bytes64OfValue(bs[9..17]);
        Bytes32OfValue(bs[17..21]);
        assert bs == bs[..9] + bs[9..17] + bs[17..21] + bs[21..];
      } else if |bs| == ACC_SIZE {
        Bytes64OfValue(bs[9..17]);
        assert bs == bs[..9] + bs[9..17];
      } else {
        assert bs == bs[..9];
      }
    }
  }

  lemma EncodeInjective(p: Packet, q: Packet)
    requires Encode(p) == Encode(q)
    ensures p == q
  {
    ParseEncode(p);
    ParseEncode(q);
  }
}
