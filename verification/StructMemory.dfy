// packet_structures.c: packed structs filled, cast and byte-swapped in place.

/** A packed struct is an array of bytes in the memory of a little-endian host. Fields
    are stored with htobe*, received bytes are copied over whatever the struct held
    before (`cast_buff_to`), and the ntoh_* functions swap each field in place. */
module StructMemory {
  import opened Packets

  // ----- What the memory operations do to the bytes -----

  /** memcpy of at most |mem| bytes of `buff` over the old contents. */
  function Overlay(mem: seq<byte>, buff: seq<byte>): (r: seq<byte>)
    ensures |r| == |mem|
    ensures forall i :: 0 <= i < |mem| ==> r[i] == if i < |buff| then buff[i] else mem[i]
  {
    if |buff| < |mem| then buff + mem[|buff|..] else buff[..|mem|]
  }

  function Reversed(bs: seq<byte>): (r: seq<byte>)
    ensures |r| == |bs|
  {
    if bs == [] then [] else Reversed(bs[1..]) + [bs[0]]
  }

  lemma {:induction false} ReversedAt(bs: seq<byte>, k: nat)
    requires k < |bs|
    ensures Reversed(bs)[k] == bs[|bs| - 1 - k]
  {
    if k < |bs| - 1 {
      ReversedAt(bs[1..], k);
    }
  }

  /** The integer a little-endian host reads from these bytes. */
  function HostValue(bs: seq<byte>): nat {
    if bs == [] then 0 else bs[0] + 256 * HostValue(bs[1..])
  }

  /** beNNtoh on a little-endian host: reading the reversed bytes gives the number in
      network order. */
  lemma {:induction false} SwappedHostValue(bs: seq<byte>)
    ensures HostValue(Reversed(bs)) == Value(bs)
  {
    if bs == [] {
    } else {
      var last := |bs| - 1;
      ReversedSnoc(bs[..last], bs[last]);
      assert bs == bs[..last] + [bs[last]];
      SwappedHostValue(bs[..last]);
    }
  }

  lemma {:induction false} ReversedSnoc(bs: seq<byte>, b: byte)
    ensures Reversed(bs + [b]) == [b] + Reversed(bs)
  {
    if bs == [] {
      assert [] + [b] == [b];
    } else {
      assert (bs + [b])[1..] == bs[1..] + [b];
      ReversedSnoc(bs[1..], b);
    }
  }

  function SwappedField(mem: seq<byte>, lo: nat, hi: nat): (r: seq<byte>)
    requires lo <= hi <= |mem|
    ensures |r| == |mem|
  {
    mem[..lo] + Reversed(mem[lo..hi]) + mem[hi..]
  }

  lemma SwappedFieldAt(mem: seq<byte>, lo: nat, hi: nat, a: nat, b: nat)
    requires lo <= hi <= |mem| && a <= b <= |mem|
    ensures SwappedField(mem, lo, hi)[lo..hi] == Reversed(mem[lo..hi])
    ensures b <= lo || hi <= a ==> SwappedField(mem, lo, hi)[a..b] == mem[a..b]
  {
    var r := SwappedField(mem, lo, hi);
    assert r[lo..hi] == Reversed(mem[lo..hi]);
    if hi <= a {
      assert r[hi..] == mem[hi..];
      assert r[a..b] == r[hi..][a - hi..b - hi] && mem[a..b] == mem[hi..][a - hi..b - hi];
    }
  }

  function Host64(mem: seq<byte>, at: nat): nat
    requires at + 8 <= |mem|
  {
    HostValue(mem[at..at + 8])
  }

  function Host32(mem: seq<byte>, at: nat): nat
    requires at + 4 <= |mem|
  {
    HostValue(mem[at..at + 4])
  }

  /** strncpy of |bs| bytes: after the first NUL only NULs are written. */
  function Strncpy(bs: seq<byte>): (r: seq<byte>)
    ensures |r| == |bs|
  {
    if bs == [] then []
    else if bs[0] == 0 then seq(|bs|, _ => 0)
    else [bs[0]] + Strncpy(bs[1..])
  }

  // ----- The operations, in place -----

  method CastBuffTo(mem: array<byte>, buff: seq<byte>)
    modifies mem
    ensures mem[..] == Overlay(old(mem[..]), buff)
  {
    var n := if |buff| < mem.Length then |buff| else mem.Length;
    forall i | 0 <= i < n {
      mem[i] := buff[i];
    }
    assert mem[..] == Overlay(old(mem[..]), buff);
  }

  /** One field = beNNtoh(field) on a little-endian host. */
  method SwapField(mem: array<byte>, lo: nat, hi: nat)
    requires lo <= hi <= mem.Length
    modifies mem
    ensures mem[..] == SwappedField(old(mem[..]), lo, hi)
  {
    ghost var was := mem[..];
    var field := mem[lo..hi];
    forall i | lo <= i < hi {
      mem[i] := field[hi - 1 - i];
    }
    forall i | lo <= i < hi
      ensures mem[i] == Reversed(field)[i - lo]
    {
      ReversedAt(field, i - lo);
    }
    assert mem[..] == was[..lo] + Reversed(field) + was[hi..];
  }

  method Store(mem: array<byte>, at: nat, bs: seq<byte>)
    requires at + |bs| <= mem.Length
    modifies mem
    ensures mem[..] == old(mem[..at]) + bs + old(mem[at + |bs|..])
  {
    ghost var was := mem[..];
    forall i | 0 <= i < |bs| {
      mem[at + i] := bs[i];
    }
    assert mem[..] == was[..at] + bs + was[at + |bs|..];
  }

  // ----- init_* -----

  method InitConn(conn: array<byte>, session: uint64, protocol: byte, size: uint64)
    requires conn.Length == CONN_SIZE
    modifies conn
    ensures conn[..] == Encode(Conn(session, protocol, size))
  {
    Store(conn, 0, [CONN_ID]);
    Store(conn, 1, Bytes64(session));
    Store(conn, 9, [protocol]);
    Store(conn, 10, Bytes64(size));
    assert conn[..] == [CONN_ID] + Bytes64(session) + [protocol] + Bytes64(size);
  }

  /** init_CONACC, init_CONRJT and init_RCVD differ in the type byte only. */
  method InitHead(mem: array<byte>, p: Packet)
    requires mem.Length == HEAD_SIZE
    requires p.Conacc? || p.Conrjt? || p.Rcvd?
    modifies mem
    ensures mem[..] == Encode(p)
  {
    Store(mem, 0, [TypeId(p)]);
    Store(mem, 1, Bytes64(p.session));
    assert mem[..] == [TypeId(p)] + Bytes64(p.session);
  }

  /** init_ACC and init_RJT. */
  method InitNumbered(mem: array<byte>, p: Packet)
    requires mem.Length == ACC_SIZE
    requires p.Acc? || p.Rjt?
    modifies mem
    ensures mem[..] == Encode(p)
  {
    Store(mem, 0, [TypeId(p)]);
    Store(mem, 1, Bytes64(p.session));
    Store(mem, 9, Bytes64(p.id));
    assert mem[..] == [TypeId(p)] + Bytes64(p.session) + Bytes64(p.id);
  }

  /** init_DATA: the header is written even when the size is refused; the bytes of the
      struct after the copied payload keep their old contents. */
  method InitData(data: array<byte>, session: uint64, id: uint64, n: uint32, bytes: seq<byte>)
    returns (ok: bool)
    requires data.Length == INFO_SIZE + SEND_BUFF_SIZE
    requires n <= |bytes|
    modifies data
    ensures ok <==> n <= SEND_BUFF_SIZE
    ensures data[..INFO_SIZE] == Info(session, id, n)
    ensures !ok ==> data[INFO_SIZE..] == old(data[INFO_SIZE..])
    ensures ok ==> data[INFO_SIZE..] == Strncpy(bytes[..n]) + old(data[INFO_SIZE + n..])
    ensures ok ==> data[..INFO_SIZE + n] == Encode(Data(session, id, Strncpy(bytes[..n])))
  {
    ghost var was := data[..];
    Store(data, 0, Info(session, id, n));
    assert data[..INFO_SIZE] == Info(session, id, n);
    if n > SEND_BUFF_SIZE {
      assert data[INFO_SIZE..] == was[INFO_SIZE..];
      return false;
    }
    ghost var mid := data[..];
    Store(data, INFO_SIZE, Strncpy(bytes[..n]));
    assert data[..] == mid[..INFO_SIZE] + Strncpy(bytes[..n]) + mid[INFO_SIZE + n..];
    assert mid[INFO_SIZE + n..] == was[INFO_SIZE + n..];
    return true;
  }

  // ----- ntoh_* -----

  /** ntoh_CONN. */
  method NtohConn(conn: array<byte>)
    requires conn.Length == CONN_SIZE
    modifies conn
    ensures conn[0] == old(conn[0]) && conn[9] == old(conn[9])
    ensures Host64(conn[..], 1) == old(Value64(conn[1..9]))
    ensures Host64(conn[..], 10) == old(Value64(conn[10..18]))
  {
    ghost var m0 := conn[..];
    SwapField(conn, 1, 9);
    ghost var m1 := conn[..];
    SwappedFieldAt(m0, 1, 9, 10, 18);
    SwapField(conn, 10, 18);
    ghost var m2 := conn[..];
    SwappedFieldAt(m1, 10, 18, 1, 9);
    assert m0[1..9] == old(conn[1..9]);
    SwappedHostValue(m0[1..9]);
    assert m0[10..18] == old(conn[10..18]);
    SwappedHostValue(m0[10..18]);
  }

  /** ntoh_CONACC, ntoh_CONRJT and ntoh_RCVD. */
  method NtohHead(mem: array<byte>)
    requires mem.Length == HEAD_SIZE
    modifies mem
    ensures mem[0] == old(mem[0])
    ensures Host64(mem[..], 1) == old(Value64(mem[1..9]))
  {
    ghost var m0 := mem[..];
    SwapField(mem, 1, 9);
    ghost var m1 := mem[..];
    SwappedFieldAt(m0, 1, 9, 1, 9);
    assert m0[1..9] == old(mem[1..9]);
    SwappedHostValue(m0[1..9]);
  }

  /** ntoh_ACC and ntoh_RJT. */
  method NtohNumbered(mem: array<byte>)
    requires mem.Length == ACC_SIZE
    modifies mem
    ensures mem[0] == old(mem[0])
    ensures Host64(mem[..], 1) == old(Value64(mem[1..9]))
    ensures Host64(mem[..], 9) == old(Value64(mem[9..17]))
  {
    ghost var m0 := mem[..];
    SwapField(mem, 1, 9);
    ghost var m1 := mem[..];
    SwappedFieldAt(m0, 1, 9, 9, 17);
    SwapField(mem, 9, 17);
    ghost var m2 := mem[..];
    SwappedFieldAt(m1, 9, 17, 1, 9);
    assert m0[1..9] == old(mem[1..9]);
    SwappedHostValue(m0[1..9]);
    assert m0[9..17] == old(mem[9..17]);
    SwappedHostValue(m0[9..17]);
  }

  /** ntoh_DATA_INFO. */
  method NtohDataInfo(info: array<byte>)
    requires info.Length == INFO_SIZE
    modifies info
    ensures info[0] == old(info[0])
    ensures Host64(info[..], 1) == old(Value64(info[1..9]))
    ensures Host64(info[..], 9) == old(Value64(info[9..17]))
    ensures Host32(info[..], 17) == old(Value32(info[17..21]))
  {
    ghost var m0 := info[..];
    SwapField(info, 1, 9);
    ghost var m1 := info[..];
    SwappedFieldAt(m0, 1, 9, 9, 17);
    SwappedFieldAt(m0, 1, 9, 17, 21);
    SwapField(info, 9, 17);
    ghost var m2 := info[..];
    SwappedFieldAt(m1, 9, 17, 1, 9);
    SwappedFieldAt(m1, 9, 17, 17, 21);
    SwapField(info, 17, 21);
    ghost var m3 := info[..];
    SwappedFieldAt(m2, 17, 21, 1, 9);
    SwappedFieldAt(m2, 17, 21, 9, 17);
    assert m0[1..9] == old(info[1..9]);
    SwappedHostValue(m0[1..9]);
    assert m0[9..17] == old(info[9..17]);
    SwappedHostValue(m0[9..17]);
    assert m0[17..21] == old(info[17..21]);
    SwappedHostValue(m0[17..21]);
  }

  // ----- Casting one packet to the struct of another -----

  /** Whatever the struct held before, casting any packet to any struct of at least nine
      bytes gives the packet's own type and session id. */
  lemma HeadSurvivesCast(p: Packet, mem: seq<byte>)
    requires |mem| >= HEAD_SIZE
    ensures Overlay(mem, Encode(p))[0] == TypeId(p)
    ensures Value64(Overlay(mem, Encode(p))[1..9]) == p.session
  {
    EncodedFields(p);
    assert Overlay(mem, Encode(p))[1..9] == Encode(p)[1..9];
  }

  /** A cast of at least `hi` received bytes leaves nothing stale below `hi`. */
  lemma CastCovers(mem: seq<byte>, buff: seq<byte>, lo: nat, hi: nat)
    requires lo <= hi <= |mem| && hi <= |buff|
    ensures Overlay(mem, buff)[lo..hi] == buff[lo..hi]
  {
  }

  /** The round trip through memory: the fields of a DATA packet come back from the
      struct, on the host, after cast and swap. */
  method DataInfoRoundTrip(info: array<byte>, p: Packet)
    requires info.Length == INFO_SIZE && p.Data?
    modifies info
    ensures info[0] == DATA_ID && Host64(info[..], 1) == p.session
    ensures Host64(info[..], 9) == p.id && Host32(info[..], 17) == |p.payload|
  {
    CastBuffTo(info, Encode(p));
    EncodedFields(p);
    HeadSurvivesCast(p, old(info[..]));
    assert info[..] == Overlay(old(info[..]), Encode(p));
    CastCovers(old(info[..]), Encode(p), 1, 9);
    CastCovers(old(info[..]), Encode(p), 9, 17);
    CastCovers(old(info[..]), Encode(p), 17, 21);
    assert info[1..9] == info[..][1..9] && info[9..17] == info[..][9..17] && info[17..21] == info[..][17..21];
    NtohDataInfo(info);
  }
}
