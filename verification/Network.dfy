// What sockets deliver, shared by the server and the clients.

/** Datagrams, receive events and the choices the environment makes while one datagram
    is handled. */
module Network {
  import opened Packets

  datatype Addr = Addr(ip: nat, port: nat)

  type ConnMem = s: seq<byte> | |s| == CONN_SIZE witness seq<byte>(CONN_SIZE, _ => 0)
  type InfoMem = s: seq<byte> | |s| == INFO_SIZE witness seq<byte>(INFO_SIZE, _ => 0)
  type AccMem = s: seq<byte> | |s| == ACC_SIZE witness seq<byte>(ACC_SIZE, _ => 0)
  type HeadMem = s: seq<byte> | |s| == HEAD_SIZE witness seq<byte>(HEAD_SIZE, _ => 0)

  /** What an uninitialised struct holds before the datagram is cast over it, whether the
      reply to a CONN could be sent, and whether errno still says EAGAIN when a datagram
      without bytes arrives. */
  datatype Env = Env(conn: ConnMem, info: InfoMem, acc: AccMem, head: HeadMem, sendOk: bool, eagain: bool)

  function Zeros(n: nat): (bs: seq<byte>)
    ensures |bs| == n
  {
    if n == 0 then [] else [0] + Zeros(n - 1)
  }

  /** Zeroed memory, and every send works. */
  const ENV := Env(Zeros(CONN_SIZE), Zeros(INFO_SIZE), Zeros(ACC_SIZE), Zeros(HEAD_SIZE), true, true)

  /** One result of recvfrom. */
  datatype Event =
    | Timeout
    | Failure
    | Datagram(src: Addr, bytes: seq<byte>, env: Env)

  datatype Sent = Sent(dst: Addr, packet: Packet)

  /** recvfrom drops what does not fit into the buffer. */
  function Truncated(bytes: seq<byte>, capacity: nat): (got: seq<byte>)
    ensures |got| <= capacity && got <= bytes
  {
    if |bytes| <= capacity then bytes else bytes[..capacity]
  }

  /** The packets among `sent` that go to one address. */
  function SentTo(sent: seq<Sent>, dst: Addr): (ps: seq<Packet>) {
    if sent == [] then []
    else
      var init := SentTo(sent[..|sent| - 1], dst);
      var last := sent[|sent| - 1];
      if last.dst == dst then init + [last.packet] else init
  }

  lemma SentToSnoc(sent: seq<Sent>, s: Sent, dst: Addr)
    ensures SentTo(sent + [s], dst) == SentTo(sent, dst) + (if s.dst == dst then [s.packet] else [])
  {
    assert (sent + [s])[..|sent|] == sent;
  }

  lemma {:induction false} SentToConcat(a: seq<Sent>, b: seq<Sent>, dst: Addr)
    ensures SentTo(a + b, dst) == SentTo(a, dst) + SentTo(b, dst)
  {
    if b == [] {
      assert a + b == a;
    } else {
      var init, last := b[..|b| - 1], b[|b| - 1];
      SentToConcat(a, init, dst);
      SentToSnoc(a + init, last, dst);
      assert a + b == a + init + [last];
    }
  }
}
