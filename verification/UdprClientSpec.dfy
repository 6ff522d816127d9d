// client_UDPR_lib.c as a step function over receive events.

/** The UDPR client: what one result of recvfrom does to its state and what it sends. */
module UdprClientSpec {
  import opened Packets
  import opened StructMemory
  import opened Network
  import opened Chunks

  // The 32-bit counters of the send loop cover exactly these inputs (Chunks.LoopEnds).
  type Input = d: seq<byte> | |d| < TWO_32

  datatype Transfer = Transfer(session: uint64, data: Input, server: Addr)
  {
    function NumPackets(): (n: nat)
      ensures n < TWO_32
    {
      NumChunks(|data|)
    }

    /** DATA packet i of the transfer. */
    function Packet(i: nat): Packet
      requires i < NumPackets()
    {
      Data(session, i, Payload(data, i))
    }

    function Hello(): Packet {
      Conn(session, UDPR_PROTOCOL, |data|)
    }
  }

  /** How the client ends; only the first is success. */
  datatype Result =
    | Delivered
    | Rejected                 // CONRJT instead of CONACC
    | Exhausted                // out of retransmissions
    | ReadBroken               // sendto or recvfrom failed while sending or closing
    | NoRcvd                   // timeout while waiting for RCVD
    | WrongKind(typeId: byte)
    | WrongSession
    | WrongSize
    | LateConacc               // CONACC after the first ACC
    | FutureAcc                // ACC above the id waited for

  datatype Phase =
    | Connecting
    | Sending                  // DATA id sent, waiting for its ACC
    | Closing                  // everything acknowledged, waiting for RCVD
    | Done(result: Result)

  /** `id` is curr_package_id; `pinned` is real_server_s_addr once a datagram came. */
  datatype Client = Client(phase: Phase, id: nat, retransmits: nat, pinned: Option<nat>, sent: seq<Packet>)

  ghost predicate Sane(t: Transfer, c: Client) {
    && c.id <= t.NumPackets()
    && (c.phase.Connecting? ==> c.id == 0)
    && (c.phase.Sending? ==> c.id < t.NumPackets())
    && (c.phase.Closing? || c.phase == Done(Delivered) ==> c.id == t.NumPackets())
  }

  function End(c: Client, result: Result): Client {
    c.(phase := Done(result))
  }

  function ClientStart(t: Transfer): Client {
    Client(Connecting, 0, 0, None, [t.Hello()])
  }

  /** The loop guard of UDPR_client_send_DATA and its first statement. */
  function SendNext(t: Transfer, c: Client): Client {
    if c.id < t.NumPackets() then c.(phase := Sending, sent := c.sent + [t.Packet(c.id)])
    else c.(phase := Closing)
  }

  /** One retransmission, of CONN or of the current DATA; the counter is never reset. */
  function Retry(t: Transfer, c: Client): Client {
    var again := c.(retransmits := c.retransmits + 1);
    if again.retransmits > MAX_RETRANSMITS then End(again, Exhausted)
    else if c.phase.Connecting? then again.(sent := c.sent + [t.Hello()])
    else SendNext(t, again)
  }

  function OnTimeout(t: Transfer, c: Client): Client {
    if c.phase.Closing? then End(c, NoRcvd) else Retry(t, c)
  }

  function OnError(t: Transfer, c: Client): Client {
    if c.phase.Connecting? then Retry(t, c) else End(c, ReadBroken)
  }

  /** UDPR_client_init_connection after the wait. */
  function OnReply(t: Transfer, c: Client, got: seq<byte>, head: HeadMem): Client {
    var m := Overlay(head, got);
    var session := Value64(m[1..9]);
    if m[0] == CONRJT_ID && session == t.session then End(c, Rejected)
    else if |got| != HEAD_SIZE || m[0] != CONACC_ID || session != t.session then Retry(t, c)
    else SendNext(t, c)
  }

  /** UDPR_client_handle_ACC after the wait. */
  function OnAck(t: Transfer, c: Client, got: seq<byte>, acc: AccMem): Client {
    var m := Overlay(acc, got);
    var session := Value64(m[1..9]);
    var id := Value64(m[9..17]);
    if m[0] == CONACC_ID then
      if |got| != HEAD_SIZE then End(c, WrongSize)
      else if session == t.session && c.id == 0 then c
      else if c.id != 0 then End(c, LateConacc)
      else End(c, WrongSession)
    else if m[0] == RCVD_ID then
      if session != t.session then End(c, WrongSession)
      else if |got| != HEAD_SIZE then End(c, WrongSize)
      else Retry(t, c)
    else if m[0] != ACC_ID then End(c, WrongKind(m[0]))
    else if session != t.session then End(c, WrongSession)
    else if |got| != ACC_SIZE then End(c, WrongSize)
    else if id < c.id then c
    else if id > c.id then End(c, FutureAcc)
    else SendNext(t, c.(id := c.id + 1))
  }

  /** UDPR_client_handle_RCVD after the wait; the handler passes package id 0. */
  function OnClose(t: Transfer, c: Client, got: seq<byte>, head: HeadMem, acc: AccMem): Client {
    var m := Overlay(head, got);
    var session := Value64(m[1..9]);
    if m[0] == ACC_ID then
      if session != t.session then End(c, WrongSession)
      else if |got| != ACC_SIZE then End(c, WrongSize)
      else if Value64(Overlay(acc, got)[9..17]) > 0 then End(c, FutureAcc)
      else c
    else if m[0] != RCVD_ID then End(c, WrongKind(m[0]))
    else if session != t.session then End(c, WrongSession)
    else if |got| != HEAD_SIZE then End(c, WrongSize)
    else End(c, Delivered)
  }

  function OnDatagram(t: Transfer, c: Client, got: seq<byte>, env: Env): Client {
    match c.phase
    case Connecting => OnReply(t, c, got, env.head)
    case Sending => OnAck(t, c, got, env.acc)
    case Closing => OnClose(t, c, got, env.head, env.acc)
    case Done(_) => c
  }

  /** wait_for_server_response: the first sender's address becomes the server's, and
      everyone else is ignored; a datagram without bytes counts as a timeout or an
      error, whoever sent it. */
  function ClientStep(t: Transfer, c: Client, e: Event): Client {
    match e
    case Timeout => OnTimeout(t, c)
    case Failure => OnError(t, c)
    case Datagram(src, bytes, env) =>
      var got := Truncated(bytes, RESPONSE_BUFF_SIZE);
      if got == [] then if env.eagain then OnTimeout(t, c) else OnError(t, c)
      else
        var heard := if c.pinned.None? then c.(pinned := Some(src.ip)) else c;
        if Some(src.ip) != heard.pinned || src.port != t.server.port then heard
        else OnDatagram(t, heard, got, env)
  }

  function ClientRun(t: Transfer, c: Client, script: seq<Event>): Client
    decreases |script|
  {
    if script == [] || c.phase.Done? then c
    else ClientRun(t, ClientStep(t, c, script[0]), script[1..])
  }

  lemma {:induction false} ClientRunConcat(t: Transfer, c: Client, a: seq<Event>, b: seq<Event>)
    ensures ClientRun(t, c, a + b) == ClientRun(t, ClientRun(t, c, a), b)
    decreases |a|
  {
    hide ClientStep;
    if a == [] {
      assert a + b == b;
    } else if !c.phase.Done? {
      assert (a + b)[0] == a[0] && (a + b)[1..] == a[1..] + b;
      ClientRunConcat(t, ClientStep(t, c, a[0]), a[1..], b);
    }
  }

  // ----- Sends that fail -----

  /** Whether the k-th call of sendto works, counted from 0; beyond the list all do. */
  predicate Works(sends: seq<bool>, k: nat) {
    k < |sends| ==> sends[k]
  }

  /** `sent` lists every packet handed to sendto, so its length counts the calls. */
  predicate Refused(sends: seq<bool>, c: Client) {
    c.sent != [] && !Works(sends, |c.sent| - 1)
  }

  /** ClientRun when sends can fail: then the client goes on as after a failed recvfrom,
      without waiting for one. */
  function RunOver(t: Transfer, sends: seq<bool>, c: Client, script: seq<Event>): Client
    decreases |script|, if c.phase.Done? then 0 else |sends| + 2 - |c.sent|
  {
    if c.phase.Done? then c
    else if Refused(sends, c) then RunOver(t, sends, OnError(t, c), script)
    else if script == [] then c
    else RunOver(t, sends, ClientStep(t, c, script[0]), script[1..])
  }
}
