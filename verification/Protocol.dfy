// The UDPR protocol between one client and one server, as an abstract machine.

/** Both ends reduced to their counters, joined by two channels. ClosedSystem proves that
    the step functions of the code behave like this machine. */
module Protocol {
  import opened Packets
  import opened Network
  import opened UdpSession
  import opened UdprClientSpec

  /** A packet of the transfer without its contents. */
  datatype Msg =
    | Hello               // CONN
    | Piece(i: nat)       // DATA i
    | Welcome             // CONACC
    | Ack(i: nat)
    | Finished            // RCVD
    | Refusal             // CONRJT
    | Rejection(i: nat)   // RJT

  datatype Sender = Sender(phase: Phase, id: nat, retransmits: nat)

  /** One session of the server: packets accepted, retransmissions used, outcome. */
  datatype Episode = Episode(cur: nat, retransmits: nat, outcome: Outcome)

  /** All sessions so far; while `live`, the last one is running. */
  datatype Receiver = Receiver(episodes: seq<Episode>, live: bool)
  {
    function Last(): Episode
      requires live && episodes != []
    {
      episodes[|episodes| - 1]
    }

    function WithLast(e: Episode): Receiver
      requires episodes != []
    {
      Receiver(episodes[|episodes| - 1 := e], e.outcome.Running?)
    }
  }

  datatype SenderMove = SenderMove(sender: Sender, out: seq<Msg>)
  datatype ReceiverMove = ReceiverMove(receiver: Receiver, out: seq<Msg>)

  // ----- The client -----

  function Stop(c: Sender, result: Result): SenderMove {
    SenderMove(c.(phase := Done(result)), [])
  }

  function Proceed(n: nat, c: Sender): SenderMove {
    if c.id < n then SenderMove(c.(phase := Sending), [Piece(c.id)])
    else SenderMove(c.(phase := Closing), [])
  }

  function Again(n: nat, c: Sender): SenderMove {
    var again := c.(retransmits := c.retransmits + 1);
    if again.retransmits > MAX_RETRANSMITS then Stop(again, Exhausted)
    else if c.phase.Connecting? then SenderMove(again, [Hello])
    else Proceed(n, again)
  }

  function SenderTimeout(n: nat, c: Sender): SenderMove {
    if c.phase.Closing? then Stop(c, NoRcvd) else Again(n, c)
  }

  function SenderError(n: nat, c: Sender): SenderMove {
    if c.phase.Connecting? then Again(n, c) else Stop(c, ReadBroken)
  }

  function SenderHears(n: nat, c: Sender, m: Msg): SenderMove {
    match c.phase
    case Connecting =>
      if m.Welcome? then Proceed(n, c) else if m.Refusal? then Stop(c, Rejected) else Again(n, c)
    case Sending =>
      (match m
       case Welcome => if c.id == 0 then SenderMove(c, []) else Stop(c, LateConacc)
       case Finished => Again(n, c)
       case Ack(i) =>
         if i < c.id then SenderMove(c, [])
         else if i > c.id then Stop(c, FutureAcc)
         else Proceed(n, c.(id := c.id + 1))
       case _ => Stop(c, WrongKind(KindOf(m))))
    case Closing =>
      (match m
       case Finished => Stop(c, Delivered)
       case Ack(i) => if i > 0 then Stop(c, FutureAcc) else SenderMove(c, [])
       case _ => Stop(c, WrongKind(KindOf(m))))
    case Done(_) => SenderMove(c, [])
  }

  function KindOf(m: Msg): byte {
    match m
    case Hello => CONN_ID
    case Piece(_) => DATA_ID
    case Welcome => CONACC_ID
    case Ack(_) => ACC_ID
    case Finished => RCVD_ID
    case Refusal => CONRJT_ID
    case Rejection(_) => RJT_ID
  }

  // ----- The server -----

  function ReceiverHears(n: nat, r: Receiver, m: Msg, sendOk: bool): ReceiverMove {
    if !r.live || r.episodes == [] then
      match m
      case Hello =>
        if sendOk then ReceiverMove(Receiver(r.episodes + [Episode(0, 0, Running)], true), [Welcome])
        else ReceiverMove(r, [])
      case _ => ReceiverMove(r, [Refusal])
    else
      var e := r.Last();
      match m
      case Piece(i) =>
        if i < e.cur then ReceiverMove(r, [])
        else if i > e.cur then ReceiverMove(r.WithLast(e.(outcome := Violated)), [Rejection(i)])
        else if e.cur + 1 == n
        then ReceiverMove(r.WithLast(e.(cur := e.cur + 1, outcome := Received)), [Ack(e.cur), Finished])
        else ReceiverMove(r.WithLast(e.(cur := e.cur + 1)), [Ack(e.cur)])
      case Hello =>
        if e.cur == 0 then ReceiverMove(r, []) else ReceiverMove(r.WithLast(e.(outcome := Violated)), [])
      case _ => ReceiverMove(r.WithLast(e.(outcome := Violated)), [])
  }

  function ReceiverTimeout(r: Receiver): ReceiverMove {
    if !r.live || r.episodes == [] then ReceiverMove(r, [])
    else
      var e := r.Last().(retransmits := r.Last().retransmits + 1);
      if e.retransmits > MAX_RETRANSMITS then ReceiverMove(r.WithLast(e.(outcome := GaveUp)), [])
      else ReceiverMove(r.WithLast(e), [if e.cur == 0 then Welcome else Ack(e.cur - 1)])
  }

  function ReceiverError(r: Receiver): ReceiverMove {
    if !r.live || r.episodes == [] then ReceiverMove(r, [])
    else ReceiverMove(r.WithLast(r.Last().(outcome := Broken)), [])
  }

  // ----- The world -----

  datatype World = World(sender: Sender, receiver: Receiver, toServer: seq<Msg>, toClient: seq<Msg>)

  datatype Action =
    | ClientTakes(i: nat, env: Env)
    | ClientTimeout
    | ClientError
    | ServerTakes(i: nat, env: Env)
    | ServerTimeout
    | ServerError
    | LoseToServer(i: nat)
    | LoseToClient(i: nat)
    | CopyToServer(i: nat)
    | CopyToClient(i: nat)

  /** Three kinds of channels, each a restriction of the one before. */
  datatype Net =
    | Unreliable   // loss, duplication, reordering
    | NoCopies     // loss and reordering
    | Fifo         // loss only

  predicate Allowed(net: Net, a: Action) {
    && (a.CopyToServer? || a.CopyToClient? ==> net.Unreliable?)
    && (net.Fifo? && (a.ClientTakes? || a.ServerTakes?) ==> a.i == 0)
  }

  predicate Enabled(w: World, a: Action) {
    match a
    case ClientTakes(i, _) => !w.sender.phase.Done? && i < |w.toClient|
    case ClientTimeout => !w.sender.phase.Done?
    case ClientError => !w.sender.phase.Done?
    case ServerTakes(i, _) => i < |w.toServer|
    case ServerTimeout => w.receiver.live
    case ServerError => w.receiver.live
    case LoseToServer(i) => i < |w.toServer|
    case LoseToClient(i) => i < |w.toClient|
    case CopyToServer(i) => i < |w.toServer|
    case CopyToClient(i) => i < |w.toClient|
  }

  function Without<T>(s: seq<T>, i: nat): (r: seq<T>)
    requires i < |s|
  {
    s[..i] + s[i + 1..]
  }

  function SenderDoes(w: World, left: seq<Msg>, move: SenderMove): World {
    World(move.sender, w.receiver, w.toServer + move.out, left)
  }

  function ReceiverDoes(w: World, left: seq<Msg>, move: ReceiverMove): World {
    World(w.sender, move.receiver, left, w.toClient + move.out)
  }

  function Apply(n: nat, w: World, a: Action): World
    requires Enabled(w, a)
  {
    match a
    case ClientTakes(i, _) => SenderDoes(w, Without(w.toClient, i), SenderHears(n, w.sender, w.toClient[i]))
    case ClientTimeout => SenderDoes(w, w.toClient, SenderTimeout(n, w.sender))
    case ClientError => SenderDoes(w, w.toClient, SenderError(n, w.sender))
    case ServerTakes(i, env) =>
      ReceiverDoes(w, Without(w.toServer, i), ReceiverHears(n, w.receiver, w.toServer[i], env.sendOk))
    case ServerTimeout => ReceiverDoes(w, w.toServer, ReceiverTimeout(w.receiver))
    case ServerError => ReceiverDoes(w, w.toServer, ReceiverError(w.receiver))
    case LoseToServer(i) => w.(toServer := Without(w.toServer, i))
    case LoseToClient(i) => w.(toClient := Without(w.toClient, i))
    case CopyToServer(i) => w.(toServer := w.toServer + [w.toServer[i]])
    case CopyToClient(i) => w.(toClient := w.toClient + [w.toClient[i]])
  }

  function Init(): World {
    World(Sender(Connecting, 0, 0), Receiver([], false), [Hello], [])
  }

  datatype Reached = Nowhere | At(world: World)

  /** The world after these actions, if each of them was possible on this network. */
  function After(n: nat, net: Net, acts: seq<Action>): Reached {
    if acts == [] then At(Init())
    else
      var before, a := After(n, net, acts[..|acts| - 1]), acts[|acts| - 1];
      if before.At? && Allowed(net, a) && Enabled(before.world, a) then At(Apply(n, before.world, a)) else Nowhere
  }
}
