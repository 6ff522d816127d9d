// Every run of one client and one server comes to an end.

/** On a network that loses and reorders but makes no copies, every step lowers one
    weighted measure of in-flight packets, chunks left and retransmissions left, also
    when the server drops a session and a late CONN starts another. */
module Termination {
  import opened Packets
  import opened Protocol
  import opened Safety

  // A message to the client weighs 1. A DATA can cause two (ACC and RCVD), a CONN one and
  // a session with nine timeouts of two; a retransmission of the client can cause a CONN.
  const PIECE_WEIGHT := 3
  const HELLO_WEIGHT := 20

  function Weight(m: Msg): nat {
    if m.Hello? then HELLO_WEIGHT else PIECE_WEIGHT
  }

  function Load(msgs: seq<Msg>): nat {
    if msgs == [] then 0 else Load(msgs[..|msgs| - 1]) + Weight(msgs[|msgs| - 1])
  }

  lemma {:induction false} LoadConcat(a: seq<Msg>, b: seq<Msg>)
    ensures Load(a + b) == Load(a) + Load(b)
  {
    if b == [] {
      assert a + b == a;
    } else {
      assert (a + b)[..|a + b| - 1] == a + b[..|b| - 1];
      LoadConcat(a, b[..|b| - 1]);
    }
  }

  lemma LoadOne(m: Msg)
    ensures Load([m]) == Weight(m) && Load([]) == 0
  {
    assert [m][..0] == [];
  }

  lemma LoadWithout(s: seq<Msg>, i: nat)
    requires i < |s|
    ensures Load(s) == Load(Without(s, i)) + Weight(s[i])
  {
    hide Load, Weight;
    var a, b := s[..i], s[i + 1..];
    assert s == a + [s[i]] + b;
    LoadConcat(a + [s[i]], b);
    LoadConcat(a, [s[i]]);
    LoadConcat(a, b);
    LoadOne(s[i]);
  }

  /** What the client can still cause. */
  function SenderEnergy(n: nat, c: Sender): int {
    if c.phase.Done? then 0
    else 21 * (MAX_RETRANSMITS + 1 - c.retransmits) + 4 * (n - c.id) + (if c.phase.Connecting? then 5 else 1)
  }

  function ReceiverEnergy(r: Receiver): int {
    if !r.live || r.episodes == [] then 0 else 2 * (MAX_RETRANSMITS + 1 - r.Last().retransmits)
  }

  function Measure(n: nat, w: World): int {
    SenderEnergy(n, w.sender) + ReceiverEnergy(w.receiver) + Load(w.toServer) + |w.toClient|
  }

  /** Within the retransmission limits, so that no part of the measure is negative. */
  predicate Limited(n: nat, w: World) {
    && SenderOk(n, w.sender)
    && (!w.sender.phase.Done? ==> w.sender.retransmits <= MAX_RETRANSMITS)
    && (w.receiver.live && w.receiver.episodes != [] ==> w.receiver.Last().retransmits <= MAX_RETRANSMITS)
    && (w.receiver.live ==> w.receiver.episodes != [])
  }

  lemma MeasureNatural(n: nat, w: World)
    requires Limited(n, w)
    ensures Measure(n, w) >= 0
  {
  }

  // ----- Each kind of move -----

  lemma SenderSpends(n: nat, c: Sender, m: Msg)
    requires SenderOk(n, c) && !c.phase.Done? && c.retransmits <= MAX_RETRANSMITS
    ensures var move := SenderHears(n, c, m);
            SenderOk(n, move.sender) && SenderEnergy(n, move.sender) + Load(move.out) <= SenderEnergy(n, c)
    ensures var move := SenderHears(n, c, m);
            !move.sender.phase.Done? ==> move.sender.retransmits <= MAX_RETRANSMITS
  {
    LoadOne(Hello);
    LoadOne(Piece(c.id));
    LoadOne(Piece(c.id + 1));
  }

  lemma SenderSpendsAlone(n: nat, c: Sender, move: SenderMove)
    requires SenderOk(n, c) && !c.phase.Done? && c.retransmits <= MAX_RETRANSMITS
    requires move == SenderTimeout(n, c) || move == SenderError(n, c)
    ensures SenderOk(n, move.sender) && SenderEnergy(n, move.sender) + Load(move.out) < SenderEnergy(n, c)
    ensures !move.sender.phase.Done? ==> move.sender.retransmits <= MAX_RETRANSMITS
  {
    LoadOne(Hello);
    LoadOne(Piece(c.id));
  }

  predicate ReceiverLimited(r: Receiver) {
    r.live ==> r.episodes != [] && r.Last().retransmits <= MAX_RETRANSMITS
  }

  lemma ReceiverSpends(n: nat, r: Receiver, m: Msg, sendOk: bool)
    requires ReceiverLimited(r)
    ensures var move := ReceiverHears(n, r, m, sendOk);
            ReceiverLimited(move.receiver) && ReceiverEnergy(move.receiver) + |move.out| < ReceiverEnergy(r) + Weight(m)
  {
  }

  lemma ReceiverSpendsAlone(r: Receiver, move: ReceiverMove)
    requires ReceiverLimited(r) && r.live
    requires move == ReceiverTimeout(r) || move == ReceiverError(r)
    ensures ReceiverLimited(move.receiver) && ReceiverEnergy(move.receiver) + |move.out| < ReceiverEnergy(r)
  {
  }

  lemma SenderDoesSpend(n: nat, w: World, left: seq<Msg>, move: SenderMove)
    requires Limited(n, w) && SenderOk(n, move.sender)
    requires !move.sender.phase.Done? ==> move.sender.retransmits <= MAX_RETRANSMITS
    requires SenderEnergy(n, move.sender) + Load(move.out) + |left| < SenderEnergy(n, w.sender) + |w.toClient|
    ensures Limited(n, SenderDoes(w, left, move)) && Measure(n, SenderDoes(w, left, move)) < Measure(n, w)
  {
    LoadConcat(w.toServer, move.out);
  }

  lemma ReceiverDoesSpend(n: nat, w: World, left: seq<Msg>, move: ReceiverMove)
    requires Limited(n, w) && ReceiverLimited(move.receiver)
    requires ReceiverEnergy(move.receiver) + |move.out| + Load(left) < ReceiverEnergy(w.receiver) + Load(w.toServer)
    ensures Limited(n, ReceiverDoes(w, left, move)) && Measure(n, ReceiverDoes(w, left, move)) < Measure(n, w)
  {
  }

  /** Every step without copying lowers the measure. */
  lemma StepSpends(n: nat, w: World, a: Action)
    requires Limited(n, w) && Enabled(w, a) && Allowed(NoCopies, a)
    ensures Limited(n, Apply(n, w, a)) && Measure(n, Apply(n, w, a)) < Measure(n, w)
  {
    hide SenderHears, ReceiverHears, SenderTimeout, SenderError, ReceiverTimeout, ReceiverError,
         SenderEnergy, ReceiverEnergy, Load, Weight;
    match a
    case ClientTakes(i, _) =>
      SenderSpends(n, w.sender, w.toClient[i]);
      SenderDoesSpend(n, w, Without(w.toClient, i), SenderHears(n, w.sender, w.toClient[i]));
    case ClientTimeout =>
      SenderSpendsAlone(n, w.sender, SenderTimeout(n, w.sender));
      SenderDoesSpend(n, w, w.toClient, SenderTimeout(n, w.sender));
    case ClientError =>
      SenderSpendsAlone(n, w.sender, SenderError(n, w.sender));
      SenderDoesSpend(n, w, w.toClient, SenderError(n, w.sender));
    case ServerTakes(i, env) =>
      LoadWithout(w.toServer, i);
      ReceiverSpends(n, w.receiver, w.toServer[i], env.sendOk);
      ReceiverDoesSpend(n, w, Without(w.toServer, i), ReceiverHears(n, w.receiver, w.toServer[i], env.sendOk));
    case ServerTimeout =>
      ReceiverSpendsAlone(w.receiver, ReceiverTimeout(w.receiver));
      ReceiverDoesSpend(n, w, w.toServer, ReceiverTimeout(w.receiver));
    case ServerError =>
      ReceiverSpendsAlone(w.receiver, ReceiverError(w.receiver));
      ReceiverDoesSpend(n, w, w.toServer, ReceiverError(w.receiver));
    case LoseToServer(i) =>
      LoadWithout(w.toServer, i);
      WeightPositive(w.toServer[i]);
    case LoseToClient(i) =>
  }

  lemma WeightPositive(m: Msg)
    ensures Weight(m) > 0
  {
  }

  lemma {:induction false} RunSpends(n: nat, net: Net, acts: seq<Action>)
    requires !net.Unreliable?
    ensures After(n, net, acts).At? ==>
            Limited(n, After(n, net, acts).world) && |acts| + Measure(n, After(n, net, acts).world) <= 4 * n + 214
  {
    hide Apply, Measure, Limited;
    if acts == [] {
      InitMeasure(n);
    } else {
      RunSpends(n, net, acts[..|acts| - 1]);
      var before := After(n, net, acts[..|acts| - 1]);
      if After(n, net, acts).At? {
        StepSpends(n, before.world, acts[|acts| - 1]);
      }
    }
  }

  lemma InitMeasure(n: nat)
    ensures Limited(n, Init()) && Measure(n, Init()) == 4 * n + 214
  {
    LoadOne(Hello);
  }

  /** A transfer of n packets is over after at most 4 n + 214 steps, counting sends heard,
      timeouts, errors and losses. */
  lemma RunsAreShort(n: nat, net: Net, acts: seq<Action>)
    requires !net.Unreliable? && After(n, net, acts).At?
    ensures |acts| <= 4 * n + 214
  {
    RunSpends(n, net, acts);
    MeasureNatural(n, After(n, net, acts).world);
  }
}
