// Runs of the abstract protocol: the undisturbed one, and those that go wrong.

/** The only run of a network that does nothing to the packets, and runs in which packets
    arrive late and are met as breaches of the protocol. */
module Witnesses {
  import opened Packets
  import opened Network
  import opened UdpSession
  import opened UdprClientSpec
  import opened Protocol
  import opened Safety
  import Fate

  const HEARD := ServerTakes(0, ENV)
  const TAKEN := ClientTakes(0, ENV)

  /** Packets are taken, and every send works. */
  predicate Calm(a: Action) {
    a.ClientTakes? || (a.ServerTakes? && a.env.sendOk)
  }

  /** Nothing is lost or copied and no call fails; but either end may time out. */
  predicate Gentle(a: Action) {
    Calm(a) || a.ClientTimeout? || a.ServerTimeout?
  }

  ghost predicate AllCalm(acts: seq<Action>) {
    forall a :: a in acts ==> Calm(a)
  }

  ghost predicate AllGentle(acts: seq<Action>) {
    forall a :: a in acts ==> Gentle(a)
  }

  /** The run leads to this world. */
  ghost predicate Leads(n: nat, net: Net, acts: seq<Action>, w: World) {
    After(n, net, acts) == At(w)
  }

  /** One more action, with the world it leads to. */
  lemma Move(n: nat, net: Net, acts: seq<Action>, w: World, a: Action, v: World) returns (more: seq<Action>)
    requires Leads(n, net, acts, w) && Allowed(net, a) && Enabled(w, a) && Apply(n, w, a) == v
    ensures more == acts + [a] && Leads(n, net, more, v)
  {
    hide Apply;
    Fate.Extend(n, net, acts, a);
    more := acts + [a];
  }

  /** The four kinds of gentle actions, with the worlds they lead to. */
  lemma ServerHears(n: nat, net: Net, acts: seq<Action>, w: World, i: nat, v: World) returns (more: seq<Action>)
    requires Leads(n, net, acts, w) && AllGentle(acts) && i < |w.toServer| && (net.Fifo? ==> i == 0)
    requires v == ReceiverDoes(w, Without(w.toServer, i), ReceiverHears(n, w.receiver, w.toServer[i], true))
    ensures more == acts + [ServerTakes(i, ENV)] && Leads(n, net, more, v) && AllGentle(more)
  {
    hide Leads, ReceiverDoes, Without, ReceiverHears;
    more := Move(n, net, acts, w, ServerTakes(i, ENV), v);
  }

  lemma ClientHears(n: nat, net: Net, acts: seq<Action>, w: World, i: nat, v: World) returns (more: seq<Action>)
    requires Leads(n, net, acts, w) && AllGentle(acts) && i < |w.toClient| && (net.Fifo? ==> i == 0) && !w.sender.phase.Done?
    requires v == SenderDoes(w, Without(w.toClient, i), SenderHears(n, w.sender, w.toClient[i]))
    ensures more == acts + [ClientTakes(i, ENV)] && Leads(n, net, more, v) && AllGentle(more)
  {
    hide Leads, SenderDoes, Without, SenderHears;
    more := Move(n, net, acts, w, ClientTakes(i, ENV), v);
  }

  lemma ServerWaits(n: nat, net: Net, acts: seq<Action>, w: World, v: World) returns (more: seq<Action>)
    requires Leads(n, net, acts, w) && AllGentle(acts) && w.receiver.live
    requires v == ReceiverDoes(w, w.toServer, ReceiverTimeout(w.receiver))
    ensures more == acts + [ServerTimeout] && Leads(n, net, more, v) && AllGentle(more)
  {
    hide Leads, ReceiverDoes, ReceiverTimeout;
    more := Move(n, net, acts, w, ServerTimeout, v);
  }

  lemma ClientWaits(n: nat, net: Net, acts: seq<Action>, w: World, v: World) returns (more: seq<Action>)
    requires Leads(n, net, acts, w) && AllGentle(acts) && !w.sender.phase.Done?
    requires v == SenderDoes(w, w.toClient, SenderTimeout(n, w.sender))
    ensures more == acts + [ClientTimeout] && Leads(n, net, more, v) && AllGentle(more)
  {
    hide Leads, SenderDoes, SenderTimeout;
    more := Move(n, net, acts, w, ClientTimeout, v);
  }

  lemma Start(n: nat, net: Net) returns (acts: seq<Action>)
    ensures acts == [] && Leads(n, net, acts, Init()) && AllGentle(acts)
  {
    acts := [];
  }

  // ----- Nothing happens to the packets -----

  function Serving(phase: Phase, id: nat, cur: nat, up: seq<Msg>, down: seq<Msg>): World {
    World(Sender(phase, id, 0), Receiver([Episode(cur, 0, Running)], true), up, down)
  }

  function Served(n: nat, phase: Phase, id: nat, used: nat, up: seq<Msg>, down: seq<Msg>): World {
    World(Sender(phase, id, used), Receiver([Episode(n, 0, Received)], false), up, down)
  }

  /** The world after m packets were taken. */
  function Line(n: nat, m: nat): World
    requires n > 0
  {
    if m == 0 then Init()
    else if m == 1 then Serving(Connecting, 0, 0, [], [Welcome])
    else if m > 2 * n + 2 then Served(n, Done(Delivered), n, 0, [], [])
    else if m == 2 * n + 2 then Served(n, Closing, n, 0, [], [Finished])
    else if m == 2 * n + 1 then Served(n, Sending, n - 1, 0, [], [Ack(n - 1), Finished])
    else
      var k := m / 2 - 1;
      if m % 2 == 0 then Serving(Sending, k, k, [Piece(k)], []) else Serving(Sending, k, k + 1, [], [Ack(k)])
  }

  lemma LineStep(n: nat, m: nat, a: Action)
    requires n > 0 && m <= 2 * n + 3 && Calm(a) && Allowed(Fifo, a) && Enabled(Line(n, m), a)
    ensures m < 2 * n + 3 && Apply(n, Line(n, m), a) == Line(n, m + 1)
  {
    if 2 <= m <= 2 * n {
      var k := m / 2 - 1;
      assert (m + 1) / 2 - 1 == if m % 2 == 0 then k else k + 1;
    }
  }

  /** On FIFO channels a calm run is on this line. */
  lemma {:induction false} CalmOnLine(n: nat, acts: seq<Action>)
    requires n > 0 && After(n, Fifo, acts).At? && AllCalm(acts)
    ensures |acts| <= 2 * n + 3 && Leads(n, Fifo, acts, Line(n, |acts|))
  {
    hide Apply, Line, Enabled;
    if acts == [] {
      assert Line(n, 0) == Init() by { LineStart(n); }
    } else {
      var before, a := acts[..|acts| - 1], acts[|acts| - 1];
      CalmOnLine(n, before);
      LineStep(n, |before|, a);
    }
  }

  lemma LineAt(n: nat, k: nat)
    requires k < n
    ensures Line(n, 2 * k + 2) == Serving(Sending, k, k, [Piece(k)], [])
  {
  }

  lemma LineStart(n: nat)
    requires n > 0
    ensures Line(n, 0) == Init()
  {
  }

  /** And it goes on until the client is delivered. */
  lemma LineGoesOn(n: nat, m: nat)
    requires n > 0 && m <= 2 * n + 3
    ensures Line(n, m).sender.phase == Done(Delivered) <==> m == 2 * n + 3
    ensures (exists a :: Calm(a) && Allowed(Fifo, a) && Enabled(Line(n, m), a)) <==> m < 2 * n + 3
  {
    assert Calm(HEARD) && Calm(TAKEN) && Allowed(Fifo, HEARD) && Allowed(Fifo, TAKEN);
    if m < 2 * n + 3 {
      assert Enabled(Line(n, m), HEARD) || Enabled(Line(n, m), TAKEN);
    }
  }

  lemma {:induction false} CalmRun(n: nat, m: nat) returns (acts: seq<Action>)
    requires n > 0 && m <= 2 * n + 3
    ensures |acts| == m && AllCalm(acts) && AllGentle(acts) && Leads(n, Fifo, acts, Line(n, m))
  {
    hide Line, Apply;
    if m == 0 {
      acts := Start(n, Fifo);
      LineStart(n);
    } else {
      acts := CalmRun(n, m - 1);
      LineGoesOn(n, m - 1);
      var a :| Calm(a) && Allowed(Fifo, a) && Enabled(Line(n, m - 1), a);
      LineStep(n, m - 1, a);
      acts := Move(n, Fifo, acts, Line(n, m - 1), a, Line(n, m));
    }
  }

  // ----- The last ACC lost -----

  /** RCVD is taken for a missed ACC, and the last packet sent again is refused. */
  lemma RefusedEnd(n: nat, acts: seq<Action>) returns (more: seq<Action>)
    requires n > 0 && Leads(n, Fifo, acts, Served(n, Sending, n - 1, 0, [], [Finished]))
    ensures more == acts + [TAKEN] + [HEARD] + [TAKEN]
    ensures Leads(n, Fifo, more, Served(n, Done(WrongKind(CONRJT_ID)), n - 1, 1, [], []))
  {
    hide After, Leads, SenderTimeout, SenderError, ReceiverTimeout, ReceiverError;
    var w1 := Served(n, Sending, n - 1, 0, [], [Finished]);
    var w2 := Served(n, Sending, n - 1, 1, [Piece(n - 1)], []);
    var w3 := Served(n, Sending, n - 1, 1, [], [Refusal]);
    more := Move(n, Fifo, acts, w1, TAKEN, w2);
    more := Move(n, Fifo, more, w2, HEARD, w3);
    more := Move(n, Fifo, more, w3, TAKEN, Served(n, Done(WrongKind(CONRJT_ID)), n - 1, 1, [], []));
  }

  lemma LineEnd(n: nat)
    requires n > 0
    ensures Line(n, 2 * n + 1) == Served(n, Sending, n - 1, 0, [], [Ack(n - 1), Finished])
  {
  }

  /** Only the ACC of the last packet is lost, everything else is taken. */
  lemma LosingRun(n: nat) returns (before: seq<Action>, after: seq<Action>)
    requires n > 0
    ensures AllCalm(before) && AllCalm(after)
    ensures Leads(n, Fifo, before, Served(n, Sending, n - 1, 0, [], [Ack(n - 1), Finished]))
    ensures Leads(n, Fifo, before + [LoseToClient(0)], Served(n, Sending, n - 1, 0, [], [Finished]))
    ensures Leads(n, Fifo, before + [LoseToClient(0)] + after, Served(n, Done(WrongKind(CONRJT_ID)), n - 1, 1, [], []))
  {
    hide After, Leads, Line, SenderHears, ReceiverHears;
    before := CalmRun(n, 2 * n + 1);
    after := [TAKEN, HEARD, TAKEN];
    LineEnd(n);
    var w0 := Served(n, Sending, n - 1, 0, [], [Ack(n - 1), Finished]);
    var lost := Move(n, Fifo, before, w0, LoseToClient(0), Served(n, Sending, n - 1, 0, [], [Finished]));
    var full := RefusedEnd(n, lost);
    assert full == before + [LoseToClient(0)] + after;
  }

  // ----- A CONACC that stays behind -----

  /** Packet k is on its way and a repeated CONACC still is. */
  function Behind(k: nat): World {
    World(Sender(Sending, k, 0), Receiver([Episode(k, 1, Running)], true), [Piece(k)], [Welcome])
  }

  lemma BehindBegins(n: nat, net: Net) returns (acts: seq<Action>)
    requires n > 0 && !net.Fifo?
    ensures Leads(n, net, acts, Behind(0)) && AllGentle(acts)
  {
    hide After, Leads, AllGentle;
    acts := Start(n, net);
    var w1 := Serving(Connecting, 0, 0, [], [Welcome]);
    var w2 := World(w1.sender, Receiver([Episode(0, 1, Running)], true), [], [Welcome, Welcome]);
    acts := ServerHears(n, net, acts, Init(), 0, w1);
    acts := ServerWaits(n, net, acts, w1, w2);
    acts := ClientHears(n, net, acts, w2, 0, Behind(0));
  }

  lemma {:induction false} BehindRun(n: nat, net: Net, k: nat) returns (acts: seq<Action>)
    requires k < n && !net.Fifo?
    ensures Leads(n, net, acts, Behind(k)) && AllGentle(acts)
  {
    hide After, Leads, AllGentle;
    if k == 0 {
      acts := BehindBegins(n, net);
    } else {
      acts := BehindRun(n, net, k - 1);
      var w := World(Sender(Sending, k - 1, 0), Receiver([Episode(k, 1, Running)], true), [], [Welcome, Ack(k - 1)]);
      acts := ServerHears(n, net, acts, Behind(k - 1), 0, w);
      acts := ClientHears(n, net, acts, w, 1, Behind(k));
    }
  }

  /** It is met after the first ACC. */
  lemma LateConaccRun(n: nat, net: Net) returns (acts: seq<Action>, w: World)
    requires n >= 2 && !net.Fifo?
    ensures Leads(n, net, acts, w) && AllGentle(acts) && w.sender.phase == Done(LateConacc)
  {
    hide After, Leads;
    acts := BehindRun(n, net, 1);
    w := Behind(1).(sender := Sender(Done(LateConacc), 1, 0), toClient := []);
    acts := ClientHears(n, net, acts, Behind(1), 0, w);
  }

  /** It is met in the final wait. */
  lemma FinalConaccRun(n: nat, net: Net) returns (acts: seq<Action>, w: World)
    requires n >= 1 && !net.Fifo?
    ensures Leads(n, net, acts, w) && AllGentle(acts)
    ensures w.sender.phase == Done(WrongKind(CONACC_ID)) && w.sender.id == n
    ensures w.receiver.episodes == [Episode(n, 1, Received)]
  {
    hide After, Leads;
    acts := BehindRun(n, net, n - 1);
    var over := Receiver([Episode(n, 1, Received)], false);
    var w1 := World(Sender(Sending, n - 1, 0), over, [], [Welcome, Ack(n - 1), Finished]);
    var w2 := World(Sender(Closing, n, 0), over, [], [Welcome, Finished]);
    w := World(Sender(Done(WrongKind(CONACC_ID)), n, 0), over, [], [Finished]);
    acts := ServerHears(n, net, acts, Behind(n - 1), 0, w1);
    acts := ClientHears(n, net, acts, w1, 1, w2);
    acts := ClientHears(n, net, acts, w2, 0, w);
  }

  // ----- A CONN that stays behind -----

  /** The client has sent CONN twice, and one of them is still under way. */
  function SecondConn(): World {
    Two(Sender(Sending, 0, 1), [Episode(0, 0, Running)], [Hello, Piece(0)], [])
  }

  lemma SecondConnRun(n: nat, net: Net) returns (acts: seq<Action>)
    requires n > 0
    ensures Leads(n, net, acts, SecondConn()) && AllGentle(acts)
  {
    hide After, Leads, AllGentle;
    acts := Start(n, net);
    var w1 := Two(Sender(Connecting, 0, 1), [], [Hello, Hello], []);
    var w2 := Two(Sender(Connecting, 0, 1), [Episode(0, 0, Running)], [Hello], [Welcome]);
    acts := ClientWaits(n, net, acts, Init(), w1);
    acts := ServerHears(n, net, acts, w1, 0, w2);
    acts := ClientHears(n, net, acts, w2, 0, SecondConn());
  }

  lemma LateConnRun(n: nat, net: Net) returns (acts: seq<Action>, w: World)
    requires n >= 2 && !net.Fifo?
    ensures Leads(n, net, acts, w) && AllGentle(acts)
    ensures w.toServer == [Hello] && w.receiver == Receiver([Episode(1, 0, Running)], true)
    ensures Leads(n, net, acts + [HEARD], w.(receiver := Receiver([Episode(1, 0, Violated)], false), toServer := []))
  {
    hide After, Leads, AllGentle;
    acts := SecondConnRun(n, net);
    w := Two(Sender(Sending, 0, 1), [Episode(1, 0, Running)], [Hello], [Ack(0)]);
    acts := ServerHears(n, net, acts, SecondConn(), 1, w);
    var _ := ServerHears(n, net, acts, w, 0, Two(w.sender, [Episode(1, 0, Violated)], [], [Ack(0)]));
  }

  // ----- An ACC that stays behind -----

  /** With three packets or more: ACC n - 2 is sent twice, */
  function Leftover(n: nat): World
    requires n >= 3
  {
    World(Sender(Sending, n - 1, 0), Receiver([Episode(n - 1, 1, Running)], true), [Piece(n - 1)], [Ack(n - 2)])
  }

  lemma LeftoverRun(n: nat, net: Net) returns (acts: seq<Action>)
    requires n >= 3 && !net.Fifo?
    ensures Leads(n, net, acts, Leftover(n)) && AllGentle(acts)
  {
    hide After, Leads, AllGentle, Line;
    acts := CalmRun(n, 2 * (n - 2) + 2);
    Widened(n, net, acts, Line(n, 2 * (n - 2) + 2));
    LineAt(n, n - 2);
    var c, twice := Sender(Sending, n - 2, 0), Receiver([Episode(n - 1, 1, Running)], true);
    var w0, w1 := Serving(Sending, n - 2, n - 2, [Piece(n - 2)], []), Serving(Sending, n - 2, n - 1, [], [Ack(n - 2)]);
    var w2 := World(c, twice, [], [Ack(n - 2), Ack(n - 2)]);
    acts := ServerHears(n, net, acts, w0, 0, w1);
    acts := ServerWaits(n, net, acts, w1, w2);
    acts := ClientHears(n, net, acts, w2, 0, Leftover(n));
  }

  /** and ACC n - 1 overtakes the second of them. */
  lemma OvertakingRun(n: nat, net: Net) returns (acts: seq<Action>, w: World)
    requires n >= 3 && !net.Fifo?
    ensures Leads(n, net, acts, w) && AllGentle(acts) && OldAckMet(n, w)
  {
    hide After, Leads, AllGentle;
    acts := LeftoverRun(n, net);
    var over := Receiver([Episode(n, 1, Received)], false);
    var w1 := World(Sender(Sending, n - 1, 0), over, [], [Ack(n - 2), Ack(n - 1), Finished]);
    var w2 := World(Sender(Closing, n, 0), over, [], [Ack(n - 2), Finished]);
    w := World(Sender(Done(FutureAcc), n, 0), over, [], [Finished]);
    acts := ServerHears(n, net, acts, Leftover(n), 0, w1);
    acts := ClientHears(n, net, acts, w1, 1, w2);
    acts := ClientHears(n, net, acts, w2, 0, w);
  }

  /** The client failed in the final wait by an old ACC, and every session is complete. */
  predicate OldAckMet(n: nat, w: World) {
    && w.sender.phase == Done(FutureAcc) && w.sender.id == n
    && w.receiver.episodes != []
    && forall k :: 0 <= k < |w.receiver.episodes| ==> w.receiver.episodes[k].outcome.Received?
  }

  function Two(c: Sender, es: seq<Episode>, up: seq<Msg>, down: seq<Msg>): World {
    World(c, Receiver(es, es != [] && es[|es| - 1].outcome.Running?), up, down)
  }

  /** With two packets: the client sends CONN and packet 0 twice, */
  function Repeating(): World {
    Two(Sender(Sending, 0, 2), [Episode(0, 0, Running)], [Hello, Piece(0), Piece(0)], [])
  }

  lemma RepeatingRun(net: Net) returns (acts: seq<Action>)
    requires !net.Fifo?
    ensures Leads(2, net, acts, Repeating()) && AllGentle(acts)
  {
    hide After, Leads, AllGentle;
    acts := SecondConnRun(2, net);
    acts := ClientWaits(2, net, acts, SecondConn(), Repeating());
  }

  /** and packet 1 twice, while the server completes a first session, */
  function Repeated(): World {
    Two(Sender(Sending, 1, 3), [Episode(2, 0, Received)], [Hello, Piece(0), Piece(1)], [Ack(1), Finished])
  }

  lemma RepeatedRun(net: Net) returns (acts: seq<Action>)
    requires !net.Fifo?
    ensures Leads(2, net, acts, Repeated()) && AllGentle(acts)
  {
    hide After, Leads, AllGentle;
    acts := RepeatingRun(net);
    var e1 := Episode(1, 0, Running);
    var w1 := Two(Sender(Sending, 0, 2), [e1], [Hello, Piece(0)], [Ack(0)]);
    var w2 := Two(Sender(Sending, 1, 2), [e1], [Hello, Piece(0), Piece(1)], []);
    var w3 := Two(Sender(Sending, 1, 3), [e1], [Hello, Piece(0), Piece(1), Piece(1)], []);
    acts := ServerHears(2, net, acts, Repeating(), 1, w1);
    acts := ClientHears(2, net, acts, w1, 0, w2);
    acts := ClientWaits(2, net, acts, w2, w3);
    acts := ServerHears(2, net, acts, w3, 2, Repeated());
  }

  /** and a second session completes on the copies, */
  function SecondDone(): World {
    Two(Sender(Sending, 1, 3), [Episode(2, 0, Received), Episode(2, 0, Received)], [],
        [Ack(1), Finished, Welcome, Ack(0), Ack(1), Finished])
  }

  lemma SecondDoneRun(net: Net) returns (acts: seq<Action>)
    requires !net.Fifo?
    ensures Leads(2, net, acts, SecondDone()) && AllGentle(acts)
  {
    hide After, Leads, AllGentle;
    acts := RepeatedRun(net);
    var c, whole := Sender(Sending, 1, 3), Episode(2, 0, Received);
    var w1 := Two(c, [whole, Episode(0, 0, Running)], [Piece(0), Piece(1)], [Ack(1), Finished, Welcome]);
    var w2 := Two(c, [whole, Episode(1, 0, Running)], [Piece(1)], [Ack(1), Finished, Welcome, Ack(0)]);
    acts := ServerHears(2, net, acts, Repeated(), 0, w1);
    acts := ServerHears(2, net, acts, w1, 0, w2);
    acts := ServerHears(2, net, acts, w2, 0, SecondDone());
  }

  /** so that ACC 1 is met again. */
  lemma TwiceRun(net: Net) returns (acts: seq<Action>, w: World)
    requires !net.Fifo?
    ensures Leads(2, net, acts, w) && AllGentle(acts) && OldAckMet(2, w)
  {
    hide After, Leads, AllGentle;
    acts := SecondDoneRun(net);
    var whole := Episode(2, 0, Received);
    var w1 := Two(Sender(Closing, 2, 3), [whole, whole], [], [Finished, Welcome, Ack(0), Ack(1), Finished]);
    w := Two(Sender(Done(FutureAcc), 2, 3), [whole, whole], [], [Finished, Welcome, Ack(0), Finished]);
    acts := ClientHears(2, net, acts, SecondDone(), 0, w1);
    acts := ClientHears(2, net, acts, w1, 3, w);
  }

  // ----- A server that is idle again -----

  /** A DATA packet sent twice meets a server that is done, on any network. */
  lemma OldDataRun(n: nat, net: Net) returns (acts: seq<Action>)
    requires n > 0
    ensures Leads(n, net, acts, Served(n, Sending, n - 1, 1, [Piece(n - 1)], [Ack(n - 1), Finished])) && AllGentle(acts)
    ensures Leads(n, net, acts + [HEARD], Served(n, Sending, n - 1, 1, [], [Ack(n - 1), Finished, Refusal]))
  {
    hide After, Leads, AllGentle, Line;
    acts := CalmRun(n, 2 * n + 1);
    Widened(n, net, acts, Line(n, 2 * n + 1));
    LineEnd(n);
    var w0 := Served(n, Sending, n - 1, 0, [], [Ack(n - 1), Finished]);
    var w1 := Served(n, Sending, n - 1, 1, [Piece(n - 1)], [Ack(n - 1), Finished]);
    acts := ClientWaits(n, net, acts, w0, w1);
    var _ := ServerHears(n, net, acts, w1, 0, Served(n, Sending, n - 1, 1, [], [Ack(n - 1), Finished, Refusal]));
  }

  function Welcomes(k: nat): seq<Msg> {
    if k == 0 then [] else Welcomes(k - 1) + [Welcome]
  }

  /** The client has sent CONN twice, and the server has waited k times for DATA. */
  function Waiting(k: nat): World {
    World(Sender(Connecting, 0, 1), Receiver([Episode(0, k, Running)], true), [Hello], Welcomes(k + 1))
  }

  lemma {:induction false} WaitingRun(n: nat, net: Net, k: nat) returns (acts: seq<Action>)
    requires n > 0 && k <= MAX_RETRANSMITS
    ensures Leads(n, net, acts, Waiting(k)) && AllGentle(acts)
  {
    hide After, Leads, AllGentle;
    if k == 0 {
      acts := Start(n, net);
      var w1 := World(Sender(Connecting, 0, 1), Receiver([], false), [Hello, Hello], []);
      acts := ClientWaits(n, net, acts, Init(), w1);
      assert Welcomes(1) == [] + [Welcome];
      acts := ServerHears(n, net, acts, w1, 0, Waiting(0));
    } else {
      acts := WaitingRun(n, net, k - 1);
      acts := ServerWaits(n, net, acts, Waiting(k - 1), Waiting(k));
    }
  }

  /** A CONN sent twice meets a server that has given up on the first, on any network. */
  lemma OldConnRun(n: nat, net: Net) returns (acts: seq<Action>, w: World, v: World)
    requires n > 0
    ensures Leads(n, net, acts, w) && AllGentle(acts) && Leads(n, net, acts + [HEARD], v)
    ensures w.toServer == [Hello] && w.receiver == Receiver([Episode(0, MAX_RETRANSMITS + 1, GaveUp)], false)
    ensures v.receiver == Receiver([Episode(0, MAX_RETRANSMITS + 1, GaveUp), Episode(0, 0, Running)], true)
  {
    hide After, Leads, AllGentle, Welcomes;
    acts := WaitingRun(n, net, MAX_RETRANSMITS);
    var over := Episode(0, MAX_RETRANSMITS + 1, GaveUp);
    var down := Welcomes(MAX_RETRANSMITS + 1);
    w := World(Sender(Connecting, 0, 1), Receiver([over], false), [Hello], down);
    v := World(w.sender, Receiver([over, Episode(0, 0, Running)], true), [], down + [Welcome]);
    assert down + [] == down;
    acts := ServerWaits(n, net, acts, Waiting(MAX_RETRANSMITS), w);
    var _ := ServerHears(n, net, acts, w, 0, v);
  }

  // ----- With one packet none of these can happen -----

  predicate SinglePacket(w: World) {
    && (w.sender.phase.Done? ==> !w.sender.phase.result.LateConacc? && !w.sender.phase.result.FutureAcc?)
    && forall k :: 0 <= k < |w.receiver.episodes| ==> !w.receiver.episodes[k].outcome.Violated?
  }

  lemma SinglePacketStep(w: World, a: Action)
    requires Safe(1, w) && SinglePacket(w) && Enabled(w, a)
    ensures SinglePacket(Apply(1, w, a))
  {
    hide Peak;
    if a.ClientTakes? {
      assert ToClientOk(1, Peak(w.receiver.episodes), w.toClient[a.i]);
    }
    if w.receiver.live {
      assert EpisodeOk(1, w.receiver.episodes[|w.receiver.episodes| - 1]);
    }
    if a.ServerTakes? {
      assert ToServerOk(1, w.sender.id, w.toServer[a.i]);
    }
  }

  lemma {:induction false} SinglePacketRun(net: Net, acts: seq<Action>)
    requires After(1, net, acts).At?
    ensures SinglePacket(After(1, net, acts).world)
  {
    hide Apply, Safe, SinglePacket, Enabled;
    if acts == [] {
      SinglePacketStart();
    } else {
      AlwaysSafe(1, net, acts[..|acts| - 1]);
      SinglePacketRun(net, acts[..|acts| - 1]);
      SinglePacketStep(After(1, net, acts[..|acts| - 1]).world, acts[|acts| - 1]);
    }
  }

  lemma SinglePacketStart()
    ensures SinglePacket(Init())
  {
  }

  // ----- The networks -----

  function Power(net: Net): nat {
    match net
    case Fifo => 0
    case NoCopies => 1
    case Unreliable => 2
  }

  /** Each network can do what the one before it can. */
  lemma {:induction false} Nested(n: nat, net: Net, wider: Net, acts: seq<Action>)
    requires Power(net) <= Power(wider) && After(n, net, acts).At?
    ensures After(n, wider, acts) == After(n, net, acts)
  {
    if acts != [] {
      Nested(n, net, wider, acts[..|acts| - 1]);
    }
  }

  lemma Widened(n: nat, net: Net, acts: seq<Action>, w: World)
    requires Leads(n, Fifo, acts, w)
    ensures Leads(n, net, acts, w)
  {
    Nested(n, Fifo, net, acts);
  }
}
