// How runs of the code end: which transfers are delivered and which failures can happen.

/** Exact conditions, for all runs of client and server on the three networks, carried
    over from the abstract protocol to the bytes. */
module Outcomes {
  import opened Packets
  import opened UdpSession
  import opened UdprClientSpec
  import opened ClosedSystem
  import opened ServerSimulation
  import opened EndToEnd
  import P = Protocol
  import S = Safety
  import F = FifoWindow
  import Fate
  import W = Witnesses
  import R = Repetition

  // ----- From the protocol to the code -----

  lemma Lift(sys: System, net: P.Net, acts: seq<P.Action>, a: P.World)
    requires |sys.t.data| > 0 && W.Leads(sys.t.NumPackets(), net, acts, a)
    ensures Feasible(sys, net, acts)
    ensures Refines(sys, After(sys, acts), a) && S.Safe(sys.t.NumPackets(), a)
  {
    RunRealised(sys, net, acts);
    RunRefines(sys, net, acts);
  }

  lemma SameOutcomes(sys: System, w: World, a: P.World)
    requires Refines(sys, w, a)
    ensures w.client.phase == a.sender.phase && w.client.id == a.sender.id
    ensures |w.server.Sessions()| == |a.receiver.episodes|
    ensures forall k :: 0 <= k < |a.receiver.episodes| ==>
              w.server.Sessions()[k].outcome == a.receiver.episodes[k].outcome
  {
    forall k | 0 <= k < |a.receiver.episodes|
      ensures w.server.Sessions()[k].outcome == a.receiver.episodes[k].outcome
    {
      assert MatchesSession(sys, w.server.Sessions()[k], a.receiver.episodes[k]);
    }
  }

  lemma SameMembers(t: Transfer, ms: seq<P.Msg>, m: P.Msg)
    requires forall x :: x in ms && Pack(t, x) == Pack(t, m) ==> x == m
    ensures Pack(t, m) in PackAll(t, ms) <==> m in ms
  {
    var ps := PackAll(t, ms);
    if m in ms {
      var i :| 0 <= i < |ms| && ms[i] == m;
      assert ps[i] == Pack(t, m);
    }
    if Pack(t, m) in ps {
      var i :| 0 <= i < |ps| && ps[i] == Pack(t, m);
      assert ms[i] == m;
    }
  }

  // ----- Once the server is done -----

  /** No session runs, and no CONN is or will be under way. */
  predicate Settled(sys: System, w: World) {
    w.server.live.None? && !w.client.phase.Connecting? && sys.t.Hello() !in w.toServer
  }

  /** The client is delivered, or the RCVD and every ACC it waits for are in its channel. */
  predicate AllUnderWay(sys: System, w: World) {
    || w.client.phase == Done(Delivered)
    || (&& !w.client.phase.Done?
        && Rcvd(sys.t.session) in w.toClient
        && forall i :: w.client.id <= i < sys.t.NumPackets() ==> Acc(sys.t.session, i) in w.toClient)
  }

  lemma SettledLifts(sys: System, w: World, a: P.World)
    requires Refines(sys, w, a) && S.Safe(sys.t.NumPackets(), a)
    ensures Settled(sys, w) <==> Fate.Settled(a)
  {
    hide PackAll, S.Peak;
    SameOutcomes(sys, w, a);
    forall x | x in a.toServer && Pack(sys.t, x) == Pack(sys.t, P.Hello)
      ensures x == P.Hello
    {
      var j :| 0 <= j < |a.toServer| && a.toServer[j] == x;
      assert S.ToServerOk(sys.t.NumPackets(), a.sender.id, a.toServer[j]);
    }
    SameMembers(sys.t, a.toServer, P.Hello);
    assert P.Hello in a.toServer <==> !F.NoHello(a.toServer);
  }

  lemma UnderWayLifts(sys: System, w: World, a: P.World)
    requires Refines(sys, w, a) && S.Safe(sys.t.NumPackets(), a)
    ensures AllUnderWay(sys, w) <==> Fate.Promising(sys.t.NumPackets(), a)
  {
    hide PackAll, S.Safe;
    var n := sys.t.NumPackets();
    SameOutcomes(sys, w, a);
    assert w.toClient == PackAll(sys.t, a.toClient);
    RepliesKnown(sys, a, P.Finished);
    forall i | 0 <= i < n
      ensures P.Ack(i) in a.toClient <==> Acc(sys.t.session, i) in w.toClient
    {
      RepliesKnown(sys, a, P.Ack(i));
    }
  }

  lemma RepliesKnown(sys: System, a: P.World, m: P.Msg)
    requires S.Safe(sys.t.NumPackets(), a)
    requires m.Finished? || (m.Ack? && m.i < sys.t.NumPackets())
    ensures Pack(sys.t, m) in PackAll(sys.t, a.toClient) <==> m in a.toClient
  {
    hide PackAll, S.Peak;
    forall x | x in a.toClient && Pack(sys.t, x) == Pack(sys.t, m)
      ensures x == m
    {
      var j :| 0 <= j < |a.toClient| && a.toClient[j] == x;
      assert S.ToClientOk(sys.t.NumPackets(), S.Peak(a.receiver.episodes), a.toClient[j]);
    }
    SameMembers(sys.t, a.toClient, m);
  }

  /** Some continuation of the run ends with the client delivered. */
  ghost predicate Deliverable(sys: System, net: P.Net, acts: seq<P.Action>) {
    exists more :: acts <= more && Feasible(sys, net, more) && After(sys, more).client.phase == Done(Delivered)
  }

  /** On each network, whatever happened before: once the server is idle and no CONN left,
      the transfer can still be delivered exactly if RCVD and every ACC the client waits
      for are in its channel. One of them lost, and no continuation delivers. */
  lemma DeliveryDecided(sys: System, net: P.Net, acts: seq<P.Action>)
    requires |sys.t.data| > 0 && Feasible(sys, net, acts)
    ensures Settled(sys, After(sys, acts)) ==>
              (Deliverable(sys, net, acts) <==> AllUnderWay(sys, After(sys, acts)))
  {
    hide Feasible, After, P.After, S.Safe, Refines, Settled, Fate.Settled, AllUnderWay, Fate.Promising;
    var n := sys.t.NumPackets();
    RunRefines(sys, net, acts);
    var a := P.After(n, net, acts).world;
    SettledLifts(sys, After(sys, acts), a);
    UnderWayLifts(sys, After(sys, acts), a);
    if !Settled(sys, After(sys, acts)) {
      return;
    }
    Fate.SettledFate(n, net, acts);
    if Deliverable(sys, net, acts) {
      var more :| acts <= more && Feasible(sys, net, more) && After(sys, more).client.phase == Done(Delivered);
      RunRefines(sys, net, more);
      SameOutcomes(sys, After(sys, more), P.After(n, net, more).world);
    }
    if Fate.Promising(n, a) {
      var more :| acts <= more && P.After(n, net, more).At? && P.After(n, net, more).world.sender.phase == Done(Delivered);
      RunRealised(sys, net, more);
      RunRefines(sys, net, more);
      SameOutcomes(sys, After(sys, more), P.After(n, net, more).world);
    }
  }

  ghost predicate SomeComplete(w: World) {
    exists k :: 0 <= k < |w.server.Sessions()| && w.server.Sessions()[k].outcome.Received?
  }

  /** On FIFO channels: once a session is complete, the client can still be delivered
      exactly if RCVD is in its channel and so is the last ACC unless it was taken. */
  lemma LastPacketsDecide(sys: System, acts: seq<P.Action>)
    requires |sys.t.data| > 0 && Feasible(sys, P.Fifo, acts)
    ensures var w, session := After(sys, acts), sys.t.session;
            SomeComplete(w) ==>
              (Deliverable(sys, P.Fifo, acts) <==>
               || w.client.phase == Done(Delivered)
               || (Rcvd(session) in w.toClient
                   && (w.client.phase.Closing?
                       || (w.client.phase.Sending? && Acc(session, sys.t.NumPackets() - 1) in w.toClient))))
  {
    hide Feasible, After, P.After, Deliverable, Refines, F.Window, S.Safe, Fate.Settled, Settled;
    var n, w := sys.t.NumPackets(), After(sys, acts);
    RunRefines(sys, P.Fifo, acts);
    var a := P.After(n, P.Fifo, acts).world;
    F.AlwaysWindow(n, acts);
    SameOutcomes(sys, w, a);
    if !SomeComplete(w) {
      return;
    }
    var k :| 0 <= k < |w.server.Sessions()| && w.server.Sessions()[k].outcome.Received?;
    CompleteIsSettled(n, a, k);
    SettledLifts(sys, w, a);
    SettledPhase(sys, w);
    DeliveryDecided(sys, P.Fifo, acts);
  }

  lemma SettledPhase(sys: System, w: World)
    requires Settled(sys, w)
    ensures !w.client.phase.Connecting?
  {
  }

  lemma CompleteIsSettled(n: nat, a: P.World, k: nat)
    requires n > 0 && F.Window(n, a) && k < |a.receiver.episodes| && a.receiver.episodes[k].outcome.Received?
    ensures Fate.Settled(a) && n - 1 <= a.sender.id <= n
    ensures a.sender.phase.Sending? ==> a.sender.id == n - 1
    ensures a.sender.phase.Closing? ==> a.sender.id == n
  {
    hide S.Peak;
    assert S.EpisodeOk(n, a.receiver.episodes[k]);
    assert k == |a.receiver.episodes| - 1;
  }

  // ----- Nothing happens to the packets -----

  /** On FIFO channels, if nothing is lost and nobody times out: the run has at most 2 n + 3
      steps, it can go on until it has them all, and then, not before, the client is
      delivered. So every such run that cannot go on has delivered. */
  lemma PerfectNetworkDelivers(sys: System, acts: seq<P.Action>)
    requires |sys.t.data| > 0 && Feasible(sys, P.Fifo, acts) && W.AllCalm(acts)
    ensures var w, last := After(sys, acts), 2 * sys.t.NumPackets() + 3;
            && |acts| <= last
            && (w.client.phase == Done(Delivered) <==> |acts| == last)
            && ((exists a :: W.Calm(a) && P.Allowed(P.Fifo, a) && Enabled(w, a)) <==> |acts| < last)
  {
    hide Feasible, After, P.After, W.Line, W.AllCalm, Enabled, P.Enabled, Refines, S.Safe;
    var n, w := sys.t.NumPackets(), After(sys, acts);
    RunRefines(sys, P.Fifo, acts);
    W.CalmOnLine(n, acts);
    W.LineGoesOn(n, |acts|);
    var a := W.Line(n, |acts|);
    SameOutcomes(sys, w, a);
    forall act: P.Action
      ensures Enabled(w, act) <==> P.Enabled(a, act)
    {
      SameEnabled(sys, w, a, act);
    }
  }

  /** And there is such a run for every transfer. */
  lemma PerfectRunExists(sys: System)
    requires |sys.t.data| > 0
    ensures exists acts :: Feasible(sys, P.Fifo, acts) && W.AllCalm(acts) && After(sys, acts).client.phase == Done(Delivered)
  {
    hide Feasible, After, P.After, W.Line;
    var n := sys.t.NumPackets();
    var acts := W.CalmRun(n, 2 * n + 3);
    Lift(sys, P.Fifo, acts, W.Line(n, 2 * n + 3));
    PerfectNetworkDelivers(sys, acts);
  }

  // ----- The last ACC lost -----

  /** For every transfer: of a run otherwise calm on FIFO channels only the ACC of the last
      packet is lost. The server has all the data, and the client, taking RCVD for a
      missed ACC, sends the last packet again, is turned away with CONRJT and fails. From
      the loss on no continuation would have delivered. */
  lemma LostLastAck(sys: System)
    requires |sys.t.data| > 0
    ensures exists before, after ::
              && W.AllCalm(before) && W.AllCalm(after)
              && Feasible(sys, P.Fifo, before + [P.LoseToClient(0)] + after)
              && After(sys, before).toClient == [Acc(sys.t.session, sys.t.NumPackets() - 1), Rcvd(sys.t.session)]
              && !Deliverable(sys, P.Fifo, before + [P.LoseToClient(0)])
              && AllComplete(After(sys, before)) && AllComplete(After(sys, before + [P.LoseToClient(0)] + after))
              && After(sys, before + [P.LoseToClient(0)] + after).client.phase == Done(WrongKind(CONRJT_ID))
  {
    hide Feasible, After, P.After, Deliverable, W.Leads, S.Safe, Refines, W.AllCalm;
    var n := sys.t.NumPackets();
    var before, after := W.LosingRun(n);
    var lost, full := before + [P.LoseToClient(0)], before + [P.LoseToClient(0)] + after;
    var a, b := W.Served(n, Sending, n - 1, 0, [], [P.Ack(n - 1), P.Finished]), W.Served(n, Sending, n - 1, 0, [], [P.Finished]);
    var c := W.Served(n, Done(WrongKind(CONRJT_ID)), n - 1, 1, [], []);
    Lift(sys, P.Fifo, before, a);
    Lift(sys, P.Fifo, lost, b);
    Lift(sys, P.Fifo, full, c);
    SameOutcomes(sys, After(sys, before), a);
    SameOutcomes(sys, After(sys, full), c);
    SenderGood(sys, After(sys, before), a);
    PackedPair(sys.t, n);
    LostIsSettled(sys, After(sys, lost), b, n);
    DeliveryDecided(sys, P.Fifo, lost);
  }

  /** There was a session, and every session received everything. */
  predicate AllComplete(w: World) {
    w.server.Sessions() != [] && forall k :: 0 <= k < |w.server.Sessions()| ==> w.server.Sessions()[k].outcome.Received?
  }

  lemma PackedPair(t: Transfer, n: nat)
    requires 0 < n < TWO_64
    ensures PackAll(t, [P.Ack(n - 1), P.Finished]) == [Acc(t.session, n - 1), Rcvd(t.session)]
  {
  }

  lemma LostIsSettled(sys: System, w: World, a: P.World, n: nat)
    requires n > 0 && n == sys.t.NumPackets()
    requires Refines(sys, w, a) && S.Safe(n, a) && a == W.Served(n, Sending, n - 1, 0, [], [P.Finished])
    ensures Settled(sys, w) && !AllUnderWay(sys, w)
  {
    SettledLifts(sys, w, a);
    UnderWayLifts(sys, w, a);
    assert P.Ack(n - 1) !in a.toClient;
  }

  // ----- Earlier packets that come again -----

  // README.md:38 promises that either end ignores packets it has received before. What it
  // does instead can break a transfer, or repeat it, and the theorems below say exactly on
  // which networks and from which length on. Where they say that it happens, it does so in
  // a run without any packet lost or copied and without a failing call, unless copies are
  // what it takes.

  predicate Meets(w: World, result: Result) {
    w.client.phase == Done(result)
  }

  /** An old ACC: in the final wait it fails the client, although every session is
      complete, exactly if channels reorder and there are two packets or more. */
  lemma OvertakenAck(sys: System, net: P.Net)
    requires |sys.t.data| > 0
    ensures !net.Fifo? && sys.t.NumPackets() >= 2 ==>
              exists acts :: Feasible(sys, net, acts) && W.AllGentle(acts) && AllComplete(After(sys, acts))
                          && Meets(After(sys, acts), FutureAcc) && After(sys, acts).client.id == sys.t.NumPackets()
    ensures net.Fifo? || sys.t.NumPackets() < 2 ==>
              forall acts :: Feasible(sys, net, acts) ==> !Meets(After(sys, acts), FutureAcc)
  {
    hide Feasible, After, W.Leads, W.AllGentle, Refines, S.Safe;
    var n := sys.t.NumPackets();
    if !net.Fifo? && n >= 2 {
      var acts, a;
      if n == 2 {
        acts, a := W.TwiceRun(net);
      } else {
        acts, a := W.OvertakingRun(n, net);
      }
      Lift(sys, net, acts, a);
      SameOutcomes(sys, After(sys, acts), a);
    } else {
      Unbroken(sys, net);
    }
  }

  /** An old CONACC after the first ACC: likewise. */
  lemma LateConaccFails(sys: System, net: P.Net)
    requires |sys.t.data| > 0
    ensures !net.Fifo? && sys.t.NumPackets() >= 2 ==>
              exists acts :: Feasible(sys, net, acts) && W.AllGentle(acts) && Meets(After(sys, acts), LateConacc)
    ensures net.Fifo? || sys.t.NumPackets() < 2 ==>
              forall acts :: Feasible(sys, net, acts) ==> !Meets(After(sys, acts), LateConacc)
  {
    hide Feasible, After, W.Leads, W.AllGentle, Refines, S.Safe;
    var n := sys.t.NumPackets();
    if !net.Fifo? && n >= 2 {
      var acts, a := W.LateConaccRun(n, net);
      Lift(sys, net, acts, a);
      SameOutcomes(sys, After(sys, acts), a);
    } else {
      Unbroken(sys, net);
    }
  }

  /** An old CONACC in the final wait: for every transfer, exactly if channels reorder. */
  lemma FinalConaccFails(sys: System, net: P.Net)
    requires |sys.t.data| > 0
    ensures !net.Fifo? ==>
              exists acts :: Feasible(sys, net, acts) && W.AllGentle(acts) && AllComplete(After(sys, acts))
                          && Meets(After(sys, acts), WrongKind(CONACC_ID))
    ensures net.Fifo? ==>
              forall acts :: Feasible(sys, net, acts) ==> !Meets(After(sys, acts), WrongKind(CONACC_ID))
  {
    hide Feasible, After, W.Leads, W.AllGentle, Refines, S.Safe;
    if !net.Fifo? {
      var acts, a := W.FinalConaccRun(sys.t.NumPackets(), net);
      Lift(sys, net, acts, a);
      SameOutcomes(sys, After(sys, acts), a);
    } else {
      Unbroken(sys, net);
    }
  }

  ghost predicate SomeViolated(w: World) {
    exists k :: 0 <= k < |w.server.Sessions()| && w.server.Sessions()[k].outcome.Violated?
  }

  /** An old CONN after the first DATA: it ends the session. This happens if channels reorder
      and there are two packets or more, and otherwise no session of the client is ever
      ended as a violation. */
  lemma LateConnViolates(sys: System, net: P.Net)
    requires |sys.t.data| > 0
    ensures !net.Fifo? && sys.t.NumPackets() >= 2 ==>
              exists acts :: Feasible(sys, net, acts + [W.HEARD]) && W.AllGentle(acts)
                          && After(sys, acts).toServer == [sys.t.Hello()] && !SomeViolated(After(sys, acts))
                          && SomeViolated(After(sys, acts + [W.HEARD]))
    ensures net.Fifo? || sys.t.NumPackets() < 2 ==>
              forall acts :: Feasible(sys, net, acts) ==> !SomeViolated(After(sys, acts))
  {
    hide Feasible, After, W.Leads, W.AllGentle, Refines, S.Safe;
    var n := sys.t.NumPackets();
    if !net.Fifo? && n >= 2 {
      var acts, a := W.LateConnRun(n, net);
      var b := a.(receiver := P.Receiver([P.Episode(1, 0, Violated)], false), toServer := []);
      Lift(sys, net, acts, a);
      Lift(sys, net, acts + [W.HEARD], b);
      SameOutcomes(sys, After(sys, acts), a);
      SameOutcomes(sys, After(sys, acts + [W.HEARD]), b);
      ReceiverGood(sys, After(sys, acts), a);
      PackSmall(sys.t, P.Hello);
      assert After(sys, acts + [W.HEARD]).server.Sessions()[0].outcome.Violated?;
    } else {
      Unbroken(sys, net);
    }
  }

  // ----- Old packets at an idle server -----

  /** An old DATA is not ignored by a server that is done with its transfer: on every
      network and for every transfer there is a run in which it is answered with CONRJT. */
  lemma OldDataRefused(sys: System, net: P.Net)
    requires |sys.t.data| > 0
    ensures exists acts :: Feasible(sys, net, acts + [W.HEARD]) && W.AllGentle(acts) && AllComplete(After(sys, acts))
                        && After(sys, acts).server.live.None?
                        && After(sys, acts).toServer == [sys.t.Packet(sys.t.NumPackets() - 1)]
                        && After(sys, acts + [W.HEARD]).toClient == After(sys, acts).toClient + [Conrjt(sys.t.session)]
  {
    hide Feasible, After, W.Leads, W.AllGentle, S.Safe, Refines, PackAll;
    var n := sys.t.NumPackets();
    var acts := W.OldDataRun(n, net);
    var a := W.Served(n, Sending, n - 1, 1, [P.Piece(n - 1)], [P.Ack(n - 1), P.Finished]);
    var b := W.Served(n, Sending, n - 1, 1, [], [P.Ack(n - 1), P.Finished, P.Refusal]);
    Lift(sys, net, acts, a);
    Lift(sys, net, acts + [W.HEARD], b);
    SameOutcomes(sys, After(sys, acts), a);
    OldDataPacked(sys.t, n);
    ReceiverGood(sys, After(sys, acts), a);
    NobodyServed(sys, After(sys, acts).server, a.receiver);
    SenderGood(sys, After(sys, acts), a);
    SenderGood(sys, After(sys, acts + [W.HEARD]), b);
  }

  lemma NobodyServed(sys: System, srv: Server, r: P.Receiver)
    requires MatchesServer(sys, srv, r)
    ensures srv.live.None? <==> !r.live
  {
  }

  lemma OldDataPacked(t: Transfer, n: nat)
    requires 0 < n == t.NumPackets()
    ensures PackAll(t, [P.Piece(n - 1)]) == [t.Packet(n - 1)]
    ensures PackAll(t, [P.Ack(n - 1), P.Finished, P.Refusal]) == PackAll(t, [P.Ack(n - 1), P.Finished]) + [Conrjt(t.session)]
  {
    hide PackAll;
    PackSmall(t, P.Piece(n - 1));
    PackSmall(t, P.Refusal);
    PackConcat(t, [P.Ack(n - 1), P.Finished], [P.Refusal]);
    assert [P.Ack(n - 1), P.Finished] + [P.Refusal] == [P.Ack(n - 1), P.Finished, P.Refusal];
  }

  /** Nor is an old CONN by a server that gave up on the session it began: on every network
      and for every transfer there is a run in which it begins another. */
  lemma OldConnBegins(sys: System, net: P.Net)
    requires |sys.t.data| > 0
    ensures exists acts :: Feasible(sys, net, acts + [W.HEARD]) && W.AllGentle(acts)
                        && After(sys, acts).server.live.None? && |After(sys, acts).server.Sessions()| == 1
                        && After(sys, acts).toServer == [sys.t.Hello()]
                        && After(sys, acts + [W.HEARD]).server.live.Some?
                        && |After(sys, acts + [W.HEARD]).server.Sessions()| == 2
  {
    hide Feasible, After, W.Leads, W.AllGentle, S.Safe;
    var acts, a, b := W.OldConnRun(sys.t.NumPackets(), net);
    Lift(sys, net, acts, a);
    Lift(sys, net, acts + [W.HEARD], b);
    SameOutcomes(sys, After(sys, acts), a);
    SameOutcomes(sys, After(sys, acts + [W.HEARD]), b);
    ReceiverGood(sys, After(sys, acts), a);
    ReceiverGood(sys, After(sys, acts + [W.HEARD]), b);
    PackSmall(sys.t, P.Hello);
  }

  /** Two sessions have received the whole transfer, and so printed it twice. */
  ghost predicate CompletedTwice(sys: System, w: World) {
    exists j, k :: 0 <= j < k < |w.server.Sessions()|
                && w.server.Sessions()[j].outcome.Received? && w.server.Sessions()[k].outcome.Received?
  }

  /** At most once: a transfer of n packets can be completed twice exactly if the network
      copies packets, or if it reorders them and n is below MAX_RETRANSMITS, so that the
      client's retransmissions can make up a whole second transfer. */
  lemma AtMostOnce(sys: System, net: P.Net)
    requires |sys.t.data| > 0
    ensures (exists acts :: Feasible(sys, net, acts) && CompletedTwice(sys, After(sys, acts)))
            <==> net.Unreliable? || (net.NoCopies? && sys.t.NumPackets() < MAX_RETRANSMITS)
    ensures !net.Fifo? && sys.t.NumPackets() < MAX_RETRANSMITS ==>
              exists acts :: Feasible(sys, net, acts) && W.AllGentle(acts) && CompletedTwice(sys, After(sys, acts))
  {
    hide Feasible, After, W.AllGentle, CompletedTwice;
    if acts :| Feasible(sys, net, acts) && CompletedTwice(sys, After(sys, acts)) {
      TwiceNeeds(sys, net, acts);
    }
    if !net.Fifo? && (net.Unreliable? || sys.t.NumPackets() < MAX_RETRANSMITS) {
      var acts := TwiceHappens(sys, net);
    }
  }

  lemma TwiceNeeds(sys: System, net: P.Net, acts: seq<P.Action>)
    requires |sys.t.data| > 0 && Feasible(sys, net, acts) && CompletedTwice(sys, After(sys, acts))
    ensures net.Unreliable? || (net.NoCopies? && sys.t.NumPackets() < MAX_RETRANSMITS)
  {
    hide Feasible, After, P.After, Refines, S.Safe, R.Twice, CompletedTwice;
    var n := sys.t.NumPackets();
    RunRefines(sys, net, acts);
    SameTwice(sys, After(sys, acts), P.After(n, net, acts).world);
    if net.Fifo? {
      FifoOnce(n, acts);
    } else if net.NoCopies? && n >= MAX_RETRANSMITS {
      R.NotTwice(n, net, acts);
    }
  }

  lemma TwiceHappens(sys: System, net: P.Net) returns (acts: seq<P.Action>)
    requires |sys.t.data| > 0 && !net.Fifo? && (net.Unreliable? || sys.t.NumPackets() < MAX_RETRANSMITS)
    ensures Feasible(sys, net, acts) && CompletedTwice(sys, After(sys, acts))
    ensures sys.t.NumPackets() < MAX_RETRANSMITS ==> W.AllGentle(acts)
  {
    hide Feasible, After, W.Leads, W.AllGentle, Refines, S.Safe, R.Twice, CompletedTwice;
    var n, a := sys.t.NumPackets(), P.Init();
    acts, a := R.CompletesTwice(n, net, n >= MAX_RETRANSMITS);
    Lift(sys, net, acts, a);
    SameTwice(sys, After(sys, acts), a);
    TwoOfThem(n, a.receiver.episodes);
  }

  lemma SameTwice(sys: System, w: World, a: P.World)
    requires Refines(sys, w, a)
    ensures CompletedTwice(sys, w) <==> R.Twice(a.receiver.episodes)
  {
    hide Refines;
    SameOutcomes(sys, w, a);
  }

  lemma TwoOfThem(n: nat, es: seq<P.Episode>)
    requires es == [P.Episode(n, 0, Received), P.Episode(n, 0, Received)]
    ensures R.Twice(es)
  {
    assert es[0].outcome.Received? && es[1].outcome.Received?;
  }

  lemma FifoOnce(n: nat, acts: seq<P.Action>)
    requires n > 0 && P.After(n, P.Fifo, acts).At?
    ensures !R.Twice(P.After(n, P.Fifo, acts).world.receiver.episodes)
  {
    hide P.After;
    F.AlwaysWindow(n, acts);
    var es := P.After(n, P.Fifo, acts).world.receiver.episodes;
    F.StopAndWait(n, acts);
    forall j | 0 <= j < |es| - 1
      ensures !es[j].outcome.Received?
    {
      assert S.EpisodeOk(n, es[j]);
    }
  }

  lemma Unbroken(sys: System, net: P.Net)
    requires |sys.t.data| > 0 && (net.Fifo? || sys.t.NumPackets() < 2)
    ensures forall acts :: Feasible(sys, net, acts) ==>
              var w := After(sys, acts);
              !Meets(w, FutureAcc) && !Meets(w, LateConacc) && (net.Fifo? ==> !Meets(w, WrongKind(CONACC_ID)))
              && !SomeViolated(w)
  {
    hide Feasible, After, P.After, Refines, S.Safe;
    forall acts | Feasible(sys, net, acts)
      ensures var w := After(sys, acts);
              !Meets(w, FutureAcc) && !Meets(w, LateConacc) && (net.Fifo? ==> !Meets(w, WrongKind(CONACC_ID)))
              && !SomeViolated(w)
    {
      if net.Fifo? {
        FifoWindowHolds(sys, acts);
      } else {
        RunRefines(sys, net, acts);
        W.SinglePacketRun(net, acts);
        SameOutcomes(sys, After(sys, acts), P.After(1, net, acts).world);
      }
    }
  }
}
