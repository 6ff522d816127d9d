// UDPR end to end: what holds of every run of the code over a network.

/** The runs of the closed system follow the runs of the abstract protocol, which carries
    its safety, window and termination results over to the bytes. */
module EndToEnd {
  import opened Packets
  import opened Network
  import opened Chunks
  import opened Printing
  import opened UdpSession
  import opened UdprClientSpec
  import opened ClosedSystem
  import opened ServerSimulation
  import P = Protocol
  import S = Safety
  import F = FifoWindow
  import T = Termination

  // ----- Forward simulation -----

  ghost predicate Refines(sys: System, w: World, a: P.World) {
    && MatchesClient(sys.t, w.client, a.sender)
    && MatchesServer(sys, w.server, a.receiver)
    && w.toServer == PackAll(sys.t, a.toServer)
    && w.toClient == PackAll(sys.t, a.toClient)
  }

  lemma SameEnabled(sys: System, w: World, a: P.World, act: P.Action)
    requires Refines(sys, w, a)
    ensures Enabled(w, act) <==> P.Enabled(a, act)
  {
  }

  lemma ClientDoesRefines(sys: System, w: World, a: P.World, left: seq<P.Msg>, c: Client, move: P.SenderMove)
    requires Refines(sys, w, a) && ClientFollows(sys.t, w.client, c, move)
    ensures Refines(sys, ClientDoes(w, PackAll(sys.t, left), c), P.SenderDoes(a, left, move))
  {
    hide MatchesServer;
    PackConcat(sys.t, a.toServer, move.out);
    assert Added(w.client.sent, c.sent) == PackAll(sys.t, move.out);
  }

  lemma ServerDoesRefines(sys: System, w: World, a: P.World, left: seq<P.Msg>, srv: Server, move: P.ReceiverMove)
    requires Refines(sys, w, a) && ServerFollows(sys, w.server, srv, move)
    ensures Refines(sys, ServerDoes(sys, w, PackAll(sys.t, left), srv), P.ReceiverDoes(a, left, move))
  {
    hide MatchesServer;
    PackConcat(sys.t, a.toClient, move.out);
    SentToAll(sys, move.out);
    assert Added(w.server.Sends(), srv.Sends()) == AllTo(sys, move.out);
  }

  lemma RepliesPacked(sys: System, a: P.World, i: nat)
    requires S.Safe(sys.t.NumPackets(), a) && i < |a.toClient|
    ensures Reply(sys.t, a.toClient[i])
  {
    assert S.ToClientOk(sys.t.NumPackets(), S.Peak(a.receiver.episodes), a.toClient[i]);
  }

  lemma SendsPacked(sys: System, a: P.World, i: nat)
    requires S.Safe(sys.t.NumPackets(), a) && i < |a.toServer|
    ensures a.toServer[i].Hello? || (a.toServer[i].Piece? && a.toServer[i].i < sys.t.NumPackets())
  {
    assert S.ToServerOk(sys.t.NumPackets(), a.sender.id, a.toServer[i]);
  }

  lemma ClientActs(sys: System, w: World, a: P.World, act: P.Action)
    requires Refines(sys, w, a) && S.Safe(sys.t.NumPackets(), a) && P.Enabled(a, act)
    requires act.ClientTakes? || act.ClientTimeout? || act.ClientError?
    ensures Refines(sys, Apply(sys, w, act), P.Apply(sys.t.NumPackets(), a, act))
  {
    hide MatchesServer, ClientStep, P.SenderHears, P.Without, Encode, S.Peak, P.SenderTimeout, P.SenderError,
         MatchesClient, ClientFollows, ClientDoes, P.SenderDoes;
    var n := sys.t.NumPackets();
    SenderGood(sys, w, a);
    match act
    case ClientTakes(i, env) =>
      RepliesPacked(sys, a, i);
      PackWithout(sys.t, a.toClient, i);
      ClientHearsFollows(sys.t, w.client, a.sender, a.toClient[i], env);
      ClientDoesRefines(sys, w, a, P.Without(a.toClient, i),
        ClientStep(sys.t, w.client, Datagram(sys.t.server, Encode(w.toClient[i]), env)), P.SenderHears(n, a.sender, a.toClient[i]));
    case ClientTimeout =>
      ClientAloneFollows(sys.t, w.client, a.sender);
      ClientDoesRefines(sys, w, a, a.toClient, ClientStep(sys.t, w.client, Timeout), P.SenderTimeout(n, a.sender));
    case ClientError =>
      ClientAloneFollows(sys.t, w.client, a.sender);
      ClientDoesRefines(sys, w, a, a.toClient, ClientStep(sys.t, w.client, Failure), P.SenderError(n, a.sender));
  }

  lemma SenderGood(sys: System, w: World, a: P.World)
    requires Refines(sys, w, a) && S.Safe(sys.t.NumPackets(), a)
    ensures MatchesClient(sys.t, w.client, a.sender) && S.SenderOk(sys.t.NumPackets(), a.sender)
    ensures w.client.phase == a.sender.phase && w.toClient == PackAll(sys.t, a.toClient)
  {
  }

  lemma ReceiverGood(sys: System, w: World, a: P.World)
    requires Refines(sys, w, a) && S.Safe(sys.t.NumPackets(), a)
    ensures MatchesServer(sys, w.server, a.receiver) && S.ReceiverOk(sys.t.NumPackets(), a.receiver)
    ensures w.toServer == PackAll(sys.t, a.toServer)
  {
  }

  lemma ServerActs(sys: System, w: World, a: P.World, act: P.Action)
    requires Refines(sys, w, a) && S.Safe(sys.t.NumPackets(), a) && P.Enabled(a, act) && |sys.t.data| > 0
    requires act.ServerTakes? || act.ServerTimeout? || act.ServerError?
    ensures Refines(sys, Apply(sys, w, act), P.Apply(sys.t.NumPackets(), a, act))
  {
    hide MatchesServer, ServerStep, P.ReceiverHears, P.Without, Encode, S.Peak, P.ReceiverTimeout, P.ReceiverError,
         MatchesClient, ServerFollows, ServerDoes, P.ReceiverDoes, S.Safe, Refines;
    var n := sys.t.NumPackets();
    ReceiverGood(sys, w, a);
    match act
    case ServerTakes(i, env) =>
      SendsPacked(sys, a, i);
      PackWithout(sys.t, a.toServer, i);
      ServerHearsFollows(sys, w.server, a.receiver, a.toServer[i], env);
      ServerDoesRefines(sys, w, a, P.Without(a.toServer, i),
        ServerStep(w.server, Datagram(sys.me, Encode(w.toServer[i]), env)), P.ReceiverHears(n, a.receiver, a.toServer[i], env.sendOk));
    case ServerTimeout =>
      ServerAloneFollows(sys, w.server, a.receiver);
      ServerDoesRefines(sys, w, a, a.toServer, ServerStep(w.server, Timeout), P.ReceiverTimeout(a.receiver));
    case ServerError =>
      ServerAloneFollows(sys, w.server, a.receiver);
      ServerDoesRefines(sys, w, a, a.toServer, ServerStep(w.server, Failure), P.ReceiverError(a.receiver));
  }

  lemma ChannelActs(sys: System, w: World, a: P.World, act: P.Action)
    requires Refines(sys, w, a) && P.Enabled(a, act)
    requires act.LoseToServer? || act.LoseToClient? || act.CopyToServer? || act.CopyToClient?
    ensures Refines(sys, Apply(sys, w, act), P.Apply(sys.t.NumPackets(), a, act))
  {
    hide MatchesServer, MatchesClient, P.Without, PackAll, ClientStep, ServerStep, ClientDoes, ServerDoes,
         P.SenderDoes, P.ReceiverDoes, P.SenderHears, P.ReceiverHears, Encode;
    if act.LoseToServer? {
      PackWithout(sys.t, a.toServer, act.i);
    } else if act.LoseToClient? {
      PackWithout(sys.t, a.toClient, act.i);
    } else if act.CopyToServer? {
      PackMore(sys.t, a.toServer, act.i);
    } else {
      PackMore(sys.t, a.toClient, act.i);
    }
  }

  lemma PackMore(t: Transfer, ms: seq<P.Msg>, i: nat)
    requires i < |ms|
    ensures |PackAll(t, ms)| == |ms| && PackAll(t, ms + [ms[i]]) == PackAll(t, ms) + [PackAll(t, ms)[i]]
  {
    PackConcat(t, ms, [ms[i]]);
    PackSmall(t, ms[i]);
  }

  /** Each step of the code, on the encoded packets and over any stale memory, is the
      protocol's step. */
  lemma StepRefines(sys: System, w: World, a: P.World, act: P.Action)
    requires Refines(sys, w, a) && S.Safe(sys.t.NumPackets(), a) && P.Enabled(a, act) && |sys.t.data| > 0
    ensures Refines(sys, Apply(sys, w, act), P.Apply(sys.t.NumPackets(), a, act))
  {
    hide Refines, Apply, P.Apply, P.Enabled, S.Safe;
    if act.ClientTakes? || act.ClientTimeout? || act.ClientError? {
      ClientActs(sys, w, a, act);
    } else if act.ServerTakes? || act.ServerTimeout? || act.ServerError? {
      ServerActs(sys, w, a, act);
    } else {
      ChannelActs(sys, w, a, act);
    }
  }

  /** Every run of the code is a run of the protocol. */
  lemma {:induction false} RunRefines(sys: System, net: P.Net, acts: seq<P.Action>)
    requires |sys.t.data| > 0 && Feasible(sys, net, acts)
    ensures var r := P.After(sys.t.NumPackets(), net, acts);
            r.At? && S.Safe(sys.t.NumPackets(), r.world) && Refines(sys, After(sys, acts), r.world)
  {
    hide P.Apply, Apply, S.Safe, Refines, Enabled, P.Enabled;
    var n := sys.t.NumPackets();
    if acts == [] {
      InitRefines(sys);
      S.InitSafe(n);
    } else {
      var before, act := acts[..|acts| - 1], acts[|acts| - 1];
      RunRefines(sys, net, before);
      var a := P.After(n, net, before).world;
      SameEnabled(sys, After(sys, before), a, act);
      StepRefines(sys, After(sys, before), a, act);
      S.StepSafe(n, a, act);
    }
  }

  /** And every run of the protocol is a run of the code. */
  lemma {:induction false} RunRealised(sys: System, net: P.Net, acts: seq<P.Action>)
    requires |sys.t.data| > 0 && P.After(sys.t.NumPackets(), net, acts).At?
    ensures Feasible(sys, net, acts)
  {
    hide P.Apply, Apply, Enabled, P.Enabled, Refines, S.Safe;
    if acts == [] {
    } else {
      var before, act := acts[..|acts| - 1], acts[|acts| - 1];
      RunRealised(sys, net, before);
      RunRefines(sys, net, before);
      SameEnabled(sys, After(sys, before), P.After(sys.t.NumPackets(), net, before).world, act);
    }
  }

  lemma InitRefines(sys: System)
    ensures Refines(sys, Init(sys), P.Init())
  {
    PackSmall(sys.t, P.Hello);
  }

  // ----- Safety on a network that loses, duplicates and reorders -----

  /** In every reachable state, with any number of sessions abandoned and begun again:
      each session has accepted exactly the first chunks of the client's data, as many as
      its counter says; and if the client got past the wait for RCVD, some session
      accepted them all. */
  lemma AcceptedIsPrefix(sys: System, net: P.Net, acts: seq<P.Action>)
    requires |sys.t.data| > 0 && Feasible(sys, net, acts)
    ensures var w, n := After(sys, acts), sys.t.NumPackets();
            && (forall k :: 0 <= k < |w.server.Sessions()| ==>
                  var s := w.server.Sessions()[k];
                  |s.accepted| <= n && s.accepted == Payloads(sys.t.data, |s.accepted|) && s.cur == |s.accepted|)
            && (w.client.phase == Done(Delivered) ==>
                exists k :: 0 <= k < |w.server.Sessions()|
                         && w.server.Sessions()[k].outcome.Received?
                         && w.server.Sessions()[k].accepted == Payloads(sys.t.data, n))
  {
    RunRefines(sys, net, acts);
    var w, n := After(sys, acts), sys.t.NumPackets();
    var a := P.After(n, net, acts).world;
    forall k | 0 <= k < |w.server.Sessions()|
      ensures var s := w.server.Sessions()[k];
              |s.accepted| <= n && s.accepted == Payloads(sys.t.data, |s.accepted|) && s.cur == |s.accepted|
    {
      assert MatchesSession(sys, w.server.Sessions()[k], a.receiver.episodes[k]);
    }
    S.ProgressIsTrue(n, net, acts);
    if w.client.phase == Done(Delivered) {
      var k :| 0 <= k < |a.receiver.episodes| && a.receiver.episodes[k].outcome.Received?;
      assert MatchesSession(sys, w.server.Sessions()[k], a.receiver.episodes[k]);
      assert S.EpisodeOk(n, a.receiver.episodes[k]);
    }
  }

  /** In every reachable state a complete session has accepted as many bytes as the client
      sent, and exactly those unless a chunk has other bytes after a NUL; and it has
      printed the client's data, or as many bytes, exactly when the data has no NUL. */
  lemma DeliveredBytes(sys: System, net: P.Net, acts: seq<P.Action>)
    requires |sys.t.data| > 0 && Feasible(sys, net, acts)
    ensures var sessions, data := After(sys, acts).server.Sessions(), sys.t.data;
            forall k :: 0 <= k < |sessions| && sessions[k].outcome.Received? ==>
              var accepted := sessions[k].accepted;
              && |Joined(accepted)| == |data|
              && (Joined(accepted) == data <==> NulsEndChunks(data, sys.t.NumPackets()))
              && (Printed(accepted) == data <==> 0 !in data)
              && (|Printed(accepted)| == |data| <==> 0 !in data)
  {
    hide After, Payloads, Joined, Printed, Total;
    CompleteIsWhole(sys, net, acts);
    PayloadsSpellData(sys.t.data);
    PayloadsTotal(sys.t.data, sys.t.NumPackets());
    PrintedIsData(sys.t.data);
    var n := Total(Payloads(sys.t.data, sys.t.NumPackets()));
  }

  /** A session is complete exactly when it has accepted every chunk. */
  lemma CompleteIsWhole(sys: System, net: P.Net, acts: seq<P.Action>)
    requires |sys.t.data| > 0 && Feasible(sys, net, acts)
    ensures var sessions := After(sys, acts).server.Sessions();
            forall k :: 0 <= k < |sessions| ==>
              (sessions[k].outcome.Received? <==> sessions[k].accepted == Payloads(sys.t.data, sys.t.NumPackets()))
  {
    hide After, P.After, S.Peak;
    RunRefines(sys, net, acts);
    var sessions, a := After(sys, acts).server.Sessions(), P.After(sys.t.NumPackets(), net, acts).world;
    forall k | 0 <= k < |sessions|
      ensures sessions[k].outcome.Received? <==> sessions[k].accepted == Payloads(sys.t.data, sys.t.NumPackets())
    {
      var e := a.receiver.episodes[k];
      assert MatchesSession(sys, sessions[k], e);
      assert S.EpisodeOk(sys.t.NumPackets(), e);
      assert |Payloads(sys.t.data, e.cur)| == e.cur;
    }
  }

  // ----- The window on lossy FIFO channels -----

  /** With a running session the server has accepted as many packets as the client has
      seen acknowledged or one more; no session ends by a violation or an overshoot; the
      client can fail only by exhausting its retransmissions, by a receive error, by a
      timeout in the final wait, or by a CONRJT. */
  lemma FifoWindowHolds(sys: System, acts: seq<P.Action>)
    requires |sys.t.data| > 0 && Feasible(sys, P.Fifo, acts)
    ensures var w := After(sys, acts);
            && F.NoBreach(w.client.phase)
            && (w.server.live.Some? ==>
                  w.client.id <= |w.server.live.value.session.accepted| <= w.client.id + 1)
            && (forall k :: 0 <= k < |w.server.Sessions()| ==>
                  !w.server.Sessions()[k].outcome.Violated? && !w.server.Sessions()[k].outcome.Overshot?)
            && (forall k :: 0 <= k < |w.server.Sessions()| - 1 ==> w.server.Sessions()[k].accepted == [])
  {
    var w, n := After(sys, acts), sys.t.NumPackets();
    RunRefines(sys, P.Fifo, acts);
    F.StopAndWait(n, acts);
    var a := P.After(n, P.Fifo, acts).world;
    if w.server.live.Some? {
      LiveSession(sys, w.server, a.receiver);
    }
    forall k | 0 <= k < |w.server.Sessions()|
      ensures !w.server.Sessions()[k].outcome.Violated? && !w.server.Sessions()[k].outcome.Overshot?
      ensures k < |w.server.Sessions()| - 1 ==> w.server.Sessions()[k].accepted == []
    {
      assert MatchesSession(sys, w.server.Sessions()[k], a.receiver.episodes[k]);
    }
  }

  /** Once the client waits for RCVD, no ACC is in its channel. */
  lemma FifoFinalWait(sys: System, acts: seq<P.Action>)
    requires |sys.t.data| > 0 && Feasible(sys, P.Fifo, acts)
    ensures var w := After(sys, acts);
            w.client.phase.Closing? ==>
              forall p :: p in w.toClient ==> p == Rcvd(sys.t.session) || p == Conrjt(sys.t.session)
  {
    hide After, P.After, S.Safe, MatchesServer, MatchesClient, PackAll;
    var n := sys.t.NumPackets();
    RunRefines(sys, P.Fifo, acts);
    SenderGood(sys, After(sys, acts), P.After(n, P.Fifo, acts).world);
    if After(sys, acts).client.phase.Closing? {
      F.NoAckWhileClosing(n, acts);
      PackedReplies(sys.t, P.After(n, P.Fifo, acts).world.toClient);
    }
  }

  lemma PackedReplies(t: Transfer, ms: seq<P.Msg>)
    requires forall m :: m in ms ==> m.Finished? || m.Refusal?
    ensures forall p :: p in PackAll(t, ms) ==> p == Rcvd(t.session) || p == Conrjt(t.session)
  {
    assert forall j :: 0 <= j < |ms| ==> ms[j] in ms;
  }

  // ----- Termination -----

  /** Without duplication every run is over after at most 4 ceil(size / 64000) + 214 steps,
      however often the server drops the session and starts again. */
  lemma RunsEnd(sys: System, net: P.Net, acts: seq<P.Action>)
    requires |sys.t.data| > 0 && !net.Unreliable? && Feasible(sys, net, acts)
    ensures |acts| <= 4 * sys.t.NumPackets() + 214
  {
    RunRefines(sys, net, acts);
    T.RunsAreShort(sys.t.NumPackets(), net, acts);
  }

  /** The client has returned, the server is idle and no packet is under way. */
  predicate Quiet(w: World) {
    w.client.phase.Done? && w.server.live.None? && w.toServer == [] && w.toClient == []
  }

  /** And every run comes to such an end: it can be continued for as long as the world is
      not quiet, which the bound does not let it be for ever. */
  lemma RunsComplete(sys: System, net: P.Net, acts: seq<P.Action>) returns (more: seq<P.Action>)
    requires |sys.t.data| > 0 && !net.Unreliable? && Feasible(sys, net, acts)
    ensures acts <= more && Feasible(sys, net, more) && |more| <= 4 * sys.t.NumPackets() + 214
    ensures Quiet(After(sys, more)) && forall a :: P.Allowed(net, a) ==> !Enabled(After(sys, more), a)
    decreases 4 * sys.t.NumPackets() + 214 - |acts|
  {
    hide Apply;
    RunsEnd(sys, net, acts);
    var w := After(sys, acts);
    if Quiet(w) {
      more := acts;
    } else {
      var a := if !w.client.phase.Done? then P.ClientTimeout
               else if w.server.live.Some? then P.ServerTimeout
               else if w.toServer != [] then P.LoseToServer(0) else P.LoseToClient(0);
      assert (acts + [a])[..|acts|] == acts;
      RunsEnd(sys, net, acts + [a]);
      more := RunsComplete(sys, net, acts + [a]);
    }
  }
}
