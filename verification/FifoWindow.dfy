// Stop-and-wait on channels that lose packets but keep their order.

/** On lossy FIFO channels the two ends stay within one packet of each other and neither
    ever sees the other break the protocol. */
module FifoWindow {
  import opened Packets
  import opened UdpSession
  import opened UdprClientSpec
  import opened Protocol
  import opened Safety

  /** The order in which the client first sends its packets. */
  function SendRank(m: Msg): nat {
    if m.Piece? then m.i + 1 else 0
  }

  /** The order in which the server first sends its packets. */
  function ReplyRank(n: nat, m: Msg): nat {
    match m
    case Ack(i) => i + 1
    case Finished => n + 1
    case Refusal => n + 2
    case _ => 0
  }

  ghost predicate SendsInOrder(s: seq<Msg>) {
    forall j, k :: 0 <= j < k < |s| ==> SendRank(s[j]) <= SendRank(s[k])
  }

  /** In order, and the last ACC not twice. */
  ghost predicate RepliesInOrder(n: nat, s: seq<Msg>) {
    forall j, k :: 0 <= j < k < |s| ==>
      ReplyRank(n, s[j]) <= ReplyRank(n, s[k]) && !(ReplyRank(n, s[j]) == n == ReplyRank(n, s[k]))
  }

  ghost predicate NoHello(s: seq<Msg>) {
    forall j :: 0 <= j < |s| ==> !s[j].Hello?
  }

  /** How many packets the last session has accepted. */
  function Cur(r: Receiver): nat {
    if r.episodes == [] then 0 else r.episodes[|r.episodes| - 1].cur
  }

  /** What the client can still receive: nothing before the last ACC it took. */
  function Floor(n: nat, id: nat): nat {
    if id == n then n + 1 else id
  }

  predicate ReplyOk(n: nat, id: nat, m: Msg) {
    !m.Rejection? && !m.Hello? && !m.Piece? && ReplyRank(n, m) >= Floor(n, id)
  }

  /** The ways the client can end on FIFO channels. */
  predicate NoBreach(p: Phase) {
    p.Done? ==> p.result.Delivered? || p.result.Exhausted? || p.result.ReadBroken? || p.result.NoRcvd?
                || p.result == WrongKind(CONRJT_ID)
  }

  /** No CONN is or will be under way. */
  ghost predicate Committed(w: World) {
    !w.sender.phase.Connecting? && NoHello(w.toServer)
  }

  ghost predicate Episodes(r: Receiver) {
    && (forall k :: 0 <= k < |r.episodes| - 1 ==> r.episodes[k].cur == 0)
    && (forall k :: 0 <= k < |r.episodes| ==> !r.episodes[k].outcome.Violated?)
  }

  ghost predicate Window(n: nat, w: World) {
    && Safe(n, w)
    && NoBreach(w.sender.phase)
    && Episodes(w.receiver)
    && SendsInOrder(w.toServer)
    && RepliesInOrder(n, w.toClient)
    && (w.sender.phase.Connecting? ==> forall j :: 0 <= j < |w.toServer| ==> w.toServer[j].Hello?)
    && (forall j :: 0 <= j < |w.toClient| ==> ReplyOk(n, w.sender.id, w.toClient[j]))
    && w.sender.id <= Cur(w.receiver) <= w.sender.id + 1
    && (Cur(w.receiver) > 0 || Refusal in w.toClient ==> Committed(w))
    && (Refusal in w.toClient ==> !w.receiver.live)
  }

  // ----- Facts about the last session -----

  lemma {:induction false} PeakIsCur(es: seq<Episode>)
    requires forall k :: 0 <= k < |es| - 1 ==> es[k].cur == 0
    ensures Peak(es) == if es == [] then 0 else es[|es| - 1].cur
  {
    if |es| > 1 {
      PeakIsCur(es[..|es| - 1]);
    }
  }

  /** Everything on its way to the client was sent before what a live session sends now. */
  lemma RepliesBelow(n: nat, w: World)
    requires n > 0 && Window(n, w) && w.receiver.live
    ensures forall j :: 0 <= j < |w.toClient| ==> ReplyRank(n, w.toClient[j]) <= Cur(w.receiver)
    ensures Cur(w.receiver) < n
  {
    PeakIsCur(w.receiver.episodes);
    forall j | 0 <= j < |w.toClient|
      ensures ReplyRank(n, w.toClient[j]) <= Cur(w.receiver)
    {
      assert ToClientOk(n, Peak(w.receiver.episodes), w.toClient[j]);
      assert ReplyOk(n, w.sender.id, w.toClient[j]);
      assert w.toClient[j] in w.toClient;
    }
  }

  /** Before anything was accepted and refused, only CONACCs are on their way. */
  lemma RepliesAllWelcome(n: nat, w: World)
    requires n > 0 && Window(n, w) && Cur(w.receiver) == 0 && Refusal !in w.toClient
    ensures forall j :: 0 <= j < |w.toClient| ==> w.toClient[j].Welcome?
  {
    PeakIsCur(w.receiver.episodes);
    forall j | 0 <= j < |w.toClient|
      ensures w.toClient[j].Welcome?
    {
      assert ToClientOk(n, Peak(w.receiver.episodes), w.toClient[j]);
      assert ReplyOk(n, w.sender.id, w.toClient[j]);
      assert w.toClient[j] in w.toClient;
    }
  }

  // ----- Removing from a channel -----

  lemma WithoutKeepsOrder(n: nat, s: seq<Msg>, i: nat)
    requires i < |s|
    ensures SendsInOrder(s) ==> SendsInOrder(Without(s, i))
    ensures RepliesInOrder(n, s) ==> RepliesInOrder(n, Without(s, i))
    ensures NoHello(s) ==> NoHello(Without(s, i))
    ensures forall m :: m in Without(s, i) ==> m in s
  {
    var r := Without(s, i);
    assert forall j :: 0 <= j < |r| ==> r[j] == s[if j < i then j else j + 1];
  }

  lemma LosingKeepsWindow(n: nat, w: World, toServer: seq<Msg>, toClient: seq<Msg>)
    requires Window(n, w)
    requires SendsInOrder(toServer) && RepliesInOrder(n, toClient)
    requires forall m :: m in toServer ==> m in w.toServer
    requires forall m :: m in toClient ==> m in w.toClient
    ensures Window(n, w.(toServer := toServer, toClient := toClient))
  {
    hide Peak;
    ChannelsSafe(n, w, toServer, toClient);
    forall j | 0 <= j < |toServer|
      ensures toServer[j] in w.toServer
    {
    }
    forall j | 0 <= j < |toClient|
      ensures ReplyOk(n, w.sender.id, toClient[j])
    {
      assert toClient[j] in w.toClient;
    }
  }

  // ----- The client's moves -----

  /** What the window asks of a move of the client that leaves `left` in its channel. */
  ghost predicate SenderFits(n: nat, w: World, left: seq<Msg>, move: SenderMove) {
    && NoBreach(move.sender.phase)
    && w.sender.id <= move.sender.id <= Cur(w.receiver)
    && (move.sender.phase.Connecting? ==> w.sender.phase.Connecting? && forall j :: 0 <= j < |move.out| ==> move.out[j] == Hello)
    && (!move.sender.phase.Connecting? ==> forall j :: 0 <= j < |move.out| ==> move.out[j] == Piece(move.sender.id))
    && |move.out| <= 1
    && (forall j :: 0 <= j < |left| ==> ReplyOk(n, move.sender.id, left[j]))
  }

  lemma SenderFitsWindow(n: nat, w: World, left: seq<Msg>, move: SenderMove)
    requires Window(n, w) && Safe(n, SenderDoes(w, left, move)) && SenderFits(n, w, left, move)
    requires RepliesInOrder(n, left) && forall m :: m in left ==> m in w.toClient
    ensures Window(n, SenderDoes(w, left, move))
  {
    hide Peak, Safe;
    var v := SenderDoes(w, left, move);
    assert SendsInOrder(v.toServer) by {
      forall j, k | 0 <= j < k < |v.toServer|
        ensures SendRank(v.toServer[j]) <= SendRank(v.toServer[k])
      {
        if k >= |w.toServer| {
          SendsSoFar(n, w, j);
        }
      }
    }
  }

  lemma SendsSoFar(n: nat, w: World, j: nat)
    requires Window(n, w) && j < |w.toServer|
    ensures SendRank(w.toServer[j]) <= w.sender.id + 1
    ensures w.sender.phase.Connecting? ==> SendRank(w.toServer[j]) == 0
  {
    assert ToServerOk(n, w.sender.id, w.toServer[j]);
  }

  lemma FirstIsLowest(n: nat, w: World, j: nat)
    requires Window(n, w) && 0 < j < |w.toClient|
    ensures ReplyRank(n, w.toClient[0]) <= ReplyRank(n, w.toClient[j])
    ensures ReplyRank(n, w.toClient[0]) == n ==> ReplyRank(n, w.toClient[j]) > n
    ensures ReplyOk(n, w.sender.id, w.toClient[j])
  {
  }

  /** The packet at the head of the client's channel is one it expects. */
  lemma HeadExpected(n: nat, w: World)
    requires n > 0 && Window(n, w) && w.toClient != []
    ensures w.sender.phase.Connecting? ==> w.toClient[0].Welcome?
    ensures w.sender.phase.Sending? && w.toClient[0].Welcome? ==> w.sender.id == 0
    ensures w.toClient[0].Ack? ==> w.toClient[0].i <= w.sender.id && w.toClient[0].i < Cur(w.receiver)
    ensures w.sender.phase.Closing? ==> w.toClient[0].Finished? || w.toClient[0].Refusal?
    ensures !w.toClient[0].Rejection? && !w.toClient[0].Hello? && !w.toClient[0].Piece?
  {
    PeakIsCur(w.receiver.episodes);
    assert ToClientOk(n, Peak(w.receiver.episodes), w.toClient[0]);
    assert ReplyOk(n, w.sender.id, w.toClient[0]);
    assert w.toClient[0] in w.toClient;
  }

  lemma ClientTakesFits(n: nat, w: World)
    requires n > 0 && Window(n, w) && w.toClient != [] && !w.sender.phase.Done?
    ensures SenderFits(n, w, Without(w.toClient, 0), SenderHears(n, w.sender, w.toClient[0]))
  {
    hide Peak, Safe;
    HeadExpected(n, w);
    var move, left := SenderHears(n, w.sender, w.toClient[0]), Without(w.toClient, 0);
    SenderInRange(n, w);
    forall j | 0 <= j < |left|
      ensures ReplyOk(n, move.sender.id, left[j])
    {
      assert left[j] == w.toClient[j + 1];
      FirstIsLowest(n, w, j + 1);
    }
  }

  lemma SenderInRange(n: nat, w: World)
    requires Window(n, w)
    ensures SenderOk(n, w.sender)
    ensures !w.sender.phase.Connecting? ==> Cur(w.receiver) >= w.sender.id
  {
  }

  lemma ClientAloneFits(n: nat, w: World)
    requires n > 0 && Window(n, w) && !w.sender.phase.Done?
    ensures SenderFits(n, w, w.toClient, SenderTimeout(n, w.sender))
    ensures SenderFits(n, w, w.toClient, SenderError(n, w.sender))
  {
    hide Peak, Safe;
    SenderInRange(n, w);
  }

  // ----- The server's moves -----

  /** What the window asks of a move of the server that leaves `left` in its channel. */
  ghost predicate ReceiverFits(n: nat, w: World, left: seq<Msg>, move: ReceiverMove) {
    && Episodes(move.receiver)
    && w.sender.id <= Cur(move.receiver) <= w.sender.id + 1
    && RepliesInOrder(n, w.toClient + move.out)
    && (forall j :: 0 <= j < |move.out| ==> ReplyOk(n, w.sender.id, move.out[j]))
    && (Cur(move.receiver) > 0 || Refusal in w.toClient + move.out ==> Committed(w.(toServer := left)))
    && (Refusal in w.toClient + move.out ==> !move.receiver.live)
  }

  lemma ReceiverFitsWindow(n: nat, w: World, left: seq<Msg>, move: ReceiverMove)
    requires Window(n, w) && Safe(n, ReceiverDoes(w, left, move)) && ReceiverFits(n, w, left, move)
    requires SendsInOrder(left) && forall m :: m in left ==> m in w.toServer
    ensures Window(n, ReceiverDoes(w, left, move))
  {
    hide Peak, Safe, RepliesInOrder, SendsInOrder;
    var v := ReceiverDoes(w, left, move);
    forall j | 0 <= j < |v.toClient|
      ensures ReplyOk(n, w.sender.id, v.toClient[j])
    {
      if j >= |w.toClient| {
        assert v.toClient[j] == move.out[j - |w.toClient|];
      }
    }
    if w.sender.phase.Connecting? {
      forall j | 0 <= j < |left|
        ensures left[j].Hello?
      {
        assert left[j] in w.toServer;
      }
    }
  }

  lemma AppendInOrder(n: nat, s: seq<Msg>, m: Msg)
    requires RepliesInOrder(n, s)
    requires forall j :: 0 <= j < |s| ==> ReplyRank(n, s[j]) <= ReplyRank(n, m)
    requires ReplyRank(n, m) == n ==> forall j :: 0 <= j < |s| ==> ReplyRank(n, s[j]) < n
    ensures RepliesInOrder(n, s + [m])
  {
  }

  /** Replacing the last session, counting forward and without a violation. */
  lemma LastFits(r: Receiver, e: Episode)
    requires r.episodes != [] && Episodes(r) && !e.outcome.Violated?
    ensures Episodes(r.WithLast(e)) && Cur(r.WithLast(e)) == e.cur
  {
  }

  lemma HelloFits(n: nat, w: World, sendOk: bool)
    requires n > 0 && Window(n, w) && w.toServer != [] && w.toServer[0] == Hello
    ensures ReceiverFits(n, w, Without(w.toServer, 0), ReceiverHears(n, w.receiver, Hello, sendOk))
  {
    hide Peak, Safe;
    assert Cur(w.receiver) == 0 && Refusal !in w.toClient;
    RepliesAllWelcome(n, w);
    assert w.toClient + [] == w.toClient;
    AppendInOrder(n, w.toClient, Welcome);
  }

  lemma AfterPieceCommitted(n: nat, w: World)
    requires Window(n, w) && w.toServer != [] && w.toServer[0].Piece?
    ensures Committed(w.(toServer := Without(w.toServer, 0)))
  {
    var left := Without(w.toServer, 0);
    forall j | 0 <= j < |left|
      ensures !left[j].Hello?
    {
      assert left[j] == w.toServer[j + 1];
      assert SendRank(w.toServer[0]) <= SendRank(w.toServer[j + 1]);
    }
  }

  lemma PieceAtIdleFits(n: nat, w: World, sendOk: bool)
    requires n > 0 && Window(n, w) && w.toServer != [] && w.toServer[0].Piece? && !w.receiver.live
    ensures ReceiverFits(n, w, Without(w.toServer, 0), ReceiverHears(n, w.receiver, w.toServer[0], sendOk))
  {
    hide Peak, Safe;
    AfterPieceCommitted(n, w);
    RanksBounded(n, w);
    AppendInOrder(n, w.toClient, Refusal);
  }

  lemma RanksBounded(n: nat, w: World)
    requires Window(n, w)
    ensures forall j :: 0 <= j < |w.toClient| ==> ReplyRank(n, w.toClient[j]) <= n + 2
    ensures Floor(n, w.sender.id) <= n + 1
  {
    forall j | 0 <= j < |w.toClient|
      ensures ReplyRank(n, w.toClient[j]) <= n + 2
    {
      assert ToClientOk(n, Peak(w.receiver.episodes), w.toClient[j]);
    }
  }

  lemma PieceWithinWindow(n: nat, w: World)
    requires n > 0 && Window(n, w) && w.toServer != [] && w.toServer[0].Piece?
    ensures w.toServer[0].i <= w.sender.id <= Cur(w.receiver)
  {
    assert ToServerOk(n, w.sender.id, w.toServer[0]);
  }

  lemma PieceFits(n: nat, w: World, sendOk: bool)
    requires n > 0 && Window(n, w) && w.toServer != [] && w.toServer[0].Piece? && w.receiver.live
    requires w.receiver.episodes != []
    ensures ReceiverFits(n, w, Without(w.toServer, 0), ReceiverHears(n, w.receiver, w.toServer[0], sendOk))
  {
    hide Peak, Safe, RepliesInOrder;
    PieceWithinWindow(n, w);
    AfterPieceCommitted(n, w);
    RepliesBelow(n, w);
    var e := w.receiver.Last();
    assert w.toClient + [] == w.toClient;
    if w.toServer[0].i == e.cur {
      LastFits(w.receiver, e.(cur := e.cur + 1));
      LastFits(w.receiver, e.(cur := e.cur + 1, outcome := Received));
      AppendInOrder(n, w.toClient, Ack(e.cur));
      AppendInOrder(n, w.toClient + [Ack(e.cur)], Finished);
      assert w.toClient + [Ack(e.cur)] + [Finished] == w.toClient + [Ack(e.cur), Finished];
    }
  }

  lemma TimeoutFits(n: nat, w: World)
    requires n > 0 && Window(n, w) && w.receiver.live && w.receiver.episodes != []
    ensures ReceiverFits(n, w, w.toServer, ReceiverTimeout(w.receiver))
    ensures ReceiverFits(n, w, w.toServer, ReceiverError(w.receiver))
  {
    hide Peak, Safe, RepliesInOrder;
    RepliesBelow(n, w);
    assert w == w.(toServer := w.toServer);
    var e := w.receiver.Last();
    var again := e.(retransmits := e.retransmits + 1);
    LastFits(w.receiver, again);
    LastFits(w.receiver, again.(outcome := GaveUp));
    LastFits(w.receiver, e.(outcome := Broken));
    assert w.toClient + [] == w.toClient;
    AppendInOrder(n, w.toClient, if e.cur == 0 then Welcome else Ack(e.cur - 1));
  }

  // ----- Every step keeps the window -----

  lemma LiveHasEpisode(n: nat, w: World)
    requires Safe(n, w)
    ensures w.receiver.live ==> w.receiver.episodes != []
  {
  }

  lemma StepWindow(n: nat, w: World, a: Action)
    requires n > 0 && Window(n, w) && Enabled(w, a) && Allowed(Fifo, a)
    ensures Window(n, Apply(n, w, a))
  {
    hide Peak, Safe, SenderHears, ReceiverHears, SenderFits, ReceiverFits, Without, RepliesInOrder, SendsInOrder,
         SenderTimeout, SenderError, ReceiverTimeout, ReceiverError;
    StepSafe(n, w, a);
    LiveHasEpisode(n, w);
    match a
    case ClientTakes(i, _) =>
      WithoutKeepsOrder(n, w.toClient, 0);
      ClientTakesFits(n, w);
      SenderFitsWindow(n, w, Without(w.toClient, 0), SenderHears(n, w.sender, w.toClient[0]));
    case ClientTimeout =>
      ClientAloneFits(n, w);
      SenderFitsWindow(n, w, w.toClient, SenderTimeout(n, w.sender));
    case ClientError =>
      ClientAloneFits(n, w);
      SenderFitsWindow(n, w, w.toClient, SenderError(n, w.sender));
    case ServerTakes(i, env) =>
      WithoutKeepsOrder(n, w.toServer, 0);
      ToServerKinds(n, w);
      if w.toServer[0] == Hello {
        HelloFits(n, w, env.sendOk);
      } else if w.receiver.live {
        PieceFits(n, w, env.sendOk);
      } else {
        PieceAtIdleFits(n, w, env.sendOk);
      }
      ReceiverFitsWindow(n, w, Without(w.toServer, 0), ReceiverHears(n, w.receiver, w.toServer[0], env.sendOk));
    case ServerTimeout =>
      TimeoutFits(n, w);
      ReceiverFitsWindow(n, w, w.toServer, ReceiverTimeout(w.receiver));
    case ServerError =>
      TimeoutFits(n, w);
      ReceiverFitsWindow(n, w, w.toServer, ReceiverError(w.receiver));
    case LoseToServer(i) =>
      WithoutKeepsOrder(n, w.toServer, i);
      LosingKeepsWindow(n, w, Without(w.toServer, i), w.toClient);
    case LoseToClient(i) =>
      WithoutKeepsOrder(n, w.toClient, i);
      LosingKeepsWindow(n, w, w.toServer, Without(w.toClient, i));
  }

  lemma ToServerKinds(n: nat, w: World)
    requires Safe(n, w) && w.toServer != []
    ensures w.toServer[0] == Hello || w.toServer[0].Piece?
  {
    assert ToServerOk(n, w.sender.id, w.toServer[0]);
  }

  lemma {:induction false} AlwaysWindow(n: nat, acts: seq<Action>)
    requires n > 0
    ensures After(n, Fifo, acts).At? ==> Window(n, After(n, Fifo, acts).world)
  {
    hide Window, Apply;
    if acts == [] {
      InitWindow(n);
    } else {
      AlwaysWindow(n, acts[..|acts| - 1]);
      if After(n, Fifo, acts).At? {
        StepWindow(n, After(n, Fifo, acts[..|acts| - 1]).world, acts[|acts| - 1]);
      }
    }
  }

  lemma InitWindow(n: nat)
    ensures Window(n, Init())
  {
  }

  // ----- What the window means -----

  /** Stop-and-wait: on lossy FIFO channels a running session has accepted what the client
      has seen acknowledged or one packet more; no session ends by a violation and none by
      too many bytes; the client never meets a CONACC after the first ACC, an ACC above
      its id or a packet of another kind, except a CONRJT for DATA that reached an idle
      server. Once anything was accepted no other session follows. */
  lemma StopAndWait(n: nat, acts: seq<Action>)
    requires n > 0 && After(n, Fifo, acts).At?
    ensures var w := After(n, Fifo, acts).world;
            && NoBreach(w.sender.phase)
            && (w.receiver.live ==> w.sender.id <= Cur(w.receiver) <= w.sender.id + 1)
            && (forall k :: 0 <= k < |w.receiver.episodes| ==>
                  !w.receiver.episodes[k].outcome.Violated? && !w.receiver.episodes[k].outcome.Overshot?)
            && (forall k :: 0 <= k < |w.receiver.episodes| - 1 ==> w.receiver.episodes[k].cur == 0)
  {
    AlwaysWindow(n, acts);
    var w := After(n, Fifo, acts).world;
    assert forall k :: 0 <= k < |w.receiver.episodes| ==> EpisodeOk(n, w.receiver.episodes[k]);
  }

  /** And while the client waits for RCVD no ACC is on its way, so that handing package
      id 0 to the final wait does no harm on such channels. */
  lemma NoAckWhileClosing(n: nat, acts: seq<Action>)
    requires n > 0 && After(n, Fifo, acts).At? && After(n, Fifo, acts).world.sender.phase.Closing?
    ensures forall m :: m in After(n, Fifo, acts).world.toClient ==> m.Finished? || m.Refusal?
  {
    AlwaysWindow(n, acts);
    var w := After(n, Fifo, acts).world;
    forall m | m in w.toClient
      ensures m.Finished? || m.Refusal?
    {
      var j :| 0 <= j < |w.toClient| && w.toClient[j] == m;
      PeakIsCur(w.receiver.episodes);
      assert ToClientOk(n, Peak(w.receiver.episodes), w.toClient[j]);
      assert ReplyOk(n, w.sender.id, w.toClient[j]);
    }
  }
}
