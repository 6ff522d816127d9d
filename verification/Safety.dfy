// Safety of UDPR on a network that loses, duplicates and reorders.

/** In every reachable world acknowledgements are true. */
module Safety {
  import opened UdpSession
  import opened UdprClientSpec
  import opened Protocol

  /** The most packets any session has accepted. */
  function Peak(es: seq<Episode>): nat {
    if es == [] then 0
    else
      var before, last := Peak(es[..|es| - 1]), es[|es| - 1].cur;
      if last > before then last else before
  }

  lemma {:induction false} PeakBounds(es: seq<Episode>, k: nat)
    requires k < |es|
    ensures es[k].cur <= Peak(es)
  {
    if k < |es| - 1 {
      PeakBounds(es[..|es| - 1], k);
    }
  }

  lemma {:induction false} PeakAttained(es: seq<Episode>) returns (k: nat)
    requires es != []
    ensures k < |es| && es[k].cur == Peak(es)
  {
    k := |es| - 1;
    if Peak(es) != es[k].cur {
      if |es| > 1 {
        k := PeakAttained(es[..|es| - 1]);
      }
    }
  }

  lemma PeakSnoc(es: seq<Episode>, e: Episode)
    ensures Peak(es + [e]) == if e.cur > Peak(es) then e.cur else Peak(es)
  {
    assert (es + [e])[..|es|] == es;
  }

  lemma PeakLastGrows(es: seq<Episode>, e: Episode)
    requires es != [] && e.cur >= es[|es| - 1].cur
    ensures Peak(es[|es| - 1 := e]) == if e.cur > Peak(es) then e.cur else Peak(es)
  {
    var up := es[|es| - 1 := e];
    assert up[..|es| - 1] == es[..|es| - 1];
  }

  // ----- The invariant -----

  predicate SenderOk(n: nat, c: Sender) {
    && c.id <= n
    && (c.phase.Connecting? ==> c.id == 0)
    && (c.phase.Sending? ==> c.id < n)
    && (c.phase.Closing? || c.phase == Done(Delivered) ==> c.id == n)
  }

  predicate EpisodeOk(n: nat, e: Episode) {
    && e.cur <= n
    && (e.outcome.Running? ==> e.cur < n)
    && (e.outcome.Received? <==> e.cur == n)
    && !e.outcome.Overshot?
  }

  predicate ReceiverOk(n: nat, r: Receiver) {
    && (forall k :: 0 <= k < |r.episodes| ==> EpisodeOk(n, r.episodes[k]))
    && (forall k :: 0 <= k < |r.episodes| - 1 ==> !r.episodes[k].outcome.Running?)
    && (r.live <==> r.episodes != [] && r.episodes[|r.episodes| - 1].outcome.Running?)
  }

  predicate ToServerOk(n: nat, id: nat, m: Msg) {
    m.Hello? || (m.Piece? && m.i < n && m.i <= id)
  }

  /** ACC i in flight: some session has accepted packets 0 to i. RCVD in flight: some
      session has accepted them all. */
  predicate ToClientOk(n: nat, peak: nat, m: Msg) {
    match m
    case Ack(i) => i < peak
    case Finished => peak == n
    case Rejection(i) => i < n
    case Hello => false
    case Piece(_) => false
    case _ => true
  }

  ghost predicate Safe(n: nat, w: World) {
    && SenderOk(n, w.sender)
    && ReceiverOk(n, w.receiver)
    && (forall j :: 0 <= j < |w.toServer| ==> ToServerOk(n, w.sender.id, w.toServer[j]))
    && (forall j :: 0 <= j < |w.toClient| ==> ToClientOk(n, Peak(w.receiver.episodes), w.toClient[j]))
    && w.sender.id <= Peak(w.receiver.episodes) <= n
  }

  // ----- Every step keeps it -----

  ghost predicate SenderMoveOk(n: nat, peak: nat, c: Sender, move: SenderMove) {
    && SenderOk(n, move.sender) && c.id <= move.sender.id <= peak
    && forall j :: 0 <= j < |move.out| ==> ToServerOk(n, move.sender.id, move.out[j])
  }

  lemma SenderHearsOk(n: nat, peak: nat, c: Sender, m: Msg)
    requires n > 0 && SenderOk(n, c) && !c.phase.Done? && ToClientOk(n, peak, m) && c.id <= peak <= n
    ensures SenderMoveOk(n, peak, c, SenderHears(n, c, m))
  {
  }

  lemma SenderAloneOk(n: nat, peak: nat, c: Sender)
    requires n > 0 && SenderOk(n, c) && !c.phase.Done? && c.id <= peak <= n
    ensures SenderMoveOk(n, peak, c, SenderTimeout(n, c)) && SenderMoveOk(n, peak, c, SenderError(n, c))
  {
  }

  ghost predicate ReceiverMoveOk(n: nat, r: Receiver, move: ReceiverMove) {
    && ReceiverOk(n, move.receiver)
    && Peak(r.episodes) <= Peak(move.receiver.episodes) <= n
    && forall j :: 0 <= j < |move.out| ==> ToClientOk(n, Peak(move.receiver.episodes), move.out[j])
  }

  lemma WithLastOk(n: nat, r: Receiver, e: Episode)
    requires ReceiverOk(n, r) && r.live && EpisodeOk(n, e) && e.cur >= r.Last().cur && Peak(r.episodes) <= n
    ensures ReceiverOk(n, r.WithLast(e)) && e.cur <= Peak(r.WithLast(e).episodes)
    ensures Peak(r.episodes) <= Peak(r.WithLast(e).episodes) <= n
  {
    PeakLastGrows(r.episodes, e);
    PeakBounds(r.episodes, |r.episodes| - 1);
  }

  lemma ReceiverHearsOk(n: nat, r: Receiver, m: Msg, sendOk: bool)
    requires n > 0 && ReceiverOk(n, r) && Peak(r.episodes) <= n
    requires m.Hello? || (m.Piece? && m.i < n)
    ensures ReceiverMoveOk(n, r, ReceiverHears(n, r, m, sendOk))
  {
    hide Peak;
    if !r.live {
      PeakSnoc(r.episodes, Episode(0, 0, Running));
    } else {
      var e := r.Last();
      WithLastOk(n, r, e.(outcome := Violated));
      if e.cur + 1 == n {
        WithLastOk(n, r, e.(cur := e.cur + 1, outcome := Received));
      } else {
        WithLastOk(n, r, e.(cur := e.cur + 1));
      }
    }
  }

  lemma ReceiverAloneOk(n: nat, r: Receiver)
    requires n > 0 && ReceiverOk(n, r) && r.live && Peak(r.episodes) <= n
    ensures ReceiverMoveOk(n, r, ReceiverTimeout(r)) && ReceiverMoveOk(n, r, ReceiverError(r))
  {
    hide Peak;
    var e := r.Last();
    PeakBounds(r.episodes, |r.episodes| - 1);
    WithLastOk(n, r, e.(retransmits := e.retransmits + 1, outcome := GaveUp));
    WithLastOk(n, r, e.(retransmits := e.retransmits + 1));
    WithLastOk(n, r, e.(outcome := Broken));
  }

  lemma SenderDoesSafe(n: nat, w: World, left: seq<Msg>, move: SenderMove)
    requires Safe(n, w) && SenderMoveOk(n, Peak(w.receiver.episodes), w.sender, move)
    requires forall m :: m in left ==> m in w.toClient
    ensures Safe(n, SenderDoes(w, left, move))
  {
    hide Peak;
    var v := SenderDoes(w, left, move);
    forall j | 0 <= j < |v.toServer|
      ensures ToServerOk(n, v.sender.id, v.toServer[j])
    {
      if j < |w.toServer| {
        assert ToServerOk(n, w.sender.id, w.toServer[j]);
      } else {
        assert v.toServer[j] == move.out[j - |w.toServer|];
      }
    }
    forall j | 0 <= j < |left|
      ensures ToClientOk(n, Peak(w.receiver.episodes), left[j])
    {
      assert left[j] in w.toClient;
    }
  }

  lemma ReceiverDoesSafe(n: nat, w: World, left: seq<Msg>, move: ReceiverMove)
    requires Safe(n, w) && ReceiverMoveOk(n, w.receiver, move)
    requires forall m :: m in left ==> m in w.toServer
    ensures Safe(n, ReceiverDoes(w, left, move))
  {
    hide Peak;
    var v := ReceiverDoes(w, left, move);
    forall j | 0 <= j < |left|
      ensures ToServerOk(n, w.sender.id, left[j])
    {
      assert left[j] in w.toServer;
    }
    forall j | 0 <= j < |v.toClient|
      ensures ToClientOk(n, Peak(v.receiver.episodes), v.toClient[j])
    {
      if j < |w.toClient| {
        assert ToClientOk(n, Peak(w.receiver.episodes), w.toClient[j]);
      } else {
        assert v.toClient[j] == move.out[j - |w.toClient|];
      }
    }
  }

  lemma WithoutSubset(s: seq<Msg>, i: nat)
    requires i < |s|
    ensures forall m :: m in Without(s, i) ==> m in s
  {
  }

  lemma StepSafe(n: nat, w: World, a: Action)
    requires n > 0 && Safe(n, w) && Enabled(w, a)
    ensures Safe(n, Apply(n, w, a))
  {
    hide Peak, SenderHears, ReceiverHears, SenderMoveOk, ReceiverMoveOk, Without, ReceiverOk, SenderOk,
         SenderTimeout, SenderError, ReceiverTimeout, ReceiverError;
    var peak := Peak(w.receiver.episodes);
    match a
    case ClientTakes(i, _) =>
      WithoutSubset(w.toClient, i);
      SenderHearsOk(n, peak, w.sender, w.toClient[i]);
      SenderDoesSafe(n, w, Without(w.toClient, i), SenderHears(n, w.sender, w.toClient[i]));
    case ClientTimeout =>
      SenderAloneOk(n, peak, w.sender);
      SenderDoesSafe(n, w, w.toClient, SenderTimeout(n, w.sender));
    case ClientError =>
      SenderAloneOk(n, peak, w.sender);
      SenderDoesSafe(n, w, w.toClient, SenderError(n, w.sender));
    case ServerTakes(i, env) =>
      WithoutSubset(w.toServer, i);
      assert ToServerOk(n, w.sender.id, w.toServer[i]);
      ReceiverHearsOk(n, w.receiver, w.toServer[i], env.sendOk);
      ReceiverDoesSafe(n, w, Without(w.toServer, i), ReceiverHears(n, w.receiver, w.toServer[i], env.sendOk));
    case ServerTimeout =>
      ReceiverAloneOk(n, w.receiver);
      ReceiverDoesSafe(n, w, w.toServer, ReceiverTimeout(w.receiver));
    case ServerError =>
      ReceiverAloneOk(n, w.receiver);
      ReceiverDoesSafe(n, w, w.toServer, ReceiverError(w.receiver));
    case LoseToServer(i) =>
      WithoutSubset(w.toServer, i);
      ChannelsSafe(n, w, Without(w.toServer, i), w.toClient);
    case LoseToClient(i) =>
      WithoutSubset(w.toClient, i);
      ChannelsSafe(n, w, w.toServer, Without(w.toClient, i));
    case CopyToServer(i) => ChannelsSafe(n, w, w.toServer + [w.toServer[i]], w.toClient);
    case CopyToClient(i) => ChannelsSafe(n, w, w.toServer, w.toClient + [w.toClient[i]]);
  }

  lemma ChannelsSafe(n: nat, w: World, toServer: seq<Msg>, toClient: seq<Msg>)
    requires Safe(n, w)
    requires forall m :: m in toServer ==> m in w.toServer
    requires forall m :: m in toClient ==> m in w.toClient
    ensures Safe(n, w.(toServer := toServer, toClient := toClient))
  {
    hide Peak;
    forall j | 0 <= j < |toServer|
      ensures ToServerOk(n, w.sender.id, toServer[j])
    {
      assert toServer[j] in w.toServer;
    }
    forall j | 0 <= j < |toClient|
      ensures ToClientOk(n, Peak(w.receiver.episodes), toClient[j])
    {
      assert toClient[j] in w.toClient;
    }
  }

  /** Safe in every world reachable on any of the three networks. */
  lemma {:induction false} AlwaysSafe(n: nat, net: Net, acts: seq<Action>)
    requires n > 0
    ensures After(n, net, acts).At? ==> Safe(n, After(n, net, acts).world)
  {
    hide Safe, Apply;
    if acts == [] {
      InitSafe(n);
    } else {
      AlwaysSafe(n, net, acts[..|acts| - 1]);
      var before := After(n, net, acts[..|acts| - 1]);
      if After(n, net, acts).At? {
        StepSafe(n, before.world, acts[|acts| - 1]);
      }
    }
  }

  lemma InitSafe(n: nat)
    ensures Safe(n, Init())
  {
  }

  /** Whatever the network does: if the client has moved past packet i, some one session
      has accepted packets 0 to i, and if it has delivered, some session has them all. */
  lemma ProgressIsTrue(n: nat, net: Net, acts: seq<Action>)
    requires n > 0 && After(n, net, acts).At?
    ensures var w := After(n, net, acts).world;
            && (w.sender.id > 0 ==> exists k :: 0 <= k < |w.receiver.episodes| && w.receiver.episodes[k].cur >= w.sender.id)
            && (w.sender.phase == Done(Delivered) ==>
                exists k :: 0 <= k < |w.receiver.episodes| && w.receiver.episodes[k].outcome.Received?)
  {
    AlwaysSafe(n, net, acts);
    var w := After(n, net, acts).world;
    if w.receiver.episodes != [] {
      var k := PeakAttained(w.receiver.episodes);
    }
  }
}
