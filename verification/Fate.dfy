// Once the server is done: which clients can still be delivered.

/** When no session runs and no CONN is or will be under way, the server has nothing more
    to say but CONRJT. Whether the client can still be delivered is then decided by what
    is in its channel. */
module Fate {
  import opened Network
  import opened UdprClientSpec
  import opened Protocol
  import opened Safety
  import opened FifoWindow

  ghost predicate Settled(w: World) {
    !w.receiver.live && Committed(w)
  }

  /** Delivered, or everything the client still waits for is in its channel. */
  ghost predicate Promising(n: nat, w: World) {
    || w.sender.phase == Done(Delivered)
    || (&& !w.sender.phase.Done?
        && Finished in w.toClient
        && forall i :: w.sender.id <= i < n ==> Ack(i) in w.toClient)
  }

  // ----- No way back -----

  lemma StaysSettled(n: nat, w: World, a: Action)
    requires Safe(n, w) && Settled(w) && Enabled(w, a)
    ensures Settled(Apply(n, w, a))
  {
    hide Peak;
    if a.ServerTakes? {
      assert ToServerOk(n, w.sender.id, w.toServer[a.i]);
      WithoutKeepsOrder(n, w.toServer, a.i);
    }
    if a.LoseToServer? {
      WithoutKeepsOrder(n, w.toServer, a.i);
    }
  }

  /** A settled server sends nothing but CONRJT. */
  lemma ServerSilent(n: nat, w: World, a: Action)
    requires Safe(n, w) && Settled(w) && Enabled(w, a)
    requires a.ServerTakes? || a.ServerTimeout? || a.ServerError?
    ensures var v := Apply(n, w, a);
            v.sender == w.sender && forall m :: m in v.toClient && !m.Refusal? ==> m in w.toClient
  {
    hide Peak;
    if a.ServerTakes? {
      assert ToServerOk(n, w.sender.id, w.toServer[a.i]);
    }
  }

  /** What could not be delivered before a step cannot be after it. */
  lemma HopelessStep(n: nat, w: World, a: Action)
    requires Safe(n, w) && Settled(w) && Enabled(w, a) && !Promising(n, w)
    ensures !Promising(n, Apply(n, w, a))
  {
    hide Peak, Safe, Without;
    var v := Apply(n, w, a);
    if a.ServerTakes? || a.ServerTimeout? || a.ServerError? {
      ServerSilent(n, w, a);
    } else if a.ClientTakes? {
      SenderInBounds(n, w);
      WithoutKeepsOrder(n, w.toClient, a.i);
      if Promising(n, v) {
        forall i | w.sender.id <= i < n
          ensures Ack(i) in w.toClient
        {
        }
      }
    } else if a.LoseToClient? {
      WithoutKeepsOrder(n, w.toClient, a.i);
    }
  }

  lemma SenderInBounds(n: nat, w: World)
    requires Safe(n, w)
    ensures SenderOk(n, w.sender)
  {
  }

  lemma {:induction false} HopelessRun(n: nat, net: Net, acts: seq<Action>, more: seq<Action>)
    requires n > 0 && After(n, net, acts).At? && Settled(After(n, net, acts).world)
    requires !Promising(n, After(n, net, acts).world)
    requires acts <= more && After(n, net, more).At?
    ensures Settled(After(n, net, more).world) && !Promising(n, After(n, net, more).world)
    decreases |more|
  {
    hide Apply, Settled, Promising, Enabled, Safe;
    if acts == more {
    } else {
      var before, a := more[..|more| - 1], more[|more| - 1];
      HopelessRun(n, net, acts, before);
      AlwaysSafe(n, net, before);
      StaysSettled(n, After(n, net, before).world, a);
      HopelessStep(n, After(n, net, before).world, a);
    }
  }

  // ----- A way there -----

  lemma Extend(n: nat, net: Net, acts: seq<Action>, a: Action)
    requires After(n, net, acts).At? && Allowed(net, a) && Enabled(After(n, net, acts).world, a)
    ensures After(n, net, acts + [a]) == At(Apply(n, After(n, net, acts).world, a))
  {
    assert (acts + [a])[..|acts|] == acts;
  }

  lemma OthersStay(s: seq<Msg>, i: nat, m: Msg)
    requires i < |s| && m in s && m != s[i]
    ensures m in Without(s, i)
  {
    var j :| 0 <= j < |s| && s[j] == m;
    if j < i {
      assert Without(s, i)[j] == m;
    } else {
      assert Without(s, i)[j - 1] == m;
    }
  }

  /** The client takes what it waits for. */
  lemma TakesWanted(n: nat, w: World, i: nat, env: Env)
    requires SenderOk(n, w.sender) && !w.sender.phase.Done? && !w.sender.phase.Connecting? && i < |w.toClient|
    requires w.toClient[i] == if w.sender.phase.Sending? then Ack(w.sender.id) else Finished
    requires Promising(n, w)
    ensures var v := Apply(n, w, ClientTakes(i, env));
            && Promising(n, v) && v.toClient == Without(w.toClient, i)
            && (w.sender.phase.Closing? ==> v.sender.phase == Done(Delivered))
            && (w.sender.phase.Sending? ==> v.sender.id == w.sender.id + 1 && !v.sender.phase.Done? && !v.sender.phase.Connecting?)
  {
    hide Without;
    if w.sender.phase.Sending? {
      OthersStay(w.toClient, i, Finished);
      forall k | w.sender.id < k < n
        ensures Ack(k) in Without(w.toClient, i)
      {
        OthersStay(w.toClient, i, Ack(k));
      }
    }
  }

  /** With reordering the client can take the ACCs it needs one after the other. */
  lemma {:induction false} Reach(n: nat, net: Net, acts: seq<Action>) returns (more: seq<Action>)
    requires n > 0 && !net.Fifo? && After(n, net, acts).At?
    requires var w := After(n, net, acts).world; !w.sender.phase.Connecting? && Promising(n, w)
    ensures acts <= more && After(n, net, more).At?
    ensures After(n, net, more).world.sender.phase == Done(Delivered)
    decreases n - After(n, net, acts).world.sender.id, if After(n, net, acts).world.sender.phase.Done? then 0 else 1
  {
    hide Apply, Without, SenderHears, Safe;
    var w := After(n, net, acts).world;
    more := acts;
    if !w.sender.phase.Done? {
      AlwaysSafe(n, net, acts);
      SenderInBounds(n, w);
      var m := if w.sender.phase.Sending? then Ack(w.sender.id) else Finished;
      var i :| 0 <= i < |w.toClient| && w.toClient[i] == m;
      var a := ClientTakes(i, ENV);
      TakesWanted(n, w, i, ENV);
      Extend(n, net, acts, a);
      if w.sender.phase.Sending? {
        AlwaysSafe(n, net, acts + [a]);
        SenderInBounds(n, After(n, net, acts + [a]).world);
        more := Reach(n, net, acts + [a]);
      } else {
        more := acts + [a];
      }
    }
  }

  /** On FIFO channels it loses what stands before them; the last ACC stands before RCVD. */
  lemma {:induction false} FifoReach(n: nat, acts: seq<Action>) returns (more: seq<Action>)
    requires n > 0 && After(n, Fifo, acts).At?
    requires var w := After(n, Fifo, acts).world; !w.sender.phase.Connecting? && Promising(n, w) && w.sender.id + 1 >= n
    ensures acts <= more && After(n, Fifo, more).At?
    ensures After(n, Fifo, more).world.sender.phase == Done(Delivered)
    decreases |After(n, Fifo, acts).world.toClient|
  {
    hide Apply, Without, SenderHears, Window, ReplyRank;
    var w := After(n, Fifo, acts).world;
    more := acts;
    if !w.sender.phase.Done? {
      AlwaysWindow(n, acts);
      var m, head := if w.sender.phase.Sending? then Ack(w.sender.id) else Finished, w.toClient[0];
      InWindow(n, w);
      if head == m {
        var a := ClientTakes(0, ENV);
        TakesWanted(n, w, 0, ENV);
        Extend(n, Fifo, acts, a);
        Shorter(w.toClient);
        more := acts + [a];
        if w.sender.phase.Sending? {
          more := FifoReach(n, acts + [a]);
        }
      } else {
        var a := LoseToClient(0);
        HeadUnwanted(n, w);
        Extend(n, Fifo, acts, a);
        Shorter(w.toClient);
        LosesHead(n, w);
        more := FifoReach(n, acts + [a]);
      }
    }
  }

  lemma InWindow(n: nat, w: World)
    requires Window(n, w)
    ensures SenderOk(n, w.sender) && RepliesInOrder(n, w.toClient)
  {
  }

  lemma Shorter(s: seq<Msg>)
    requires s != []
    ensures |Without(s, 0)| < |s|
  {
  }

  lemma HeadUnwanted(n: nat, w: World)
    requires RepliesInOrder(n, w.toClient) && SenderOk(n, w.sender) && !w.sender.phase.Done? && !w.sender.phase.Connecting?
    requires Promising(n, w) && w.sender.id + 1 >= n
    requires w.toClient[0] != if w.sender.phase.Sending? then Ack(w.sender.id) else Finished
    ensures w.toClient[0] != Finished
  {
    if w.sender.phase.Sending? {
      assert Ack(w.sender.id) in w.toClient;
      var k :| 0 <= k < |w.toClient| && w.toClient[k] == Ack(w.sender.id);
      assert ReplyRank(n, w.toClient[0]) <= ReplyRank(n, w.toClient[k]);
    }
  }

  lemma LosesHead(n: nat, w: World)
    requires w.toClient != [] && Promising(n, w) && w.toClient[0] != Finished && SenderOk(n, w.sender)
    requires w.sender.id + 1 >= n && (w.sender.id < n ==> w.toClient[0] != Ack(w.sender.id))
    ensures var v := Apply(n, w, LoseToClient(0));
            Promising(n, v) && v.sender == w.sender && v.toClient == Without(w.toClient, 0)
  {
    hide Without;
    if !w.sender.phase.Done? {
      OthersStay(w.toClient, 0, Finished);
      if w.sender.id < n {
        OthersStay(w.toClient, 0, Ack(w.sender.id));
      }
    }
  }

  // ----- The condition -----

  /** RCVD is under way on FIFO channels only if at most the last ACC is outstanding. */
  lemma FinishedIsNear(n: nat, w: World)
    requires n > 0 && Window(n, w) && Finished in w.toClient
    ensures w.sender.id + 1 >= n
  {
    PeakIsCur(w.receiver.episodes);
    var j :| 0 <= j < |w.toClient| && w.toClient[j] == Finished;
    assert ToClientOk(n, Peak(w.receiver.episodes), w.toClient[j]);
  }

  /** In a settled world, on any of the three networks: some continuation of the run
      delivers the client exactly if it is delivered already or all that it still waits
      for, the ACCs from its id on and RCVD, is in its channel. */
  lemma SettledFate(n: nat, net: Net, acts: seq<Action>)
    requires n > 0 && After(n, net, acts).At? && Settled(After(n, net, acts).world)
    ensures (exists more :: acts <= more && After(n, net, more).At?
                            && After(n, net, more).world.sender.phase == Done(Delivered))
            <==> Promising(n, After(n, net, acts).world)
  {
    hide After, Window;
    var w := After(n, net, acts).world;
    if Promising(n, w) {
      var more;
      if net.Fifo? && !w.sender.phase.Done? {
        AlwaysWindow(n, acts);
        FinishedIsNear(n, w);
        more := FifoReach(n, acts);
      } else if w.sender.phase.Done? {
        more := acts;
      } else {
        more := Reach(n, net, acts);
      }
      assert acts <= more && After(n, net, more).At? && After(n, net, more).world.sender.phase == Done(Delivered);
    } else {
      forall more | acts <= more && After(n, net, more).At?
        ensures After(n, net, more).world.sender.phase != Done(Delivered)
      {
        HopelessRun(n, net, acts, more);
      }
    }
  }
}
