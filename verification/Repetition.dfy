// How often one transfer can be completed.

/** Without copies the sessions use up the client's sends: each session costs a CONN and
    each packet it accepts a DATA. From eight packets on the retransmissions do not reach
    for a second complete session; below, and always when the network copies, they do. */
module Repetition {
  import opened Packets
  import opened Network
  import opened UdpSession
  import opened UdprClientSpec
  import opened Protocol
  import opened Safety
  import opened Termination
  import opened Witnesses

  // ----- Conservation -----

  /** The packets of the client that the sessions have taken. */
  function Taken(es: seq<Episode>): nat {
    if es == [] then 0 else Taken(es[..|es| - 1]) + 1 + es[|es| - 1].cur
  }

  function Completed(es: seq<Episode>): nat {
    if es == [] then 0
    else Completed(es[..|es| - 1]) + (if es[|es| - 1].outcome.Received? then 1 else 0)
  }

  /** How many packets the client can still send. */
  function Budget(n: nat, c: Sender): int {
    if c.phase.Done? then 0
    else MAX_RETRANSMITS - c.retransmits + n - (if c.phase.Sending? then c.id + 1 else c.id)
  }

  ghost predicate Conserved(n: nat, w: World) {
    Taken(w.receiver.episodes) + |w.toServer| + Budget(n, w.sender) <= 1 + n + MAX_RETRANSMITS
  }

  lemma TakenSnoc(es: seq<Episode>, e: Episode)
    ensures Taken(es + [e]) == Taken(es) + 1 + e.cur
  {
    assert (es + [e])[..|es|] == es;
  }

  lemma TakenLast(es: seq<Episode>, e: Episode)
    requires es != []
    ensures Taken(es[|es| - 1 := e]) == Taken(es) - es[|es| - 1].cur + e.cur
  {
    var up := es[|es| - 1 := e];
    assert up[..|es| - 1] == es[..|es| - 1];
  }

  lemma ReceiverUses(n: nat, r: Receiver, m: Msg, sendOk: bool)
    ensures Taken(ReceiverHears(n, r, m, sendOk).receiver.episodes) <= Taken(r.episodes) + 1
  {
    hide Taken;
    TakenSnoc(r.episodes, Episode(0, 0, Running));
    if r.live && r.episodes != [] {
      var e := r.Last();
      TakenLast(r.episodes, e.(outcome := Violated));
      TakenLast(r.episodes, e.(cur := e.cur + 1, outcome := Received));
      TakenLast(r.episodes, e.(cur := e.cur + 1));
    }
  }

  lemma ReceiverAloneUses(r: Receiver)
    requires r.live && r.episodes != []
    ensures Taken(ReceiverTimeout(r).receiver.episodes) == Taken(r.episodes)
    ensures Taken(ReceiverError(r).receiver.episodes) == Taken(r.episodes)
  {
    hide Taken;
    var e := r.Last();
    TakenLast(r.episodes, e.(outcome := Broken));
    TakenLast(r.episodes, e.(retransmits := e.retransmits + 1));
    TakenLast(r.episodes, e.(retransmits := e.retransmits + 1, outcome := GaveUp));
  }

  lemma SenderUses(n: nat, c: Sender, m: Msg)
    requires SenderOk(n, c) && !c.phase.Done? && c.retransmits <= MAX_RETRANSMITS
    ensures var move := SenderHears(n, c, m); Budget(n, move.sender) + |move.out| <= Budget(n, c)
    ensures var move := SenderTimeout(n, c); Budget(n, move.sender) + |move.out| <= Budget(n, c)
    ensures var move := SenderError(n, c); Budget(n, move.sender) + |move.out| <= Budget(n, c)
  {
  }

  lemma StepConserves(n: nat, w: World, a: Action)
    requires Limited(n, w) && Conserved(n, w) && Enabled(w, a) && Allowed(NoCopies, a)
    ensures Conserved(n, Apply(n, w, a))
  {
    hide Taken, Budget, SenderHears, SenderTimeout, SenderError, ReceiverHears, ReceiverTimeout, ReceiverError;
    match a
    case ClientTakes(i, _) => SenderUses(n, w.sender, w.toClient[i]);
    case ClientTimeout => SenderUses(n, w.sender, Hello);
    case ClientError => SenderUses(n, w.sender, Hello);
    case ServerTakes(i, env) => ReceiverUses(n, w.receiver, w.toServer[i], env.sendOk);
    case ServerTimeout => ReceiverAloneUses(w.receiver);
    case ServerError => ReceiverAloneUses(w.receiver);
    case LoseToServer(i) =>
    case LoseToClient(i) =>
  }

  /** In every run without copies: what the sessions took, what is under way and what the
      client can still send is never more than 1 + n + MAX_RETRANSMITS packets. */
  lemma {:induction false} RunConserves(n: nat, net: Net, acts: seq<Action>)
    requires !net.Unreliable? && After(n, net, acts).At?
    ensures Limited(n, After(n, net, acts).world) && Conserved(n, After(n, net, acts).world)
  {
    hide Apply, Limited, Conserved, Enabled;
    if acts == [] {
      StartConserves(n);
    } else {
      var before := After(n, net, acts[..|acts| - 1]).world;
      RunConserves(n, net, acts[..|acts| - 1]);
      StepSpends(n, before, acts[|acts| - 1]);
      StepConserves(n, before, acts[|acts| - 1]);
    }
  }

  lemma StartConserves(n: nat)
    ensures Limited(n, Init()) && Conserved(n, Init())
  {
  }

  lemma {:induction false} CompleteCosts(n: nat, es: seq<Episode>)
    requires forall k :: 0 <= k < |es| ==> EpisodeOk(n, es[k])
    ensures Completed(es) * (n + 1) <= Taken(es)
  {
    if es != [] {
      var before, c := es[..|es| - 1], Completed(es[..|es| - 1]);
      CompleteCosts(n, before);
      assert EpisodeOk(n, es[|es| - 1]);
      assert (c + 1) * (n + 1) == c * (n + 1) + n + 1;
    }
  }

  /** So each complete session costs n + 1 packets of a fixed supply. */
  lemma CompletedBounded(n: nat, net: Net, acts: seq<Action>)
    requires n > 0 && !net.Unreliable? && After(n, net, acts).At?
    ensures Completed(After(n, net, acts).world.receiver.episodes) * (n + 1) <= 1 + n + MAX_RETRANSMITS
  {
    var w := After(n, net, acts).world;
    AlwaysSafe(n, net, acts);
    RunConserves(n, net, acts);
    CompleteCosts(n, w.receiver.episodes);
    BudgetNatural(n, w);
  }

  lemma BudgetNatural(n: nat, w: World)
    requires Limited(n, w)
    ensures Budget(n, w.sender) >= 0
  {
  }

  /** Two sessions have received everything. */
  predicate Twice(es: seq<Episode>) {
    exists j, k :: 0 <= j < k < |es| && es[j].outcome.Received? && es[k].outcome.Received?
  }

  lemma {:induction false} OneCounts(es: seq<Episode>, j: nat)
    requires j < |es| && es[j].outcome.Received?
    ensures Completed(es) >= 1
  {
    if j < |es| - 1 {
      OneCounts(es[..|es| - 1], j);
    }
  }

  lemma {:induction false} TwoCount(es: seq<Episode>, j: nat, k: nat)
    requires j < k < |es| && es[j].outcome.Received? && es[k].outcome.Received?
    ensures Completed(es) >= 2
  {
    if k < |es| - 1 {
      TwoCount(es[..|es| - 1], j, k);
    } else {
      OneCounts(es[..|es| - 1], j);
    }
  }

  lemma CostsTooMuch(n: nat, c: nat)
    requires n >= MAX_RETRANSMITS && c >= 2
    ensures c * (n + 1) > 1 + n + MAX_RETRANSMITS
  {
    assert c * (n + 1) >= 2 * (n + 1);
  }

  /** From MAX_RETRANSMITS packets on no run without copies completes two sessions. */
  lemma NotTwice(n: nat, net: Net, acts: seq<Action>)
    requires n >= MAX_RETRANSMITS && !net.Unreliable? && After(n, net, acts).At?
    ensures !Twice(After(n, net, acts).world.receiver.episodes)
  {
    hide After;
    var es := After(n, net, acts).world.receiver.episodes;
    CompletedBounded(n, net, acts);
    if Twice(es) {
      var j, k :| 0 <= j < k < |es| && es[j].outcome.Received? && es[k].outcome.Received?;
      TwoCount(es, j, k);
      CostsTooMuch(n, Completed(es));
    }
  }

  // ----- Runs that complete twice -----

  /** By copies of the network, or by timeouts of the client alone. */
  ghost predicate Fair(copies: bool, acts: seq<Action>) {
    copies || AllGentle(acts)
  }

  lemma Act(n: nat, net: Net, copies: bool, acts: seq<Action>, w: World, a: Action) returns (more: seq<Action>)
    requires Leads(n, net, acts, w) && Fair(copies, acts) && Allowed(net, a) && Enabled(w, a) && (copies || Gentle(a))
    ensures Leads(n, net, more, Apply(n, w, a)) && Fair(copies, more)
  {
    hide Apply, Leads;
    more := Move(n, net, acts, w, a, Apply(n, w, a));
  }

  /** The packet sent last is sent, or copied, once more. */
  lemma Doubled(n: nat, net: Net, copies: bool, acts: seq<Action>, w: World) returns (more: seq<Action>)
    requires Leads(n, net, acts, w) && Fair(copies, acts) && (copies ==> net.Unreliable?)
    requires w.toServer != [] && (w.sender.phase.Connecting? || (w.sender.phase.Sending? && w.sender.id < n))
    requires w.toServer[|w.toServer| - 1] == if w.sender.phase.Connecting? then Hello else Piece(w.sender.id)
    requires !copies ==> w.sender.retransmits < MAX_RETRANSMITS
    ensures Fair(copies, more)
    ensures Leads(n, net, more, w.(toServer := w.toServer + [w.toServer[|w.toServer| - 1]],
                                   sender := w.sender.(retransmits := w.sender.retransmits + Cost(copies))))
  {
    hide Leads, Fair;
    if copies {
      more := Act(n, net, copies, acts, w, CopyToServer(|w.toServer| - 1));
    } else {
      more := Act(n, net, copies, acts, w, ClientTimeout);
    }
  }

  function Cost(copies: bool): nat {
    if copies then 0 else 1
  }

  function Pieces(lo: nat, hi: nat): (ms: seq<Msg>)
    requires lo <= hi
    ensures |ms| == hi - lo
    decreases hi - lo
  {
    if lo == hi then [] else [Piece(lo)] + Pieces(lo + 1, hi)
  }

  lemma {:induction false} PiecesSnoc(lo: nat, hi: nat)
    requires lo <= hi
    ensures Pieces(lo, hi + 1) == Pieces(lo, hi) + [Piece(hi)]
    decreases hi - lo
  {
    if lo < hi {
      PiecesSnoc(lo + 1, hi);
    } else {
      assert Pieces(lo, hi + 1) == [Piece(lo)] + [];
    }
  }

  /** Packet k is on its way, and behind a first session there is one more of everything
      sent before. */
  function Building(copies: bool, k: nat): World {
    World(Sender(Sending, k, Cost(copies) * (k + 1)), Receiver([Episode(k, 0, Running)], true),
          [Hello] + Pieces(0, k) + [Piece(k)], [])
  }

  lemma LastTaken(s: seq<Msg>, m: Msg)
    ensures Without(s + [m], |s|) == s
  {
  }

  lemma BuildingBegins(n: nat, net: Net, copies: bool) returns (acts: seq<Action>)
    requires n > 0 && !net.Fifo? && (copies ==> net.Unreliable?)
    ensures Leads(n, net, acts, Building(copies, 0)) && Fair(copies, acts)
  {
    hide Leads, Fair, After;
    acts := Witnesses.Start(n, net);
    assert Fair(copies, acts) by { StartFair(copies); }
    acts := Doubled(n, net, copies, acts, Init());
    assert [Hello] + [Hello] == [Hello, Hello];
    var c := Sender(Connecting, 0, Cost(copies));
    var w1 := World(c, Receiver([], false), [Hello, Hello], []);
    var w2 := World(c, Receiver([Episode(0, 0, Running)], true), [Hello], [Welcome]);
    assert Leads(n, net, acts, w1);
    acts := Act(n, net, copies, acts, w1, HEARD);
    assert Apply(n, w1, HEARD) == w2;
    acts := Act(n, net, copies, acts, w2, TAKEN);
    assert Apply(n, w2, TAKEN) == Building(copies, 0);
  }

  lemma StartFair(copies: bool)
    ensures Fair(copies, [])
  {
  }

  /** The world once packet k was accepted: all of it is there once more. */
  function Stored(n: nat, copies: bool, k: nat, down: seq<Msg>): World {
    World(Sender(Sending, k, Cost(copies) * (k + 2)),
          Receiver([Episode(k + 1, 0, if k + 1 == n then Received else Running)], k + 1 != n),
          [Hello] + Pieces(0, k + 1), down)
  }

  lemma TakesLast(n: nat, w: World, up: seq<Msg>, k: nat)
    requires w.toServer == up + [Piece(k)] && w.receiver == Receiver([Episode(k, 0, Running)], true) && w.toClient == []
    ensures Apply(n, w, ServerTakes(|up|, ENV))
         == World(w.sender, Receiver([Episode(k + 1, 0, if k + 1 == n then Received else Running)], k + 1 != n),
                  up, if k + 1 == n then [Ack(k), Finished] else [Ack(k)])
  {
    LastTaken(up, Piece(k));
  }

  lemma Stores(n: nat, net: Net, copies: bool, k: nat, acts: seq<Action>) returns (more: seq<Action>)
    requires k < n && !net.Fifo? && (copies ==> net.Unreliable?) && (!copies ==> n < MAX_RETRANSMITS)
    requires Leads(n, net, acts, Building(copies, k)) && Fair(copies, acts)
    ensures Fair(copies, more)
    ensures Leads(n, net, more, Stored(n, copies, k, if k + 1 == n then [Ack(k), Finished] else [Ack(k)]))
  {
    hide Leads, Fair, After, Pieces;
    var up := [Hello] + Pieces(0, k) + [Piece(k)];
    more := Doubled(n, net, copies, acts, Building(copies, k));
    var w1 := Building(copies, k).(toServer := up + [Piece(k)], sender := Sender(Sending, k, Cost(copies) * (k + 2)));
    assert Leads(n, net, more, w1);
    var a := ServerTakes(|up|, ENV);
    more := Act(n, net, copies, more, w1, a);
    LastTaken(up, Piece(k));
    PiecesSnoc(0, k);
    assert [Hello] + Pieces(0, k + 1) == up;
    TakesLast(n, w1, up, k);
    assert Apply(n, w1, a) == Stored(n, copies, k, if k + 1 == n then [Ack(k), Finished] else [Ack(k)]);
  }

  lemma {:induction false} BuildingRun(n: nat, net: Net, copies: bool, k: nat) returns (acts: seq<Action>)
    requires k < n && !net.Fifo? && (copies ==> net.Unreliable?) && (!copies ==> n < MAX_RETRANSMITS)
    ensures Leads(n, net, acts, Building(copies, k)) && Fair(copies, acts)
  {
    hide Leads, Fair, After, Pieces;
    if k == 0 {
      acts := BuildingBegins(n, net, copies);
    } else {
      acts := BuildingRun(n, net, copies, k - 1);
      acts := Stores(n, net, copies, k - 1, acts);
      var w := Stored(n, copies, k - 1, [Ack(k - 1)]);
      acts := Act(n, net, copies, acts, w, TAKEN);
      assert Apply(n, w, TAKEN) == Building(copies, k);
    }
  }

  /** A second session takes what is left. */
  ghost predicate Second(n: nat, k: nat, w: World)
    requires k <= n
  {
    && w.receiver == Receiver([Episode(n, 0, Received), Episode(k, 0, if k == n then Received else Running)], k != n)
    && w.toServer == Pieces(k, n)
  }

  lemma {:induction false} SecondRun(n: nat, net: Net, copies: bool, k: nat) returns (acts: seq<Action>, w: World)
    requires 0 < n && k <= n && !net.Fifo? && (copies ==> net.Unreliable?) && (!copies ==> n < MAX_RETRANSMITS)
    ensures Leads(n, net, acts, w) && Fair(copies, acts) && Second(n, k, w)
  {
    hide Leads, Fair, After;
    if k == 0 {
      acts := BuildingRun(n, net, copies, n - 1);
      acts := Stores(n, net, copies, n - 1, acts);
      var v := Stored(n, copies, n - 1, [Ack(n - 1), Finished]);
      acts := Act(n, net, copies, acts, v, HEARD);
      w := Apply(n, v, HEARD);
    } else {
      var v;
      acts, v := SecondRun(n, net, copies, k - 1);
      assert v.toServer == [Piece(k - 1)] + Pieces(k, n);
      acts := Act(n, net, copies, acts, v, HEARD);
      w := Apply(n, v, HEARD);
    }
  }

  /** Two complete sessions: with timeouts only if the transfer is short, with copies for
      any length. */
  lemma CompletesTwice(n: nat, net: Net, copies: bool) returns (acts: seq<Action>, w: World)
    requires 0 < n && !net.Fifo? && (copies ==> net.Unreliable?) && (!copies ==> n < MAX_RETRANSMITS)
    ensures Leads(n, net, acts, w) && (!copies ==> AllGentle(acts))
    ensures w.receiver.episodes == [Episode(n, 0, Received), Episode(n, 0, Received)]
  {
    hide Leads, AllGentle;
    acts, w := SecondRun(n, net, copies, n);
  }
}
