// What the two ends do when they hear nothing.

/** Exactly how often a packet is sent again, and when an end gives up. */
module Patience {
  import opened Packets
  import opened Network
  import opened UdpSession
  import opened UdpSessionInvariants
  import opened UdprClientSpec

  function Timeouts(m: nat): (script: seq<Event>)
    ensures |script| == m
  {
    if m == 0 then [] else [Timeout] + Timeouts(m - 1)
  }

  function Copies<T>(x: T, m: nat): (xs: seq<T>)
    ensures |xs| == m
  {
    if m == 0 then [] else [x] + Copies(x, m - 1)
  }

  // ----- The client -----

  /** What the client waits to have answered. */
  function Outstanding(t: Transfer, c: Client): Packet
    requires c.phase.Connecting? || (c.phase.Sending? && c.id < t.NumPackets())
  {
    if c.phase.Connecting? then Conn(t.session, 3, |t.data|) else t.Packet(c.id)
  }

  /** With r retransmissions used, each of the next 8 - r timeouts sends it once more, and the
      one after them ends the client. */
  lemma {:induction false} ClientPatience(t: Transfer, c: Client, m: nat)
    requires c.phase.Connecting? || (c.phase.Sending? && c.id < t.NumPackets())
    requires c.retransmits <= 8
    ensures ClientRun(t, c, Timeouts(m)) ==
            if c.retransmits + m <= 8
            then c.(retransmits := c.retransmits + m, sent := c.sent + Copies(Outstanding(t, c), m))
            else c.(phase := Done(Exhausted), retransmits := 9,
                    sent := c.sent + Copies(Outstanding(t, c), 8 - c.retransmits))
    decreases m
  {
    hide ClientStep, Outstanding;
    if m == 0 {
      assert c.sent + [] == c.sent;
    } else {
      var p, next := Outstanding(t, c), ClientStep(t, c, Timeout);
      assert Timeouts(m)[1..] == Timeouts(m - 1);
      ClientWaits(t, c);
      if c.retransmits < 8 {
        ClientPatience(t, next, m - 1);
        OneCopyMore(c.sent, p, if c.retransmits + m <= 8 then m - 1 else 7 - c.retransmits);
      } else {
        assert c.sent + [] == c.sent;
      }
    }
  }

  lemma ClientWaits(t: Transfer, c: Client)
    requires c.phase.Connecting? || (c.phase.Sending? && c.id < t.NumPackets())
    requires c.retransmits <= 8
    ensures var next := ClientStep(t, c, Timeout);
            if c.retransmits < 8
            then next == c.(retransmits := c.retransmits + 1, sent := c.sent + [Outstanding(t, c)])
                 && Outstanding(t, next) == Outstanding(t, c)
            else next == c.(phase := Done(Exhausted), retransmits := 9)
  {
  }

  lemma OneCopyMore<T>(xs: seq<T>, x: T, k: nat)
    ensures xs + [x] + Copies(x, k) == xs + Copies(x, k + 1)
  {
  }

  /** A client that is never answered sends its CONN nine times and fails at the ninth
      timeout. */
  lemma NeverAnswered(t: Transfer, m: nat)
    ensures var r := ClientRun(t, ClientStart(t), Timeouts(m));
            && (r.phase == Done(Exhausted) <==> m >= 9)
            && r.sent == Copies(Conn(t.session, 3, |t.data|), if m >= 9 then 9 else m + 1)
  {
    ClientPatience(t, ClientStart(t), m);
    var p := t.Hello();
    assert [p] + Copies(p, if m >= 9 then 8 else m) == Copies(p, if m >= 9 then 9 else m + 1);
  }

  /** In the final wait the first timeout ends the client, and nothing is sent; so does an
      error, there and while it waits for an ACC. While it connects an error is a timeout. */
  lemma OtherWaits(t: Transfer, c: Client)
    ensures c.phase.Closing? ==> ClientStep(t, c, Timeout) == c.(phase := Done(NoRcvd))
    ensures c.phase.Closing? || c.phase.Sending? ==> ClientStep(t, c, Failure) == c.(phase := Done(ReadBroken))
    ensures c.phase.Connecting? ==> ClientStep(t, c, Failure) == ClientStep(t, c, Timeout)
  {
  }

  /** A datagram without bytes is, whoever sent it, a timeout or an error, as errno has it. */
  lemma EmptyToClient(t: Transfer, c: Client, src: Addr, env: Env)
    ensures ClientStep(t, c, Datagram(src, [], env)) == ClientStep(t, c, if env.eagain then Timeout else Failure)
  {
  }

  // ----- The server -----

  /** What a UDPR session wants its peer to have: its CONACC, or the ACC of the packet it
      accepted last. */
  function LastWord(s: Session): Packet {
    if s.accepted == [] then Conacc(s.session) else Acc(s.session, IdOf(|s.accepted| - 1))
  }

  lemma {:induction false} ServerPatience(s: Session, m: nat)
    requires s.outcome.Running? && Counted(s) && s.retransmits <= 8
    ensures Run(Udpr, s, Timeouts(m)) ==
            if s.retransmits + m <= 8
            then s.(retransmits := s.retransmits + m, sent := s.sent + Copies(Sent(s.peer, LastWord(s)), m))
            else s.(outcome := GaveUp, retransmits := 9,
                    sent := s.sent + Copies(Sent(s.peer, LastWord(s)), 8 - s.retransmits))
    decreases m
  {
    hide Step, LastWord, Counted, Copies, Run;
    var x := Sent(s.peer, LastWord(s));
    NoCopy(s.sent, x);
    OneTimeoutMore(s, m);
    if m > 0 {
      SessionWaits(s);
      if s.retransmits < 8 {
        ServerPatience(Step(Udpr, s, Timeout), m - 1);
        OneCopyMore(s.sent, x, if s.retransmits + m <= 8 then m - 1 else 7 - s.retransmits);
      } else {
        EndedStays(Step(Udpr, s, Timeout), m - 1);
      }
    }
  }

  lemma NoCopy<T>(xs: seq<T>, x: T)
    ensures xs + Copies(x, 0) == xs
  {
  }

  lemma OneTimeoutMore(s: Session, m: nat)
    requires s.outcome.Running?
    ensures Run(Udpr, s, Timeouts(m)) == if m == 0 then s else Run(Udpr, Step(Udpr, s, Timeout), Timeouts(m - 1))
  {
    hide Step;
    if m > 0 {
      assert Timeouts(m)[1..] == Timeouts(m - 1);
    }
  }

  lemma EndedStays(s: Session, m: nat)
    requires !s.outcome.Running?
    ensures Run(Udpr, s, Timeouts(m)) == s
  {
  }

  lemma SessionWaits(s: Session)
    requires s.outcome.Running? && Counted(s) && s.retransmits <= 8
    ensures var next := Step(Udpr, s, Timeout);
            if s.retransmits < 8
            then next == s.(retransmits := s.retransmits + 1, sent := s.sent + [Sent(s.peer, LastWord(s))])
                 && Counted(next) && LastWord(next) == LastWord(s)
            else next == s.(outcome := GaveUp, retransmits := 9)
  {
    if s.accepted != [] {
      RetransmitsLast(s);
    }
  }

  /** A UDP session ends at the first timeout, any session at the first error and at a
      datagram without bytes from its peer; nothing is sent. */
  lemma SessionEndsAtOnce(kind: Kind, s: Session, env: Env)
    requires s.outcome.Running?
    ensures Step(Udp, s, Timeout) == s.(outcome := GaveUp)
    ensures Step(kind, s, Failure) == s.(outcome := Broken)
    ensures Step(kind, s, Datagram(s.peer, [], env)) == s.(outcome := Broken, replyTo := s.peer)
  {
  }
}
