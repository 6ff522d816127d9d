// What holds of every server session at every moment, and when RCVD is sent.

/** Counters, acknowledgements, the retransmission budget and the exact conditions under
    which a session completes, over arbitrary receive scripts. */
module UdpSessionInvariants {
  import opened Packets
  import opened Network
  import opened Chunks
  import opened UdpSession
  import opened UdpSessionProperties

  // ----- Counting -----

  /** The declared sizes for which bytes_recvd cannot wrap around 2^64. */
  predicate Countable(size: uint64) {
    size <= TWO_64 - MAX_ALLOWED_PACKET_SIZE
  }

  /** The sum of the sizes stays below the declared one before the last packet. */
  ghost predicate ReachedOnlyAtEnd(parts: seq<seq<byte>>, size: nat) {
    forall k :: 0 <= k < |parts| ==> Total(parts[..k]) < size
  }

  ghost predicate Tallied(s: Session) {
    && s.cur == |s.accepted| % TWO_64
    && (s.first <==> s.accepted == [])
    && (forall i :: 0 <= i < |s.accepted| ==> |s.accepted[i]| <= MAX_ALLOWED_PACKET_SIZE)
    && s.recvd == Total(s.accepted)
    && ReachedOnlyAtEnd(s.accepted, s.size)
  }

  ghost predicate Counted(s: Session) {
    && Tallied(s)
    && (s.outcome.Running? ==> s.recvd < s.size)
    && (s.outcome.Received? <==> s.recvd == s.size)
    && (s.outcome.Overshot? <==> s.recvd > s.size)
  }

  lemma StartCounted(kind: Kind, peer: Addr, session: uint64, size: uint64, replyTo: Addr, sent: seq<Sent>)
    ensures Counted(Start(kind, peer, session, size, replyTo, sent))
  {
  }

  lemma ReachedSnoc(parts: seq<seq<byte>>, part: seq<byte>, size: nat)
    requires ReachedOnlyAtEnd(parts, size) && Total(parts) < size
    ensures ReachedOnlyAtEnd(parts + [part], size)
  {
    forall k | 0 <= k < |parts| + 1
      ensures Total((parts + [part])[..k]) < size
    {
      assert (parts + [part])[..k] == if k < |parts| then parts[..k] else parts;
    }
  }

  lemma CreditTallied(kind: Kind, s: Session, got: seq<byte>)
    requires Counted(s) && s.outcome.Running? && Countable(s.size)
    requires INFO_SIZE <= |got| <= INFO_SIZE + MAX_ALLOWED_PACKET_SIZE
    ensures Tallied(Credit(kind, s, got, |got| - INFO_SIZE))
    ensures Credit(kind, s, got, |got| - INFO_SIZE).outcome.Running?
  {
    hide ReachedOnlyAtEnd, Total;
    var part := got[INFO_SIZE..];
    JoinedSnoc(s.accepted, part);
    ReachedSnoc(s.accepted, part, s.size);
    NextId(|s.accepted|);
  }

  lemma NextId(n: nat)
    ensures (n % TWO_64 + 1) % TWO_64 == (n + 1) % TWO_64
  {
  }

  lemma FinishCounted(kind: Kind, s: Session)
    requires Tallied(s) && s.outcome.Running?
    ensures Counted(Finish(kind, s))
  {
  }

  lemma StepCounted(kind: Kind, s: Session, e: Event)
    requires Counted(s) && s.outcome.Running? && Countable(s.size)
    ensures Counted(Step(kind, s, e)) && SameEnds(s, Step(kind, s, e))
  {
    hide Judge, Finish, Credit, CastInfo, Total, ReachedOnlyAtEnd, Parse;
    FixedEnds(kind, s, e);
    if e.Datagram? && e.src == s.peer {
      var got, heard := Truncated(e.bytes, RECEIVE_BUFFOR_SIZE), s.(replyTo := e.src);
      if got != [] {
        JudgeMeansParse(kind, heard, got, e.env.info);
        if Judge(kind, heard, got, e.env.info).Accept? {
          CreditTallied(kind, heard, got);
          FinishCounted(kind, Credit(kind, heard, got, |got| - INFO_SIZE));
        }
      }
    }
  }

  /** For every script and every declared size up to 2^64 - 64000, at every moment: the
      counter bytes_recvd is the true number of accepted bytes, it was below the declared
      size before the last packet and is less than 64000 above it after, the current id
      is the number of accepted packets, no packet was accepted yet exactly while
      is_first_DATA_packet holds, and the session has completed exactly when the sizes
      add up. */
  lemma {:induction false} RunCounted(kind: Kind, s: Session, script: seq<Event>)
    requires Counted(s) && Countable(s.size)
    ensures Counted(Run(kind, s, script))
    ensures Run(kind, s, script).size == s.size
    ensures s.size > 0 ==> Run(kind, s, script).recvd < s.size + MAX_ALLOWED_PACKET_SIZE
    decreases |script|
  {
    hide Step;
    if script == [] || !s.outcome.Running? {
      if s.accepted != [] {
        var last := |s.accepted| - 1;
        assert Total(s.accepted[..last]) < s.size;
        assert |s.accepted[last]| <= MAX_ALLOWED_PACKET_SIZE;
      }
    } else {
      StepCounted(kind, s, script[0]);
      RunCounted(kind, Step(kind, s, script[0]), script[1..]);
    }
  }

  // ----- What is sent -----

  function Confirmations(sent: seq<Sent>): nat {
    if sent == [] then 0
    else Confirmations(sent[..|sent| - 1]) +
         (if sent[|sent| - 1].packet.Conacc? || sent[|sent| - 1].packet.Acc? then 1 else 0)
  }

  lemma ConfirmationsSnoc(sent: seq<Sent>, s: Sent)
    ensures Confirmations(sent + [s]) == Confirmations(sent) + (if s.packet.Conacc? || s.packet.Acc? then 1 else 0)
  {
    assert (sent + [s])[..|sent|] == sent;
  }

  function Least(a: nat, b: nat): nat {
    if a < b then a else b
  }

  /** The i-th accepted packet carried this id. */
  function IdOf(i: nat): uint64 {
    i % TWO_64
  }

  predicate NamesAccepted(p: Packet, s: Session) {
    p.Acc? ==> p.session == s.session && exists i :: 0 <= i < |s.accepted| && p.id == IdOf(i)
  }

  /** The packets that tell the peer about its transfer. */
  predicate Confirms(p: Packet) {
    p.Acc? || p.Conacc? || p.Rcvd?
  }

  /** CONACC, ACC and RCVD go to the peer, whoever wrote last; every ACC names a packet
      accepted before; RCVD has been sent exactly when the session has completed. */
  ghost predicate Honest(s: Session) {
    && (forall i :: 0 <= i < |s.sent| && Confirms(s.sent[i].packet) ==> s.sent[i].dst == s.peer)
    && (forall i :: 0 <= i < |s.sent| ==> NamesAccepted(s.sent[i].packet, s))
    && (s.outcome.Received? <==> exists i :: 0 <= i < |s.sent| && s.sent[i].packet.Rcvd?)
  }

  /** Beyond `base`: one confirmation for each accepted packet, and the retransmissions. */
  ghost predicate WithinBudget(s: Session, base: nat) {
    && Confirmations(s.sent) == base + |s.accepted| + Least(s.retransmits, MAX_RETRANSMITS)
    && s.retransmits <= MAX_RETRANSMITS + 1
    && (s.outcome.Running? ==> s.retransmits <= MAX_RETRANSMITS)
    && (s.retransmits > MAX_RETRANSMITS ==> s.outcome.GaveUp?)
  }

  lemma BudgetStep(s: Session, e: Event, base: nat)
    requires WithinBudget(s, base) && s.outcome.Running?
    ensures WithinBudget(Step(Udpr, s, e), base)
  {
    match e
    case Failure =>
    case Timeout =>
      ConfirmationsSnoc(s.sent, Sent(s.peer, if s.first then Conacc(s.session) else Acc(s.session, Previous(s.cur))));
    case Datagram(src, bytes, env) =>
      var got, heard := Truncated(bytes, RECEIVE_BUFFOR_SIZE), s.(replyTo := src);
      if src != s.peer {
        var reply := ForeignReply(src, got, env);
        if reply == [] {
          assert s.sent + reply == s.sent;
        } else {
          assert reply == [reply[0]];
          ConfirmationsSnoc(s.sent, reply[0]);
        }
      } else if got != [] {
        BudgetFromPeer(heard, got, env.info, base);
      }
  }

  lemma BudgetFromPeer(s: Session, got: seq<byte>, mem: InfoMem, base: nat)
    requires WithinBudget(s, base) && s.outcome.Running?
    ensures WithinBudget(FromPeer(Udpr, s, got, mem), base)
  {
    match Judge(Udpr, s, got, mem)
    case Ignore =>
    case Reject(replies) =>
      if replies == [] {
        assert s.sent + Replies(s.replyTo, replies) == s.sent;
      } else {
        assert Replies(s.replyTo, replies) == [Sent(s.replyTo, replies[0])];
        ConfirmationsSnoc(s.sent, Sent(s.replyTo, replies[0]));
      }
    case Accept =>
      var n := CastInfo(mem, got).n;
      var credited := Credit(Udpr, s, got, n);
      ConfirmationsSnoc(s.sent, Sent(s.replyTo, Acc(s.session, s.cur)));
      ConfirmationsSnoc(credited.sent, Sent(s.replyTo, Rcvd(s.session)));
      ConfirmationsSnoc(credited.sent, Sent(s.replyTo, Rjt(s.session, credited.cur)));
  }

  /** A UDPR session confirms each accepted packet once and beyond that uses its eight
      retransmissions: over any script it sends exactly one ACC per accepted packet plus
      one CONACC or ACC per timeout survived, never more than eight of the latter. */
  lemma {:induction false} RunWithinBudget(s: Session, script: seq<Event>, base: nat)
    requires WithinBudget(s, base)
    ensures WithinBudget(Run(Udpr, s, script), base)
    ensures Confirmations(Run(Udpr, s, script).sent) <= base + |Run(Udpr, s, script).accepted| + MAX_RETRANSMITS
    decreases |script|
  {
    hide Step;
    if script == [] || !s.outcome.Running? {
    } else {
      BudgetStep(s, script[0], base);
      RunWithinBudget(Step(Udpr, s, script[0]), script[1..], base);
    }
  }

  // ----- Every ACC names an accepted packet -----

  lemma HonestGrows(s: Session, t: Session, more: seq<Sent>)
    requires Honest(s) && !s.outcome.Received?
    requires t.peer == s.peer && t.session == s.session && t.sent == s.sent + more
    requires s.accepted <= t.accepted
    requires forall i :: 0 <= i < |more| && Confirms(more[i].packet) ==> more[i].dst == s.peer
    requires forall i :: 0 <= i < |more| ==> NamesAccepted(more[i].packet, t)
    requires t.outcome.Received? <==> exists i :: 0 <= i < |more| && more[i].packet.Rcvd?
    ensures Honest(t)
  {
    forall i | 0 <= i < |t.sent|
      ensures NamesAccepted(t.sent[i].packet, t)
      ensures Confirms(t.sent[i].packet) ==> t.sent[i].dst == t.peer
    {
      if i < |s.sent| {
        assert t.sent[i] == s.sent[i] && NamesAccepted(s.sent[i].packet, s);
      } else {
        assert t.sent[i] == more[i - |s.sent|];
      }
    }
    if t.outcome.Received? {
      var i :| 0 <= i < |more| && more[i].packet.Rcvd?;
      assert t.sent[|s.sent| + i] == more[i];
    }
  }

  /** A refusal is at most one RJT. */
  lemma RefusalIsRjt(kind: Kind, s: Session, got: seq<byte>, mem: InfoMem)
    ensures var v := Judge(kind, s, got, mem);
            v.Reject? ==> |v.replies| <= 1 && forall i :: 0 <= i < |v.replies| ==> v.replies[i].Rjt?
  {
  }

  lemma HonestFromPeer(kind: Kind, s: Session, got: seq<byte>, mem: InfoMem)
    requires Honest(s) && s.cur == IdOf(|s.accepted|) && s.outcome.Running? && s.replyTo == s.peer
    ensures Honest(FromPeer(kind, s, got, mem))
  {
    hide Judge, CastInfo, Honest;
    var t := FromPeer(kind, s, got, mem);
    match Judge(kind, s, got, mem)
    case Ignore =>
    case Reject(replies) =>
      RefusalIsRjt(kind, s, got, mem);
      HonestGrows(s, t, Replies(s.replyTo, replies));
    case Accept =>
      var acks: seq<Sent> := if kind.Udp? then [] else [Sent(s.peer, Acc(s.session, s.cur))];
      var credited := Credit(kind, s, got, CastInfo(mem, got).n);
      assert s.cur == IdOf(|credited.accepted| - 1);
      var last: seq<Sent> := if credited.recvd < credited.size then []
                  else if credited.recvd == credited.size then [Sent(s.peer, Rcvd(s.session))]
                  else if kind.Udp? then [] else [Sent(s.peer, Rjt(s.session, credited.cur))];
      assert t.sent == s.sent + (acks + last);
      if t.outcome.Received? {
        assert (acks + last)[|acks|].packet.Rcvd?;
      }
      HonestGrows(s, t, acks + last);
  }

  /** In a retransmitted ACC, curr_package_id - 1 is the id accepted last. */
  lemma RetransmitsLast(s: Session)
    requires Counted(s) && !s.first
    ensures Previous(s.cur) == IdOf(|s.accepted| - 1)
  {
    PreviousOf(|s.accepted|);
  }

  lemma PreviousOf(n: nat)
    requires n > 0
    ensures Previous(IdOf(n)) == IdOf(n - 1)
  {
  }

  lemma HonestTimeout(s: Session)
    requires Honest(s) && Counted(s) && s.outcome.Running?
    ensures Honest(Retransmit(s))
  {
    hide Honest, Total, ReachedOnlyAtEnd;
    if s.retransmits + 1 > MAX_RETRANSMITS {
      HonestGrows(s, Retransmit(s), []);
    } else {
      if !s.first {
        RetransmitsLast(s);
      }
      HonestGrows(s, Retransmit(s), [Sent(s.peer, if s.first then Conacc(s.session) else Acc(s.session, Previous(s.cur)))]);
    }
  }

  lemma HonestHeard(s: Session, src: Addr, more: seq<Sent>)
    requires Honest(s) && !s.outcome.Received?
    requires forall i :: 0 <= i < |more| ==> more[i].packet.Rjt? || more[i].packet.Conrjt?
    ensures Honest(s.(replyTo := src, sent := s.sent + more))
  {
    hide Honest;
    HonestGrows(s, s.(replyTo := src, sent := s.sent + more), more);
  }

  lemma HonestStep(kind: Kind, s: Session, e: Event)
    requires Honest(s) && Counted(s) && s.outcome.Running?
    ensures Honest(Step(kind, s, e))
  {
    hide FromPeer, Retransmit, Honest, Total, ReachedOnlyAtEnd;
    match e
    case Failure => HonestGrows(s, s.(outcome := Broken), []);
    case Timeout =>
      if kind.Udp? {
        HonestGrows(s, s.(outcome := GaveUp), []);
      } else {
        HonestTimeout(s);
      }
    case Datagram(src, bytes, env) =>
      var got := Truncated(bytes, RECEIVE_BUFFOR_SIZE);
      var heard := s.(replyTo := src);
      if src != s.peer {
        HonestHeard(s, src, ForeignReply(src, got, env));
      } else {
        HonestHeard(s, src, []);
        assert heard == s.(replyTo := src, sent := s.sent + []);
        if got == [] {
          HonestGrows(heard, heard.(outcome := Broken), []);
        } else {
          HonestFromPeer(kind, heard, got, env.info);
        }
      }
  }

  /** Whatever arrives, every ACC a session ever emits goes to the peer and names a packet
      accepted before it, and RCVD is among the packets sent exactly when the accepted
      sizes sum to the declared size. */
  lemma {:induction false} RunHonest(kind: Kind, s: Session, script: seq<Event>)
    requires Honest(s) && Counted(s) && Countable(s.size)
    ensures Honest(Run(kind, s, script))
    ensures (exists i :: 0 <= i < |Run(kind, s, script).sent| && Run(kind, s, script).sent[i].packet.Rcvd?)
            <==> Total(Run(kind, s, script).accepted) == s.size
    decreases |script|
  {
    hide Step;
    if script == [] || !s.outcome.Running? {
    } else {
      HonestStep(kind, s, script[0]);
      StepCounted(kind, s, script[0]);
      RunHonest(kind, Step(kind, s, script[0]), script[1..]);
    }
  }

  // ----- Every session from its start -----

  /** The same session in a server that had sent `idle` before. */
  function SentBefore(idle: seq<Sent>, s: Session): Session {
    s.(sent := idle + s.sent)
  }

  lemma StepAfter(idle: seq<Sent>, kind: Kind, s: Session, e: Event)
    ensures Step(kind, SentBefore(idle, s), e) == SentBefore(idle, Step(kind, s, e))
  {
    hide Judge, CastInfo, ForeignReply;
    if e.Datagram? {
      var got := Truncated(e.bytes, RECEIVE_BUFFOR_SIZE);
      var heard := s.(replyTo := e.src);
      FromPeerAfter(idle, kind, heard, got, e.env.info);
      assert idle + (s.sent + ForeignReply(e.src, got, e.env)) == idle + s.sent + ForeignReply(e.src, got, e.env);
    }
  }

  lemma FromPeerAfter(idle: seq<Sent>, kind: Kind, s: Session, got: seq<byte>, mem: InfoMem)
    ensures FromPeer(kind, SentBefore(idle, s), got, mem) == SentBefore(idle, FromPeer(kind, s, got, mem))
  {
    hide Finish, Credit, CastInfo;
    assert Judge(kind, SentBefore(idle, s), got, mem) == Judge(kind, s, got, mem);
    match Judge(kind, s, got, mem)
    case Accept =>
      var n := CastInfo(mem, got).n;
      CreditAfter(idle, kind, s, got, n);
      FinishAfter(idle, kind, Credit(kind, s, got, n));
    case Ignore =>
    case Reject(replies) =>
      assert idle + (s.sent + Replies(s.replyTo, replies)) == idle + s.sent + Replies(s.replyTo, replies);
  }

  lemma FinishAfter(idle: seq<Sent>, kind: Kind, s: Session)
    ensures Finish(kind, SentBefore(idle, s)) == SentBefore(idle, Finish(kind, s))
  {
  }

  lemma CreditAfter(idle: seq<Sent>, kind: Kind, s: Session, got: seq<byte>, n: uint32)
    ensures Credit(kind, SentBefore(idle, s), got, n) == SentBefore(idle, Credit(kind, s, got, n))
  {
  }

  /** What was sent before a session neither changes it nor is changed by it. */
  lemma {:induction false} RunAfter(idle: seq<Sent>, kind: Kind, s: Session, script: seq<Event>)
    ensures Run(kind, SentBefore(idle, s), script) == SentBefore(idle, Run(kind, s, script))
    decreases |script|
  {
    hide Step;
    if script != [] && s.outcome.Running? {
      StepAfter(idle, kind, s, script[0]);
      RunAfter(idle, kind, Step(kind, s, script[0]), script[1..]);
    }
  }

  /** A session as UDP_server_handler starts it, after its CONACC and everything the server
      sent before: over every script and for every declared size from 1 to 2^64 - 64000,
      all of the above, of what the session itself sends. */
  lemma EverySession(kind: Kind, peer: Addr, session: uint64, size: uint64, replyTo: Addr,
                     idle: seq<Sent>, script: seq<Event>)
    requires size > 0 && Countable(size)
    ensures var r := Run(kind, Start(kind, peer, session, size, replyTo, idle + [Sent(peer, Conacc(session))]), script);
            && idle <= r.sent
            && var own := r.(sent := r.sent[|idle|..]);
            && Counted(own) && Honest(own)
            && (r.outcome.Received? <==> Total(r.accepted) == size)
            && (kind.Udpr? ==> Confirmations(own.sent) <= 1 + |r.accepted| + MAX_RETRANSMITS)
  {
    hide Step, Run, Honest, Counted;
    var sent := [Sent(peer, Conacc(session))];
    var s := Start(kind, peer, session, size, replyTo, sent);
    var own := Run(kind, s, script);
    RunAfter(idle, kind, s, script);
    assert (idle + own.sent)[|idle|..] == own.sent;
    StartCounted(kind, peer, session, size, replyTo, sent);
    StartHonest(kind, peer, session, size, replyTo);
    RunCounted(kind, s, script);
    RunHonest(kind, s, script);
    CompleteWhenCounted(own);
    if kind.Udpr? {
      StartBudget(peer, session, size, replyTo);
      RunWithinBudget(s, script, 1);
    }
  }

  lemma CompleteWhenCounted(s: Session)
    requires Counted(s)
    ensures s.outcome.Received? <==> Total(s.accepted) == s.size
  {
  }

  lemma StartHonest(kind: Kind, peer: Addr, session: uint64, size: uint64, replyTo: Addr)
    requires size > 0
    ensures Honest(Start(kind, peer, session, size, replyTo, [Sent(peer, Conacc(session))]))
  {
  }

  lemma StartBudget(peer: Addr, session: uint64, size: uint64, replyTo: Addr)
    requires size > 0
    ensures WithinBudget(Start(Udpr, peer, session, size, replyTo, [Sent(peer, Conacc(session))]), 1)
  {
    assert [] + [Sent(peer, Conacc(session))] == [Sent(peer, Conacc(session))];
    ConfirmationsSnoc([], Sent(peer, Conacc(session)));
  }

  /** With a declared size of 0 the loop is skipped, and RCVD goes to whatever address the
      previous session left behind: to the peer exactly if that was the peer. */
  lemma EmptySession(kind: Kind, peer: Addr, session: uint64, replyTo: Addr, sent: seq<Sent>, script: seq<Event>)
    ensures var r := Run(kind, Start(kind, peer, session, 0, replyTo, sent), script);
            && r.outcome.Received? && r.sent == sent + [Sent(replyTo, Rcvd(session))]
            && (r.sent[|sent|].dst == peer <==> replyTo == peer)
  {
  }

  // ----- What was accepted, as events -----

  /** The events at which a session of either kind accepts are, in this order, DATA packets
      under consecutive ids carrying exactly the accepted payloads. */
  lemma {:induction false} AcceptingDelivers(kind: Kind, s: Session, script: seq<Event>)
    requires Counted(s) && Countable(s.size)
    ensures s.accepted <= Run(kind, s, script).accepted
    ensures DeliversInOrder(Accepting(kind, s, script), s.peer, s.session, |s.accepted|,
                            Run(kind, s, script).accepted[|s.accepted|..])
    ensures |Accepting(kind, s, script)| == |Run(kind, s, script).accepted| - |s.accepted|
    decreases |script|
  {
    hide Step, Counted, Delivers;
    var r := Run(kind, s, script);
    if script == [] || !s.outcome.Running? {
      assert r.accepted[|s.accepted|..] == [];
    } else {
      var e := script[0];
      var next := Step(kind, s, e);
      StepCounted(kind, s, e);
      FixedEnds(kind, s, e);
      AcceptingDelivers(kind, next, script[1..]);
      var rest := Accepting(kind, next, script[1..]);
      if Accepts(kind, s, e) {
        AcceptedHead(kind, s, e, r.accepted);
        InOrderCons(e, rest, s.peer, s.session, |s.accepted|, r.accepted[|s.accepted|..]);
        assert Accepting(kind, s, script) == [e] + rest;
      } else {
        IdleStep(kind, s, e);
        assert Accepting(kind, s, script) == [] + rest == rest;
      }
    }
  }

  // ----- Plain UDP: the exact script -----

  /** Event e delivers this payload under this id. */
  predicate Delivers(e: Event, peer: Addr, session: uint64, id: uint64, part: seq<byte>) {
    && e.Datagram? && e.src == peer && |part| <= MAX_ALLOWED_PACKET_SIZE
    && Truncated(e.bytes, RECEIVE_BUFFOR_SIZE) == Encode(Data(session, id, part))
  }

  lemma DeliversAccepted(kind: Kind, s: Session, e: Event, part: seq<byte>)
    requires s.outcome.Running? && Delivers(e, s.peer, s.session, s.cur, part)
    ensures Step(kind, s, e).accepted == s.accepted + [part]
    ensures Accepts(kind, s, e)
  {
    var got := Truncated(e.bytes, RECEIVE_BUFFOR_SIZE);
    EncodedFields(Data(s.session, s.cur, part));
    ParseEncode(Data(s.session, s.cur, part));
    hide Judge, CastInfo, Parse, Encode;
    JudgeMeansParse(kind, s.(replyTo := e.src), got, e.env.info);
  }

  lemma AcceptedDelivers(kind: Kind, s: Session, e: Event)
    requires s.outcome.Running? && Accepts(kind, s, e)
    ensures |Step(kind, s, e).accepted| == |s.accepted| + 1 && s.accepted <= Step(kind, s, e).accepted
    ensures Delivers(e, s.peer, s.session, s.cur, Step(kind, s, e).accepted[|s.accepted|])
  {
    var got := Truncated(e.bytes, RECEIVE_BUFFOR_SIZE);
    JudgeMeansParse(kind, s.(replyTo := e.src), got, e.env.info);
    EncodeParse(got);
  }

  /** The first |parts| events deliver these payloads under consecutive ids from `base`. */
  ghost predicate DeliversInOrder(es: seq<Event>, peer: Addr, session: uint64, base: nat, parts: seq<seq<byte>>) {
    |parts| <= |es| && forall i :: 0 <= i < |parts| ==> Delivers(es[i], peer, session, IdOf(base + i), parts[i])
  }

  lemma InOrderTail(es: seq<Event>, peer: Addr, session: uint64, base: nat, parts: seq<seq<byte>>)
    requires |parts| > 0 && DeliversInOrder(es, peer, session, base, parts)
    ensures Delivers(es[0], peer, session, IdOf(base), parts[0])
    ensures DeliversInOrder(es[1..], peer, session, base + 1, parts[1..])
  {
    assert Delivers(es[0], peer, session, IdOf(base + 0), parts[0]);
    forall i | 0 <= i < |parts| - 1
      ensures Delivers(es[1..][i], peer, session, IdOf(base + 1 + i), parts[1..][i])
    {
      assert Delivers(es[i + 1], peer, session, IdOf(base + (i + 1)), parts[i + 1]);
    }
  }

  lemma InOrderCons(e: Event, es: seq<Event>, peer: Addr, session: uint64, base: nat, parts: seq<seq<byte>>)
    requires |parts| > 0 && DeliversInOrder(es, peer, session, base + 1, parts[1..])
    requires Delivers(e, peer, session, IdOf(base), parts[0])
    ensures DeliversInOrder([e] + es, peer, session, base, parts)
  {
    forall i | 0 <= i < |parts|
      ensures Delivers(([e] + es)[i], peer, session, IdOf(base + i), parts[i])
    {
      if i > 0 {
        assert Delivers(es[i - 1], peer, session, IdOf(base + 1 + (i - 1)), parts[1..][i - 1]);
      }
    }
  }

  lemma ForeignStep(kind: Kind, s: Session, e: Event)
    requires Foreign(e, s.peer)
    ensures Step(kind, s, e) == s.(replyTo := e.src, sent := Step(kind, s, e).sent)
  {
  }

  /** One more of the expected packets, and the session goes on exactly if it was not
      the last. */
  lemma InOrderStep(s: Session, e: Event, rest: seq<Event>, parts: seq<seq<byte>>)
    requires Counted(s) && Countable(s.size) && s.outcome.Running? && parts != []
    requires DeliversInOrder([e] + rest, s.peer, s.session, |s.accepted|, parts)
    requires ReachedOnlyAtEnd(s.accepted + parts, s.size) && Total(s.accepted + parts) == s.size
    ensures Counted(Step(Udp, s, e)) && SameEnds(s, Step(Udp, s, e))
    ensures |Step(Udp, s, e).accepted| == |s.accepted| + 1
    ensures Step(Udp, s, e).accepted + parts[1..] == s.accepted + parts
    ensures Step(Udp, s, e).outcome.Running? <==> parts[1..] != []
    ensures DeliversInOrder(rest, s.peer, s.session, |s.accepted| + 1, parts[1..])
  {
    hide Step, Total, ReachedOnlyAtEnd, Delivers;
    StepCounted(Udp, s, e);
    assert ([e] + rest)[1..] == rest;
    InOrderTail([e] + rest, s.peer, s.session, |s.accepted|, parts);
    DeliversAccepted(Udp, s, e, parts[0]);
    var next := Step(Udp, s, e);
    assert s.accepted + parts == next.accepted + parts[1..];
    if |parts| == 1 {
      assert next.accepted == s.accepted + parts;
    } else {
      StillShort(s.accepted + parts, next.accepted, s.size);
      AcceptingGoesOn(Udp, s, e);
    }
  }

  /** After an accepted packet the session can only be running or finished. */
  lemma AcceptingGoesOn(kind: Kind, s: Session, e: Event)
    requires s.outcome.Running? && Accepts(kind, s, e)
    ensures var end := Step(kind, s, e).outcome; end.Running? || end.Received? || end.Overshot?
  {
    hide CastInfo, Judge;
  }

  lemma {:induction false} InOrderAccepted(s: Session, script: seq<Event>, parts: seq<seq<byte>>)
    requires Counted(s) && Countable(s.size) && (s.outcome.Running? <==> parts != [])
    requires DeliversInOrder(PeerEvents(script, s.peer), s.peer, s.session, |s.accepted|, parts)
    requires ReachedOnlyAtEnd(s.accepted + parts, s.size) && Total(s.accepted + parts) == s.size
    ensures Run(Udp, s, script).accepted == s.accepted + parts
    decreases |script|
  {
    hide Step, Total, ReachedOnlyAtEnd, Delivers, Counted;
    if parts == [] {
      assert s.accepted + parts == s.accepted;
    } else {
      var e := script[0];
      var next := Step(Udp, s, e);
      if Foreign(e, s.peer) {
        StepCounted(Udp, s, e);
        ForeignStep(Udp, s, e);
        InOrderAccepted(next, script[1..], parts);
      } else {
        InOrderStep(s, e, PeerEvents(script[1..], s.peer), parts);
        InOrderAccepted(next, script[1..], parts[1..]);
      }
    }
  }

  lemma StillShort(all: seq<seq<byte>>, some: seq<seq<byte>>, size: nat)
    requires ReachedOnlyAtEnd(all, size) && some < all
    ensures Total(some) < size
  {
    assert all[..|some|] == some;
  }

  lemma AcceptedHead(kind: Kind, s: Session, e: Event, all: seq<seq<byte>>)
    requires Counted(s) && s.outcome.Running? && Accepts(kind, s, e)
    requires Step(kind, s, e).accepted <= all
    ensures |Step(kind, s, e).accepted| == |s.accepted| + 1 && s.accepted <= all
    ensures all[|s.accepted|..][1..] == all[|s.accepted| + 1..] && !Foreign(e, s.peer)
    ensures Delivers(e, s.peer, s.session, IdOf(|s.accepted|), all[|s.accepted|..][0])
  {
    hide Step, Total, ReachedOnlyAtEnd;
    AcceptedDelivers(kind, s, e);
    assert all[|s.accepted|..][0] == Step(kind, s, e).accepted[|s.accepted|];
  }

  lemma {:induction false} AcceptedInOrder(s: Session, script: seq<Event>)
    requires Counted(s) && Countable(s.size)
    ensures s.accepted <= Run(Udp, s, script).accepted
    ensures DeliversInOrder(PeerEvents(script, s.peer), s.peer, s.session, |s.accepted|,
                            Run(Udp, s, script).accepted[|s.accepted|..])
    decreases |script|
  {
    hide Step, Counted, Delivers;
    var r := Run(Udp, s, script);
    if script == [] || !s.outcome.Running? {
      assert r.accepted[|s.accepted|..] == [];
    } else {
      var e := script[0];
      var next := Step(Udp, s, e);
      StepCounted(Udp, s, e);
      AcceptedInOrder(next, script[1..]);
      FixedEnds(Udp, s, e);
      if Accepts(Udp, s, e) {
        AcceptedHead(Udp, s, e, r.accepted);
        InOrderCons(e, PeerEvents(script[1..], s.peer), s.peer, s.session, |s.accepted|, r.accepted[|s.accepted|..]);
      } else {
        IdleStep(Udp, s, e);
        if next.outcome.Running? {
          IdleUdpStep(s, e);
        } else {
          assert r == next;
          assert r.accepted[|s.accepted|..] == [];
        }
      }
    }
  }

  /** A UDP session completes with these payloads exactly when, other senders aside, the
      script begins with their DATA packets under ids 0, 1, .. - no timeout, no error,
      nothing else in between - and their sizes first reach the declared size at the end
      and exactly. */
  lemma UdpReceivesExactly(s: Session, script: seq<Event>, parts: seq<seq<byte>>)
    requires Counted(s) && Countable(s.size) && s.outcome.Running? && s.accepted == []
    ensures Run(Udp, s, script).outcome.Received? && Run(Udp, s, script).accepted == parts
       <==> DeliversInOrder(PeerEvents(script, s.peer), s.peer, s.session, 0, parts)
            && ReachedOnlyAtEnd(parts, s.size) && Total(parts) == s.size
  {
    RunCounted(Udp, s, script);
    AcceptedInOrder(s, script);
    assert s.accepted + parts == parts;
    assert Run(Udp, s, script).accepted[0..] == Run(Udp, s, script).accepted;
    if DeliversInOrder(PeerEvents(script, s.peer), s.peer, s.session, 0, parts)
       && ReachedOnlyAtEnd(parts, s.size) && Total(parts) == s.size {
      InOrderAccepted(s, script, parts);
    }
  }
}
