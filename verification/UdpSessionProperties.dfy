// Properties of server sessions over arbitrary receive scripts.

/** What a session accepts, sends and ends with, whatever arrives. */
module UdpSessionProperties {
  import opened Packets
  import opened StructMemory
  import opened Network
  import opened UdpSession

  // ----- Parser soundness over stale memory -----

  /** A whole DATA packet of the session, of whatever size. */
  predicate IsData(got: seq<byte>, session: uint64, id: uint64) {
    var p := Parse(got);
    p.Some? && p.value.Data? && p.value.session == session && p.value.id == id
  }

  predicate IsOldData(got: seq<byte>, session: uint64, cur: uint64) {
    var p := Parse(got);
    p.Some? && p.value.Data? && p.value.session == session && p.value.id < cur
  }

  /** Anything of the size of CONN with its type byte. */
  predicate LooksLikeConn(got: seq<byte>) {
    |got| == CONN_SIZE && got[0] == CONN_ID
  }

  lemma CastIsReceived(mem: InfoMem, got: seq<byte>)
    requires |got| >= INFO_SIZE
    ensures CastInfo(mem, got) ==
            DataInfo(got[0], Value64(got[1..9]), Value64(got[9..17]), Value32(got[17..21]))
  {
    CastCovers(mem, got, 1, 9);
    CastCovers(mem, got, 9, 17);
    CastCovers(mem, got, 17, 21);
  }

  /** Whatever the struct held before, a datagram is accepted exactly when it is a whole
      DATA packet with the expected session and id and at most 64000 bytes, and passed
      over exactly when it is a whole older DATA packet or, before the first DATA, looks
      like CONN; so a partial cast never decides. */
  lemma JudgeMeansParse(kind: Kind, s: Session, got: seq<byte>, mem: InfoMem)
    requires got != []
    ensures Judge(kind, s, got, mem).Accept? <==>
            IsData(got, s.session, s.cur) && |got| <= INFO_SIZE + MAX_ALLOWED_PACKET_SIZE
    ensures Judge(kind, s, got, mem).Accept? ==>
            CastInfo(mem, got).n == |got| - INFO_SIZE && Parse(got).value.payload == got[INFO_SIZE..]
    ensures Judge(kind, s, got, mem).Ignore? <==>
            kind.Udpr? && (IsOldData(got, s.session, s.cur) || (LooksLikeConn(got) && s.first))
  {
    assert CastInfo(mem, got).typeId == got[0];
    if |got| >= INFO_SIZE {
      CastIsReceived(mem, got);
    }
  }

  /** A CONN from the peer of a running session leaves it as it was exactly while no DATA
      was accepted. */
  lemma OldConnInSession(s: Session, got: seq<byte>, mem: InfoMem)
    requires s.outcome.Running? && LooksLikeConn(got)
    ensures FromPeer(Udpr, s, got, mem) == s <==> s.first
    ensures !s.first ==> FromPeer(Udpr, s, got, mem) == s.(outcome := Violated)
  {
    JudgeMeansParse(Udpr, s, got, mem);
    assert CastInfo(mem, got).typeId == got[0];
    assert s.sent + Replies(s.replyTo, []) == s.sent;
  }

  /** Only the id inside a refusal can come from stale memory, and only if the datagram
      was shorter than a DATA header. */
  lemma StaleOnlyInRefusals(kind: Kind, s: Session, got: seq<byte>, m1: InfoMem, m2: InfoMem)
    requires got != []
    ensures FromPeer(kind, s, got, m2) == FromPeer(kind, s, got, m1).(sent := FromPeer(kind, s, got, m2).sent)
    ensures FromPeer(kind, s, got, m1).sent != FromPeer(kind, s, got, m2).sent ==>
            FromPeer(kind, s, got, m1).outcome.Violated? && |got| < INFO_SIZE
  {
    JudgeMeansParse(kind, s, got, m1);
    JudgeMeansParse(kind, s, got, m2);
    if |got| >= INFO_SIZE {
      CastIsReceived(m1, got);
      CastIsReceived(m2, got);
    }
  }

  /** Two scripts that differ in the contents of uninitialised memory only. */
  ghost predicate SameTraffic(a: seq<Event>, b: seq<Event>) {
    |a| == |b| && forall i :: 0 <= i < |a| ==> SameArrival(a[i], b[i])
  }

  predicate SameArrival(a: Event, b: Event) {
    match a
    case Datagram(src, bytes, _) => b.Datagram? && b.src == src && b.bytes == bytes
    case _ => a == b
  }

  /** What a session accepts and how it ends never depends on stale memory. */
  lemma {:induction false} StaleMemoryIrrelevant(kind: Kind, s: Session, t: Session, a: seq<Event>, b: seq<Event>)
    requires SameTraffic(a, b) && t == s.(sent := t.sent)
    ensures Run(kind, t, b) == Run(kind, s, a).(sent := Run(kind, t, b).sent)
    decreases |a|
  {
    hide Step;
    if a == [] || !s.outcome.Running? {
    } else {
      assert SameArrival(a[0], b[0]);
      StaleStep(kind, s, t, a[0], b[0]);
      StaleMemoryIrrelevant(kind, Step(kind, s, a[0]), Step(kind, t, b[0]), a[1..], b[1..]);
    }
  }

  lemma StaleStep(kind: Kind, s: Session, t: Session, a: Event, b: Event)
    requires SameArrival(a, b) && t == s.(sent := t.sent)
    ensures Step(kind, t, b) == Step(kind, s, a).(sent := Step(kind, t, b).sent)
  {
    if a.Datagram? {
      var got := Truncated(a.bytes, RECEIVE_BUFFOR_SIZE);
      if a.src == s.peer && got != [] {
        var s1, t1 := s.(replyTo := a.src), t.(replyTo := a.src);
        StaleOnlyInRefusals(kind, s1, got, a.env.info, b.env.info);
        SentIrrelevant(kind, s1, t1, got, b.env.info);
      }
    }
  }

  lemma SentIrrelevant(kind: Kind, s: Session, t: Session, got: seq<byte>, mem: InfoMem)
    requires t == s.(sent := t.sent)
    ensures FromPeer(kind, t, got, mem) == FromPeer(kind, s, got, mem).(sent := FromPeer(kind, t, got, mem).sent)
  {
    hide CastInfo;
  }

  // ----- Other senders -----

  /** Whatever another sender's datagram is, and whatever the structs held: of the type of
      CONN it is turned away, with its own session id, exactly if it has CONN's size; of
      the type of DATA it always is, with its own ids as far as it holds them; any other
      gets no answer. */
  lemma ForeignAnswer(src: Addr, got: seq<byte>, env: Env)
    requires got != []
    ensures var replies := ForeignReply(src, got, env);
            if got[0] == CONN_ID
            then replies == if |got| == CONN_SIZE then [Sent(src, Conrjt(Value64(got[1..9])))] else []
            else if got[0] == DATA_ID
            then && |replies| == 1 && replies[0].dst == src && replies[0].packet.Rjt?
                 && (|got| >= HEAD_SIZE ==> replies[0].packet.session == Value64(got[1..9]))
                 && (|got| >= ACC_SIZE ==> replies[0].packet.id == Value64(got[9..17]))
            else replies == []
  {
    if |got| >= HEAD_SIZE {
      CastCovers(env.info, got, 1, 9);
      CastCovers(env.conn, got, 1, 9);
    }
    if |got| >= ACC_SIZE {
      CastCovers(env.info, got, 9, 17);
    }
  }

  // ----- Non-interference -----

  predicate SameEnds(s: Session, t: Session) {
    t.peer == s.peer && t.session == s.session && t.size == s.size
  }

  lemma FixedEnds(kind: Kind, s: Session, e: Event)
    ensures SameEnds(s, Step(kind, s, e))
  {
    hide Judge, CastInfo, ForeignReply;
  }

  predicate Foreign(e: Event, peer: Addr) {
    e.Datagram? && e.src != peer
  }

  /** The script without the datagrams of other senders. */
  function PeerEvents(script: seq<Event>, peer: Addr): (es: seq<Event>)
    ensures forall e :: e in es ==> !Foreign(e, peer)
  {
    if script == [] then []
    else if Foreign(script[0], peer) then PeerEvents(script[1..], peer)
    else [script[0]] + PeerEvents(script[1..], peer)
  }

  /** Equal for the peer: they differ in the static reply address and in what went to
      other addresses. */
  predicate SameForPeer(s: Session, t: Session) {
    && t == s.(replyTo := t.replyTo, sent := t.sent)
    && SentTo(t.sent, t.peer) == SentTo(s.sent, s.peer)
  }

  lemma FinishSame(kind: Kind, s: Session, t: Session)
    requires SameForPeer(s, t) && t.replyTo == s.replyTo
    ensures SameForPeer(Finish(kind, s), Finish(kind, t))
  {
    SentToSnoc(s.sent, Sent(s.replyTo, Rcvd(s.session)), s.peer);
    SentToSnoc(t.sent, Sent(s.replyTo, Rcvd(s.session)), s.peer);
    SentToSnoc(s.sent, Sent(s.replyTo, Rjt(s.session, s.cur)), s.peer);
    SentToSnoc(t.sent, Sent(s.replyTo, Rjt(s.session, s.cur)), s.peer);
  }

  lemma CreditSame(kind: Kind, s: Session, t: Session, got: seq<byte>, n: uint32)
    requires SameForPeer(s, t) && t.replyTo == s.replyTo
    ensures SameForPeer(Credit(kind, s, got, n), Credit(kind, t, got, n))
  {
    if kind.Udp? {
      assert s.sent + [] == s.sent && t.sent + [] == t.sent;
    } else {
      SentToSnoc(s.sent, Sent(s.replyTo, Acc(s.session, s.cur)), s.peer);
      SentToSnoc(t.sent, Sent(s.replyTo, Acc(s.session, s.cur)), s.peer);
    }
  }

  lemma FromPeerSame(kind: Kind, s: Session, t: Session, got: seq<byte>, mem: InfoMem)
    requires SameForPeer(s, t) && t.replyTo == s.replyTo
    ensures SameForPeer(FromPeer(kind, s, got, mem), FromPeer(kind, t, got, mem))
  {
    match Judge(kind, s, got, mem)
    case Ignore =>
    case Reject(replies) =>
      SentToConcat(s.sent, Replies(s.replyTo, replies), s.peer);
      SentToConcat(t.sent, Replies(s.replyTo, replies), s.peer);
    case Accept =>
      var n := CastInfo(mem, got).n;
      CreditSame(kind, s, t, got, n);
      FinishSame(kind, Credit(kind, s, got, n), Credit(kind, t, got, n));
  }

  lemma PeerStepSame(kind: Kind, s: Session, t: Session, e: Event)
    requires SameForPeer(s, t) && !Foreign(e, s.peer)
    ensures SameForPeer(Step(kind, s, e), Step(kind, t, e))
  {
    hide FromPeer, SentTo;
    match e
    case Failure =>
    case Timeout =>
      var packet := if s.first then Conacc(s.session) else Acc(s.session, Previous(s.cur));
      SentToSnoc(s.sent, Sent(s.peer, packet), s.peer);
      SentToSnoc(t.sent, Sent(s.peer, packet), s.peer);
    case Datagram(src, bytes, env) =>
      FromPeerSame(kind, s.(replyTo := src), t.(replyTo := src), Truncated(bytes, RECEIVE_BUFFOR_SIZE), env.info);
  }

  lemma ForeignReplyElsewhere(src: Addr, got: seq<byte>, env: Env, peer: Addr)
    requires src != peer
    ensures SentTo(ForeignReply(src, got, env), peer) == []
  {
    var reply := ForeignReply(src, got, env);
    if reply != [] {
      SentToSnoc([], reply[0], peer);
      assert reply == [] + [reply[0]];
    }
  }

  lemma ForeignStepInvisible(kind: Kind, s: Session, e: Event)
    requires Foreign(e, s.peer)
    ensures SameForPeer(s, Step(kind, s, e))
  {
    hide ForeignReply, FromPeer;
    var got := Truncated(e.bytes, RECEIVE_BUFFOR_SIZE);
    SentToConcat(s.sent, ForeignReply(e.src, got, e.env), s.peer);
    ForeignReplyElsewhere(e.src, got, e.env, s.peer);
  }

  /** Deleting every datagram of other senders changes neither what the session accepts,
      nor how it ends, nor any packet it sends to the peer. */
  lemma {:induction false} NonInterference(kind: Kind, s: Session, t: Session, script: seq<Event>)
    requires SameForPeer(s, t)
    ensures SameForPeer(Run(kind, s, script), Run(kind, t, PeerEvents(script, s.peer)))
    decreases |script|
  {
    hide Step;
    if script == [] || !s.outcome.Running? {
    } else if Foreign(script[0], s.peer) {
      ForeignStepInvisible(kind, s, script[0]);
      NonInterference(kind, Step(kind, s, script[0]), t, script[1..]);
    } else {
      PeerStepSame(kind, s, t, script[0]);
      FixedEnds(kind, s, script[0]);
      var rest := PeerEvents(script[1..], s.peer);
      assert PeerEvents(script, s.peer)[1..] == rest;
      NonInterference(kind, Step(kind, s, script[0]), Step(kind, t, script[0]), script[1..]);
    }
  }

  // ----- Duplicates are invisible -----

  predicate SameButReplyTo(s: Session, t: Session) {
    t == s.(replyTo := t.replyTo)
  }

  lemma StepIgnoresReplyTo(kind: Kind, s: Session, t: Session, e: Event)
    requires SameButReplyTo(s, t)
    ensures SameButReplyTo(Step(kind, s, e), Step(kind, t, e))
  {
  }

  lemma {:induction false} RunIgnoresReplyTo(kind: Kind, s: Session, t: Session, script: seq<Event>)
    requires SameButReplyTo(s, t)
    ensures SameButReplyTo(Run(kind, s, script), Run(kind, t, script))
    decreases |script|
  {
    hide Step;
    if script == [] || !s.outcome.Running? {
    } else {
      StepIgnoresReplyTo(kind, s, t, script[0]);
      RunIgnoresReplyTo(kind, Step(kind, s, script[0]), Step(kind, t, script[0]), script[1..]);
    }
  }

  /** A packet the protocol tells the server to ignore in state s: an older DATA, or an
      18-byte CONN before the first DATA. */
  predicate Duplicate(s: Session, e: Event) {
    && e.Datagram? && e.src == s.peer
    && var got := Truncated(e.bytes, RECEIVE_BUFFOR_SIZE);
       IsOldData(got, s.session, s.cur) || (LooksLikeConn(got) && s.first)
  }

  /** Such a packet, inserted anywhere, leaves everything but the static reply address as
      it was: same bytes accepted, same packets sent, same end. */
  lemma DuplicateInvisible(s: Session, before: seq<Event>, e: Event, after: seq<Event>)
    requires Duplicate(Run(Udpr, s, before), e)
    ensures SameButReplyTo(Run(Udpr, s, before + after), Run(Udpr, s, before + [e] + after))
  {
    var mid := Run(Udpr, s, before);
    RunConcat(Udpr, s, before, after);
    RunConcat(Udpr, s, before, [e] + after);
    assert before + [e] + after == before + ([e] + after);
    if mid.outcome.Running? {
      JudgeMeansParse(Udpr, mid.(replyTo := e.src), Truncated(e.bytes, RECEIVE_BUFFOR_SIZE), e.env.info);
      assert ([e] + after)[1..] == after;
      assert SameButReplyTo(mid, Step(Udpr, mid, e));
      RunIgnoresReplyTo(Udpr, mid, Step(Udpr, mid, e), after);
    }
  }

  // ----- UDPR against UDP -----

  /** The events at which a session accepts data. */
  function Accepting(kind: Kind, s: Session, script: seq<Event>): seq<Event>
    decreases |script|
  {
    if script == [] || !s.outcome.Running? then []
    else
      var next := Step(kind, s, script[0]);
      (if |next.accepted| > |s.accepted| then [script[0]] else []) + Accepting(kind, next, script[1..])
  }

  /** The same progress, whatever was sent. */
  predicate SameProgress(s: Session, t: Session) {
    t == s.(replyTo := t.replyTo, sent := t.sent, retransmits := t.retransmits)
  }

  predicate Accepts(kind: Kind, s: Session, e: Event) {
    |Step(kind, s, e).accepted| > |s.accepted|
  }

  lemma SameJudgement(s: Session, t: Session, got: seq<byte>, mem: InfoMem)
    requires SameProgress(s, t)
    ensures Judge(Udpr, s, got, mem).Accept? <==> Judge(Udp, t, got, mem).Accept?
    ensures Judge(Udp, t, got, mem).Accept? ==>
            SameProgress(FromPeer(Udpr, s, got, mem), FromPeer(Udp, t, got, mem))
  {
  }

  lemma StepProgress(s: Session, t: Session, e: Event)
    requires SameProgress(s, t) && s.outcome.Running?
    ensures Accepts(Udpr, s, e) <==> Accepts(Udp, t, e)
    ensures Accepts(Udpr, s, e) ==> SameProgress(Step(Udpr, s, e), Step(Udp, t, e))
  {
    if e.Datagram? && e.src == s.peer {
      var got := Truncated(e.bytes, RECEIVE_BUFFOR_SIZE);
      SameJudgement(s.(replyTo := e.src), t.(replyTo := e.src), got, e.env.info);
    }
  }

  lemma IdleFromPeer(kind: Kind, s: Session, got: seq<byte>, mem: InfoMem)
    requires s.outcome.Running? && |FromPeer(kind, s, got, mem).accepted| <= |s.accepted|
    ensures var t := FromPeer(kind, s, got, mem);
            t.accepted == s.accepted && (t == s || t.outcome.Violated?)
  {
    hide Judge, CastInfo;
  }

  /** A step that accepts nothing does not complete, and if it goes on it makes no
      progress. */
  lemma IdleStep(kind: Kind, s: Session, e: Event)
    requires s.outcome.Running? && !Accepts(kind, s, e)
    ensures !Step(kind, s, e).outcome.Received? && Step(kind, s, e).accepted == s.accepted
    ensures Step(kind, s, e).outcome.Running? ==> SameProgress(s, Step(kind, s, e))
  {
    hide FromPeer;
    if e.Datagram? && e.src == s.peer {
      var got := Truncated(e.bytes, RECEIVE_BUFFOR_SIZE);
      if got != [] {
        IdleFromPeer(kind, s.(replyTo := e.src), got, e.env.info);
      }
    }
  }

  /** A UDP session that goes on without accepting has heard another sender. */
  lemma IdleUdpStep(t: Session, e: Event)
    requires t.outcome.Running? && !Accepts(Udp, t, e) && Step(Udp, t, e).outcome.Running?
    ensures Foreign(e, t.peer)
  {
  }

  /** A UDPR session that receives everything does so as a plain UDP session would on
      just the packets it accepted. */
  lemma {:induction false} UdprRefinesUdp(s: Session, t: Session, script: seq<Event>)
    requires SameProgress(s, t)
    requires Run(Udpr, s, script).outcome.Received?
    ensures SameProgress(Run(Udpr, s, script), Run(Udp, t, Accepting(Udpr, s, script)))
    decreases |script|
  {
    if script == [] || !s.outcome.Running? {
    } else {
      var e := script[0];
      var next := Step(Udpr, s, e);
      StepProgress(s, t, e);
      if Accepts(Udpr, s, e) {
        var rest := Accepting(Udpr, next, script[1..]);
        assert Accepting(Udpr, s, script) == [e] + rest && ([e] + rest)[1..] == rest;
        UdprRefinesUdp(next, Step(Udp, t, e), script[1..]);
      } else {
        IdleStep(Udpr, s, e);
        assert Accepting(Udpr, s, script) == Accepting(Udpr, next, script[1..]);
        assert next.outcome.Running?;
        UdprRefinesUdp(next, t, script[1..]);
      }
    }
  }

  /** And every script that completes under UDP completes under UDPR with the same bytes. */
  lemma {:induction false} UdpWithinUdpr(s: Session, t: Session, script: seq<Event>)
    requires SameProgress(s, t)
    requires Run(Udp, t, script).outcome.Received?
    ensures SameProgress(Run(Udpr, s, script), Run(Udp, t, script))
    decreases |script|
  {
    if script == [] || !s.outcome.Running? {
    } else {
      var e := script[0];
      StepProgress(s, t, e);
      if !Accepts(Udp, t, e) {
        IdleStep(Udp, t, e);
        assert Step(Udp, t, e).outcome.Running?;
        IdleUdpStep(t, e);
      }
      UdpWithinUdpr(Step(Udpr, s, e), Step(Udp, t, e), script[1..]);
    }
  }
}
