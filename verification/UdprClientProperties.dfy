// Properties of the UDPR client over arbitrary receive scripts.

/** What moves the client forward, what it ignores, and how much it sends. */
module UdprClientProperties {
  import opened Packets
  import opened StructMemory
  import opened Network
  import opened UdprClientSpec

  // ----- Parser soundness over stale memory -----

  lemma AccCast(mem: AccMem, got: seq<byte>)
    requires got != []
    ensures Overlay(mem, got)[0] == got[0]
    ensures |got| >= HEAD_SIZE ==> Overlay(mem, got)[1..9] == got[1..9]
    ensures |got| >= ACC_SIZE ==> Overlay(mem, got)[9..17] == got[9..17]
  {
    if |got| >= HEAD_SIZE { CastCovers(mem, got, 1, 9); }
    if |got| >= ACC_SIZE { CastCovers(mem, got, 9, 17); }
  }

  lemma HeadCast(mem: HeadMem, got: seq<byte>)
    requires got != []
    ensures Overlay(mem, got)[0] == got[0]
    ensures |got| >= HEAD_SIZE ==> Overlay(mem, got)[1..9] == got[1..9]
  {
    if |got| >= HEAD_SIZE { CastCovers(mem, got, 1, 9); }
  }

  predicate Failed(c: Client) {
    c.phase.Done? && !c.phase.result.Delivered?
  }

  /** While waiting for ACC id, whatever the struct held before: the packet advances the
      client exactly if it is ACC id of the session, is ignored exactly if it is an older
      ACC or, before the first ACC, a CONACC of the session, triggers a resend exactly if
      it is the session's RCVD, and ends the client otherwise. */
  lemma AckMeansParse(t: Transfer, c: Client, got: seq<byte>, acc: AccMem)
    requires c.phase.Sending? && got != []
    ensures var p := Parse(got); var r := OnAck(t, c, got, acc);
            if p == Some(Rcvd(t.session)) then r == Retry(t, c)
            else if p == Some(Conacc(t.session)) && c.id == 0 then r == c
            else if p.Some? && p.value.Acc? && p.value.session == t.session && p.value.id < c.id then r == c
            else if p.Some? && p.value.Acc? && p.value.session == t.session && p.value.id == c.id
            then r == SendNext(t, c.(id := c.id + 1))
            else Failed(r) && r == c.(phase := r.phase)
  {
    AccCast(acc, got);
  }

  /** While waiting for RCVD: only the session's RCVD delivers, and of the session's ACCs
      only ACC 0 is ignored; every other packet ends the client. */
  lemma CloseMeansParse(t: Transfer, c: Client, got: seq<byte>, head: HeadMem, acc: AccMem)
    requires c.phase.Closing? && got != []
    ensures var p := Parse(got); var r := OnClose(t, c, got, head, acc);
            if p == Some(Rcvd(t.session)) then r == End(c, Delivered)
            else if p == Some(Acc(t.session, 0)) then r == c
            else Failed(r) && r == c.(phase := r.phase)
  {
    AccCast(acc, got);
    HeadCast(head, got);
  }

  /** README.md promises that ACCs with an earlier number are ignored. In the final wait
      this holds of ACC k exactly for k = 0. */
  lemma OldAckInFinalWait(t: Transfer, c: Client, k: uint64, env: Env)
    requires c.phase.Closing? && k < t.NumPackets()
    ensures OnDatagram(t, c, Encode(Acc(t.session, k)), env) == c <==> k == 0
  {
    ParseEncode(Acc(t.session, k));
    EncodedFields(Acc(t.session, k));
    CloseMeansParse(t, c, Encode(Acc(t.session, k)), env.head, env.acc);
  }

  /** A CONACC that comes again is promised to be ignored too. It is exactly while the
      client waits for the first ACC; in the final wait it never is. */
  lemma OldConaccAtClient(t: Transfer, c: Client, env: Env)
    requires c.phase.Sending? || c.phase.Closing?
    ensures OnDatagram(t, c, Encode(Conacc(t.session)), env) == c <==> c.phase.Sending? && c.id == 0
  {
    ParseEncode(Conacc(t.session));
    EncodedFields(Conacc(t.session));
    if c.phase.Sending? {
      AckMeansParse(t, c, Encode(Conacc(t.session)), env.acc);
    } else {
      CloseMeansParse(t, c, Encode(Conacc(t.session)), env.head, env.acc);
    }
  }

  /** A CONRJT too short to hold its session id, whose bytes are so far those of the
      session. */
  predicate CutConrjt(t: Transfer, got: seq<byte>) {
    got != [] && got[0] == CONRJT_ID && |got| < HEAD_SIZE && got[1..] <= Bytes64(t.session)
  }

  /** While connecting: only the session's CONACC is followed by DATA. What the struct
      held before can matter only for a cut CONRJT. */
  lemma ReplyMeansParse(t: Transfer, c: Client, got: seq<byte>, head: HeadMem)
    requires c.phase.Connecting? && got != []
    ensures var p := Parse(got); var r := OnReply(t, c, got, head);
            if p == Some(Conacc(t.session)) then r == SendNext(t, c)
            else if got[0] == CONRJT_ID && |got| >= HEAD_SIZE && Value64(got[1..9]) == t.session then r == End(c, Rejected)
            else if CutConrjt(t, got) then r == End(c, Rejected) || r == Retry(t, c)
            else r == Retry(t, c)
  {
    HeadCast(head, got);
    var m := Overlay(head, got);
    if got[0] == CONRJT_ID && |got| < HEAD_SIZE && Value64(m[1..9]) == t.session {
      Bytes64OfValue(m[1..9]);
      assert got[1..] == m[1..9][..|got| - 1];
    }
  }

  /** And for every cut CONRJT it does: with one content the client ends, with another it
      sends its CONN again. */
  lemma StaleMattersExactly(t: Transfer, c: Client, got: seq<byte>)
    requires c.phase.Connecting? && got != []
    ensures (exists h1: HeadMem, h2: HeadMem :: OnReply(t, c, got, h1) != OnReply(t, c, got, h2)) <==> CutConrjt(t, got)
  {
    if CutConrjt(t, got) {
      var h1: HeadMem := [0] + Bytes64(t.session);
      var h2: HeadMem := [0] + got[1..] + OtherTail(Bytes64(t.session), |got| - 1);
      var m1, m2 := Overlay(h1, got), Overlay(h2, got);
      assert m1[1..9] == Bytes64(t.session);
      assert m2[8] != Bytes64(t.session)[7] && m2[1..9][7] == m2[8];
      Bytes64OfValue(m2[1..9]);
      assert OnReply(t, c, got, h1) == End(c, Rejected) && OnReply(t, c, got, h2) == Retry(t, c);
    } else {
      forall h1: HeadMem, h2: HeadMem
        ensures OnReply(t, c, got, h1) == OnReply(t, c, got, h2)
      {
        ReplyMeansParse(t, c, got, h1);
        ReplyMeansParse(t, c, got, h2);
      }
    }
  }

  /** The bytes from k on, the last of them changed. */
  function OtherTail(bs: seq<byte>, k: nat): (r: seq<byte>)
    requires k < |bs|
    ensures |r| == |bs| - k && r[|r| - 1] != bs[|bs| - 1]
  {
    bs[k..|bs| - 1] + [if bs[|bs| - 1] == 0 then 1 else 0]
  }

  // ----- Invariants over every script -----

  /** Progress and the count of datagrams sent: one CONN, each DATA started once, and one
      more per retransmission used. */
  ghost predicate Accounted(t: Transfer, c: Client) {
    && Sane(t, c)
    && (!c.phase.Done? ==> c.retransmits <= MAX_RETRANSMITS)
    && (c.phase.Connecting? ==> |c.sent| == 1 + c.retransmits)
    && (c.phase.Sending? ==> |c.sent| == 1 + (c.id + 1) + c.retransmits)
    && (c.phase.Closing? ==> |c.sent| == 1 + t.NumPackets() + c.retransmits)
    && |c.sent| <= 1 + t.NumPackets() + MAX_RETRANSMITS
    && (forall i :: 0 <= i < |c.sent| ==> OfTransfer(t, c.id, c.sent[i]))
    && (forall i :: 0 <= i < c.id ==> t.Packet(i) in c.sent)
    && (c.phase.Sending? ==> t.Packet(c.id) in c.sent)
  }

  /** CONN of the transfer, or one of its DATA packets up to `id`, with its chunk. */
  predicate OfTransfer(t: Transfer, id: nat, p: Packet) {
    p == t.Hello() || (p.Data? && p.id <= id && p.id < t.NumPackets() && p == t.Packet(p.id))
  }

  lemma RetryAccounted(t: Transfer, c: Client)
    requires Accounted(t, c) && (c.phase.Connecting? || c.phase.Sending?)
    ensures Accounted(t, Retry(t, c))
  {
  }

  lemma AdvanceAccounted(t: Transfer, c: Client)
    requires Accounted(t, c) && c.phase.Sending?
    ensures Accounted(t, SendNext(t, c.(id := c.id + 1)))
  {
    forall i | 0 <= i < |c.sent|
      ensures OfTransfer(t, c.id + 1, c.sent[i])
    {
      assert OfTransfer(t, c.id, c.sent[i]);
    }
  }

  lemma StepAccounted(t: Transfer, c: Client, e: Event)
    requires Accounted(t, c) && !c.phase.Done?
    ensures Accounted(t, ClientStep(t, c, e))
  {
    hide Retry, SendNext, OnReply, OnAck, OnClose;
    if !c.phase.Closing? {
      RetryAccounted(t, c);
    }
    if e.Datagram? {
      var got := Truncated(e.bytes, RESPONSE_BUFF_SIZE);
      var heard := if c.pinned.None? then c.(pinned := Some(e.src.ip)) else c;
      assert Accounted(t, heard);
      if got != [] {
        DatagramAccounted(t, heard, got, e.env);
      }
    }
  }

  lemma DatagramAccounted(t: Transfer, c: Client, got: seq<byte>, env: Env)
    requires Accounted(t, c) && !c.phase.Done? && got != []
    ensures Accounted(t, OnDatagram(t, c, got, env))
  {
    hide Retry, OnReply, OnAck, OnClose;
    match c.phase
    case Connecting =>
      ReplyMeansParse(t, c, got, env.head);
      RetryAccounted(t, c);
    case Sending =>
      AckMeansParse(t, c, got, env.acc);
      RetryAccounted(t, c);
      AdvanceAccounted(t, c);
    case Closing =>
      CloseMeansParse(t, c, got, env.head, env.acc);
  }

  /** Over every script the client sends at most 1 + ceil(size / 64000) + MAX_RETRANSMITS
      datagrams, CONN and DATA together, all of them CONN or a chunk it has reached. */
  lemma {:induction false} RunAccounted(t: Transfer, c: Client, script: seq<Event>)
    requires Accounted(t, c)
    ensures Accounted(t, ClientRun(t, c, script))
    ensures |ClientRun(t, c, script).sent| <= 1 + t.NumPackets() + MAX_RETRANSMITS
    decreases |script|
  {
    hide ClientStep;
    if script == [] || c.phase.Done? {
    } else {
      StepAccounted(t, c, script[0]);
      RunAccounted(t, ClientStep(t, c, script[0]), script[1..]);
    }
  }

  // ----- Sends that fail -----

  /** The script with a receive error put in after each send that fails. */
  function WithErrors(t: Transfer, sends: seq<bool>, c: Client, script: seq<Event>): seq<Event>
    decreases |script|, if c.phase.Done? then 0 else |sends| + 2 - |c.sent|
  {
    if c.phase.Done? then []
    else if Refused(sends, c) then [Failure] + WithErrors(t, sends, OnError(t, c), script)
    else if script == [] then []
    else [script[0]] + WithErrors(t, sends, ClientStep(t, c, script[0]), script[1..])
  }

  /** Nothing but errors was put in. */
  predicate OnlyErrorsAdded(longer: seq<Event>, script: seq<Event>) {
    longer == []
    || (script != [] && longer[0] == script[0] && OnlyErrorsAdded(longer[1..], script[1..]))
    || (longer[0].Failure? && OnlyErrorsAdded(longer[1..], script))
  }

  /** Failing sends give the client no behaviour it does not have on some script without
      them, so that what holds of every script holds of these runs too. */
  lemma {:induction false} FailedSendsAreErrors(t: Transfer, sends: seq<bool>, c: Client, script: seq<Event>)
    ensures RunOver(t, sends, c, script) == ClientRun(t, c, WithErrors(t, sends, c, script))
    ensures OnlyErrorsAdded(WithErrors(t, sends, c, script), script)
    decreases |script|, if c.phase.Done? then 0 else |sends| + 2 - |c.sent|
  {
    hide OnTimeout, OnDatagram, ClientStep, OnError;
    if c.phase.Done? {
    } else if Refused(sends, c) {
      ErrorStep(t, c);
      var rest := WithErrors(t, sends, OnError(t, c), script);
      FailedSendsAreErrors(t, sends, OnError(t, c), script);
      assert ([Failure] + rest)[1..] == rest;
    } else if script != [] {
      var next := ClientStep(t, c, script[0]);
      var rest := WithErrors(t, sends, next, script[1..]);
      FailedSendsAreErrors(t, sends, next, script[1..]);
      assert ([script[0]] + rest)[1..] == rest;
    }
  }

  lemma ErrorStep(t: Transfer, c: Client)
    ensures ClientStep(t, c, Failure) == OnError(t, c)
    ensures !c.phase.Done? && c.sent != [] ==> OnError(t, c).phase.Done? || |OnError(t, c).sent| == |c.sent| + 1
  {
  }

  /** The whole client, whatever it receives and whichever sends fail: what it hands to
      sendto is within the budget and its own, and if it is delivered it has sent every
      chunk. */
  lemma EveryClient(t: Transfer, sends: seq<bool>, script: seq<Event>)
    ensures var r := RunOver(t, sends, ClientStart(t), script);
            && Accounted(t, r)
            && |r.sent| <= 1 + t.NumPackets() + MAX_RETRANSMITS
            && (r.phase == Done(Delivered) ==> forall i :: 0 <= i < t.NumPackets() ==> t.Packet(i) in r.sent)
  {
    FailedSendsAreErrors(t, sends, ClientStart(t), script);
    RunAccounted(t, ClientStart(t), WithErrors(t, sends, ClientStart(t), script));
  }

  // ----- Duplicates and other senders are invisible -----

  /** From the pinned server: an ACC below the current id, or before the first ACC a
      CONACC, of the session. */
  predicate Stale(t: Transfer, c: Client, e: Event) {
    && c.phase.Sending? && e.Datagram?
    && c.pinned == Some(e.src.ip) && e.src.port == t.server.port
    && var p := Parse(Truncated(e.bytes, RESPONSE_BUFF_SIZE));
       p.Some? && p.value.session == t.session
       && ((p.value.Acc? && p.value.id < c.id) || (p.value.Conacc? && c.id == 0))
  }

  /** Inserted anywhere, it changes neither what the client sends nor how it ends. */
  lemma StaleInvisible(t: Transfer, c: Client, before: seq<Event>, e: Event, after: seq<Event>)
    requires Stale(t, ClientRun(t, c, before), e)
    ensures ClientRun(t, c, before + [e] + after) == ClientRun(t, c, before + after)
  {
    var mid := ClientRun(t, c, before);
    ClientRunConcat(t, c, before, after);
    ClientRunConcat(t, c, before, [e] + after);
    assert before + [e] + after == before + ([e] + after);
    AckMeansParse(t, mid, Truncated(e.bytes, RESPONSE_BUFF_SIZE), e.env.acc);
    assert ([e] + after)[1..] == after;
    assert ClientStep(t, mid, e) == mid;
  }

  /** A datagram with bytes in it from an address that is not the pinned server. */
  predicate Outsider(t: Transfer, pinned: nat, e: Event) {
    e.Datagram? && e.bytes != [] && !(e.src.ip == pinned && e.src.port == t.server.port)
  }

  function WithoutOutsiders(t: Transfer, pinned: nat, script: seq<Event>): seq<Event> {
    if script == [] then []
    else (if Outsider(t, pinned, script[0]) then [] else [script[0]]) + WithoutOutsiders(t, pinned, script[1..])
  }

  lemma StepKeepsPin(t: Transfer, c: Client, e: Event)
    requires c.pinned.Some?
    ensures ClientStep(t, c, e).pinned == c.pinned
    ensures Outsider(t, c.pinned.value, e) ==> ClientStep(t, c, e) == c
  {
  }

  /** Once the server is pinned, the client behaves as if other senders did not exist. */
  lemma {:induction false} OutsidersInvisible(t: Transfer, c: Client, script: seq<Event>)
    requires c.pinned.Some?
    ensures ClientRun(t, c, script) == ClientRun(t, c, WithoutOutsiders(t, c.pinned.value, script))
    decreases |script|
  {
    hide ClientStep, Outsider;
    if script == [] || c.phase.Done? {
    } else {
      var e, next := script[0], ClientStep(t, c, script[0]);
      var rest := WithoutOutsiders(t, c.pinned.value, script[1..]);
      StepKeepsPin(t, c, e);
      OutsidersInvisible(t, next, script[1..]);
      if Outsider(t, c.pinned.value, e) {
        assert [] + rest == rest;
      } else {
        assert ([e] + rest)[1..] == rest;
      }
    }
  }
}
