// helper_func.c: whom the UDPR client takes for its server.

/** wait_for_server_response never compares a sender with the address the client sent its
    CONN to. It takes over the IP address of the first datagram with bytes in it and keeps
    the port. Exactly when that address is the server's is the client safe from others. */
module FirstSpeaker {
  import opened Packets
  import opened Network
  import opened UdprClientSpec
  import opened UdprClientProperties

  predicate Speaks(e: Event) {
    e.Datagram? && e.bytes != []
  }

  /** The IP address the client will pin. */
  function FirstIp(script: seq<Event>): Option<nat> {
    if script == [] then None
    else if Speaks(script[0]) then Some(script[0].src.ip)
    else FirstIp(script[1..])
  }

  predicate SameButPin(c: Client, d: Client) {
    d == c.(pinned := d.pinned)
  }

  lemma {:induction false} PinIrrelevant(t: Transfer, c: Client, d: Client, script: seq<Event>, ip: nat)
    requires SameButPin(c, d) && d.pinned == Some(ip)
    requires c.pinned == Some(ip) || (c.pinned.None? && forall e :: e in script ==> !Outsider(t, ip, e))
    ensures SameButPin(ClientRun(t, c, script), ClientRun(t, d, script))
    decreases |script|
  {
    hide OnTimeout, OnError, OnDatagram;
    if script != [] && !c.phase.Done? {
      var e := script[0];
      assert e in script;
      SameStep(t, c, d, e, ip);
      assert forall x :: x in script[1..] ==> x in script;
      PinIrrelevant(t, ClientStep(t, c, e), ClientStep(t, d, e), script[1..], ip);
    }
  }

  lemma SameStep(t: Transfer, c: Client, d: Client, e: Event, ip: nat)
    requires SameButPin(c, d) && d.pinned == Some(ip) && (c.pinned == Some(ip) || (c.pinned.None? && !Outsider(t, ip, e)))
    ensures SameButPin(ClientStep(t, c, e), ClientStep(t, d, e))
    ensures ClientStep(t, d, e).pinned == Some(ip)
    ensures ClientStep(t, c, e).pinned == Some(ip) || ClientStep(t, c, e).pinned == c.pinned
  {
    hide OnReply, OnAck, OnClose;
    if e.Datagram? {
      KeepsPin(t, c.(pinned := Some(ip)), Truncated(e.bytes, RESPONSE_BUFF_SIZE), e.env);
    }
    AloneSame(t, c, d);
  }

  lemma KeepsPin(t: Transfer, c: Client, got: seq<byte>, env: Env)
    ensures OnDatagram(t, c, got, env).pinned == c.pinned
  {
  }

  lemma AloneSame(t: Transfer, c: Client, d: Client)
    requires SameButPin(c, d)
    ensures SameButPin(OnTimeout(t, c), OnTimeout(t, d)) && SameButPin(OnError(t, c), OnError(t, d))
    ensures OnTimeout(t, c).pinned == c.pinned && OnError(t, c).pinned == c.pinned
    ensures OnTimeout(t, d).pinned == d.pinned && OnError(t, d).pinned == d.pinned
  {
  }

  lemma OnlyInsiders(t: Transfer, ip: nat, script: seq<Event>)
    ensures forall e :: e in WithoutOutsiders(t, ip, script) ==> !Outsider(t, ip, e)
  {
  }

  /** Whoever speaks first, the client then behaves as if nobody else existed but that IP
      address on the server's port. */
  lemma {:induction false} FirstIpRules(t: Transfer, c: Client, script: seq<Event>, ip: nat)
    requires c.pinned.None? && FirstIp(script) == Some(ip)
    ensures SameButPin(ClientRun(t, c, script), ClientRun(t, c, WithoutOutsiders(t, ip, script)))
    decreases |script|
  {
    hide OnTimeout, OnError, OnDatagram;
    var e, rest := script[0], script[1..];
    var kept := WithoutOutsiders(t, ip, rest);
    if !c.phase.Done? {
      var next := ClientStep(t, c, e);
      if Speaks(e) {
        FirstSpeech(t, c, e);
        OutsidersInvisible(t, next, rest);
        if Outsider(t, ip, e) {
          assert WithoutOutsiders(t, ip, script) == [] + kept == kept;
          OnlyInsiders(t, ip, rest);
          PinIrrelevant(t, c, next, kept, ip);
        } else {
          assert WithoutOutsiders(t, ip, script) == [e] + kept && ([e] + kept)[1..] == kept;
        }
      } else {
        StaysUnpinned(t, c, e);
        FirstIpRules(t, next, rest, ip);
        assert WithoutOutsiders(t, ip, script) == [e] + kept && ([e] + kept)[1..] == kept;
      }
    }
  }

  lemma FirstSpeech(t: Transfer, c: Client, e: Event)
    requires c.pinned.None? && Speaks(e)
    ensures ClientStep(t, c, e).pinned == Some(e.src.ip)
    ensures Outsider(t, e.src.ip, e) ==> SameButPin(c, ClientStep(t, c, e))
  {
    hide OnReply, OnAck, OnClose;
    KeepsPin(t, c.(pinned := Some(e.src.ip)), Truncated(e.bytes, RESPONSE_BUFF_SIZE), e.env);
  }

  lemma StaysUnpinned(t: Transfer, c: Client, e: Event)
    requires c.pinned.None? && !Speaks(e)
    ensures ClientStep(t, c, e).pinned.None?
  {
  }

  // ----- When it is the server that speaks first -----

  /** Then only the server is heard. */
  lemma ServerFirst(t: Transfer, script: seq<Event>)
    requires FirstIp(script) == Some(t.server.ip)
    ensures SameButPin(ClientRun(t, ClientStart(t), script),
                       ClientRun(t, ClientStart(t), WithoutOutsiders(t, t.server.ip, script)))
    ensures forall e :: e in WithoutOutsiders(t, t.server.ip, script) && Speaks(e) ==> e.src == t.server
  {
    FirstIpRules(t, ClientStart(t), script, t.server.ip);
    OnlyInsiders(t, t.server.ip, script);
  }

  // ----- When it is not -----

  predicate FromServer(t: Transfer, e: Event) {
    Speaks(e) && e.src.ip == t.server.ip
  }

  function WithoutServer(t: Transfer, script: seq<Event>): seq<Event> {
    if script == [] then []
    else (if FromServer(t, script[0]) then [] else [script[0]]) + WithoutServer(t, script[1..])
  }

  /** Then the server might as well have sent nothing. */
  lemma {:induction false} StrangerFirst(t: Transfer, c: Client, script: seq<Event>)
    requires if c.pinned.Some? then c.pinned.value != t.server.ip
             else FirstIp(script).Some? && FirstIp(script).value != t.server.ip
    ensures ClientRun(t, c, script) == ClientRun(t, c, WithoutServer(t, script))
    decreases |script|
  {
    hide OnTimeout, OnError, OnDatagram;
    if script != [] && !c.phase.Done? {
      var e, rest := script[0], script[1..];
      var kept, next := WithoutServer(t, rest), ClientStep(t, c, e);
      if c.pinned.Some? {
        StepKeepsPin(t, c, e);
      } else if Speaks(e) {
        FirstSpeech(t, c, e);
      } else {
        StaysUnpinned(t, c, e);
      }
      StrangerFirst(t, next, rest);
      if FromServer(t, e) {
        assert WithoutServer(t, script) == [] + kept == kept;
      } else {
        assert WithoutServer(t, script) == [e] + kept && ([e] + kept)[1..] == kept;
      }
    }
  }

  // ----- The condition is exact -----

  function Reply(addr: Addr, p: Packet): Event {
    Datagram(addr, Encode(p), ENV)
  }

  /** ACC k to the last one, and RCVD, from one address. */
  function AcksFrom(t: Transfer, addr: Addr, k: nat): seq<Event>
    requires k <= t.NumPackets()
    decreases t.NumPackets() - k
  {
    if k == t.NumPackets() then [Reply(addr, Rcvd(t.session))]
    else [Reply(addr, Acc(t.session, k))] + AcksFrom(t, addr, k + 1)
  }

  /** A faultless server at this address. */
  function Answers(t: Transfer, addr: Addr): seq<Event> {
    [Reply(addr, Conacc(t.session))] + AcksFrom(t, addr, 0)
  }

  lemma ReplyFits(addr: Addr, p: Packet)
    requires p.Conacc? || p.Acc? || p.Rcvd?
    ensures Reply(addr, p).bytes != [] && Truncated(Reply(addr, p).bytes, RESPONSE_BUFF_SIZE) == Encode(p)
    ensures Parse(Encode(p)) == Some(p)
  {
    EncodedFields(p);
    ParseEncode(p);
  }

  lemma ReplySpeaks(addr: Addr, p: Packet)
    requires p.Conacc? || p.Acc? || p.Rcvd?
    ensures Speaks(Reply(addr, p)) && Reply(addr, p).src == addr
  {
    hide Encode, Parse;
    ReplyFits(addr, p);
  }

  lemma {:induction false} AcksDeliver(t: Transfer, c: Client, addr: Addr, k: nat)
    requires k <= t.NumPackets() && c.id == k && c.phase == (if k < t.NumPackets() then Sending else Closing)
    requires c.pinned == Some(addr.ip) && addr.port == t.server.port
    ensures ClientRun(t, c, AcksFrom(t, addr, k)).phase == Done(Delivered)
    decreases t.NumPackets() - k
  {
    hide Encode, Parse, OnAck, OnClose;
    var script := AcksFrom(t, addr, k);
    if k == t.NumPackets() {
      ReplyFits(addr, Rcvd(t.session));
      CloseMeansParse(t, c, Encode(Rcvd(t.session)), ENV.head, ENV.acc);
    } else {
      ReplyFits(addr, Acc(t.session, k));
      AckMeansParse(t, c, Encode(Acc(t.session, k)), ENV.acc);
      assert script[1..] == AcksFrom(t, addr, k + 1);
      AcksDeliver(t, ClientStep(t, c, script[0]), addr, k + 1);
    }
  }

  lemma {:induction false} AcksFromThere(t: Transfer, addr: Addr, k: nat)
    requires k <= t.NumPackets()
    ensures forall e :: e in AcksFrom(t, addr, k) ==> Speaks(e) && e.src == addr
    decreases t.NumPackets() - k
  {
    hide Encode, Parse, Speaks;
    if k == t.NumPackets() {
      ReplySpeaks(addr, Rcvd(t.session));
    } else {
      ReplySpeaks(addr, Acc(t.session, k));
      AcksFromThere(t, addr, k + 1);
      assert AcksFrom(t, addr, k) == [Reply(addr, Acc(t.session, k))] + AcksFrom(t, addr, k + 1);
    }
  }

  lemma AnswersFromThere(t: Transfer, addr: Addr)
    ensures forall e :: e in Answers(t, addr) ==> Speaks(e) && e.src == addr
  {
    ReplyFits(addr, Conacc(t.session));
    AcksFromThere(t, addr, 0);
  }

  lemma {:induction false} UnheardStays(t: Transfer, c: Client, script: seq<Event>)
    requires c.pinned.Some? && forall e :: e in script ==> Outsider(t, c.pinned.value, e)
    ensures ClientRun(t, c, script) == c
    decreases |script|
  {
    if script != [] && !c.phase.Done? {
      assert script[0] in script && forall x :: x in script[1..] ==> x in script;
      UnheardStays(t, c, script[1..]);
    }
  }

  /** Nobody but an address on the server's port can complete a transfer, and anybody
      there can: the server itself need not have sent anything. */
  lemma AnyoneDelivers(t: Transfer, addr: Addr)
    ensures ClientRun(t, ClientStart(t), Answers(t, addr)).phase == Done(Delivered) <==> addr.port == t.server.port
  {
    var c, script := ClientStart(t), Answers(t, addr);
    AnswersDeliver(t, c, addr);
    AnswersFromThere(t, addr);
    if addr.port != t.server.port {
      FirstSpeech(t, c, script[0]);
      assert Outsider(t, addr.ip, script[0]) && forall x :: x in script[1..] ==> x in script;
      UnheardStays(t, ClientStep(t, c, script[0]), script[1..]);
    }
  }

  lemma AnswersDeliver(t: Transfer, c: Client, addr: Addr)
    requires c.phase.Connecting? && c.id == 0 && (c.pinned.None? || c.pinned == Some(addr.ip))
    ensures addr.port == t.server.port ==> ClientRun(t, c, Answers(t, addr)).phase == Done(Delivered)
  {
    hide Encode, Parse, OnReply;
    if addr.port == t.server.port {
      var script := Answers(t, addr);
      ReplyFits(addr, Conacc(t.session));
      var heard := c.(pinned := Some(addr.ip));
      ReplyMeansParse(t, heard, Encode(Conacc(t.session)), ENV.head);
      assert script[1..] == AcksFrom(t, addr, 0);
      assert ClientStep(t, c, script[0]) == SendNext(t, heard);
      AcksDeliver(t, SendNext(t, heard), addr, 0);
    }
  }

  /** One datagram from elsewhere before a faultless server's answers: the transfer still
      completes exactly if it comes from the server's IP address. */
  lemma OneStranger(t: Transfer, c: Client, e: Event)
    requires c.phase.Connecting? && c.id == 0 && c.pinned.None? && Speaks(e) && e.src != t.server
    ensures ClientRun(t, c, [e] + Answers(t, t.server)).phase == Done(Delivered) <==> e.src.ip == t.server.ip
  {
    hide OnReply;
    var script, next := [e] + Answers(t, t.server), ClientStep(t, c, e);
    assert script[1..] == Answers(t, t.server);
    FirstSpeech(t, c, e);
    AnswersFromThere(t, t.server);
    if e.src.ip == t.server.ip {
      AnswersDeliver(t, next, t.server);
    } else {
      UnheardStays(t, next, Answers(t, t.server));
      NotAtOnce(t, c.(pinned := Some(e.src.ip)), Truncated(e.bytes, RESPONSE_BUFF_SIZE), e.env);
    }
  }

  lemma NotAtOnce(t: Transfer, c: Client, got: seq<byte>, env: Env)
    requires c.phase.Connecting?
    ensures OnDatagram(t, c, got, env).phase != Done(Delivered)
  {
  }

  /** A connecting client hears its first datagram. Whatever follows it, the client behaves
      as if only the server existed - exactly if that datagram has the server's IP. */
  lemma FirstDatagramDecides(t: Transfer, c: Client, e: Event)
    requires c.phase.Connecting? && c.id == 0 && c.pinned.None? && Speaks(e)
    ensures (forall rest ::
               SameButPin(ClientRun(t, c, [e] + rest), ClientRun(t, c, WithoutOutsiders(t, t.server.ip, [e] + rest))))
            <==> e.src.ip == t.server.ip
  {
    if e.src.ip == t.server.ip {
      forall rest
        ensures SameButPin(ClientRun(t, c, [e] + rest), ClientRun(t, c, WithoutOutsiders(t, t.server.ip, [e] + rest)))
      {
        FirstIpRules(t, c, [e] + rest, t.server.ip);
      }
    } else {
      hide ClientRun;
      var rest := Answers(t, t.server);
      OneStranger(t, c, e);
      AnswersDeliver(t, c, t.server);
      AnswersFromThere(t, t.server);
      InsidersKept(t, t.server.ip, rest);
      assert ([e] + rest)[0] == e && ([e] + rest)[1..] == rest;
      assert WithoutOutsiders(t, t.server.ip, [e] + rest) == [] + rest == rest;
    }
  }

  lemma {:induction false} InsidersKept(t: Transfer, ip: nat, script: seq<Event>)
    requires forall e :: e in script ==> !Outsider(t, ip, e)
    ensures WithoutOutsiders(t, ip, script) == script
  {
    if script != [] {
      assert script[0] in script && forall x :: x in script[1..] ==> x in script;
      InsidersKept(t, ip, script[1..]);
    }
  }
}
