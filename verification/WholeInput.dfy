// From standard input to the server's output.

/** What a client sends is what its vector holds of the blocks it read. Which standard
    inputs are accepted, and which are printed, byte for byte, by a server that received
    everything. */
module WholeInput {
  import opened Packets
  import opened StructMemory
  import opened Network
  import opened Chunks
  import opened Printing
  import opened InputVector
  import opened UdpSession
  import opened UdprClientSpec
  import opened PlainUdp
  import opened TcpFraming
  import opened ClosedSystem
  import opened EndToEnd
  import P = Protocol

  /** The bytes handed to the client after these results of read(). */
  function Held(blocks: seq<seq<byte>>): (data: seq<byte>)
    ensures |data| == |Joined(blocks)|
  {
    Filled(blocks).contents
  }

  /** All payloads of this data. */
  function AllPayloads(data: seq<byte>): seq<seq<byte>> {
    Payloads(data, NumChunks(|data|))
  }

  lemma {:induction false} PayloadsFade(data: seq<byte>, k: nat)
    requires k <= NumChunks(|data|)
    ensures Faded(data[..Offset(|data|, k)], Joined(Payloads(data, k)))
  {
    hide Payloads, Offset, Joined, Faded;
    if k == 0 {
      NothingFades(data);
    } else {
      PayloadsFade(data, k - 1);
      OneChunkFades(data, k - 1);
    }
  }

  lemma OneChunkFades(data: seq<byte>, k: nat)
    requires k < NumChunks(|data|) && Faded(data[..Offset(|data|, k)], Joined(Payloads(data, k)))
    ensures Faded(data[..Offset(|data|, k + 1)], Joined(Payloads(data, k + 1)))
  {
    hide Payloads, Payload, Chunk, Offset, Joined, Strncpy, Faded;
    PayloadsNext(data, k);
    ChunkSplits(data, k);
    JoinedSnoc(Payloads(data, k), Payload(data, k));
    PayloadFades(data, k);
    FadedConcat(data[..Offset(|data|, k)], Chunk(data, k), Joined(Payloads(data, k)), Payload(data, k));
  }

  lemma NothingFades(data: seq<byte>)
    ensures Faded(data[..Offset(|data|, 0)], Joined(Payloads(data, 0)))
  {
  }

  lemma PayloadFades(data: seq<byte>, k: nat)
    requires k < NumChunks(|data|)
    ensures Faded(Chunk(data, k), Payload(data, k))
  {
    StrncpyFades(Chunk(data, k));
  }

  /** What was lost in the first copy is not regained in the second. */
  lemma FadedTwice(a: seq<byte>, b: seq<byte>, c: seq<byte>)
    requires Faded(a, b) && Faded(b, c)
    ensures c == a <==> b == a && c == b
  {
    if c == a {
      forall i | 0 <= i < |a|
        ensures b[i] == a[i]
      {
        assert c[i] == a[i];
      }
    }
  }

  /** For every standard input: the accepted bytes of a complete transfer are the input
      exactly if neither the vector's copies, in blocks as they were read and when it
      grew, nor the copies of the chunks met a byte after a NUL. */
  lemma AcceptedIsInput(blocks: seq<seq<byte>>)
    ensures |Joined(AllPayloads(Held(blocks)))| == |Joined(blocks)|
    ensures Joined(AllPayloads(Held(blocks))) == Joined(blocks)
       <==> Undisturbed(blocks) && NulsEndChunks(Joined(blocks), NumChunks(|Joined(blocks)|))
  {
    hide Payloads, Joined, Faded, Undisturbed, NulsEndChunks, NumChunks;
    var data, input := Held(blocks), Joined(blocks);
    var accepted := Joined(AllPayloads(data));
    ContentsExactly(blocks);
    WholeFades(data);
    FadedLength(data, accepted);
    FadedTwice(input, data, accepted);
    PayloadsSpellData(data);
  }

  lemma WholeFades(data: seq<byte>)
    ensures Faded(data, Joined(AllPayloads(data)))
  {
    hide Payloads, Joined, Faded;
    PayloadsFade(data, NumChunks(|data|));
    WholeOffset(|data|);
    assert data[..|data|] == data;
  }

  lemma WholeOffset(size: nat)
    ensures Offset(size, NumChunks(size)) == size
  {
  }

  /** And what is printed is the input, or has as much as its length, exactly if the input
      has no NUL. */
  lemma PrintedIsStdin(blocks: seq<seq<byte>>)
    ensures var out, input := Printed(AllPayloads(Held(blocks))), Joined(blocks);
            && (out == input <==> 0 !in input)
            && (|out| == |input| <==> 0 !in input)
  {
    hide Payloads, Printed, NumChunks, Undisturbed;
    var data, input := Held(blocks), Joined(blocks);
    ContentsExactly(blocks);
    PrintedIsData(data);
    if 0 in input {
      var i :| 0 <= i < |input| && input[i] == 0;
      assert data[i] == 0;
    } else {
      NulFreeUndisturbed(blocks);
    }
  }

  // ----- An input that the chunks alone would have kept -----

  /** Two full reads with one NUL, the last byte of chunk 0: it fits into the vector and no
      chunk has a byte after a NUL, but in its block the NUL is not the last. */
  lemma NulWithinBlock(a: seq<byte>, b: seq<byte>)
    requires |a| == |b| == INPUT_BUFF_SIZE && 0 !in a
    requires forall i :: 0 <= i < |b| ==> (b[i] == 0 <==> i == SEND_BUFF_SIZE - 1 - INPUT_BUFF_SIZE)
    ensures AllFit([a, b]) && NulsEndChunks(Joined([a, b]), NumChunks(|Joined([a, b])|))
    ensures Joined(AllPayloads(Held([a, b]))) != Joined([a, b])
  {
    var blocks, input := [a, b], a + b;
    TwoJoined(a, b);
    FullBlocksFit(blocks);
    OneNulEndsChunk(a, b);
    AcceptedIsInput(blocks);
    var p := SEND_BUFF_SIZE - 1 - INPUT_BUFF_SIZE;
    assert b[p] == 0 && b[p + 1] != 0;
    assert blocks[|blocks| - 1] == b;
    assert !TailNul(b);
  }

  lemma TwoJoined(a: seq<byte>, b: seq<byte>)
    ensures Joined([a, b]) == a + b && Total([a, b]) == |a| + |b|
  {
    JoinedSnoc([], a);
    JoinedSnoc([a], b);
    assert [] + [a] == [a] && [a] + [b] == [a, b];
  }

  lemma OneNulEndsChunk(a: seq<byte>, b: seq<byte>)
    requires |a| == |b| == INPUT_BUFF_SIZE && 0 !in a
    requires forall i :: 0 <= i < |b| ==> (b[i] == 0 <==> i == SEND_BUFF_SIZE - 1 - INPUT_BUFF_SIZE)
    ensures NulsEndChunks(a + b, NumChunks(|a + b|))
  {
    var input, p := a + b, SEND_BUFF_SIZE - 1;
    forall i | 0 <= i < |input|
      ensures input[i] == 0 <==> i == p
    {
      if i < |a| {
        assert a[i] in a;
      }
    }
    assert NumChunks(|input|) == 2;
    assert Chunk(input, 0) == input[..SEND_BUFF_SIZE] && Chunk(input, 1) == input[SEND_BUFF_SIZE..];
    assert TailNul(Chunk(input, 0)) && TailNul(Chunk(input, 1));
    assert NulsEndChunks(input, 1) by {
      assert NulsEndChunks(input, 0);
    }
  }

  /** And the other way round: a short read that ends with a NUL, and one byte more. The
      vector keeps the input, but its one chunk has a byte after a NUL. */
  lemma NulBetweenReads(b: byte, c: byte)
    requires b != 0 && c != 0
    ensures Held([[b, 0], [c]]) == Joined([[b, 0], [c]])
    ensures Joined(AllPayloads(Held([[b, 0], [c]]))) != Joined([[b, 0], [c]])
  {
    var blocks, input := [[b, 0], [c]], [b, 0, c];
    TwoJoined([b, 0], [c]);
    assert [b, 0] + [c] == input;
    assert blocks[..1] == [[b, 0]] && [[b, 0]][..0] == [];
    assert Filled([]) == Vec([], INIT_VEC_SIZE);
    assert Undisturbed([]) && TailNul([b, 0]) && TailNul([c]);
    assert Undisturbed([[b, 0]]) && Filled([[b, 0]]).capacity == INIT_VEC_SIZE && Total([[b, 0]]) == 2;
    assert Undisturbed(blocks);
    ContentsExactly(blocks);
    assert Chunk(input, 0) == input;
    assert input[1] == 0 && input[2] != 0;
    assert !NulsEndChunks(input, 1);
    AcceptedIsInput(blocks);
  }

  // ----- The three transports -----

  /** The payloads a server took are those of this standard input: accepted and printed
      bytes are the input exactly under the conditions above. */
  ghost predicate Faithful(payloads: seq<seq<byte>>, blocks: seq<seq<byte>>) {
    && (Joined(payloads) == Joined(blocks) <==>
        Undisturbed(blocks) && NulsEndChunks(Joined(blocks), NumChunks(|Joined(blocks)|)))
    && (Printed(payloads) == Joined(blocks) <==> 0 !in Joined(blocks))
  }

  lemma WholeIsFaithful(t: Transfer, blocks: seq<seq<byte>>)
    requires t.data == Held(blocks)
    ensures Faithful(Payloads(t.data, t.NumPackets()), blocks)
  {
    hide Payloads, Joined, Printed, Undisturbed, NulsEndChunks;
    AcceptedIsInput(blocks);
    PrintedIsStdin(blocks);
  }

  /** UDPR: every complete session of every run on every network. */
  lemma UdprFaithful(sys: System, net: P.Net, acts: seq<P.Action>, blocks: seq<seq<byte>>)
    requires |sys.t.data| > 0 && Feasible(sys, net, acts)
    ensures sys.t.data == Held(blocks) ==>
              forall k :: 0 <= k < |After(sys, acts).server.Sessions()|
                       && After(sys, acts).server.Sessions()[k].outcome.Received?
                       ==> Faithful(After(sys, acts).server.Sessions()[k].accepted, blocks)
  {
    hide After, Payloads, Faithful;
    CompleteIsWhole(sys, net, acts);
    if sys.t.data == Held(blocks) {
      WholeIsFaithful(sys.t, blocks);
    }
  }

  /** UDP: every session that completes on an honest client's datagrams. */
  lemma UdpFaithful(t: Transfer, me: Addr, replyTo: Addr, sent: seq<Sent>, script: seq<Event>, blocks: seq<seq<byte>>)
    requires |t.data| > 0 && HonestTraffic(t, me, script) && t.data == Held(blocks)
    ensures var r := Run(Udp, UdpSession.Start(Udp, me, t.session, |t.data|, replyTo, sent), script);
            r.outcome.Received? ==> Faithful(r.accepted, blocks)
  {
    hide Run, Payloads, Faithful, HonestTraffic;
    UdpEndToEnd(t, me, replyTo, sent, script);
    WholeIsFaithful(t, blocks);
  }

  /** TCP: every transfer, whatever the client's struct held at first. */
  lemma TcpFaithful(t: Transfer, area: Area, blocks: seq<seq<byte>>)
    requires |t.data| > 0 && t.data == Held(blocks)
    ensures Faithful(Serve(StreamFrom(t, 0, area), t.session, |t.data|, 0, 0, []).payloads, blocks)
  {
    hide Serve, StreamFrom, Payloads, Faithful;
    TcpRoundTrip(t, area);
    WholeIsFaithful(t, blocks);
  }
}
