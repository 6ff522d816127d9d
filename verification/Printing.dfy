// helper_func.c: what print_data_to_stdout lets through.

/** The server hands every accepted payload to printf("%.*s"), which stops at the first
    NUL of the payload. */
module Printing {
  import opened Packets
  import opened StructMemory
  import opened Chunks

  /** The bytes that "%.*s" prints of `bs`. */
  function BeforeNul(bs: seq<byte>): (r: seq<byte>)
    ensures r <= bs && 0 !in r
    ensures |r| < |bs| ==> bs[|r|] == 0
  {
    if bs == [] || bs[0] == 0 then [] else [bs[0]] + BeforeNul(bs[1..])
  }

  /** Standard output after these payloads were printed. */
  function Printed(payloads: seq<seq<byte>>): seq<byte> {
    if payloads == [] then [] else Printed(payloads[..|payloads| - 1]) + BeforeNul(payloads[|payloads| - 1])
  }

  /** All of it comes out exactly if there is no NUL. */
  lemma BeforeNulIsAll(bs: seq<byte>)
    ensures |BeforeNul(bs)| == |bs| <==> 0 !in bs
    ensures 0 !in bs ==> BeforeNul(bs) == bs
  {
    var r := BeforeNul(bs);
    if |r| == |bs| {
      assert r == bs;
    } else {
      assert bs[|r|] in bs;
    }
  }

  /** What strncpy turned into NULs would not have been printed anyway. */
  lemma {:induction false} CopyPrintsAlike(bs: seq<byte>)
    ensures BeforeNul(Strncpy(bs)) == BeforeNul(bs)
  {
    if bs == [] || bs[0] == 0 {
    } else {
      assert Strncpy(bs)[1..] == Strncpy(bs[1..]);
      CopyPrintsAlike(bs[1..]);
    }
  }

  lemma PrintedSnoc(payloads: seq<seq<byte>>, payload: seq<byte>)
    ensures Printed(payloads + [payload]) == Printed(payloads) + BeforeNul(payload)
  {
    assert (payloads + [payload])[..|payloads|] == payloads;
  }

  /** `out` came out for `start`: all of it exactly if there is no NUL in it. */
  predicate CameOut(start: seq<byte>, out: seq<byte>) {
    && |out| <= |start|
    && (|out| == |start| <==> 0 !in start)
    && (0 !in start ==> out == start)
  }

  lemma OneMoreCameOut(start: seq<byte>, chunk: seq<byte>, out: seq<byte>)
    requires CameOut(start, out)
    ensures CameOut(start + chunk, out + BeforeNul(chunk))
  {
    hide BeforeNul;
    BeforeNulIsAll(chunk);
  }

  lemma {:induction false} PrintedPrefix(data: seq<byte>, k: nat)
    requires k <= NumChunks(|data|)
    ensures CameOut(data[..Offset(|data|, k)], Printed(Payloads(data, k)))
  {
    hide Payloads, Printed, CameOut, Offset;
    if k == 0 {
      NothingCameOut(data);
    } else {
      PrintedPrefix(data, k - 1);
      OneChunkMore(data, k - 1);
    }
  }

  lemma NothingCameOut(data: seq<byte>)
    ensures CameOut(data[..Offset(|data|, 0)], Printed(Payloads(data, 0)))
  {
  }

  lemma OneChunkMore(data: seq<byte>, k: nat)
    requires k < NumChunks(|data|) && CameOut(data[..Offset(|data|, k)], Printed(Payloads(data, k)))
    ensures CameOut(data[..Offset(|data|, k + 1)], Printed(Payloads(data, k + 1)))
  {
    hide BeforeNul, Payloads, Printed, Strncpy, Offset, CameOut;
    PayloadsNext(data, k);
    PrintedSnoc(Payloads(data, k), Payload(data, k));
    CopyPrintsAlike(Chunk(data, k));
    ChunkSplits(data, k);
    OneMoreCameOut(data[..Offset(|data|, k)], Chunk(data, k), Printed(Payloads(data, k)));
  }

  /** For all data: what comes out for its chunks is the data, or has as much as its
      length, exactly if the data has no NUL. Otherwise it is shorter. */
  lemma PrintedIsData(data: seq<byte>)
    ensures var out := Printed(Payloads(data, NumChunks(|data|)));
            && (out == data <==> 0 !in data)
            && (|out| == |data| <==> 0 !in data)
            && |out| <= |data|
  {
    PrintedPrefix(data, NumChunks(|data|));
    assert data[..|data|] == data;
  }

  /** The NUL that ends the data is lost although the payload carries it. */
  lemma TrailingNulLost(b: byte)
    requires b != 0
    ensures Joined(Payloads([b, 0], 1)) == [b, 0] && Printed(Payloads([b, 0], 1)) == [b]
  {
    var data := [b, 0];
    StrncpyIdentity(data);
    assert Chunk(data, 0) == data;
    assert Payloads(data, 1) == [] + [Payload(data, 0)];
    JoinedSnoc([], data);
    PrintedSnoc([], data);
    assert data[1..] == [0];
    assert BeforeNul(data) == [b];
  }
}
