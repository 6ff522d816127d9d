// How the clients cut their data into DATA packets.

/** The reference definition of chunk i of the data, the 32-bit counters of the three
    send loops, and what strncpy does to the bytes on the way. */
module Chunks {
  import opened Packets
  import opened StructMemory

  // ----- Sequences of payloads -----

  function Joined(parts: seq<seq<byte>>): seq<byte> {
    if parts == [] then [] else Joined(parts[..|parts| - 1]) + parts[|parts| - 1]
  }

  function Total(parts: seq<seq<byte>>): (n: nat)
    ensures n == |Joined(parts)|
  {
    if parts == [] then 0 else Total(parts[..|parts| - 1]) + |parts[|parts| - 1]|
  }

  lemma JoinedSnoc(parts: seq<seq<byte>>, part: seq<byte>)
    ensures Joined(parts + [part]) == Joined(parts) + part
    ensures Total(parts + [part]) == Total(parts) + |part|
  {
    assert (parts + [part])[..|parts|] == parts;
  }

  // ----- Chunks of the data -----

  function NumChunks(size: nat): nat {
    (size + SEND_BUFF_SIZE - 1) / SEND_BUFF_SIZE
  }

  /** How many bytes of the data the first k chunks cover. */
  function Offset(size: nat, k: nat): (at: nat)
    ensures at <= size
  {
    if k * SEND_BUFF_SIZE < size then k * SEND_BUFF_SIZE else size
  }

  function Chunk(data: seq<byte>, i: nat): (c: seq<byte>)
    requires i < NumChunks(|data|)
  {
    data[Offset(|data|, i)..Offset(|data|, i + 1)]
  }

  /** Every chunk has 1 to 64000 bytes and only the last one can be short. */
  lemma ChunkSize(data: seq<byte>, i: nat)
    requires i < NumChunks(|data|)
    ensures 1 <= |Chunk(data, i)| <= SEND_BUFF_SIZE
    ensures i + 1 < NumChunks(|data|) ==> |Chunk(data, i)| == SEND_BUFF_SIZE
    ensures |Chunk(data, i)| == Offset(|data|, i + 1) - Offset(|data|, i)
    ensures Offset(|data|, i + 1) == |data| <==> i + 1 == NumChunks(|data|)
  {
  }

  /** What arrives of chunk i: the bytes strncpy copied into the packet. */
  function Payload(data: seq<byte>, i: nat): (c: seq<byte>)
    requires i < NumChunks(|data|)
    ensures |c| == |Chunk(data, i)| <= SEND_BUFF_SIZE
  {
    ChunkSize(data, i);
    Strncpy(Chunk(data, i))
  }

  function Payloads(data: seq<byte>, k: nat): (ps: seq<seq<byte>>)
    requires k <= NumChunks(|data|)
    ensures |ps| == k && forall i :: 0 <= i < k ==> ps[i] == Payload(data, i)
  {
    if k == 0 then [] else Payloads(data, k - 1) + [Payload(data, k - 1)]
  }

  lemma PayloadsPrefix(data: seq<byte>, j: nat, k: nat)
    requires j <= k <= NumChunks(|data|)
    ensures Payloads(data, k)[..j] == Payloads(data, j)
  {
  }

  /** Conservation: the first k payloads have exactly the bytes the loop has counted. */
  lemma {:induction false} PayloadsTotal(data: seq<byte>, k: nat)
    requires k <= NumChunks(|data|)
    ensures Total(Payloads(data, k)) == Offset(|data|, k)
  {
    if k == 0 {
    } else {
      PayloadsTotal(data, k - 1);
      ChunkSize(data, k - 1);
      JoinedSnoc(Payloads(data, k - 1), Payload(data, k - 1));
    }
  }

  // ----- strncpy and NUL bytes -----

  /** No byte other than NUL after a NUL. */
  ghost predicate TailNul(bs: seq<byte>) {
    forall i, j :: 0 <= i < j < |bs| && bs[i] == 0 ==> bs[j] == 0
  }

  /** strncpy is the identity exactly on strings whose NULs are all at the end. */
  lemma {:induction false} StrncpyIdentity(bs: seq<byte>)
    ensures Strncpy(bs) == bs <==> TailNul(bs)
  {
    if bs == [] {
    } else if bs[0] == 0 {
      assert Strncpy(bs) == bs ==> TailNul(bs) by {
        if Strncpy(bs) == bs {
          assert forall j :: 0 <= j < |bs| ==> Strncpy(bs)[j] == 0;
        }
      }
    } else {
      StrncpyIdentity(bs[1..]);
      assert bs == [bs[0]] + bs[1..];
      assert Strncpy(bs)[1..] == Strncpy(bs[1..]);
      if TailNul(bs[1..]) {
        forall i, j | 0 <= i < j < |bs| && bs[i] == 0
          ensures bs[j] == 0
        {
          assert bs[1..][i - 1] == 0 && bs[1..][j - 1] == bs[j];
        }
      }
      if TailNul(bs) {
        forall i, j | 0 <= i < j < |bs| - 1 && bs[1..][i] == 0
          ensures bs[1..][j] == 0
        {
          assert bs[i + 1] == 0 && bs[j + 1] == bs[1..][j];
        }
      }
    }
  }

  /** Byte for byte: what stands after a NUL becomes NUL, the rest is copied. */
  lemma {:induction false} StrncpyAt(bs: seq<byte>, i: nat)
    requires i < |bs|
    ensures Strncpy(bs)[i] == if 0 in bs[..i] then 0 else bs[i]
  {
    if bs[0] == 0 {
      if i > 0 {
        assert bs[..i][0] == 0;
      }
    } else if i > 0 {
      StrncpyAt(bs[1..], i - 1);
      assert bs[..i] == [bs[0]] + bs[1..][..i - 1];
    }
  }

  /** The copy is made twice, first into a buffer and then into the packet. */
  lemma {:induction false} StrncpyTwice(bs: seq<byte>)
    ensures Strncpy(Strncpy(bs)) == Strncpy(bs)
  {
    if bs == [] || bs[0] == 0 {
    } else {
      StrncpyTwice(bs[1..]);
      assert Strncpy(bs)[1..] == Strncpy(bs[1..]);
    }
  }

  /** In none of the first k chunks does data follow a NUL. */
  ghost predicate NulsEndChunks(data: seq<byte>, k: nat)
    requires k <= NumChunks(|data|)
  {
    k == 0 || (NulsEndChunks(data, k - 1) && TailNul(Chunk(data, k - 1)))
  }

  lemma ConcatEqual(a: seq<byte>, b: seq<byte>, c: seq<byte>, d: seq<byte>)
    requires |a| == |c|
    ensures a + b == c + d <==> a == c && b == d
  {
    if a + b == c + d {
      assert a == (a + b)[..|a|] && b == (a + b)[|a|..];
      assert c == (c + d)[..|a|] && d == (c + d)[|a|..];
    }
  }

  lemma PayloadsNext(data: seq<byte>, k: nat)
    requires k < NumChunks(|data|)
    ensures Payloads(data, k + 1) == Payloads(data, k) + [Payload(data, k)]
  {
  }

  lemma ChunkSplits(data: seq<byte>, k: nat)
    requires k < NumChunks(|data|)
    ensures data[..Offset(|data|, k + 1)] == data[..Offset(|data|, k)] + Chunk(data, k)
  {
  }

  lemma SpellStep(data: seq<byte>, k: nat)
    requires k < NumChunks(|data|)
    ensures Joined(Payloads(data, k + 1)) == data[..Offset(|data|, k + 1)]
       <==> Joined(Payloads(data, k)) == data[..Offset(|data|, k)] && Payload(data, k) == Chunk(data, k)
  {
    hide Joined, Total, Payloads, Payload, Chunk, Offset, Strncpy;
    PayloadsTotal(data, k);
    PayloadsNext(data, k);
    ChunkSplits(data, k);
    JoinedSnoc(Payloads(data, k), Payload(data, k));
    ConcatEqual(Joined(Payloads(data, k)), Payload(data, k), data[..Offset(|data|, k)], Chunk(data, k));
  }

  /** The payloads spell the data exactly when no chunk has other bytes after a NUL. */
  lemma {:induction false} PayloadsSpellPrefix(data: seq<byte>, k: nat)
    requires k <= NumChunks(|data|)
    ensures Joined(Payloads(data, k)) == data[..Offset(|data|, k)] <==> NulsEndChunks(data, k)
  {
    if k == 0 {
    } else {
      PayloadsSpellPrefix(data, k - 1);
      SpellStep(data, k - 1);
      StrncpyIdentity(Chunk(data, k - 1));
    }
  }

  lemma PayloadsSpellData(data: seq<byte>)
    ensures Joined(Payloads(data, NumChunks(|data|))) == data <==> NulsEndChunks(data, NumChunks(|data|))
  {
    PayloadsSpellPrefix(data, NumChunks(|data|));
    assert data[..|data|] == data;
  }

  lemma NulFreeSlice(data: seq<byte>, lo: nat, hi: nat)
    requires 0 !in data && lo <= hi <= |data|
    ensures TailNul(data[lo..hi])
  {
    forall i | 0 <= i < hi - lo
      ensures data[lo..hi][i] != 0
    {
      assert data[lo + i] in data;
    }
  }

  lemma {:induction false} NulFreeChunks(data: seq<byte>, k: nat)
    requires 0 !in data && k <= NumChunks(|data|)
    ensures NulsEndChunks(data, k)
  {
    if k == 0 {
    } else {
      NulFreeChunks(data, k - 1);
      NulFreeSlice(data, Offset(|data|, k - 1), Offset(|data|, k));
    }
  }

  /** In particular for data without NUL bytes. */
  lemma NulFreeDataSpelled(data: seq<byte>)
    requires 0 !in data
    ensures Joined(Payloads(data, NumChunks(|data|))) == data
  {
    PayloadsSpellData(data);
    NulFreeChunks(data, NumChunks(|data|));
  }

  // ----- The 32-bit counters of the send loops -----

  /** bytes_left and bytes_sent are uint32_t, start_cpy_pos is uint64_t. */
  datatype Counters = Counters(left: uint32, sent: uint32, pos: nat)

  function LoopStart(size: nat): Counters {
    Counters(size % TWO_32, 0, 0)
  }

  function LoopStep(c: Counters): Counters {
    var shift := if c.left < SEND_BUFF_SIZE then c.left else SEND_BUFF_SIZE;
    Counters(c.left - shift, (c.sent + shift) % TWO_32, c.pos + shift)
  }

  function LoopAfter(size: nat, k: nat): Counters {
    if k == 0 then LoopStart(size) else LoopStep(LoopAfter(size, k - 1))
  }

  /** Below 2^32 bytes the counters are the offsets of the chunks, and what is sent and
      what is left always make up the size. */
  lemma {:induction false} LoopCounts(size: nat, k: nat)
    requires size < TWO_32
    requires k <= NumChunks(size)
    ensures LoopAfter(size, k) == Counters(size - Offset(size, k), Offset(size, k), Offset(size, k))
  {
    if k == 0 {
    } else {
      LoopCounts(size, k - 1);
    }
  }

  /** The send loop ever ends, for the 64-bit size it compares with, exactly below 2^32;
      then it ends after the last chunk and not before. */
  lemma LoopEnds(size: nat)
    ensures (exists k: nat :: LoopAfter(size, k).sent == size) <==> size < TWO_32
    ensures size < TWO_32 ==> LoopAfter(size, NumChunks(size)).sent == size
    ensures size < TWO_32 ==> forall k :: 0 <= k < NumChunks(size) ==> LoopAfter(size, k).sent < size
  {
    if size < TWO_32 {
      LoopCounts(size, NumChunks(size));
      forall k | 0 <= k < NumChunks(size)
        ensures LoopAfter(size, k).sent < size
      {
        LoopCounts(size, k);
      }
    }
  }
}
