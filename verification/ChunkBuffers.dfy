// The buffers of the three send loops.

/** Each client copies a chunk of the data into a buffer and from there, with the
    header, into a DATA struct it reuses for every packet. */
module ChunkBuffers {
  import opened Packets
  import opened StructMemory
  import opened Chunks
  import opened UdprClientSpec

  class ChunkBuffer {
    const buff: array<byte>
    const data: array<byte>

    constructor ()
      ensures Valid() && fresh(buff) && fresh(data)
      ensures buff.Length == SEND_BUFF_SIZE + 1 && data.Length == INFO_SIZE + SEND_BUFF_SIZE
    {
      buff := new byte[SEND_BUFF_SIZE + 1];
      data := new byte[INFO_SIZE + SEND_BUFF_SIZE];
    }

    ghost predicate Valid()
      reads this
    {
      buff.Length == SEND_BUFF_SIZE + 1 && data.Length == INFO_SIZE + SEND_BUFF_SIZE && buff != data
    }

    /** memset, strncpy and init_DATA: the front of the struct becomes packet `id`, the
        rest keeps what the struct held before. */
    method Fill(t: Transfer, id: nat, start: nat, n: nat)
      requires Valid() && id < t.NumPackets()
      requires start + n <= |t.data| && t.data[start..start + n] == Chunk(t.data, id) && n <= SEND_BUFF_SIZE
      modifies buff, data
      ensures data[..INFO_SIZE + n] == Encode(t.Packet(id))
      ensures data[INFO_SIZE + n..] == old(data[INFO_SIZE + n..])
    {
      hide Encode, Strncpy, Info, Bytes32, Bytes64;
      forall i | 0 <= i < buff.Length {
        buff[i] := 0;
      }
      var copied := Strncpy(t.data[start..start + n]);
      Store(buff, 0, copied);
      assert buff[..n] == copied;
      StrncpyTwice(t.data[start..start + n]);
      ghost var was := data[INFO_SIZE..];
      var ok := InitData(data, t.session, id, n, buff[..]);
      assert buff[..][..n] == copied;
      assert data[INFO_SIZE + n..] == data[INFO_SIZE..][n..];
    }
  }

  /** Where the counters point is the chunk of the current id. */
  lemma ChunkAtCounters(t: Transfer, id: nat)
    requires id <= t.NumPackets() && Offset(|t.data|, id) < |t.data|
    ensures id < t.NumPackets()
    ensures var a, left := Offset(|t.data|, id), |t.data| - Offset(|t.data|, id);
            var shift := if left < SEND_BUFF_SIZE then left else SEND_BUFF_SIZE;
            a + shift <= |t.data| && t.data[a..a + shift] == Chunk(t.data, id)
  {
  }

  /** While bytes are left, the counters stand at the chunk of the current id. */
  lemma CountersMeanChunk(t: Transfer, id: nat)
    requires id <= t.NumPackets() && LoopAfter(|t.data|, id).sent < |t.data|
    ensures id < t.NumPackets()
    ensures var c := LoopAfter(|t.data|, id);
            var shift := if c.left < SEND_BUFF_SIZE then c.left else SEND_BUFF_SIZE;
            c.pos + shift <= |t.data| && t.data[c.pos..c.pos + shift] == Chunk(t.data, id)
  {
    LoopCounts(|t.data|, id);
    ChunkAtCounters(t, id);
  }

  lemma CountersStart(size: nat)
    requires size < TWO_32
    ensures LoopAfter(size, 0) == Counters(size, 0, 0)
  {
  }

  lemma CountersStep(size: nat, id: nat)
    requires size < TWO_32 && id < NumChunks(size)
    ensures LoopAfter(size, id + 1) == LoopStep(LoopAfter(size, id))
    ensures var c := LoopAfter(size, id);
            var shift := if c.left < SEND_BUFF_SIZE then c.left else SEND_BUFF_SIZE;
            LoopAfter(size, id + 1) == Counters(c.left - shift, (c.sent + shift) % TWO_32, c.pos + shift)
            && (c.sent + shift) % TWO_32 == size - (c.left - shift)
  {
    LoopCounts(size, id);
  }

  lemma CountersEnd(size: nat, id: nat)
    requires size < TWO_32 && id <= NumChunks(size) && LoopAfter(size, id).sent >= size
    ensures id == NumChunks(size)
  {
    LoopCounts(size, id);
  }
}
