// common.c (readn, writen), client_TCP_lib.c and server_TCP_lib.c.

/** The TCP ends with their loops over short reads and writes, proved against the stream
    functions of TcpFraming. */
module Tcp {
  import opened Packets
  import opened StructMemory
  import opened Chunks
  import opened Printing
  import opened UdpSession
  import opened UdprClientSpec
  import opened ChunkBuffers
  import opened TcpFraming

  /** A connected stream socket. What each read and write call returns is decided by the
      environment: not positive is an error (or, for read, 0 is end of file), positive is
      how many bytes it moves at most. Calls beyond the lists move all they can. */
  class Stream {
    const incoming: seq<byte>  // all bytes the other end will have written
    const readResults: seq<int>
    const writeResults: seq<int>
    var readPos: nat
    var readCalls: nat
    var writeCalls: nat
    var outgoing: seq<byte>

    ghost predicate Valid()
      reads this
    {
      readPos <= |incoming|
    }

    /** No call fails. */
    ghost predicate Faultless() {
      (forall i :: 0 <= i < |readResults| ==> readResults[i] > 0) && (forall i :: 0 <= i < |writeResults| ==> writeResults[i] > 0)
    }

    constructor (incoming: seq<byte>, readResults: seq<int>, writeResults: seq<int>)
      ensures Valid() && this.incoming == incoming && this.readResults == readResults && this.writeResults == writeResults
      ensures readPos == 0 && outgoing == []
    {
      this.incoming, this.readResults, this.writeResults := incoming, readResults, writeResults;
      readPos, readCalls, writeCalls, outgoing := 0, 0, 0, [];
    }

    function Unread(): seq<byte>
      requires Valid()
      reads this
    {
      incoming[readPos..]
    }

    /** read(). */
    method Read(n: nat) returns (r: int, bytes: seq<byte>)
      requires Valid() && n > 0
      modifies this`readPos, this`readCalls
      ensures Valid() && r <= n
      ensures r > 0 ==> r <= |old(Unread())| && bytes == old(Unread())[..r] && Unread() == old(Unread())[r..]
      ensures r <= 0 ==> readPos == old(readPos)
      ensures Faultless() ==> r >= 0 && (r == 0 ==> Unread() == [])
    {
      var most := if readCalls < |readResults| then readResults[readCalls] else n;
      readCalls := readCalls + 1;
      if most <= 0 {
        return most, [];
      }
      r := if most < n then most else n;
      r := if r < |incoming| - readPos then r else |incoming| - readPos;
      bytes := incoming[readPos..readPos + r];
      readPos := readPos + r;
    }

    /** write(). */
    method Write(bytes: seq<byte>) returns (r: int)
      requires bytes != []
      modifies this`outgoing, this`writeCalls
      ensures r <= |bytes|
      ensures r > 0 ==> outgoing == old(outgoing) + bytes[..r]
      ensures r <= 0 ==> outgoing == old(outgoing)
      ensures Faultless() ==> r > 0
    {
      var most := if writeCalls < |writeResults| then writeResults[writeCalls] else |bytes|;
      writeCalls := writeCalls + 1;
      if most <= 0 {
        return most;
      }
      r := if most < |bytes| then most else |bytes|;
      outgoing := outgoing + bytes[..r];
    }

    /** readn: all n bytes unless an error or the end of the stream comes first. */
    method Readn(buff: array<byte>, n: nat) returns (r: int)
      requires Valid() && n <= buff.Length
      modifies this`readPos, this`readCalls, buff
      ensures Valid() && r <= n
      ensures r >= 0 ==> r <= |old(Unread())| && buff[..r] == old(Unread())[..r] && Unread() == old(Unread())[r..]
      ensures Faultless() ==> r >= 0 && (r < n ==> Unread() == [])
    {
      ghost var all := Unread();
      var nleft := n;
      while nleft > 0
        invariant Valid() && 0 <= nleft <= n && n - nleft <= |all|
        invariant buff[..n - nleft] == all[..n - nleft] && Unread() == all[n - nleft..]
      {
        ghost var got := n - nleft;
        var nread, bytes := Read(nleft);
        if nread < 0 {
          return nread;
        } else if nread == 0 {
          break;
        }
        Store(buff, n - nleft, bytes);
        assert buff[..got + nread] == buff[..][..got] + bytes;
        assert all[got..][..nread] == all[got..got + nread] && all[..got + nread] == all[..got] + all[got..got + nread];
        nleft := nleft - nread;
      }
      return n - nleft;
    }

    /** writen: all bytes unless an error comes first; what was written is a prefix. */
    method Writen(bytes: seq<byte>) returns (r: int)
      modifies this`outgoing, this`writeCalls
      ensures r == |bytes| > 0 || bytes == [] ==> outgoing == old(outgoing) + bytes
      ensures r <= 0 && bytes != [] ==> exists k :: 0 <= k < |bytes| && outgoing == old(outgoing) + bytes[..k]
      ensures r <= 0 || r == |bytes|
      ensures Faultless() ==> r == |bytes|
    {
      var nleft := |bytes|;
      assert outgoing == old(outgoing) + bytes[..0];
      while nleft > 0
        invariant 0 <= nleft <= |bytes|
        invariant outgoing == old(outgoing) + bytes[..|bytes| - nleft]
      {
        ghost var done := |bytes| - nleft;
        var nwritten := Write(bytes[|bytes| - nleft..]);
        if nwritten <= 0 {
          return nwritten;
        }
        assert bytes[..done + nwritten] == bytes[..done] + bytes[done..][..nwritten];
        nleft := nleft - nwritten;
      }
      assert bytes[..|bytes|] == bytes;
      return |bytes|;
    }
  }

  // ----- The client -----

  class TcpClient {
    const stream: Stream
    const t: Transfer
    const chunk: ChunkBuffer

    ghost predicate Valid()
      reads this, chunk
    {
      chunk.Valid()
    }

    constructor (stream: Stream, t: Transfer)
      ensures Valid() && this.stream == stream && this.t == t && fresh(chunk.buff) && fresh(chunk.data)
    {
      this.stream, this.t := stream, t;
      chunk := new ChunkBuffer();
    }

    /** send_data_wrapper: the whole struct, whatever its packet declares. */
    method SendWhole() returns (ok: bool)
      requires Valid()
      modifies stream`outgoing, stream`writeCalls
      ensures ok ==> stream.outgoing == old(stream.outgoing) + chunk.data[..]
      ensures !ok ==> exists k :: 0 <= k < DATA_SIZE && stream.outgoing == old(stream.outgoing) + chunk.data[..k]
      ensures stream.Faultless() ==> ok
    {
      var r := stream.Writen(chunk.data[..]);
      ok := r == DATA_SIZE;
      if !ok {
        ghost var k :| 0 <= k < DATA_SIZE && stream.outgoing == old(stream.outgoing) + chunk.data[..][..k];
        assert chunk.data[..][..k] == chunk.data[..k];
      }
    }

    /** The struct after the next chunk has been copied into it. */
    method FillFrame(id: nat, start: nat, n: nat)
      requires Valid() && id < t.NumPackets() && n == |Payload(t.data, id)|
      requires start + n <= |t.data| && t.data[start..start + n] == Chunk(t.data, id)
      modifies chunk.buff, chunk.data
      ensures chunk.data[..] == Header(t, id) + AreaAfter(t, id, old(chunk.data[INFO_SIZE..]))
      ensures chunk.data[INFO_SIZE..] == AreaAfter(t, id, old(chunk.data[INFO_SIZE..]))
    {
      hide Payload, Info;
      ghost var area := chunk.data[INFO_SIZE..];
      chunk.Fill(t, id, start, n);
      var d := chunk.data[..];
      assert Encode(t.Packet(id)) == Header(t, id) + Payload(t.data, id);
      assert d == d[..INFO_SIZE + n] + d[INFO_SIZE + n..];
      assert d[INFO_SIZE + n..] == chunk.data[INFO_SIZE + n..] && d[..INFO_SIZE + n] == chunk.data[..INFO_SIZE + n];
      assert area[n..] == old(chunk.data[INFO_SIZE + n..]);
      assert d == Header(t, id) + (Payload(t.data, id) + area[n..]);
      assert chunk.data[INFO_SIZE..] == d[INFO_SIZE..];
    }

    /** One frame: fill the struct and write all of it. */
    method SendFrame(id: nat, start: nat, n: nat) returns (ok: bool)
      requires Valid() && id < t.NumPackets() && n == |Payload(t.data, id)|
      requires start + n <= |t.data| && t.data[start..start + n] == Chunk(t.data, id)
      modifies stream`outgoing, stream`writeCalls, chunk.buff, chunk.data
      ensures chunk.data[INFO_SIZE..] == AreaAfter(t, id, old(chunk.data[INFO_SIZE..]))
      ensures var frame := Header(t, id) + AreaAfter(t, id, old(chunk.data[INFO_SIZE..]));
              if ok then stream.outgoing == old(stream.outgoing) + frame
              else exists k :: 0 <= k < |frame| && stream.outgoing == old(stream.outgoing) + frame[..k]
      ensures stream.Faultless() ==> ok
    {
      hide Payload, Header, AreaAfter;
      FillFrame(id, start, n);
      ghost var frame := chunk.data[..];
      ok := SendWhole();
      if !ok {
        ghost var k :| 0 <= k < DATA_SIZE && stream.outgoing == old(stream.outgoing) + chunk.data[..k];
        assert chunk.data[..k] == frame[..k];
      }
    }

    /** TCP_client_send_DATA: over any short writes the stream of all frames; on an error
        a prefix of it. */
    method SendData() returns (ok: bool)
      requires Valid()
      modifies stream`outgoing, stream`writeCalls, chunk.buff, chunk.data
      ensures ok ==> stream.outgoing == old(stream.outgoing) + StreamFrom(t, 0, old(chunk.data[INFO_SIZE..]))
      ensures stream.outgoing <= old(stream.outgoing) + StreamFrom(t, 0, old(chunk.data[INFO_SIZE..]))
      ensures stream.Faultless() ==> ok
    {
      hide Payload, Offset, LoopStep, LoopAfter, Header, AreaAfter, StreamFrom;
      var bytesLeft: uint32, bytesSent: uint32, startCpyPos: nat := |t.data|, 0, 0;
      var id: nat := 0;
      ghost var goal := stream.outgoing + StreamFrom(t, 0, chunk.data[INFO_SIZE..]);
      CountersStart(|t.data|);
      while bytesSent != |t.data|
        invariant id <= t.NumPackets() && bytesSent == |t.data| - bytesLeft
        invariant LoopAfter(|t.data|, id).left == bytesLeft && LoopAfter(|t.data|, id).sent == bytesSent
        invariant bytesLeft > 0 ==> LoopAfter(|t.data|, id).pos == startCpyPos
        invariant goal == stream.outgoing + StreamFrom(t, id, chunk.data[INFO_SIZE..])
        decreases bytesLeft
      {
        CountersMeanChunk(t, id);
        CountersStep(|t.data|, id);
        CountedPayload(t, id);
        StreamSplit(t, id, chunk.data[INFO_SIZE..], stream.outgoing);
        var sent: bool;
        if bytesLeft < SEND_BUFF_SIZE {
          sent := SendFrame(id, startCpyPos, bytesLeft);
          bytesSent := (bytesSent + bytesLeft) % TWO_32;
          bytesLeft := bytesLeft - bytesLeft;
        } else {
          sent := SendFrame(id, startCpyPos, SEND_BUFF_SIZE);
          bytesSent := (bytesSent + SEND_BUFF_SIZE) % TWO_32;
          bytesLeft := bytesLeft - SEND_BUFF_SIZE;
          startCpyPos := startCpyPos + SEND_BUFF_SIZE;
        }
        id := id + 1;
        if !sent {
          return false;
        }
      }
      CountersEnd(|t.data|, id);
      StreamEnd(t, chunk.data[INFO_SIZE..]);
      assert stream.outgoing + [] == stream.outgoing;
      return true;
    }
  }

  /** Written so far and still to write, before and after one frame. */
  lemma StreamSplit(t: Transfer, id: nat, area: Area, sofar: seq<byte>)
    requires id < t.NumPackets()
    ensures var next := AreaAfter(t, id, area);
            var frame := Header(t, id) + next;
            && sofar + StreamFrom(t, id, area) == (sofar + frame) + StreamFrom(t, id + 1, next)
            && forall k :: 0 <= k < |frame| ==> sofar + frame[..k] <= sofar + StreamFrom(t, id, area)
  {
    hide Header, AreaAfter;
    var next := AreaAfter(t, id, area);
    var frame, more := Header(t, id) + next, StreamFrom(t, id + 1, next);
    assert StreamFrom(t, id, area) == frame + more;
    assert sofar + (frame + more) == (sofar + frame) + more;
    forall k | 0 <= k < |frame|
      ensures sofar + frame[..k] <= sofar + (frame + more)
    {
      assert frame + more == frame[..k] + (frame[k..] + more);
      assert sofar + (frame + more) == (sofar + frame[..k]) + (frame[k..] + more);
    }
  }

  lemma StreamEnd(t: Transfer, area: Area)
    ensures StreamFrom(t, t.NumPackets(), area) == []
  {
  }

  /** The bytes the loop copies for packet `id` are as many as its payload has. */
  lemma CountedPayload(t: Transfer, id: nat)
    requires id < t.NumPackets()
    ensures var left := LoopAfter(|t.data|, id).left;
            |Payload(t.data, id)| == if left < SEND_BUFF_SIZE then left else SEND_BUFF_SIZE
  {
    LoopCounts(|t.data|, id);
    ChunkSize(t.data, id);
  }

  // ----- The server -----

  class TcpServer {
    const stream: Stream
    const buff: array<byte>      // static, for the payload
    const metainfo: array<byte>  // static DATA_INFO_t
    var replies: seq<Packet>

    ghost predicate Valid()
      reads this, stream
    {
      stream.Valid() && buff.Length == RECEIVE_BUFFOR_SIZE && metainfo.Length == INFO_SIZE && buff != metainfo
    }

    constructor (stream: Stream)
      requires stream.Valid()
      ensures Valid() && this.stream == stream && replies == [] && fresh(buff) && fresh(metainfo)
    {
      this.stream := stream;
      buff := new byte[RECEIVE_BUFFOR_SIZE];
      metainfo := new byte[INFO_SIZE];
      replies := [];
    }

    /** TCP_get_DATA_metainfo. */
    method GetDataMetainfo(session: uint64, cur: uint64) returns (ok: bool, n: uint32)
      requires Valid()
      modifies stream`readPos, stream`readCalls, metainfo
      ensures Valid()
      ensures ok ==> var all := old(stream.Unread());
                     && INFO_SIZE <= |all| && GoodInfo(InfoOf(all[..INFO_SIZE]), session, cur)
                     && n == InfoOf(all[..INFO_SIZE]).n && stream.Unread() == all[INFO_SIZE..]
      ensures stream.Faultless() && !ok ==> var all := old(stream.Unread());
                     if |all| < INFO_SIZE then stream.Unread() == []
                     else !GoodInfo(InfoOf(all[..INFO_SIZE]), session, cur) && stream.Unread() == all[INFO_SIZE..]
    {
      ghost var all := stream.Unread();
      var r := stream.Readn(metainfo, INFO_SIZE);
      if r <= 0 || r < INFO_SIZE {
        return false, 0;
      }
      ghost var h := metainfo[..];
      assert h == all[..INFO_SIZE];
      assert h[1..9] == metainfo[1..9] && h[9..17] == metainfo[9..17] && h[17..21] == metainfo[17..21];
      NtohDataInfo(metainfo);
      var d := DataInfo(metainfo[0], Host64(metainfo[..], 1), Host64(metainfo[..], 9), Host32(metainfo[..], 17));
      assert d == InfoOf(h);
      if d.typeId != DATA_ID { return false, 0; }
      if d.session != session { return false, 0; }
      if d.id != cur { return false, 0; }
      if d.n > MAX_ALLOWED_PACKET_SIZE { return false, 0; }
      return true, d.n;
    }

    /** TCP_read_data_to_buf. */
    method ReadDataToBuf(n: uint32) returns (ok: bool)
      requires Valid() && n <= MAX_ALLOWED_PACKET_SIZE
      modifies stream`readPos, stream`readCalls, buff
      ensures Valid()
      ensures ok ==> n <= |old(stream.Unread())| && buff[..n] == old(stream.Unread())[..n]
                     && stream.Unread() == old(stream.Unread())[n..]
      ensures stream.Faultless() && !ok ==> |old(stream.Unread())| < n && stream.Unread() == []
    {
      forall i | 0 <= i < buff.Length {
        buff[i] := 0;
      }
      var r := stream.Readn(buff, n);
      return r == n;
    }

    /** One turn of the session loop: a payload taken, or a packet refused under this id. */
    method ServePacket(session: uint64, size: uint64, recvd: uint64, cur: uint64)
      returns (ok: bool, total: uint64, payload: seq<byte>, refused: uint64)
      requires Valid() && recvd < size
      modifies stream`readPos, stream`readCalls, buff, metainfo
      ensures Valid()
      ensures var turn := ReadPacket(old(stream.Unread()), session, size, recvd, cur);
              && (ok ==> turn == Taken(payload, total, stream.Unread()))
              && (!ok && stream.Faultless() ==> turn == Refused(refused, stream.Unread()))
    {
      hide GoodInfo, InfoOf;
      ghost var all := stream.Unread();
      payload, total := [], 0;
      var n;
      ok, n := GetDataMetainfo(session, cur);
      if !ok {
        return false, 0, [], cur;
      }
      total := (recvd + n) % TWO_64;
      if total > size {
        return false, 0, [], cur;
      }
      GoodSize(InfoOf(all[..INFO_SIZE]), session, cur);
      ok := ReadDataToBuf(n);
      return ok, total, buff[..n], (cur + 1) % TWO_64;
    }

    /** The session loop of TCP_server_handler. Over any short reads the outcome is that of
        the stream function; if reads fail, the payloads are a prefix of its. */
    method ServeSession(session: uint64, size: uint64) returns (ending: Ending, payloads: seq<seq<byte>>)
      requires Valid()
      modifies this`replies, stream`readPos, stream`readCalls, buff, metainfo
      ensures Valid()
      ensures |replies| == |old(replies)| + 1 && replies[..|old(replies)|] == old(replies)
      ensures var served := Serve(old(stream.Unread()), session, size, 0, 0, []);
              && payloads <= served.payloads
              && (ending.AllReceived? || stream.Faultless() ==>
                    Served(ending, payloads, replies[|old(replies)|], stream.Unread()) == served)
    {
      hide ReadPacket;
      var recvd: uint64, cur: uint64 := 0, 0;
      payloads := [];
      ghost var goal := Serve(stream.Unread(), session, size, 0, 0, []);
      while recvd < size
        invariant Valid() && replies == old(replies)
        invariant goal == Serve(stream.Unread(), session, size, recvd, cur, payloads)
        decreases |stream.Unread()|
      {
        TakenGrows(stream.Unread(), session, size, recvd, cur, payloads);
        var ok, total, payload, refused := ServePacket(session, size, recvd, cur);
        if !ok {
          replies := replies + [Rjt(session, refused)];
          return BadPacket, payloads;
        }
        recvd, cur := total, (cur + 1) % TWO_64;
        payloads := payloads + [payload];
      }
      replies := replies + [Rcvd(session)];
      return AllReceived, payloads;
    }
  }

  lemma GoodSize(d: DataInfo, session: uint64, cur: uint64)
    requires GoodInfo(d, session, cur)
    ensures d.n <= MAX_ALLOWED_PACKET_SIZE
  {
  }

  // ----- Both ends -----

  /** Client and server over one connection, with any fragmentation of writes and reads:
      the server receives exactly the client's chunks, whatever the client's struct held at
      first, leaves the padding of the last frame, and prints the data exactly when it
      has no NUL. */
  method Transmit(t: Transfer, writeResults: seq<int>, readResults: seq<int>) returns (payloads: seq<seq<byte>>, unread: nat)
    requires |t.data| > 0
    requires forall i :: 0 <= i < |writeResults| ==> writeResults[i] > 0
    requires forall i :: 0 <= i < |readResults| ==> readResults[i] > 0
    ensures payloads == Payloads(t.data, t.NumPackets())
    ensures Printed(payloads) == t.data <==> 0 !in t.data
    ensures unread == SEND_BUFF_SIZE * t.NumPackets() - |t.data|
  {
    hide Serve, StreamFrom, Payloads, Printed, Joined, NulsEndChunks;
    var near := new Stream([], [], writeResults);
    var client := new TcpClient(near, t);
    var area := client.chunk.data[INFO_SIZE..];
    var sent := client.SendData();
    assert near.outgoing == StreamFrom(t, 0, area);
    TcpRoundTrip(t, area);
    var far := new Stream(near.outgoing, readResults, []);
    var server := new TcpServer(far);
    var ending: Ending;
    ending, payloads := server.ServeSession(t.session, |t.data|);
    unread := |far.incoming| - far.readPos;
  }
}
