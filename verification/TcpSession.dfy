// server_TCP_lib.c: which byte streams a session accepts.

/** Over every byte stream, whoever wrote it: the exact condition for RCVD. */
module TcpSession {
  import opened Packets
  import opened Chunks
  import opened UdpSession
  import opened UdpSessionInvariants
  import opened TcpFraming

  predicate Small(parts: seq<seq<byte>>) {
    forall i :: 0 <= i < |parts| ==> |parts[i]| <= MAX_ALLOWED_PACKET_SIZE
  }

  /** These payloads under headers with consecutive ids, and nothing in between. */
  function Framed(session: uint64, base: nat, parts: seq<seq<byte>>): seq<byte>
    requires Small(parts)
    decreases |parts|
  {
    if parts == [] then []
    else Info(session, IdOf(base), |parts[0]|) + parts[0] + Framed(session, base + 1, parts[1..])
  }

  /** A header is determined by its fields. */
  lemma HeaderOfFields(h: seq<byte>)
    requires |h| == INFO_SIZE && h[0] == DATA_ID
    ensures var d := InfoOf(h); h == Info(d.session, d.id, d.n)
  {
    Bytes64OfValue(h[1..9]);
    Bytes64OfValue(h[9..17]);
    Bytes32OfValue(h[17..21]);
    assert h == [h[0]] + h[1..9] + h[9..17] + h[17..21];
  }

  lemma TypeFirst(h: seq<byte>)
    requires |h| == INFO_SIZE
    ensures InfoOf(h).typeId == h[0]
  {
  }

  /** What is taken stood in the stream, header and payload. */
  lemma TakenStood(stream: seq<byte>, session: uint64, size: uint64, recvd: uint64, cur: uint64)
    requires Countable(size) && recvd < size
    ensures var turn := ReadPacket(stream, session, size, recvd, cur);
            turn.Taken? ==>
              && |turn.payload| <= MAX_ALLOWED_PACKET_SIZE && turn.total == recvd + |turn.payload| <= size
              && stream == Info(session, cur, |turn.payload|) + turn.payload + turn.rest
  {
    hide Info, InfoOf, ReadPacket;
    var turn := ReadPacket(stream, session, size, recvd, cur);
    if turn.Taken? {
      TakenFields(stream, session, size, recvd, cur);
      var h := stream[..INFO_SIZE];
      TypeFirst(h);
      HeaderOfFields(h);
    }
  }

  lemma TakenFields(stream: seq<byte>, session: uint64, size: uint64, recvd: uint64, cur: uint64)
    requires Countable(size) && recvd < size && ReadPacket(stream, session, size, recvd, cur).Taken?
    ensures var turn := ReadPacket(stream, session, size, recvd, cur);
            && |stream| >= INFO_SIZE
            && InfoOf(stream[..INFO_SIZE]) == DataInfo(DATA_ID, session, cur, |turn.payload|)
            && |turn.payload| <= MAX_ALLOWED_PACKET_SIZE && turn.total == recvd + |turn.payload| <= size
            && stream == stream[..INFO_SIZE] + turn.payload + turn.rest
  {
    hide InfoOf;
    var rest, n := stream[INFO_SIZE..], InfoOf(stream[..INFO_SIZE]).n;
    assert rest == rest[..n] + rest[n..];
    assert stream == stream[..INFO_SIZE] + rest;
  }

  /** What stands next and fits is taken. */
  lemma StandingTaken(session: uint64, size: uint64, recvd: uint64, cur: uint64, payload: seq<byte>, more: seq<byte>)
    requires |payload| <= MAX_ALLOWED_PACKET_SIZE && recvd + |payload| <= size
    ensures ReadPacket(Info(session, cur, |payload|) + payload + more, session, size, recvd, cur)
         == Taken(payload, recvd + |payload|, more)
  {
    ReadsOne(Info(session, cur, |payload|), payload, more, session, size, recvd, cur);
  }

  /** The payloads stand in the stream and their sizes reach the declared one, first at the
      end and exactly. */
  ghost predicate Exact(stream: seq<byte>, session: uint64, size: uint64, taken: seq<seq<byte>>, parts: seq<seq<byte>>) {
    && Small(parts)
    && Framed(session, |taken|, parts) <= stream
    && ReachedOnlyAtEnd(taken + parts, size) && Total(taken + parts) == size
  }

  lemma ExactFits(stream: seq<byte>, session: uint64, size: uint64, taken: seq<seq<byte>>, parts: seq<seq<byte>>)
    requires Exact(stream, session, size, taken, parts) && parts != []
    ensures Total(taken) < size && Total(taken) + |parts[0]| <= size
    ensures |parts[0]| <= MAX_ALLOWED_PACKET_SIZE
    ensures Info(session, IdOf(|taken|), |parts[0]|) + parts[0] <= stream
  {
    hide Total, Info, ReachedOnlyAtEnd, IdOf;
    FirstFits(size, taken, parts);
    var head := Info(session, IdOf(|taken|), |parts[0]|) + parts[0];
    assert head <= head + Framed(session, |taken| + 1, parts[1..]);
  }

  lemma FirstFits(size: uint64, taken: seq<seq<byte>>, parts: seq<seq<byte>>)
    requires ReachedOnlyAtEnd(taken + parts, size) && Total(taken + parts) == size && parts != []
    ensures Total(taken) < size && Total(taken) + |parts[0]| <= size
  {
    hide Total, Joined;
    var all := taken + parts;
    assert all[..|taken|] == taken && all[..|taken| + 1] == taken + [parts[0]];
    JoinedSnoc(taken, parts[0]);
    if |all| == |taken| + 1 {
      assert all == taken + [parts[0]];
    }
  }

  lemma ExactNone(stream: seq<byte>, session: uint64, size: uint64, taken: seq<seq<byte>>)
    requires ReachedOnlyAtEnd(taken, size)
    ensures Exact(stream, session, size, taken, []) <==> Total(taken) == size
  {
    assert taken + [] == taken;
  }

  /** After one packet, the rest of the payloads must stand in the rest of the stream. */
  lemma ExactNext(stream: seq<byte>, session: uint64, size: uint64, taken: seq<seq<byte>>, parts: seq<seq<byte>>, rest: seq<byte>)
    requires parts != [] && |parts[0]| <= MAX_ALLOWED_PACKET_SIZE
    requires stream == Info(session, IdOf(|taken|), |parts[0]|) + parts[0] + rest
    ensures Exact(stream, session, size, taken, parts) <==> Exact(rest, session, size, taken + [parts[0]], parts[1..])
    ensures Small(parts) ==>
              |Framed(session, |taken|, parts)| == |stream| - |rest| + |Framed(session, |taken| + 1, parts[1..])|
  {
    hide Total, Joined, Info, ReachedOnlyAtEnd, IdOf;
    var head := Info(session, IdOf(|taken|), |parts[0]|) + parts[0];
    assert taken + parts == taken + [parts[0]] + parts[1..];
    assert Small(parts) <==> Small(parts[1..]) by {
      assert forall i :: 0 < i < |parts| ==> parts[i] == parts[1..][i - 1];
    }
    if Small(parts) {
      PrefixAfter(head, Framed(session, |taken| + 1, parts[1..]), rest);
    }
  }

  lemma PrefixAfter(head: seq<byte>, a: seq<byte>, b: seq<byte>)
    ensures head + a <= head + b <==> a <= b
  {
    if head + a <= head + b {
      assert a == (head + a)[|head|..] && b == (head + b)[|head|..];
    }
  }

  /** The result r of a session is RCVD after just these payloads exactly if they stand in
      the stream and complete the declared size; what follows them is left unread. */
  ghost predicate ExactlyFor(r: Served, stream: seq<byte>, session: uint64, size: uint64,
                             taken: seq<seq<byte>>, parts: seq<seq<byte>>) {
    && (r.ending.AllReceived? && r.payloads == taken + parts <==> Exact(stream, session, size, taken, parts))
    && (Exact(stream, session, size, taken, parts) ==>
          r.reply == Rcvd(session) && r.rest == stream[|Framed(session, |taken|, parts)|..])
  }

  /** A session, from any of its turns. */
  lemma {:induction false} ServesExactly(stream: seq<byte>, session: uint64, size: uint64,
                                         taken: seq<seq<byte>>, parts: seq<seq<byte>>)
    requires Countable(size) && ReachedOnlyAtEnd(taken, size) && Total(taken) <= size
    ensures ExactlyFor(Serve(stream, session, size, Total(taken), IdOf(|taken|), taken), stream, session, size, taken, parts)
    decreases |stream|
  {
    hide Total, ReadPacket, Exact, ExactlyFor, ReachedOnlyAtEnd, IdOf;
    if Total(taken) == size {
      NoneLeft(stream, session, size, taken, parts);
    } else {
      var recvd, cur := Total(taken), IdOf(|taken|);
      var turn := ReadPacket(stream, session, size, recvd, cur);
      TakenStood(stream, session, size, recvd, cur);
      match turn
      case Refused(id, rest) =>
        RefusedNever(stream, session, size, taken, parts);
      case Taken(payload, total, rest) =>
        OneMoreTaken(taken, payload, size);
        if parts != [] && parts[0] == payload {
          ServesExactly(rest, session, size, taken + [payload], parts[1..]);
          ExactlyNext(Serve(rest, session, size, total, IdOf(|taken| + 1), taken + [payload]),
                      stream, session, size, taken, parts, rest);
        } else {
          OthersNever(stream, session, size, taken, parts, payload, rest);
        }
    }
  }

  lemma RefusedNever(stream: seq<byte>, session: uint64, size: uint64, taken: seq<seq<byte>>, parts: seq<seq<byte>>)
    requires Total(taken) < size && ReachedOnlyAtEnd(taken, size)
    requires ReadPacket(stream, session, size, Total(taken), IdOf(|taken|)).Refused?
    ensures ExactlyFor(Serve(stream, session, size, Total(taken), IdOf(|taken|), taken), stream, session, size, taken, parts)
  {
    hide Total, ReadPacket, Exact, ReachedOnlyAtEnd, IdOf;
    if Exact(stream, session, size, taken, parts) {
      ExactMeansTaken(stream, session, size, taken, parts);
    }
  }

  lemma OthersNever(stream: seq<byte>, session: uint64, size: uint64, taken: seq<seq<byte>>, parts: seq<seq<byte>>,
                    payload: seq<byte>, rest: seq<byte>)
    requires Total(taken) < size && ReachedOnlyAtEnd(taken, size) && (parts == [] || parts[0] != payload)
    requires Total(taken) + |payload| < TWO_64
    requires ReadPacket(stream, session, size, Total(taken), IdOf(|taken|)) == Taken(payload, Total(taken) + |payload|, rest)
    ensures ExactlyFor(Serve(stream, session, size, Total(taken), IdOf(|taken|), taken), stream, session, size, taken, parts)
  {
    hide Total, ReadPacket, Exact, ReachedOnlyAtEnd, IdOf;
    var total, cur := Total(taken) + |payload|, (IdOf(|taken|) + 1) % TWO_64;
    TakenGrows(rest, session, size, total, cur, taken + [payload]);
    NotThese(taken, payload, parts, Serve(rest, session, size, total, cur, taken + [payload]).payloads);
    if Exact(stream, session, size, taken, parts) {
      ExactMeansTaken(stream, session, size, taken, parts);
    }
  }

  lemma ExactlyNext(r: Served, stream: seq<byte>, session: uint64, size: uint64, taken: seq<seq<byte>>,
                    parts: seq<seq<byte>>, rest: seq<byte>)
    requires parts != [] && |parts[0]| <= MAX_ALLOWED_PACKET_SIZE
    requires stream == Info(session, IdOf(|taken|), |parts[0]|) + parts[0] + rest
    requires ExactlyFor(r, rest, session, size, taken + [parts[0]], parts[1..])
    ensures ExactlyFor(r, stream, session, size, taken, parts)
  {
    hide Exact, Info, IdOf;
    ExactNext(stream, session, size, taken, parts, rest);
    assert taken + [parts[0]] + parts[1..] == taken + parts;
    if Exact(stream, session, size, taken, parts) {
      ExactSmall(stream, session, size, taken, parts);
      ExactSmall(rest, session, size, taken + [parts[0]], parts[1..]);
      RestAfter(stream, session, taken, parts, rest);
    }
  }

  lemma ExactSmall(stream: seq<byte>, session: uint64, size: uint64, taken: seq<seq<byte>>, parts: seq<seq<byte>>)
    requires Exact(stream, session, size, taken, parts)
    ensures Small(parts) && Framed(session, |taken|, parts) <= stream
  {
  }

  lemma NoneLeft(stream: seq<byte>, session: uint64, size: uint64, taken: seq<seq<byte>>, parts: seq<seq<byte>>)
    requires ReachedOnlyAtEnd(taken, size) && Total(taken) == size
    ensures ExactlyFor(Serve(stream, session, size, Total(taken), IdOf(|taken|), taken), stream, session, size, taken, parts)
  {
    hide Total, Exact, ReachedOnlyAtEnd, IdOf;
    if parts == [] {
      ExactNone(stream, session, size, taken);
      assert taken + parts == taken;
    } else {
      assert |taken + parts| > |taken|;
      if Exact(stream, session, size, taken, parts) {
        ExactFits(stream, session, size, taken, parts);
      }
    }
  }

  lemma ExactMeansTaken(stream: seq<byte>, session: uint64, size: uint64, taken: seq<seq<byte>>, parts: seq<seq<byte>>)
    requires Total(taken) < size && ReachedOnlyAtEnd(taken, size) && Exact(stream, session, size, taken, parts)
    ensures parts != [] && Total(taken) + |parts[0]| <= size
    ensures var turn := ReadPacket(stream, session, size, Total(taken), IdOf(|taken|)); turn.Taken? && turn.payload == parts[0]
  {
    hide Total, Info, ReadPacket, Framed, Exact, ReachedOnlyAtEnd, IdOf;
    if parts == [] {
      ExactNone(stream, session, size, taken);
    } else {
      ExactFits(stream, session, size, taken, parts);
      PrefixTaken(stream, session, size, Total(taken), IdOf(|taken|), parts[0]);
    }
  }

  lemma PrefixTaken(stream: seq<byte>, session: uint64, size: uint64, recvd: uint64, cur: uint64, payload: seq<byte>)
    requires |payload| <= MAX_ALLOWED_PACKET_SIZE && recvd + |payload| <= size
    requires Info(session, cur, |payload|) + payload <= stream
    ensures var turn := ReadPacket(stream, session, size, recvd, cur); turn.Taken? && turn.payload == payload
  {
    hide Info, ReadPacket;
    var head := Info(session, cur, |payload|) + payload;
    var more := stream[|head|..];
    assert stream == head + more;
    StandingTaken(session, size, recvd, cur, payload, more);
  }

  lemma OneMoreTaken(taken: seq<seq<byte>>, payload: seq<byte>, size: nat)
    requires ReachedOnlyAtEnd(taken, size) && Total(taken) < size
    ensures ReachedOnlyAtEnd(taken + [payload], size) && Total(taken + [payload]) == Total(taken) + |payload|
    ensures (IdOf(|taken|) + 1) % TWO_64 == IdOf(|taken| + 1)
  {
    hide Total, Joined, ReachedOnlyAtEnd;
    JoinedSnoc(taken, payload);
    ReachedSnoc(taken, payload, size);
    NextId(|taken|);
  }

  lemma NotThese(taken: seq<seq<byte>>, payload: seq<byte>, parts: seq<seq<byte>>, all: seq<seq<byte>>)
    requires taken + [payload] <= all && (parts == [] || parts[0] != payload)
    ensures all != taken + parts
  {
    assert all[|taken|] == payload;
    if parts != [] {
      assert (taken + parts)[|taken|] == parts[0];
    }
  }

  lemma RestAfter(stream: seq<byte>, session: uint64, taken: seq<seq<byte>>, parts: seq<seq<byte>>, rest: seq<byte>)
    requires parts != [] && |parts[0]| <= MAX_ALLOWED_PACKET_SIZE
    requires stream == Info(session, IdOf(|taken|), |parts[0]|) + parts[0] + rest
    ensures Small(parts) ==>
              Small(parts[1..])
              && (Framed(session, |taken| + 1, parts[1..]) <= rest ==>
                  rest[|Framed(session, |taken| + 1, parts[1..])|..] == stream[|Framed(session, |taken|, parts)|..])
  {
    hide Info;
  }

  /** The whole session, for every declared size up to 2^64 - 64000: RCVD after just these
      payloads exactly if the stream begins with them under headers 0, 1, .. and their
      sizes first reach the declared size at the end and exactly. */
  lemma TcpReceivesExactly(stream: seq<byte>, session: uint64, size: uint64, parts: seq<seq<byte>>)
    requires Countable(size)
    ensures var r := Serve(stream, session, size, 0, 0, []);
            && (r.ending.AllReceived? && r.payloads == parts <==>
                && Small(parts) && Framed(session, 0, parts) <= stream
                && ReachedOnlyAtEnd(parts, size) && Total(parts) == size)
            && (r.ending.AllReceived? && r.payloads == parts ==>
                  r.reply == Rcvd(session) && r.rest == stream[|Framed(session, 0, parts)|..])
  {
    hide Serve, Info, Framed;
    ServesExactly(stream, session, size, [], parts);
    assert [] + parts == parts;
  }

  // ----- Refusals -----

  /** Why the packet with id k cannot be taken when this is left of the stream and this many
      bytes are missing, and the id its refusal names: there is no whole header, or it is
      not that of packet k, or it declares too much; or, under the id after it, its payload
      is cut off. */
  ghost predicate Stops(left: seq<byte>, session: uint64, missing: nat, k: nat, id: uint64) {
    if |left| < INFO_SIZE then id == IdOf(k)
    else
      var d := InfoOf(left[..INFO_SIZE]);
      if d.typeId != DATA_ID || d.session != session || d.id != IdOf(k) || d.n > MAX_ALLOWED_PACKET_SIZE || d.n > missing
      then id == IdOf(k)
      else |left| - INFO_SIZE < d.n && id == IdOf(k + 1)
  }

  /** What the refusal leaves unread: after a header, all of it. */
  function Remaining(left: seq<byte>, session: uint64, missing: nat, k: nat): seq<byte> {
    if |left| < INFO_SIZE then []
    else
      var d := InfoOf(left[..INFO_SIZE]);
      if d.typeId != DATA_ID || d.session != session || d.id != IdOf(k) || d.n > MAX_ALLOWED_PACKET_SIZE || d.n > missing
      then left[INFO_SIZE..]
      else []
  }

  /** These payloads stand in the stream, are not yet enough, and nothing more can be taken. */
  ghost predicate Stuck(stream: seq<byte>, session: uint64, size: uint64, taken: seq<seq<byte>>, parts: seq<seq<byte>>, id: uint64) {
    && Small(parts)
    && Framed(session, |taken|, parts) <= stream
    && Total(taken + parts) < size
    && Stops(stream[|Framed(session, |taken|, parts)|..], session, size - Total(taken + parts), |taken| + |parts|, id)
  }

  /** What remains of the stream when it is stuck after these payloads. */
  function RemainingAfter(stream: seq<byte>, session: uint64, size: uint64, taken: seq<seq<byte>>, parts: seq<seq<byte>>): seq<byte> {
    if Small(parts) && Framed(session, |taken|, parts) <= stream && Total(taken + parts) <= size
    then Remaining(stream[|Framed(session, |taken|, parts)|..], session, size - Total(taken + parts), |taken| + |parts|)
    else []
  }

  lemma NoneRemains(stream: seq<byte>, session: uint64, size: uint64, taken: seq<seq<byte>>)
    requires Total(taken) <= size
    ensures RemainingAfter(stream, session, size, taken, []) == Remaining(stream, session, size - Total(taken), |taken|)
  {
    hide Total, Joined, Remaining, Framed, IdOf, Info, Small;
    assert taken + [] == taken;
    NothingFramed(stream, session, |taken|);
    NothingSmall();
  }

  lemma NothingSmall()
    ensures Small([])
  {
  }

  lemma StuckSmall(stream: seq<byte>, session: uint64, size: uint64, taken: seq<seq<byte>>, parts: seq<seq<byte>>, id: uint64)
    requires Stuck(stream, session, size, taken, parts, id)
    ensures Small(parts) && Framed(session, |taken|, parts) <= stream
  {
  }

  lemma RemainsNext(stream: seq<byte>, session: uint64, size: uint64, taken: seq<seq<byte>>, parts: seq<seq<byte>>, rest: seq<byte>)
    requires parts != [] && |parts[0]| <= MAX_ALLOWED_PACKET_SIZE && Small(parts)
    requires stream == Info(session, IdOf(|taken|), |parts[0]|) + parts[0] + rest
    requires Framed(session, |taken|, parts) <= stream
    ensures RemainingAfter(stream, session, size, taken, parts)
         == RemainingAfter(rest, session, size, taken + [parts[0]], parts[1..])
  {
    hide Total, Joined, Info, Remaining, IdOf, Small, Framed;
    assert taken + parts == taken + [parts[0]] + parts[1..];
    FramedFirst(session, |taken|, parts);
    PrefixAfter(Info(session, IdOf(|taken|), |parts[0]|) + parts[0], Framed(session, |taken| + 1, parts[1..]), rest);
    RestAfter(stream, session, taken, parts, rest);
  }

  lemma FramedFirst(session: uint64, base: nat, parts: seq<seq<byte>>)
    requires parts != [] && Small(parts)
    ensures Small(parts[1..])
    ensures Framed(session, base, parts)
         == Info(session, IdOf(base), |parts[0]|) + parts[0] + Framed(session, base + 1, parts[1..])
  {
    hide Info, IdOf;
  }

  ghost predicate RefusedFor(r: Served, session: uint64, payloads: seq<seq<byte>>, id: uint64) {
    r.ending.BadPacket? && r.payloads == payloads && r.reply == Rjt(session, id)
  }

  lemma TurnStops(stream: seq<byte>, session: uint64, size: uint64, recvd: uint64, k: nat, id: uint64)
    requires Countable(size) && recvd < size
    ensures var turn := ReadPacket(stream, session, size, recvd, IdOf(k));
            && (turn.Refused? && turn.id == id <==> Stops(stream, session, size - recvd, k, id))
            && (turn.Refused? ==> turn.rest == Remaining(stream, session, size - recvd, k))
  {
    hide InfoOf;
    NextId(k);
  }

  lemma StuckNone(stream: seq<byte>, session: uint64, size: uint64, taken: seq<seq<byte>>, id: uint64)
    requires Total(taken) < size
    ensures Stuck(stream, session, size, taken, [], id) <==> Stops(stream, session, size - Total(taken), |taken|, id)
  {
    hide Total, Stops, Joined, Info, IdOf, Framed;
    assert taken + [] == taken;
    NothingFramed(stream, session, |taken|);
  }

  lemma NothingFramed(stream: seq<byte>, session: uint64, base: nat)
    ensures Framed(session, base, []) == [] && stream[|Framed(session, base, [])|..] == stream
  {
  }

  lemma StuckFits(stream: seq<byte>, session: uint64, size: uint64, taken: seq<seq<byte>>, parts: seq<seq<byte>>, id: uint64)
    requires Stuck(stream, session, size, taken, parts, id) && parts != [] && Total(taken) < size
    ensures var turn := ReadPacket(stream, session, size, Total(taken), IdOf(|taken|)); turn.Taken? && turn.payload == parts[0]
  {
    hide Total, Info, ReadPacket, Stops, IdOf;
    TotalOfFirst(taken, parts);
    var head := Info(session, IdOf(|taken|), |parts[0]|) + parts[0];
    assert head <= head + Framed(session, |taken| + 1, parts[1..]);
    PrefixTaken(stream, session, size, Total(taken), IdOf(|taken|), parts[0]);
  }

  lemma TotalOfFirst(taken: seq<seq<byte>>, parts: seq<seq<byte>>)
    requires parts != []
    ensures Total(taken) + |parts[0]| <= Total(taken + parts)
  {
    hide Total, Joined;
    TotalConcat(taken + [parts[0]], parts[1..]);
    JoinedSnoc(taken, parts[0]);
    assert taken + [parts[0]] + parts[1..] == taken + parts;
  }

  lemma {:induction false} TotalConcat(a: seq<seq<byte>>, b: seq<seq<byte>>)
    ensures Total(a + b) == Total(a) + Total(b)
  {
    hide Joined;
    if b == [] {
      assert a + b == a;
    } else {
      TotalConcat(a, b[..|b| - 1]);
      assert (a + b)[..|a + b| - 1] == a + b[..|b| - 1];
    }
  }

  lemma StuckNext(stream: seq<byte>, session: uint64, size: uint64, taken: seq<seq<byte>>, parts: seq<seq<byte>>,
                  rest: seq<byte>, id: uint64)
    requires parts != [] && |parts[0]| <= MAX_ALLOWED_PACKET_SIZE
    requires stream == Info(session, IdOf(|taken|), |parts[0]|) + parts[0] + rest
    ensures Stuck(stream, session, size, taken, parts, id) <==> Stuck(rest, session, size, taken + [parts[0]], parts[1..], id)
  {
    hide Total, Joined, Info, Stops, IdOf;
    assert taken + parts == taken + [parts[0]] + parts[1..];
    assert Small(parts) <==> Small(parts[1..]) by {
      assert forall i :: 0 < i < |parts| ==> parts[i] == parts[1..][i - 1];
    }
    if Small(parts) {
      PrefixAfter(Info(session, IdOf(|taken|), |parts[0]|) + parts[0], Framed(session, |taken| + 1, parts[1..]), rest);
      if Framed(session, |taken| + 1, parts[1..]) <= rest {
        RestAfter(stream, session, taken, parts, rest);
      }
    }
  }

  /** The result r is a refusal after just these payloads, under this id, exactly if the
      stream is stuck there; and it leaves unread what then remains. */
  ghost predicate RefusedExactly(r: Served, stream: seq<byte>, session: uint64, size: uint64,
                                 taken: seq<seq<byte>>, parts: seq<seq<byte>>, id: uint64) {
    && (RefusedFor(r, session, taken + parts, id) <==> Stuck(stream, session, size, taken, parts, id))
    && (Stuck(stream, session, size, taken, parts, id) ==> r.rest == RemainingAfter(stream, session, size, taken, parts))
  }

  lemma RefusedTurn(stream: seq<byte>, session: uint64, size: uint64, taken: seq<seq<byte>>, parts: seq<seq<byte>>, id: uint64)
    requires Countable(size) && Total(taken) < size
    requires ReadPacket(stream, session, size, Total(taken), IdOf(|taken|)).Refused?
    ensures RefusedExactly(Serve(stream, session, size, Total(taken), IdOf(|taken|), taken), stream, session, size, taken, parts, id)
  {
    hide Total, ReadPacket, Stuck, Stops, IdOf, Serve, Remaining, RemainingAfter;
    ServeStops(stream, session, size, taken);
    TurnStops(stream, session, size, Total(taken), |taken|, id);
    NoneTaken(taken, parts);
    if parts == [] {
      StuckNone(stream, session, size, taken, id);
      NoneRemains(stream, session, size, taken);
    } else if Stuck(stream, session, size, taken, parts, id) {
      StuckFits(stream, session, size, taken, parts, id);
    }
  }

  lemma OtherTurn(stream: seq<byte>, session: uint64, size: uint64, taken: seq<seq<byte>>, parts: seq<seq<byte>>,
                  payload: seq<byte>, rest: seq<byte>, id: uint64)
    requires Countable(size) && Total(taken) + |payload| <= size && Total(taken) < size && (parts == [] || parts[0] != payload)
    requires ReadPacket(stream, session, size, Total(taken), IdOf(|taken|)) == Taken(payload, Total(taken) + |payload|, rest)
    ensures RefusedExactly(Serve(stream, session, size, Total(taken), IdOf(|taken|), taken), stream, session, size, taken, parts, id)
  {
    hide Total, ReadPacket, Stuck, Stops, IdOf, Serve, Remaining, RemainingAfter;
    var total, next := Total(taken) + |payload|, IdOf(|taken| + 1);
    ServeTakes(stream, session, size, taken, payload, rest);
    TakenGrows(rest, session, size, total, next, taken + [payload]);
    NotThese(taken, payload, parts, Serve(rest, session, size, total, next, taken + [payload]).payloads);
    TurnStops(stream, session, size, Total(taken), |taken|, id);
    if parts == [] {
      StuckNone(stream, session, size, taken, id);
    } else if Stuck(stream, session, size, taken, parts, id) {
      StuckFits(stream, session, size, taken, parts, id);
    }
  }

  lemma SameTurn(r: Served, stream: seq<byte>, session: uint64, size: uint64, taken: seq<seq<byte>>, parts: seq<seq<byte>>,
                 rest: seq<byte>, id: uint64)
    requires parts != [] && |parts[0]| <= MAX_ALLOWED_PACKET_SIZE
    requires stream == Info(session, IdOf(|taken|), |parts[0]|) + parts[0] + rest
    requires RefusedExactly(r, rest, session, size, taken + [parts[0]], parts[1..], id)
    ensures RefusedExactly(r, stream, session, size, taken, parts, id)
  {
    hide Stuck, Stops, IdOf, Info, Remaining, RemainingAfter;
    StuckNext(stream, session, size, taken, parts, rest, id);
    assert taken + [parts[0]] + parts[1..] == taken + parts;
    if Stuck(stream, session, size, taken, parts, id) {
      StuckSmall(stream, session, size, taken, parts, id);
      RemainsNext(stream, session, size, taken, parts, rest);
    }
  }

  /** A session, from any of its turns. */
  lemma {:induction false} RefusesExactly(stream: seq<byte>, session: uint64, size: uint64,
                                          taken: seq<seq<byte>>, parts: seq<seq<byte>>, id: uint64)
    requires Countable(size) && Total(taken) <= size
    ensures RefusedExactly(Serve(stream, session, size, Total(taken), IdOf(|taken|), taken), stream, session, size, taken, parts, id)
    decreases |stream|
  {
    hide Total, ReadPacket, Stuck, IdOf, Info, Serve, RefusedExactly;
    if Total(taken) == size {
      WholeTurn(stream, session, size, taken, parts, id);
    } else {
      var turn := ReadPacket(stream, session, size, Total(taken), IdOf(|taken|));
      TakenStood(stream, session, size, Total(taken), IdOf(|taken|));
      match turn
      case Refused(_, _) =>
        RefusedTurn(stream, session, size, taken, parts, id);
      case Taken(payload, total, rest) =>
        if parts != [] && parts[0] == payload {
          TotalOfOne(taken, payload);
          ServeTakes(stream, session, size, taken, payload, rest);
          RefusesExactly(rest, session, size, taken + [payload], parts[1..], id);
          SameTurn(Serve(rest, session, size, total, IdOf(|taken| + 1), taken + [payload]),
                   stream, session, size, taken, parts, rest, id);
        } else {
          OtherTurn(stream, session, size, taken, parts, payload, rest, id);
        }
    }
  }

  lemma WholeTurn(stream: seq<byte>, session: uint64, size: uint64, taken: seq<seq<byte>>, parts: seq<seq<byte>>, id: uint64)
    requires Total(taken) == size
    ensures RefusedExactly(Serve(stream, session, size, Total(taken), IdOf(|taken|), taken), stream, session, size, taken, parts, id)
  {
    hide Total, Stuck, IdOf, RemainingAfter;
    NotStuck(stream, session, size, taken, parts, id);
  }

  lemma ServeTakes(stream: seq<byte>, session: uint64, size: uint64, taken: seq<seq<byte>>, payload: seq<byte>, rest: seq<byte>)
    requires Total(taken) < size && Total(taken) + |payload| <= size
    requires ReadPacket(stream, session, size, Total(taken), IdOf(|taken|)) == Taken(payload, Total(taken) + |payload|, rest)
    ensures Serve(stream, session, size, Total(taken), IdOf(|taken|), taken)
         == Serve(rest, session, size, Total(taken) + |payload|, IdOf(|taken| + 1), taken + [payload])
  {
    hide Total, ReadPacket;
    NextId(|taken|);
  }

  lemma ServeStops(stream: seq<byte>, session: uint64, size: uint64, taken: seq<seq<byte>>)
    requires Total(taken) <= size
    ensures var r := Serve(stream, session, size, Total(taken), IdOf(|taken|), taken);
            if Total(taken) == size then r.ending.AllReceived?
            else var turn := ReadPacket(stream, session, size, Total(taken), IdOf(|taken|));
                 turn.Refused? ==> r == Served(BadPacket, taken, Rjt(session, turn.id), turn.rest)
  {
    hide Total, ReadPacket, IdOf;
  }

  lemma NoneTaken(taken: seq<seq<byte>>, parts: seq<seq<byte>>)
    ensures taken + parts == taken <==> parts == []
  {
    assert |taken + parts| == |taken| + |parts|;
    if parts == [] {
      assert taken + parts == taken;
    }
  }

  lemma TotalOfOne(taken: seq<seq<byte>>, payload: seq<byte>)
    ensures Total(taken + [payload]) == Total(taken) + |payload|
  {
    JoinedSnoc(taken, payload);
  }

  lemma NotStuck(stream: seq<byte>, session: uint64, size: uint64, taken: seq<seq<byte>>, parts: seq<seq<byte>>, id: uint64)
    requires Total(taken) == size
    ensures !Stuck(stream, session, size, taken, parts, id)
  {
    TotalConcat(taken, parts);
  }

  /** The whole session, over every byte stream: it is refused after just these payloads,
      with RJT under this id, exactly if the stream begins with them under headers 0, 1, ..,
      they are not yet enough, and what follows is no header for the next packet, which is
      then named, or a good header without its whole payload, when the packet after it is
      named. */
  lemma TcpRefusesExactly(stream: seq<byte>, session: uint64, size: uint64, parts: seq<seq<byte>>, id: uint64)
    requires Countable(size)
    ensures var r := Serve(stream, session, size, 0, 0, []);
            r.ending.BadPacket? && r.payloads == parts && r.reply == Rjt(session, id)
            <==> && Small(parts) && Framed(session, 0, parts) <= stream && Total(parts) < size
                 && Stops(stream[|Framed(session, 0, parts)|..], session, size - Total(parts), |parts|, id)
    ensures var r := Serve(stream, session, size, 0, 0, []);
            r.ending.BadPacket? && r.payloads == parts && r.reply == Rjt(session, id) ==>
              r.rest == Remaining(stream[|Framed(session, 0, parts)|..], session, size - Total(parts), |parts|)
  {
    hide Serve, Info, Framed, Stops, Remaining;
    RefusesExactly(stream, session, size, [], parts, id);
    assert [] + parts == parts;
  }

  /** And it ends in one of the two ways. */
  lemma {:induction false} TcpEnds(stream: seq<byte>, session: uint64, size: uint64, recvd: uint64, cur: uint64, payloads: seq<seq<byte>>)
    ensures var r := Serve(stream, session, size, recvd, cur, payloads);
            if r.ending.AllReceived? then r.reply == Rcvd(session) else exists id :: r.reply == Rjt(session, id)
    decreases |stream|
  {
    hide ReadPacket;
    var turn := ReadPacket(stream, session, size, recvd, cur);
    if recvd < size && turn.Taken? {
      TcpEnds(turn.rest, session, size, turn.total, (cur + 1) % TWO_64, payloads + [turn.payload]);
    }
  }
}
