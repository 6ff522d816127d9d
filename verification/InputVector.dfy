// my_vec.c: the growing buffer the client reads its input into.

/** The vector doubles at most once per block and copies with strncpy, also when it
    moves. Which inputs fit, and which come out unchanged. */
module InputVector {
  import opened Packets
  import opened StructMemory
  import opened Chunks

  const INIT_VEC_SIZE := 16384
  const INPUT_BUFF_SIZE := 32768
  const TWO_63 := 0x8000_0000_0000_0000

  // ----- What a push does -----

  /** realocate_my_vec: twice the capacity, up to UINT64_MAX. */
  function Grown(capacity: uint64): uint64 {
    if capacity < (TWO_64 - 1) / 2 then 2 * capacity else TWO_64 - 1
  }

  predicate Grows(occupied: nat, n: nat, capacity: uint64) {
    occupied + n >= capacity
  }

  function CapacityAfter(occupied: nat, n: nat, capacity: uint64): uint64 {
    if Grows(occupied, n, capacity) then Grown(capacity) else capacity
  }

  /** The copy stays inside the buffer. */
  predicate Fits(occupied: nat, n: nat, capacity: uint64) {
    occupied + n <= CapacityAfter(occupied, n, capacity)
  }

  /** The contents after a push: moving copies them with strncpy, and so is the block. */
  function ContentsAfter(contents: seq<byte>, block: seq<byte>, capacity: uint64): (r: seq<byte>)
    ensures |r| == |contents| + |block|
  {
    (if Grows(|contents|, |block|, capacity) then Strncpy(contents) else contents) + Strncpy(block)
  }

  // ----- A whole input -----

  /** The vector after these blocks. */
  datatype Vec = Vec(contents: seq<byte>, capacity: uint64)

  function Filled(blocks: seq<seq<byte>>): (v: Vec)
    ensures |v.contents| == Total(blocks)
  {
    if blocks == [] then Vec([], INIT_VEC_SIZE)
    else
      var v, block := Filled(blocks[..|blocks| - 1]), blocks[|blocks| - 1];
      Vec(ContentsAfter(v.contents, block, v.capacity), CapacityAfter(|v.contents|, |block|, v.capacity))
  }

  /** One read of standard input returns 1 to 32768 bytes. */
  ghost predicate Readable(blocks: seq<seq<byte>>) {
    forall i :: 0 <= i < |blocks| ==> 1 <= |blocks[i]| <= INPUT_BUFF_SIZE
  }

  ghost predicate AllFit(blocks: seq<seq<byte>>) {
    forall i :: 0 <= i < |blocks| ==>
      Fits(Total(blocks[..i]), |blocks[i]|, Filled(blocks[..i]).capacity)
  }

  /** The block that first fills the initial buffer does not go past twice its size. */
  ghost predicate FirstGrowthFits(blocks: seq<seq<byte>>) {
    forall i :: 0 <= i < |blocks| && Total(blocks[..i]) < INIT_VEC_SIZE <= Total(blocks[..i]) + |blocks[i]| ==>
      Total(blocks[..i]) + |blocks[i]| <= 2 * INIT_VEC_SIZE
  }

  /** While everything fits, the capacity is the initial one or at least one read block. */
  lemma {:induction false} CapacityKnown(blocks: seq<seq<byte>>)
    requires Readable(blocks)
    ensures if Total(blocks) < INIT_VEC_SIZE then Filled(blocks).capacity == INIT_VEC_SIZE
            else Filled(blocks).capacity >= INPUT_BUFF_SIZE
  {
    if blocks == [] {
    } else {
      CapacityKnown(blocks[..|blocks| - 1]);
    }
  }

  lemma {:induction false} WithinCapacity(blocks: seq<seq<byte>>)
    requires Readable(blocks) && AllFit(blocks) && Total(blocks) < TWO_64
    ensures Total(blocks) <= Filled(blocks).capacity
  {
    if blocks == [] {
    } else {
      var before := blocks[..|blocks| - 1];
      AllFitPrefix(blocks);
      WithinCapacity(before);
      assert blocks[..|blocks| - 1] == before;
      assert Fits(Total(before), |blocks[|blocks| - 1]|, Filled(before).capacity);
    }
  }

  lemma AllFitPrefix(blocks: seq<seq<byte>>)
    requires AllFit(blocks) && blocks != []
    ensures AllFit(blocks[..|blocks| - 1])
  {
    var before := blocks[..|blocks| - 1];
    forall i | 0 <= i < |before|
      ensures Fits(Total(before[..i]), |before[i]|, Filled(before[..i]).capacity)
    {
      assert before[..i] == blocks[..i];
      assert Fits(Total(blocks[..i]), |blocks[i]|, Filled(blocks[..i]).capacity);
    }
  }

  lemma FirstGrowthPrefix(blocks: seq<seq<byte>>)
    requires FirstGrowthFits(blocks) && blocks != []
    ensures FirstGrowthFits(blocks[..|blocks| - 1])
  {
    var before := blocks[..|blocks| - 1];
    forall i | 0 <= i < |before| && Total(before[..i]) < INIT_VEC_SIZE <= Total(before[..i]) + |before[i]|
      ensures Total(before[..i]) + |before[i]| <= 2 * INIT_VEC_SIZE
    {
      assert before[..i] == blocks[..i];
    }
  }

  /** One more block: one doubling is enough except possibly at the first growth. */
  lemma PushFits(before: seq<seq<byte>>, block: seq<byte>)
    requires Readable(before) && 1 <= |block| <= INPUT_BUFF_SIZE
    requires Total(before) <= Filled(before).capacity && Total(before) + |block| < TWO_64
    ensures Fits(Total(before), |block|, Filled(before).capacity) <==>
            (Total(before) < INIT_VEC_SIZE <= Total(before) + |block| ==> Total(before) + |block| <= 2 * INIT_VEC_SIZE)
  {
    CapacityKnown(before);
  }

  lemma AllFitSnoc(blocks: seq<seq<byte>>)
    requires blocks != []
    ensures var last := |blocks| - 1;
            AllFit(blocks) <==> AllFit(blocks[..last]) && Fits(Total(blocks[..last]), |blocks[last]|, Filled(blocks[..last]).capacity)
  {
    hide Fits, Filled, Total;
    var last := |blocks| - 1;
    var before := blocks[..last];
    if AllFit(blocks) {
      AllFitPrefix(blocks);
    }
    if AllFit(before) && Fits(Total(before), |blocks[last]|, Filled(before).capacity) {
      forall i | 0 <= i < |blocks|
        ensures Fits(Total(blocks[..i]), |blocks[i]|, Filled(blocks[..i]).capacity)
      {
        if i < last {
          assert before[..i] == blocks[..i];
          assert Fits(Total(before[..i]), |before[i]|, Filled(before[..i]).capacity);
        }
      }
    }
  }

  lemma FirstGrowthSnoc(blocks: seq<seq<byte>>)
    requires blocks != []
    ensures var last := |blocks| - 1;
            FirstGrowthFits(blocks) <==>
            (FirstGrowthFits(blocks[..last])
             && (Total(blocks[..last]) < INIT_VEC_SIZE <= Total(blocks[..last]) + |blocks[last]| ==>
                 Total(blocks[..last]) + |blocks[last]| <= 2 * INIT_VEC_SIZE))
  {
    hide Total;
    var last := |blocks| - 1;
    var before := blocks[..last];
    if FirstGrowthFits(blocks) {
      FirstGrowthPrefix(blocks);
    }
    assert forall i :: 0 <= i < last ==> before[..i] == blocks[..i] && before[i] == blocks[i];
  }

  /** For an input read in blocks of 1 to 32768 bytes, one doubling per push suffices and
      every copy stays inside the buffer exactly when the block that first reaches 16384
      bytes in all does not pass 32768; so it does when all reads but the last fill the
      block. */
  lemma {:induction false} FitsExactly(blocks: seq<seq<byte>>)
    requires Readable(blocks) && Total(blocks) < TWO_64
    ensures AllFit(blocks) <==> FirstGrowthFits(blocks)
  {
    if blocks == [] {
    } else {
      var last := |blocks| - 1;
      var before := blocks[..last];
      AllFitSnoc(blocks);
      FirstGrowthSnoc(blocks);
      FitsExactly(before);
      if AllFit(before) {
        WithinCapacity(before);
        PushFits(before, blocks[last]);
      }
    }
  }

  lemma FullBlocksFit(blocks: seq<seq<byte>>)
    requires Readable(blocks) && Total(blocks) < TWO_64
    requires forall i :: 0 <= i < |blocks| - 1 ==> |blocks[i]| == INPUT_BUFF_SIZE
    ensures AllFit(blocks)
  {
    forall i | 0 < i < |blocks|
      ensures Total(blocks[..i]) >= INPUT_BUFF_SIZE
    {
      assert blocks[..i][i - 1] == blocks[i - 1];
    }
    assert Total(blocks[..0]) == 0;
    FitsExactly(blocks);
  }

  /** An input that does not fit: a short read and then a full one. */
  lemma ShortFirstRead(a: seq<byte>, b: seq<byte>)
    requires |a| == INIT_VEC_SIZE - 1 && |b| == INPUT_BUFF_SIZE
    ensures !AllFit([a, b])
  {
    assert [a, b][..1] == [a] && [a][..0] == [];
    assert Total([a]) == |a| && Filled([a]).capacity == INIT_VEC_SIZE;
    assert !Fits(Total([a, b][..1]), |[a, b][1]|, Filled([a, b][..1]).capacity);
  }

  // ----- The capacity, from the totals alone -----

  function Double(k: nat): nat {
    if k == 0 then INIT_VEC_SIZE else 2 * Double(k - 1)
  }

  /** A size of the buffer: 16384 bytes, or twice as much, and so on. */
  ghost predicate IsSize(size: nat) {
    exists k: nat :: size == Double(k)
  }

  lemma {:induction false} StepsDouble(j: nat, k: nat)
    requires j < k
    ensures 2 * Double(j) <= Double(k) && Double(j) >= INIT_VEC_SIZE
  {
    if j < k - 1 {
      StepsDouble(j, k - 1);
    } else {
      FirstStep(j);
    }
  }

  lemma {:induction false} FirstStep(j: nat)
    ensures Double(j) >= INIT_VEC_SIZE
  {
    if j > 0 {
      FirstStep(j - 1);
    }
  }

  lemma SizesEven(p: nat)
    requires IsSize(p)
    ensures p % 2 == 0
  {
    var k: nat :| p == Double(k);
    if k > 0 {
      assert Double(k) == 2 * Double(k - 1);
    }
  }

  /** Two different sizes are a factor of two apart. */
  lemma StepsApart(p: nat, q: nat)
    requires IsSize(p) && IsSize(q) && p < q
    ensures 2 * p <= q && p >= INIT_VEC_SIZE
  {
    var j: nat, k: nat :| p == Double(j) && q == Double(k);
    if k < j {
      StepsDouble(k, j);
    } else {
      StepsDouble(j, k);
    }
  }

  lemma NextStep(p: nat)
    requires IsSize(p)
    ensures IsSize(2 * p) && p >= INIT_VEC_SIZE
  {
    var k: nat :| p == Double(k);
    assert 2 * p == Double(k + 1);
    FirstStep(k);
  }

  /** The input fills the buffer to the last byte. By its totals: the first push that
      reaches 16384 bytes gets to 32768, or it did, and the next adds as much again. */
  ghost predicate Brimful(blocks: seq<seq<byte>>) {
    blocks != [] &&
    var before := blocks[..|blocks| - 1];
    || (Total(blocks) == 2 * INIT_VEC_SIZE && Total(before) < INIT_VEC_SIZE)
    || (Total(blocks) == 4 * INIT_VEC_SIZE && before != [] && Total(before) == 2 * INIT_VEC_SIZE
        && Total(before[..|before| - 1]) < INIT_VEC_SIZE)
  }

  function Larger(a: nat, b: nat): nat {
    if a < b then b else a
  }

  /** While everything fits, up to 2^63 bytes: the capacity is 16384 times a power of two, at
      least the total, above it unless the buffer is brimful, and at most twice the larger
      of the total and 16384. */
  lemma {:induction false} CapacityByTotals(blocks: seq<seq<byte>>)
    requires Readable(blocks) && AllFit(blocks) && Total(blocks) < TWO_63
    ensures var capacity := Filled(blocks).capacity;
            && IsSize(capacity)
            && Total(blocks) <= capacity <= 2 * Larger(Total(blocks), INIT_VEC_SIZE)
            && (Total(blocks) == capacity <==> Brimful(blocks))
  {
    if blocks == [] {
      assert Double(0) == INIT_VEC_SIZE;
    } else {
      var before, block := blocks[..|blocks| - 1], blocks[|blocks| - 1];
      AllFitPrefix(blocks);
      CapacityByTotals(before);
      CapacityKnown(before);
      if before != [] { BrimfulNext(before); }
      NextStep(Filled(before).capacity);
      assert Fits(Total(before), |block|, Filled(before).capacity) by {
        assert blocks[..|blocks| - 1] == before;
      }
      BrimfulNext(blocks);
      OnePush(Total(before), |block|, Filled(before).capacity, Brimful(before));
    }
  }

  /** Whether one more block fills the buffer to the last byte. */
  lemma BrimfulNext(blocks: seq<seq<byte>>)
    requires blocks != []
    ensures var before, total := blocks[..|blocks| - 1], Total(blocks);
            Brimful(blocks) <==>
            || (total == 2 * INIT_VEC_SIZE && Total(before) < INIT_VEC_SIZE)
            || (total == 4 * INIT_VEC_SIZE && Total(before) == 2 * INIT_VEC_SIZE && Brimful(before))
    ensures Brimful(blocks) ==> Total(blocks) == 2 * INIT_VEC_SIZE || Total(blocks) == 4 * INIT_VEC_SIZE
  {
    hide Total;
    NothingIsLittle();
  }

  lemma NothingIsLittle()
    ensures Total([]) == 0
  {
  }

  lemma OnePush(total: nat, n: nat, c: uint64, brimful: bool)
    requires IsSize(c) && IsSize(2 * c) && c >= INIT_VEC_SIZE && Fits(total, n, c)
    requires 1 <= n <= INPUT_BUFF_SIZE && total + n < TWO_63
    requires total <= c <= 2 * Larger(total, INIT_VEC_SIZE) && (total == c <==> brimful)
    requires total < INIT_VEC_SIZE ==> c == INIT_VEC_SIZE
    requires total >= INIT_VEC_SIZE ==> c >= INPUT_BUFF_SIZE
    requires brimful ==> total == 2 * INIT_VEC_SIZE || total == 4 * INIT_VEC_SIZE
    ensures var after := CapacityAfter(total, n, c);
            && IsSize(after) && total + n <= after <= 2 * Larger(total + n, INIT_VEC_SIZE)
            && (total + n == after <==>
                || (total + n == 2 * INIT_VEC_SIZE && total < INIT_VEC_SIZE)
                || (total + n == 4 * INIT_VEC_SIZE && total == 2 * INIT_VEC_SIZE && brimful))
  {
    hide IsSize;
    SizesEven(c);
    assert Grows(total, n, c) ==> c < TWO_63 - 1;
  }

  /** Every size is doubled while that fits into 64 bits, and then grows to the largest. */
  lemma SizesGrow(p: uint64)
    requires IsSize(p)
    ensures Grown(p) == if 2 * p < TWO_64 then 2 * p else TWO_64 - 1
  {
    SizesEven(p);
  }

  /** And a push moves the contents exactly if it reaches a size that the total was below, or
      that it had just filled. */
  lemma MovesByTotals(before: seq<seq<byte>>, block: seq<byte>)
    requires Readable(before) && AllFit(before) && Total(before) < TWO_63 && block != []
    ensures Grows(Total(before), |block|, Filled(before).capacity)
       <==> exists p: nat :: IsSize(p) && p <= Total(before) + |block|
                     && (Total(before) < p || (Total(before) == p && Brimful(before)))
  {
    hide Total, Filled, IsSize, Brimful, AllFit, Readable;
    CapacityByTotals(before);
    CapacityKnown(before);
    MovesAt(Total(before), |block|, Filled(before).capacity, Brimful(before));
  }

  lemma MovesAt(total: nat, n: nat, c: uint64, brimful: bool)
    requires IsSize(c) && n > 0 && total <= c <= 2 * Larger(total, INIT_VEC_SIZE) && (total == c <==> brimful)
    requires total < INIT_VEC_SIZE ==> c == INIT_VEC_SIZE
    ensures Grows(total, n, c)
       <==> exists p: nat :: IsSize(p) && p <= total + n && (total < p || (total == p && brimful))
  {
    if p: nat :| IsSize(p) && p <= total + n && (total < p || (total == p && brimful)) {
      if p < c {
        StepsApart(p, c);
      }
    }
  }

  // ----- Contents -----

  /** No data after a NUL in any block, nor in what is moved when the buffer grows. */
  ghost predicate Undisturbed(blocks: seq<seq<byte>>) {
    blocks == [] ||
    (var before, block := blocks[..|blocks| - 1], blocks[|blocks| - 1];
     && Undisturbed(before)
     && TailNul(block)
     && (Grows(Total(before), |block|, Filled(before).capacity) ==> TailNul(Joined(before))))
  }

  /** Bytes can only have become NUL. */
  ghost predicate Faded(original: seq<byte>, copy: seq<byte>) {
    |copy| == |original| && forall i :: 0 <= i < |copy| ==> copy[i] == original[i] || copy[i] == 0
  }

  lemma {:induction false} StrncpyFades(bs: seq<byte>)
    ensures Faded(bs, Strncpy(bs))
  {
    if bs == [] || bs[0] == 0 {
    } else {
      StrncpyFades(bs[1..]);
      forall i | 0 <= i < |bs|
        ensures Strncpy(bs)[i] == bs[i] || Strncpy(bs)[i] == 0
      {
        if i > 0 {
          assert Strncpy(bs)[i] == Strncpy(bs[1..])[i - 1] && bs[i] == bs[1..][i - 1];
        }
      }
    }
  }

  /** A byte once lost stays lost. */
  lemma FadedStays(original: seq<byte>, copy: seq<byte>)
    requires Faded(original, copy)
    ensures Faded(original, Strncpy(copy))
    ensures Strncpy(copy) == original ==> copy == original
  {
    StrncpyFades(copy);
    if Strncpy(copy) == original {
      forall i | 0 <= i < |copy|
        ensures copy[i] == original[i]
      {
        assert Strncpy(copy)[i] == original[i];
      }
    }
  }

  lemma FadedConcat(a: seq<byte>, b: seq<byte>, c: seq<byte>, d: seq<byte>)
    requires Faded(a, c) && Faded(b, d)
    ensures Faded(a + b, c + d)
  {
  }

  /** For every input the vector's contents have the right length and differ from the input
      only in bytes turned NUL; they are the input exactly when it was undisturbed. */
  lemma {:induction false} ContentsExactly(blocks: seq<seq<byte>>)
    ensures Faded(Joined(blocks), Filled(blocks).contents)
    ensures Filled(blocks).contents == Joined(blocks) <==> Undisturbed(blocks)
  {
    if blocks == [] {
    } else {
      hide Strncpy, TailNul, Faded;
      var before, block := blocks[..|blocks| - 1], blocks[|blocks| - 1];
      var v := Filled(before);
      ContentsExactly(before);
      StrncpyFades(block);
      StrncpyIdentity(block);
      FadedStays(Joined(before), v.contents);
      FadedLength(Joined(before), v.contents);
      var moved := if Grows(|v.contents|, |block|, v.capacity) then Strncpy(v.contents) else v.contents;
      FadedConcat(Joined(before), block, moved, Strncpy(block));
      ConcatEqual(moved, Strncpy(block), Joined(before), block);
      if v.contents == Joined(before) {
        StrncpyIdentity(v.contents);
      }
    }
  }

  lemma FadedLength(original: seq<byte>, copy: seq<byte>)
    requires Faded(original, copy)
    ensures |copy| == |original|
  {
  }

  /** In particular NUL-free input comes out unchanged across every reallocation. */
  lemma {:induction false} NulFreeUndisturbed(blocks: seq<seq<byte>>)
    requires 0 !in Joined(blocks)
    ensures Undisturbed(blocks)
  {
    if blocks == [] {
    } else {
      var before, block := blocks[..|blocks| - 1], blocks[|blocks| - 1];
      var all := Joined(blocks);
      assert all == Joined(before) + block;
      NulFreeSlice(all, 0, |Joined(before)|);
      NulFreeSlice(all, |Joined(before)|, |all|);
      assert all[0..|Joined(before)|] == Joined(before) && all[|Joined(before)|..|all|] == block;
      assert forall b :: b in Joined(before) ==> b in all;
      NulFreeUndisturbed(before);
    }
  }

  // ----- The vector itself -----

  class MyVec {
    var buff: array<byte>
    var buffSize: uint64
    var occupiedSize: uint64
    var firstFreeSpaceIdx: uint64

    ghost predicate Valid()
      reads this
    {
      buff.Length == buffSize && occupiedSize == firstFreeSpaceIdx <= buffSize
    }

    ghost function Contents(): seq<byte>
      requires Valid()
      reads this, buff
    {
      buff[..occupiedSize]
    }

    /** my_vec_init. */
    constructor ()
      ensures Valid() && fresh(buff) && Contents() == [] && buffSize == INIT_VEC_SIZE
    {
      buff := new byte[INIT_VEC_SIZE](_ => 0);
      buffSize, occupiedSize, firstFreeSpaceIdx := INIT_VEC_SIZE, 0, 0;
    }

    /** realocate_my_vec: a zeroed buffer of twice the size, and strncpy of the old one. */
    method Reallocate()
      requires Valid()
      modifies this`buff, this`buffSize
      ensures Valid() && fresh(buff) && buffSize == Grown(old(buffSize))
      ensures Contents() == Strncpy(old(Contents()))
    {
      var newSize := if buffSize < (TWO_64 - 1) / 2 then 2 * buffSize else TWO_64 - 1;
      var temp := buff;
      buff := new byte[newSize](_ => 0);
      buffSize := newSize;
      Store(buff, 0, Strncpy(temp[..occupiedSize]));
      assert buff[..occupiedSize] == Strncpy(temp[..occupiedSize]);
    }

    /** push_back_str_to_vec. A block that does not fit after one doubling is copied past
        the buffer in C, with no defined meaning; here that ends the call with false. */
    method PushBack(block: seq<byte>) returns (inside: bool)
      requires Valid()
      modifies this, buff
      ensures Valid() && (buff == old(buff) || fresh(buff))
      ensures inside <==> Fits(old(occupiedSize), |block|, old(buffSize))
      ensures inside ==> Contents() == ContentsAfter(old(Contents()), block, old(buffSize))
      ensures buffSize == CapacityAfter(old(occupiedSize), |block|, old(buffSize))
    {
      if occupiedSize + |block| >= buffSize {
        Reallocate();
      }
      if occupiedSize + |block| > buffSize {
        return false;
      }
      ghost var before := buff[..occupiedSize];
      Store(buff, firstFreeSpaceIdx, Strncpy(block));
      assert buff[..occupiedSize + |block|] == before + Strncpy(block);
      firstFreeSpaceIdx := firstFreeSpaceIdx + |block|;
      occupiedSize := occupiedSize + |block|;
      return true;
    }

    /** my_vec_read_stdin: `blocks` are the results of read() up to end of file. No copy
        leaves the buffer exactly if the first growth fits. */
    method ReadStdin(blocks: seq<seq<byte>>) returns (inside: bool)
      requires Valid() && Contents() == [] && buffSize == INIT_VEC_SIZE
      requires Readable(blocks) && Total(blocks) < TWO_64
      modifies this, buff
      ensures Valid()
      ensures inside <==> FirstGrowthFits(blocks)
      ensures inside ==> Vec(Contents(), buffSize) == Filled(blocks)
    {
      hide Filled, Total, Readable, FirstGrowthFits, Fits, ContentsAfter, CapacityAfter;
      FitsExactly(blocks);
      FilledNone();
      var k := 0;
      assert blocks[..0] == [];
      while k < |blocks|
        invariant 0 <= k <= |blocks| && Valid() && (buff == old(buff) || fresh(buff))
        invariant Vec(Contents(), buffSize) == Filled(blocks[..k])
        invariant forall i :: 0 <= i < k ==> Fits(Total(blocks[..i]), |blocks[i]|, Filled(blocks[..i]).capacity)
      {
        FilledNext(blocks, k);
        inside := PushBack(blocks[k]);
        if !inside {
          return;
        }
        k := k + 1;
      }
      assert blocks[..|blocks|] == blocks;
      inside := true;
    }
  }

  lemma FilledNone()
    ensures Filled([]) == Vec([], INIT_VEC_SIZE)
  {
  }

  lemma FilledNext(blocks: seq<seq<byte>>, k: nat)
    requires k < |blocks|
    ensures var v := Filled(blocks[..k]);
            && |v.contents| == Total(blocks[..k])
            && Filled(blocks[..k + 1]) == Vec(ContentsAfter(v.contents, blocks[k], v.capacity),
                                              CapacityAfter(|v.contents|, |blocks[k]|, v.capacity))
  {
    assert blocks[..k + 1][..k] == blocks[..k];
  }
}
