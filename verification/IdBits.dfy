/** Comparing ranges of the bits of two IDs (ids/bits.go): masks and whole bytes against a definition
that looks at one bit at a time (ids/id.go). */
module IdBits {
  const NUM_BITS := 256
  const BITS_PER_BYTE := 8
  const ID_LEN := 32

  type ID = s: seq<bv8> | |s| == ID_LEN witness seq(ID_LEN, _ => 0)

  // ---------------------------------------------------------------- the bits of a byte

  /** Bit `k` of a byte, counted from the least significant one. */
  predicate BitOf(b: bv8, k: nat)
    requires k < 8
    decreases k
  {
    if k == 0 then b & 1 != 0 else BitOf(b >> 1, k - 1)
  }

  function And(x: bv8, y: bv8): bv8 { x & y }

  function Xor(x: bv8, y: bv8): bv8 { x ^ y }

  /** Ones from `bit` on: the source's -1 << bit, of which only the lowest byte meets an ID's byte. */
  function StartMask(bit: nat): bv8
    requires bit <= 8
    decreases bit
  {
    if bit == 0 then 0xFF else StartMask(bit - 1) << 1
  }

  /** Ones up to `bit`: the source's (1 << (bit + 1)) - 1. */
  function StopMask(bit: nat): bv8
    requires bit < 8
    decreases bit
  {
    if bit == 0 then 1 else (StopMask(bit - 1) << 1) | 1
  }

  /** The three are what the source writes with shifts. */
  lemma SourceShifts(b: bv8, k: nat)
    requires k < 8
    ensures (b >> k) & 1 == if BitOf(b, k) then 1 else 0
    ensures StartMask(k) == 0xFF << k && StopMask(k) == (1 << (k + 1)) - 1 && StartMask(8) == 0
  {
    if k == 0 {} else if k == 1 {} else if k == 2 {} else if k == 3 {}
    else if k == 4 {} else if k == 5 {} else if k == 6 {} else {}
  }

  lemma {:induction false} StartMaskBit(s: nat, k: nat)
    requires s <= 8 && k < 8
    ensures BitOf(StartMask(s), k) <==> k >= s
    decreases s
  {
    if s == 0 {
      if k == 0 {} else if k == 1 {} else if k == 2 {} else if k == 3 {}
      else if k == 4 {} else if k == 5 {} else if k == 6 {} else {}
    } else {
      ShiftUp(StartMask(s - 1), k);
      if k > 0 { StartMaskBit(s - 1, k - 1); }
    }
  }

  lemma {:induction false} StopMaskBit(s: nat, k: nat)
    requires s < 8 && k < 8
    ensures BitOf(StopMask(s), k) <==> k <= s
    decreases s
  {
    if s == 0 {
      if k == 0 {} else if k == 1 {} else if k == 2 {} else if k == 3 {}
      else if k == 4 {} else if k == 5 {} else if k == 6 {} else {}
    } else {
      ShiftUp(StopMask(s - 1), k);
      if k > 0 { StopMaskBit(s - 1, k - 1); }
    }
  }

  /** Shifting up by one moves every bit that stays in the byte. */
  lemma ShiftUp(b: bv8, k: nat)
    requires k < 8
    ensures k > 0 ==> BitOf(b << 1, k) == BitOf(b, k - 1) && BitOf((b << 1) | 1, k) == BitOf(b, k - 1)
    ensures k == 0 ==> !BitOf(b << 1, k) && BitOf((b << 1) | 1, k)
  {
    if k > 0 {
      assert (b << 1) >> 1 == b & 0x7F && ((b << 1) | 1) >> 1 == b & 0x7F;
      DropTop(b, k - 1);
    }
  }

  lemma DropTop(b: bv8, k: nat)
    requires k < 7
    ensures BitOf(b & 0x7F, k) == BitOf(b, k)
  {
    if k == 0 {} else if k == 1 {} else if k == 2 {} else if k == 3 {} else if k == 4 {} else if k == 5 {} else {}
  }

  lemma AndShifts(x: bv8, y: bv8)
    ensures And(x, y) >> 1 == And(x >> 1, y >> 1)
    ensures And(x, y) & 1 != 0 <==> x & 1 != 0 && y & 1 != 0
  {
  }

  lemma XorShifts(x: bv8, y: bv8)
    ensures Xor(x, y) >> 1 == Xor(x >> 1, y >> 1)
    ensures Xor(x, y) & 1 != 0 <==> (x & 1 != 0) != (y & 1 != 0)
  {
  }

  lemma {:induction false} AndBit(x: bv8, y: bv8, k: nat)
    requires k < 8
    ensures BitOf(And(x, y), k) <==> BitOf(x, k) && BitOf(y, k)
    decreases k
  {
    AndShifts(x, y);
    if k > 0 { AndBit(x >> 1, y >> 1, k - 1); }
  }

  lemma {:induction false} XorBit(x: bv8, y: bv8, k: nat)
    requires k < 8
    ensures BitOf(Xor(x, y), k) <==> BitOf(x, k) != BitOf(y, k)
    decreases k
  {
    XorShifts(x, y);
    if k > 0 { XorBit(x >> 1, y >> 1, k - 1); }
  }

  lemma BitMasks(x: bv8)
    ensures (BitOf(x, 0) <==> x & 1 != 0) && (BitOf(x, 1) <==> x & 2 != 0)
    ensures (BitOf(x, 2) <==> x & 4 != 0) && (BitOf(x, 3) <==> x & 8 != 0)
    ensures (BitOf(x, 4) <==> x & 16 != 0) && (BitOf(x, 5) <==> x & 32 != 0)
    ensures (BitOf(x, 6) <==> x & 64 != 0) && (BitOf(x, 7) <==> x & 128 != 0)
  {
    assert (x >> 1) >> 1 == x >> 2 && (x >> 2) >> 1 == x >> 3 && (x >> 3) >> 1 == x >> 4;
    assert (x >> 4) >> 1 == x >> 5 && (x >> 5) >> 1 == x >> 6 && (x >> 6) >> 1 == x >> 7;
  }

  lemma SameBits(x: bv8, y: bv8)
    requires forall k :: 0 <= k < 8 ==> BitOf(x, k) == BitOf(y, k)
    ensures x == y
  {
    assert BitOf(x, 0) == BitOf(y, 0) && BitOf(x, 1) == BitOf(y, 1) && BitOf(x, 2) == BitOf(y, 2) && BitOf(x, 3) == BitOf(y, 3);
    assert BitOf(x, 4) == BitOf(y, 4) && BitOf(x, 5) == BitOf(y, 5) && BitOf(x, 6) == BitOf(y, 6) && BitOf(x, 7) == BitOf(y, 7);
    BitMasks(x);
    BitMasks(y);
  }

  /** `mask` keeps exactly the bits from `lo` to `hi`, the latter included. */
  ghost predicate Keeps(mask: bv8, lo: nat, hi: nat)
    requires hi < 8
  {
    forall k :: 0 <= k < 8 ==> (BitOf(mask, k) <==> lo <= k <= hi)
  }

  lemma MaskKeeps(lo: nat, hi: nat)
    requires lo <= 8 && hi < 8
    ensures Keeps(StartMask(lo), lo, 7) && Keeps(StopMask(hi), 0, hi) && Keeps(And(StartMask(lo), StopMask(hi)), lo, hi)
  {
    forall k: nat | k < 8
      ensures BitOf(StartMask(lo), k) <==> lo <= k
      ensures BitOf(StopMask(hi), k) <==> k <= hi
      ensures BitOf(And(StartMask(lo), StopMask(hi)), k) <==> lo <= k <= hi
    {
      StartMaskBit(lo, k);
      StopMaskBit(hi, k);
      AndBit(StartMask(lo), StopMask(hi), k);
    }
  }

  /** Two bytes agree on the bits from `lo` to `hi`, the latter included. */
  ghost predicate AgreeBits(x: bv8, y: bv8, lo: nat, hi: nat)
    requires hi < 8
  {
    forall k :: lo <= k <= hi ==> BitOf(x, k) == BitOf(y, k)
  }

  /** Masked bytes are equal exactly if the kept bits are. */
  lemma MaskedEqual(mask: bv8, lo: nat, hi: nat, x: bv8, y: bv8)
    requires hi < 8 && Keeps(mask, lo, hi)
    ensures And(mask, x) == And(mask, y) <==> AgreeBits(x, y, lo, hi)
  {
    forall k: nat | k < 8
      ensures BitOf(And(mask, x), k) <==> lo <= k <= hi && BitOf(x, k)
      ensures BitOf(And(mask, y), k) <==> lo <= k <= hi && BitOf(y, k)
    {
      AndBit(mask, x, k);
      AndBit(mask, y, k);
    }
    if And(mask, x) == And(mask, y) {
      forall k | lo <= k <= hi ensures BitOf(x, k) == BitOf(y, k) {
        assert BitOf(And(mask, x), k) == BitOf(And(mask, y), k);
      }
    }
    if AgreeBits(x, y, lo, hi) {
      SameBits(And(mask, x), And(mask, y));
    }
  }

  /** bits.TrailingZeros8. */
  function TrailingZeros8(x: bv8): nat {
    if x & 1 != 0 then 0 else if x & 2 != 0 then 1 else if x & 4 != 0 then 2 else if x & 8 != 0 then 3
    else if x & 16 != 0 then 4 else if x & 32 != 0 then 5 else if x & 64 != 0 then 6 else if x & 128 != 0 then 7 else 8
  }

  lemma TrailingZerosLeast(x: bv8)
    requires x != 0
    ensures var z := TrailingZeros8(x); z < 8 && BitOf(x, z) && forall k :: 0 <= k < z ==> !BitOf(x, k)
  {
    BitMasks(x);
  }

  /** The exclusive or of two masked bytes has the kept bits in which they differ. */
  lemma DifferentBits(mask: bv8, lo: nat, hi: nat, x: bv8, y: bv8)
    requires hi < 8 && Keeps(mask, lo, hi)
    ensures forall k :: 0 <= k < 8 ==>
              (BitOf(Xor(And(mask, x), And(mask, y)), k) <==> lo <= k <= hi && BitOf(x, k) != BitOf(y, k))
  {
    forall k: nat | k < 8
      ensures (BitOf(Xor(And(mask, x), And(mask, y)), k) <==> lo <= k <= hi && BitOf(x, k) != BitOf(y, k))
    {
      AndBit(mask, x, k);
      AndBit(mask, y, k);
      XorBit(And(mask, x), And(mask, y), k);
    }
  }

  /** `z` is the lowest bit of those from `lo` to `hi` in which two bytes differ. */
  ghost predicate FirstDifferent(x: bv8, y: bv8, lo: nat, hi: nat, z: nat)
    requires hi < 8
  {
    lo <= z <= hi && BitOf(x, z) != BitOf(y, z) && forall k :: lo <= k < z ==> BitOf(x, k) == BitOf(y, k)
  }

  lemma FirstDifferentBit(mask: bv8, lo: nat, hi: nat, x: bv8, y: bv8)
    requires hi < 8 && Keeps(mask, lo, hi) && And(mask, x) != And(mask, y)
    ensures FirstDifferent(x, y, lo, hi, TrailingZeros8(Xor(And(mask, x), And(mask, y))))
  {
    TrailingZerosLeast(Xor(And(mask, x), And(mask, y)));
    DifferentBits(mask, lo, hi, x, y);
    LeastDifferent(x, y, Xor(And(mask, x), And(mask, y)), lo, hi, TrailingZeros8(Xor(And(mask, x), And(mask, y))));
  }

  lemma LeastDifferent(x: bv8, y: bv8, d: bv8, lo: nat, hi: nat, z: nat)
    requires hi < 8 && z < 8
    requires forall k :: 0 <= k < 8 ==> (BitOf(d, k) <==> lo <= k <= hi && BitOf(x, k) != BitOf(y, k))
    requires BitOf(d, z) && forall k :: 0 <= k < z ==> !BitOf(d, k)
    ensures FirstDifferent(x, y, lo, hi, z)
  {
    forall k | lo <= k < z ensures BitOf(x, k) == BitOf(y, k) { assert !BitOf(d, k); }
  }

  // ---------------------------------------------------------------- the bits of an ID

  function Bit(id: ID, i: nat): int
    requires i < NUM_BITS
  {
    if BitOf(id[i / BITS_PER_BYTE], i % BITS_PER_BYTE) then 1 else 0
  }

  /** The reference definition: the IDs agree on every bit from `start` up to `stop`. */
  ghost predicate AgreeOn(id1: ID, id2: ID, start: int, stop: int)
    requires 0 <= start && stop <= NUM_BITS
  {
    forall i :: start <= i < stop ==> Bit(id1, i) == Bit(id2, i)
  }

  lemma AgreeByte(id1: ID, id2: ID, at: nat, lo: nat, hi: nat)
    requires at < ID_LEN && hi < 8
    ensures AgreeOn(id1, id2, at * 8 + lo, at * 8 + hi + 1) <==> AgreeBits(id1[at], id2[at], lo, hi)
  {
    if AgreeOn(id1, id2, at * 8 + lo, at * 8 + hi + 1) {
      forall k | lo <= k <= hi ensures BitOf(id1[at], k) == BitOf(id2[at], k) {
        var i := at * 8 + k;
        assert i / 8 == at && i % 8 == k;
        assert Bit(id1, i) == Bit(id2, i);
      }
    }
    if AgreeBits(id1[at], id2[at], lo, hi) {
      forall i | at * 8 + lo <= i < at * 8 + hi + 1 ensures Bit(id1, i) == Bit(id2, i) {
        assert i / 8 == at && lo <= i % 8 <= hi;
      }
    }
  }

  lemma {:induction false} AgreeBytes(id1: ID, id2: ID, a: nat, b: nat)
    requires a <= b <= ID_LEN
    ensures AgreeOn(id1, id2, a * 8, b * 8) <==> id1[a..b] == id2[a..b]
    decreases b - a
  {
    if a < b {
      AgreeBytes(id1, id2, a, b - 1);
      AgreeByte(id1, id2, b - 1, 0, 7);
      if AgreeBits(id1[b - 1], id2[b - 1], 0, 7) { SameBits(id1[b - 1], id2[b - 1]); }
      assert id1[a..b] == id1[a..b - 1] + [id1[b - 1]] && id2[a..b] == id2[a..b - 1] + [id2[b - 1]];
    }
  }

  /** The index of the byte that a range starts in: the source's division rounds towards zero. */
  function StartIndex(start: int): nat
    requires -8 < start
  {
    if start < 0 then 0 else start / BITS_PER_BYTE
  }

  /** The first bit of it that counts. For a negative start the source shifts its mask by a huge number, so
      that none does. */
  function StartBit(start: int): nat
    requires -8 < start
  {
    if start < 0 then 8 else start % BITS_PER_BYTE
  }

  /** The source panics for a start of -8 or less where it gets to look at it. */
  predicate InRange(start: int, stop: int) {
    -8 < start || start >= stop || stop <= 0 || stop > NUM_BITS
  }

  predicate EqualSubset(start: int, stop: int, id1: ID, id2: ID)
    requires InRange(start, stop)
  {
    var last := stop - 1;
    if start > last || last < 0 then true
    else if last >= NUM_BITS then false
    else
      var startIndex, stopIndex := StartIndex(start), last / BITS_PER_BYTE;
      if startIndex + 1 < stopIndex && id1[startIndex + 1..stopIndex] != id2[startIndex + 1..stopIndex] then false
      else
        var startMask, stopMask := StartMask(StartBit(start)), StopMask(last % BITS_PER_BYTE);
        if startIndex == stopIndex then
          var mask := And(startMask, stopMask);
          And(mask, id1[startIndex]) == And(mask, id2[startIndex])
        else
          && And(startMask, id1[startIndex]) == And(startMask, id2[startIndex])
          && And(stopMask, id1[stopIndex]) == And(stopMask, id2[stopIndex])
  }

  /** The first bit that is looked at: a negative start leaves out the whole first byte. */
  function FirstBit(start: int): nat { if start < 0 then 8 else start }

  lemma AgreeSplits(id1: ID, id2: ID, start: nat, a: nat, b: nat, stop: nat)
    requires start <= a <= b <= stop <= NUM_BITS
    ensures AgreeOn(id1, id2, start, stop) <==>
            AgreeOn(id1, id2, start, a) && AgreeOn(id1, id2, a, b) && AgreeOn(id1, id2, b, stop)
  {
  }

  lemma MaskedByteAgrees(mask: bv8, id1: ID, id2: ID, at: nat, lo: nat, hi: nat)
    requires at < ID_LEN && hi < 8 && Keeps(mask, lo, hi)
    ensures And(mask, id1[at]) == And(mask, id2[at]) <==> AgreeOn(id1, id2, at * 8 + lo, at * 8 + hi + 1)
  {
    MaskedEqual(mask, lo, hi, id1[at], id2[at]);
    AgreeByte(id1, id2, at, lo, hi);
  }

  /** The fast form is the reference definition, for every range of bits an ID has; for a negative start, it
      is the reference definition from bit 8 on. */
  lemma EqualSubsetAgrees(start: int, stop: int, id1: ID, id2: ID)
    requires -8 < start && stop <= NUM_BITS
    ensures EqualSubset(start, stop, id1, id2) <==> AgreeOn(id1, id2, FirstBit(start), stop)
  {
    if start < stop && 0 < stop {
      var last := stop - 1;
      var a, b, lo, hi := StartIndex(start), last / 8, StartBit(start), last % 8;
      assert a * 8 + lo == FirstBit(start);
      MaskKeeps(lo, hi);
      if a == b {
        MaskedByteAgrees(And(StartMask(lo), StopMask(hi)), id1, id2, a, lo, hi);
      } else {
        MaskedByteAgrees(StartMask(lo), id1, id2, a, lo, 7);
        AgreeBytes(id1, id2, a + 1, b);
        MaskedByteAgrees(StopMask(hi), id1, id2, b, 0, hi);
        AgreeSplits(id1, id2, FirstBit(start), a * 8 + 8, b * 8, stop);
      }
    }
  }

  /** `index` is the first bit of the range in which the IDs differ. */
  ghost predicate IsFirstDifference(id1: ID, id2: ID, start: int, stop: int, index: int)
    requires 0 <= start && stop <= NUM_BITS
  {
    start <= index < stop && Bit(id1, index) != Bit(id2, index) && AgreeOn(id1, id2, start, index)
  }

  /** The first difference inside one byte. */
  lemma FirstInByte(mask: bv8, id1: ID, id2: ID, at: nat, lo: nat, hi: nat)
    requires at < ID_LEN && hi < 8 && Keeps(mask, lo, hi) && And(mask, id1[at]) != And(mask, id2[at])
    ensures IsFirstDifference(id1, id2, at * 8 + lo, at * 8 + hi + 1,
                              TrailingZeros8(Xor(And(mask, id1[at]), And(mask, id2[at]))) + at * 8)
  {
    FirstDifferentBit(mask, lo, hi, id1[at], id2[at]);
  }

  /** A first difference stays one when agreeing bits are put before the range. */
  lemma FirstFurther(id1: ID, id2: ID, start: nat, from: nat, stop: nat, wider: nat, index: int)
    requires start <= from <= NUM_BITS && stop <= wider <= NUM_BITS
    requires AgreeOn(id1, id2, start, from) && IsFirstDifference(id1, id2, from, stop, index)
    ensures IsFirstDifference(id1, id2, start, wider, index)
  {
  }

  lemma WholeByte(x: bv8)
    ensures Keeps(0xFF, 0, 7) && And(0xFF, x) == x
  {
    MaskKeeps(0, 7);
    assert StartMask(0) == 0xFF;
  }

  /** The first bit of the range in which the IDs differ, if there is one. Beyond the bits of an ID it
      reports none, where EqualSubset reports a difference. */
  method FirstDifferenceSubset(start: int, stop: int, id1: ID, id2: ID) returns (index: int, found: bool)
    requires InRange(start, stop)
    ensures -8 < start && stop <= NUM_BITS ==>
              if found then IsFirstDifference(id1, id2, FirstBit(start), stop, index)
              else index == 0 && AgreeOn(id1, id2, FirstBit(start), stop)
    ensures start >= stop || stop <= 0 || stop > NUM_BITS ==> (index, found) == (0, false)
    ensures (found <==> !EqualSubset(start, stop, id1, id2)) <==> start >= stop || stop <= NUM_BITS
  {
    var last := stop - 1;
    if start > last || last < 0 || last >= NUM_BITS { return 0, false; }
    EqualSubsetAgrees(start, stop, id1, id2);
    index, found := FirstDifferenceInRange(start, last, id1, id2);
  }

  /** The bytes of the range: a first and a last one that are masked, and whole ones between them. */
  method FirstDifferenceInRange(start: int, last: nat, id1: ID, id2: ID) returns (index: int, found: bool)
    requires -8 < start <= last < NUM_BITS
    ensures if found then IsFirstDifference(id1, id2, FirstBit(start), last + 1, index)
            else index == 0 && AgreeOn(id1, id2, FirstBit(start), last + 1)
  {
    var startIndex, stopIndex := StartIndex(start), last / BITS_PER_BYTE;
    var startBit, stopBit := StartBit(start), last % BITS_PER_BYTE;
    var startMask, stopMask := StartMask(startBit), StopMask(stopBit);
    MaskKeeps(startBit, stopBit);
    ghost var first := FirstBit(start);
    assert startIndex * 8 + startBit == first;

    if startIndex == stopIndex {
      index, found := CompareByte(And(startMask, stopMask), id1, id2, startIndex, startBit, stopBit);
      return;
    }

    index, found := CompareByte(startMask, id1, id2, startIndex, startBit, 7);
    if found {
      FirstFurther(id1, id2, first, first, startIndex * 8 + 8, last + 1, index);
      return;
    }

    index, found := CompareInterior(startIndex + 1, stopIndex, id1, id2);
    if found {
      FirstFurther(id1, id2, first, startIndex * 8 + 8, stopIndex * 8, last + 1, index);
      return;
    }
    AgreeSplits(id1, id2, first, startIndex * 8 + 8, stopIndex * 8, stopIndex * 8);

    index, found := CompareByte(stopMask, id1, id2, stopIndex, 0, stopBit);
    if found {
      FirstFurther(id1, id2, first, stopIndex * 8, last + 1, last + 1, index);
    } else {
      AgreeSplits(id1, id2, first, stopIndex * 8, last + 1, last + 1);
    }
  }

  method CompareByte(mask: bv8, id1: ID, id2: ID, at: nat, ghost lo: nat, ghost hi: nat) returns (index: int, found: bool)
    requires at < ID_LEN && hi < 8 && Keeps(mask, lo, hi)
    ensures if found then IsFirstDifference(id1, id2, at * 8 + lo, at * 8 + hi + 1, index)
            else index == 0 && AgreeOn(id1, id2, at * 8 + lo, at * 8 + hi + 1)
  {
    var b1, b2 := And(mask, id1[at]), And(mask, id2[at]);
    MaskedByteAgrees(mask, id1, id2, at, lo, hi);
    if b1 == b2 { return 0, false; }
    FirstInByte(mask, id1, id2, at, lo, hi);
    return TrailingZeros8(Xor(b1, b2)) + at * BITS_PER_BYTE, true;
  }

  method CompareInterior(a: nat, b: nat, id1: ID, id2: ID) returns (index: int, found: bool)
    requires a <= b <= ID_LEN
    ensures if found then IsFirstDifference(id1, id2, a * 8, b * 8, index) else index == 0 && AgreeOn(id1, id2, a * 8, b * 8)
  {
    for i := a to b
      invariant AgreeOn(id1, id2, a * 8, i * 8)
    {
      WholeByte(id1[i]);
      WholeByte(id2[i]);
      if id1[i] != id2[i] {
        FirstInByte(0xFF, id1, id2, i, 0, 7);
        index, found := TrailingZeros8(Xor(id1[i], id2[i])) + i * BITS_PER_BYTE, true;
        FirstFurther(id1, id2, a * 8, i * 8, i * 8 + 8, b * 8, index);
        return;
      }
      MaskedByteAgrees(0xFF, id1, id2, i, 0, 7);
      AgreeSplits(id1, id2, a * 8, i * 8, i * 8 + 8, i * 8 + 8);
    }
    return 0, false;
  }
}
