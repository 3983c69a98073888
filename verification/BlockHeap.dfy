/** Single bits of an unsigned long, taken with a mask that is shifted along. */
module Bits {
  const WORD_BITS: nat := 64

  /** 1L << n */
  function One(n: nat): bv64 {
    if n == 0 then 1 else One(n - 1) << 1
  }

  function And(w: bv64, m: bv64): bv64 {
    w & m
  }

  /** w |= m and w &= ~m */
  function SetMask(w: bv64, m: bv64): bv64 {
    w | m
  }

  function ClearMask(w: bv64, m: bv64): bv64 {
    w & !m
  }

  predicate Bit(w: bv64, n: nat) {
    And(w, One(n)) != 0
  }

  /** All bits below n. */
  function Low(n: nat): bv64 {
    if n == 0 then 0 else (Low(n - 1) << 1) | 1
  }

  lemma ShiftApart(a: bv64, b: bv64)
    ensures (a << 1) & (b << 1) == (a & b) << 1
    ensures (a << 1) & 1 == 0
    ensures (a | b) << 1 == (a << 1) | (b << 1)
  {
  }

  lemma {:induction false} OnesApart(i: nat, j: nat)
    requires i != j
    ensures And(One(i), One(j)) == 0
  {
    if i == 0 {
      ShiftApart(One(j - 1), 0);
    } else if j == 0 {
      ShiftApart(One(i - 1), 0);
    } else {
      OnesApart(i - 1, j - 1);
      ShiftApart(One(i - 1), One(j - 1));
    }
  }

  lemma LowTwice(x: bv64)
    ensures (((x << 1) | 1) << 1) | 1 == (x << 2) | 3
    ensures (x << 1) << 1 == x << 2
  {
  }

  lemma OneMore(n: nat)
    ensures One(n + 1) == One(n) << 1 && Low(n + 1) == (Low(n) << 1) | 1
  {
  }

  lemma TwoMore(n: nat)
    ensures One(n + 2) == One(n) << 2
    ensures Low(n + 2) == (Low(n) << 2) | 3
  {
    hide One, Low;
    OneMore(n);
    OneMore(n + 1);
    LowTwice(Low(n));
    LowTwice(One(n));
  }

  lemma FourMore(n: nat)
    ensures One(n + 4) == One(n) << 4
    ensures Low(n + 4) == (Low(n) << 4) | 0xf
  {
    hide One, Low;
    TwoMore(n);
    TwoMore(n + 2);
  }

  lemma EightMore(n: nat)
    ensures One(n + 8) == One(n) << 8
    ensures Low(n + 8) == (Low(n) << 8) | 0xff
  {
    hide One, Low;
    FourMore(n);
    FourMore(n + 4);
  }

  lemma WordEnds()
    ensures One(56) == 0x0100_0000_0000_0000 && One(64) == 0
    ensures Low(64) == 0xffff_ffff_ffff_ffff
  {
    EightMore(0);
    EightMore(8);
    EightMore(16);
    EightMore(24);
    EightMore(32);
    EightMore(40);
    EightMore(48);
    EightMore(56);
  }

  /** The mask runs through 64 non-zero values, and then becomes zero. */
  lemma OneNonZero(n: nat)
    ensures One(n) != 0 <==> n < WORD_BITS
  {
    WordEnds();
    assert One(63) == 0x8000_0000_0000_0000 by {
      assert One(57) == One(56) << 1 && One(58) == One(57) << 1 && One(59) == One(58) << 1;
      assert One(60) == One(59) << 1 && One(61) == One(60) << 1 && One(62) == One(61) << 1;
    }
    if n >= 64 {
      ZeroStays(64, n);
    } else {
      NonZeroBelow(n, 63);
    }
  }

  lemma {:induction false} ZeroStays(m: nat, n: nat)
    requires m <= n && One(m) == 0
    ensures One(n) == 0
  {
    if m < n {
      ZeroStays(m, n - 1);
    }
  }

  lemma NonZeroBelow(n: nat, m: nat)
    requires n <= m && One(m) != 0
    ensures One(n) != 0
  {
    if One(n) == 0 {
      ZeroStays(n, m);
    }
  }

  lemma AndOr(w: bv64, m: bv64, n: bv64)
    ensures And(w, m | n) == And(w, m) | And(w, n)
  {
  }

  lemma SetApart(w: bv64, m: bv64, n: bv64)
    requires And(m, n) == 0
    ensures And(SetMask(w, m), n) == And(w, n)
  {
  }

  lemma ClearApart(w: bv64, m: bv64, n: bv64)
    requires And(m, n) == 0
    ensures And(ClearMask(w, m), n) == And(w, n)
  {
  }

  lemma SelfBits(w: bv64, m: bv64)
    ensures And(SetMask(w, m), m) == m && And(ClearMask(w, m), m) == 0
  {
  }

  /** Setting or clearing one bit leaves the others. */
  lemma OneBitChanges(w: bv64, i: nat, j: nat)
    requires i < WORD_BITS
    ensures Bit(SetMask(w, One(i)), j) <==> i == j || Bit(w, j)
    ensures Bit(ClearMask(w, One(i)), j) <==> i != j && Bit(w, j)
  {
    if i == j {
      OneNonZero(i);
      SelfBits(w, One(i));
    } else {
      OnesApart(i, j);
      SetApart(w, One(i), One(j));
      ClearApart(w, One(i), One(j));
    }
    hide One, And, SetMask, ClearMask;
  }

  lemma {:induction false} LowSteps(n: nat)
    ensures Low(n + 1) == Low(n) | One(n)
  {
    if n > 0 {
      LowSteps(n - 1);
      ShiftOr(Low(n - 1), One(n - 1));
    } else {
      assert Low(1) == 1 && One(0) == 1 && Low(0) == 0;
    }
  }

  lemma ShiftOr(a: bv64, b: bv64)
    ensures ((a | b) << 1) | 1 == ((a << 1) | 1) | (b << 1)
  {
  }

  lemma {:induction false} NoLowBits(w: bv64, n: nat)
    requires forall i | 0 <= i < n :: !Bit(w, i)
    ensures And(w, Low(n)) == 0
  {
    if n > 0 {
      NoLowBits(w, n - 1);
      LowSteps(n - 1);
      AndOr(w, Low(n - 1), One(n - 1));
      assert !Bit(w, n - 1);
    }
  }

  /** A word is zero exactly when no bit is set, and in an all-ones word every bit is. */
  lemma WordBits(w: bv64)
    ensures w == 0 <==> forall i | 0 <= i < WORD_BITS :: !Bit(w, i)
    ensures w == !0 ==> forall i | 0 <= i < WORD_BITS :: Bit(w, i)
  {
    WordEnds();
    if forall i | 0 <= i < WORD_BITS :: !Bit(w, i) {
      NoLowBits(w, WORD_BITS);
    }
    forall i | 0 <= i < WORD_BITS
      ensures One(i) != 0
    {
      OneNonZero(i);
    }
  }
}

/** The bitmap block allocator: blocks of equal elements, one bit per element. */
module BlockHeaps {
  import opened Bits
  import opened Options

  /** Block: where its elements start, and which of them are in use. */
  class Block {
    const elems: nat
    const allocMap: array<bv64>
    var freeElems: int
    /** The slots in use. */
    ghost var used: set<nat>

    /** Bit k of the map is set exactly for the slots in use; the spare bits of the last word never are. */
    ghost predicate Valid(words: nat, slots: nat)
      reads this, allocMap
    {
      && allocMap.Length > words && slots <= words * WORD_BITS
      && (forall k: nat | k < words * WORD_BITS :: k in used <==> Bit(allocMap[k / WORD_BITS], k % WORD_BITS))
      && (forall k | k in used :: k < slots)
      && freeElems == slots - |used|
    }

    constructor (elems: nat, words: nat, slots: nat)
      requires slots <= words * WORD_BITS
      ensures Valid(words, slots) && used == {} && this.elems == elems && fresh(allocMap)
    {
      this.elems := elems;
      allocMap := new bv64[words + 1](_ => 0);
      freeElems := slots;
      used := {};
      new;
      WordBits(0);
    }

    lemma SomeFree(words: nat, slots: nat) returns (k: nat)
      requires Valid(words, slots) && freeElems > 0
      ensures k < slots && k !in used
    {
      var all := Below(slots);
      assert all == used + (all - used);
      k :| k in all - used;
    }

    lemma FullWord(words: nat, slots: nat, unit: nat)
      requires Valid(words, slots) && unit < words && allocMap[unit] == !0
      ensures forall k: nat | unit * WORD_BITS <= k < (unit + 1) * WORD_BITS :: k in used
    {
      hide One, And, Bit;
      WordBits(allocMap[unit]);
      forall k: nat | unit * WORD_BITS <= k < (unit + 1) * WORD_BITS
        ensures k in used
      {
        assert k / WORD_BITS == unit;
      }
    }

    lemma SlotBit(words: nat, slots: nat, unit: nat, ctr: nat)
      requires Valid(words, slots) && unit < words && ctr < WORD_BITS
      ensures unit * WORD_BITS + ctr in used <==> And(allocMap[unit], One(ctr)) != 0
    {
      hide One, And;
      assert (unit * WORD_BITS + ctr) / WORD_BITS == unit && (unit * WORD_BITS + ctr) % WORD_BITS == ctr;
    }

    lemma Counts(words: nat, slots: nat)
      requires Valid(words, slots)
      ensures 0 <= freeElems <= slots && (freeElems == slots <==> used == {})
      ensures forall k | k in used :: k < slots
    {
      assert Below(slots) == used + (Below(slots) - used);
    }

    lemma Sizes(words: nat, slots: nat)
      requires Valid(words, slots)
      ensures allocMap.Length > words && slots <= words * WORD_BITS
      ensures forall k | k in used :: k < slots
    {
    }

    /** The search loop of BlockHeapAlloc: skip full words, then try bit after bit. */
    method TakeFree(words: nat, slots: nat) returns (slot: nat)
      requires Valid(words, slots) && freeElems > 0
      modifies this, allocMap
      ensures Valid(words, slots)
      ensures slot < slots && slot !in old(used) && used == old(used) + {slot}
      ensures freeElems == old(freeElems) - 1
    {
      hide One, And, SetMask, ClearMask, Valid;
      ghost var f := SomeFree(words, slots);
      Sizes(words, slots);
      var mask: bv64, ctr: nat, unit: nat := 1, 0, 0;
      OneIsOne();
      while unit < words
        invariant unit <= words && ctr < WORD_BITS && mask == One(ctr)
        invariant unit == words ==> ctr == 0
        invariant Valid(words, slots) && used == old(used) && freeElems == old(freeElems)
        invariant forall k: nat | k < unit * WORD_BITS + ctr :: k in used
        decreases words * WORD_BITS - (unit * WORD_BITS + ctr)
      {
        if mask == 1 && allocMap[unit] == !0 {
          if ctr > 0 {
            LaterMask(ctr);
          }
          FullWord(words, slots, unit);
          unit := unit + 1;
          ctr := 0;
          continue;
        }
        slot := unit * WORD_BITS + ctr;
        SlotBit(words, slots, unit, ctr);
        if And(allocMap[unit], mask) == 0 {
          Mark(words, slots, unit, ctr);
          return;
        }
        NextMask(ctr);
        mask := mask << 1;
        ctr := ctr + 1;
        if mask == 0 {
          mask := 1;
          unit := unit + 1;
          ctr := 0;
        }
      }
      assert false;
    }

    lemma SlotWord(words: nat, slots: nat, k: nat)
      requires Valid(words, slots) && k < slots
      ensures k / WORD_BITS < allocMap.Length
      ensures k in used <==> And(allocMap[k / WORD_BITS], One(k % WORD_BITS)) != 0
    {
      hide One, And;
    }

    /** Sets the bit of a free slot. */
    method Mark(words: nat, slots: nat, unit: nat, ctr: nat)
      requires Valid(words, slots) && unit < words && ctr < WORD_BITS
      requires unit * WORD_BITS + ctr !in used && unit * WORD_BITS + ctr < slots
      modifies `freeElems, `used, allocMap
      ensures Valid(words, slots) && used == old(used) + {unit * WORD_BITS + ctr}
      ensures freeElems == old(freeElems) - 1
    {
      hide One, And, SetMask, ClearMask, Bit;
      ghost var w, slot := allocMap[unit], unit * WORD_BITS + ctr;
      allocMap[unit] := SetMask(allocMap[unit], One(ctr));
      freeElems := freeElems - 1;
      used := used + {slot};
      forall k: nat | k < words * WORD_BITS
        ensures k in used <==> Bit(allocMap[k / WORD_BITS], k % WORD_BITS)
      {
        OneBitChanges(w, ctr, k % WORD_BITS);
      }
    }

    /** Clears the bit of a slot in use. */
    method Release(words: nat, slots: nat, slot: nat)
      requires Valid(words, slots) && slot in used
      modifies `freeElems, `used, allocMap
      ensures Valid(words, slots) && used == old(used) - {slot}
      ensures freeElems == old(freeElems) + 1
    {
      hide One, And, SetMask, ClearMask, Bit;
      var bitmask, unit := One(slot % WORD_BITS), slot / WORD_BITS;
      ghost var w := allocMap[unit];
      allocMap[unit] := ClearMask(allocMap[unit], bitmask);
      freeElems := freeElems + 1;
      used := used - {slot};
      forall k: nat | k < words * WORD_BITS
        ensures k in used <==> Bit(allocMap[k / WORD_BITS], k % WORD_BITS)
      {
        OneBitChanges(w, slot % WORD_BITS, k % WORD_BITS);
      }
    }

    /** The collector's word loop: the block is wholly free exactly when all its words are zero. */
    method WhollyFree(words: nat, slots: nat) returns (free: bool)
      requires Valid(words, slots)
      ensures free <==> used == {}
    {
      hide One, And, Bit;
      var i := 0;
      while i < words
        invariant i <= words
        invariant forall k: nat | k < i * WORD_BITS :: k !in used
      {
        WordBits(allocMap[i]);
        if allocMap[i] != 0 {
          var b :| 0 <= b < WORD_BITS && Bit(allocMap[i], b);
          assert (i * WORD_BITS + b) / WORD_BITS == i && (i * WORD_BITS + b) % WORD_BITS == b;
          assert i * WORD_BITS + b in used;
          return false;
        }
        forall k: nat | k < (i + 1) * WORD_BITS
          ensures k !in used
        {
          if k >= i * WORD_BITS {
            assert k / WORD_BITS == i;
          }
        }
        i := i + 1;
      }
      free := true;
      assert used == {};
    }
  }

  /** The slots of a block. */
  ghost function Below(n: nat): (s: set<nat>)
    ensures |s| == n && forall k: nat :: k in s <==> k < n
  {
    if n == 0 then {} else Below(n - 1) + {n - 1}
  }

  lemma OneIsOne()
    ensures One(0) == 1
  {
  }

  /** Shifting the mask goes to the next bit, and past the last one to zero. */
  lemma NextMask(ctr: nat)
    requires ctr < WORD_BITS
    ensures One(ctr) << 1 == One(ctr + 1)
    ensures One(ctr) << 1 == 0 <==> ctr + 1 == WORD_BITS
  {
    OneNonZero(ctr + 1);
  }

  lemma LaterMask(ctr: nat)
    requires ctr > 0
    ensures One(ctr) != 1
  {
    ShiftApart(One(ctr - 1), 0);
  }

  function Sum(s: seq<int>): int {
    if s == [] then 0 else s[0] + Sum(s[1..])
  }

  lemma {:induction false} SumUpdate(s: seq<int>, i: nat, v: int)
    requires i < |s|
    ensures Sum(s[i := v]) == Sum(s) - s[i] + v
  {
    if i == 0 {
      assert s[0 := v][1..] == s[1..];
    } else {
      assert s[i := v][1..] == s[1..][i - 1 := v];
      SumUpdate(s[1..], i - 1, v);
    }
  }

  lemma {:induction false} SumRemove(s: seq<int>, i: nat)
    requires i < |s|
    ensures Sum(s[..i] + s[i + 1..]) == Sum(s) - s[i]
  {
    var r := s[..i] + s[i + 1..];
    if i == 0 {
      assert r == s[1..];
    } else {
      assert r[0] == s[0] && r[1..] == s[1..][..i - 1] + s[1..][i..];
      SumRemove(s[1..], i - 1);
    }
  }

  /** No part is larger than the whole. */
  lemma {:induction false} SumCovers(s: seq<int>, i: nat)
    requires i < |s| && forall k | 0 <= k < |s| :: s[k] >= 0
    ensures s[i] <= Sum(s) && Sum(s) >= 0
  {
    if |s| > 1 {
      SumCovers(s[1..], if i > 0 then i - 1 else 0);
    }
  }

  lemma {:induction false} SumPositive(s: seq<int>)
    requires Sum(s) > 0
    ensures exists i :: 0 <= i < |s| && s[i] > 0
  {
    if s[0] <= 0 {
      SumPositive(s[1..]);
      var i :| 0 <= i < |s[1..]| && s[1..][i] > 0;
      assert s[i + 1] > 0;
    }
  }

  ghost function Frees(blocks: seq<Block>): (r: seq<int>)
    reads blocks
    ensures |r| == |blocks| && forall i | 0 <= i < |r| :: r[i] == blocks[i].freeElems
  {
    seq(|blocks|, i requires 0 <= i < |blocks| reads blocks => blocks[i].freeElems)
  }

  /** What is left when the wholly free blocks are gone. */
  ghost function Occupied(blocks: seq<Block>): seq<Block>
    reads blocks
  {
    if blocks == [] then [] else (if blocks[0].used == {} then [] else [blocks[0]]) + Occupied(blocks[1..])
  }

  function Maps(blocks: seq<Block>): set<object> {
    set b | b in blocks :: b.allocMap
  }

  lemma OccupiedStep(blocks: seq<Block>, i: nat)
    requires i < |blocks|
    ensures blocks[..i + 1] == blocks[..i] + [blocks[i]]
    ensures Occupied(blocks[i..]) == (if blocks[i].used == {} then [] else [blocks[i]]) + Occupied(blocks[i + 1..])
    ensures blocks[i].used != {} ==>
              blocks[..i] + Occupied(blocks[i..]) == blocks[..i + 1] + Occupied(blocks[i + 1..])
  {
    assert blocks[i..][1..] == blocks[i + 1..];
  }

  lemma OccupiedNone(blocks: seq<Block>)
    ensures blocks == [] ==> Occupied(blocks) == []
  {
  }

  lemma {:induction false} AllOccupied(blocks: seq<Block>)
    requires forall b | b in blocks :: b.used != {}
    ensures Occupied(blocks) == blocks
  {
    if blocks != [] {
      AllOccupied(blocks[1..]);
    }
  }

  lemma MulOrder(a: nat, b: nat, size: nat)
    requires a <= b
    ensures a * size <= b * size
  {
    if a < b {
      AddressesApart(a, b, size);
    }
  }

  lemma DivisionBounds(d: nat, size: nat, n: nat)
    requires size > 0 && n > 0 && d <= (n - 1) * size
    ensures var k := d / size; 0 <= k < n && k * size <= d < k * size + size
  {
    var k := d / size;
    assert d == k * size + d % size;
    if k >= n {
      AddressesApart(n - 1, k, size);
    }
  }

  lemma {:induction false} AddressesApart(a: nat, b: nat, size: nat)
    requires a < b
    ensures a * size + size <= b * size
    decreases b - a
  {
    assert b * size == (b - 1) * size + size;
    if a < b - 1 {
      AddressesApart(a, b - 1, size);
    }
  }

  datatype Released = Freed | NotOurs | Aborted

  class BlockHeap {
    const elemSize: nat
    const elemsPerBlock: nat
    const numlongs: nat
    var blocksAllocated: int
    var freeElems: int
    /** The chain from base on. */
    var blocks: seq<Block>
    /** The addresses handed out and not yet given back. */
    ghost var live: set<int>

    /** The element memory of two blocks. */
    ghost predicate Apart(a: nat, b: nat) {
      a + elemsPerBlock * elemSize <= b || b + elemsPerBlock * elemSize <= a
    }

    ghost predicate Sized() {
      elemSize > 0 && 0 < elemsPerBlock <= numlongs * WORD_BITS
    }

    ghost predicate AllApart()
      reads this
    {
      forall i, j | 0 <= i < j < |blocks| ::
        && blocks[i] != blocks[j] && blocks[i].allocMap != blocks[j].allocMap
        && Apart(blocks[i].elems, blocks[j].elems)
    }

    ghost predicate Valid()
      reads this, blocks, Maps(blocks)
    {
      && Sized() && AllApart()
      && (forall i | 0 <= i < |blocks| :: blocks[i].Valid(numlongs, elemsPerBlock))
      && blocksAllocated == |blocks|
      && freeElems == Sum(Frees(blocks))
      && (forall p :: p in live <==> InUse(p))
    }

    function SlotStart(i: nat, k: nat): nat
      requires i < |blocks|
      reads this
    {
      blocks[i].elems + k * elemSize
    }

    /** Slot k of block i is in use, and starts at p. */
    ghost predicate Holds(p: int, i: int, k: nat)
      reads this, blocks
    {
      0 <= i < |blocks| && k in blocks[i].used && p == SlotStart(i, k)
    }

    ghost predicate InUse(p: int)
      reads this, blocks
    {
      exists i, k :: Holds(p, i, k)
    }

    /** What malloc returns lies apart from every block's memory. */
    ghost predicate Unused(room: nat)
      reads this
    {
      forall i | 0 <= i < |blocks| :: Apart(room, blocks[i].elems)
    }

    /** p lies in the memory of some block. */
    ghost predicate InRange(p: int)
      reads this
    {
      exists i | 0 <= i < |blocks| :: blocks[i].elems <= p < blocks[i].elems + elemsPerBlock * elemSize
    }

    /** An address lies in one slot of one block. */
    lemma OnePlace(p: int, i: int, k: nat, j: int, l: nat)
      requires Sized() && AllApart()
      requires 0 <= i < |blocks| && 0 <= j < |blocks| && k < elemsPerBlock && l < elemsPerBlock
      requires blocks[i].elems + k * elemSize <= p < blocks[i].elems + k * elemSize + elemSize
      requires blocks[j].elems + l * elemSize <= p < blocks[j].elems + l * elemSize + elemSize
      ensures i == j && k == l
    {
      AddressesApart(k, elemsPerBlock, elemSize);
      AddressesApart(l, elemsPerBlock, elemSize);
      if k < l {
        AddressesApart(k, l, elemSize);
      } else if l < k {
        AddressesApart(l, k, elemSize);
      }
    }

    lemma BlockFacts(i: nat)
      requires Valid() && i < |blocks|
      ensures blocks[i].Valid(numlongs, elemsPerBlock)
      ensures 0 <= blocks[i].freeElems <= elemsPerBlock && (blocks[i].freeElems == elemsPerBlock <==> blocks[i].used == {})
      ensures forall k | k in blocks[i].used :: k < elemsPerBlock
    {
      assert blocks[i].Valid(numlongs, elemsPerBlock);
      blocks[i].Counts(numlongs, elemsPerBlock);
    }

    constructor (elemsize: nat, elemsperblock: nat, room: nat)
      requires elemsize > 0 && elemsperblock > 0
      ensures Valid() && live == {} && |blocks| == 1 && freeElems == elemsperblock == elemsPerBlock
      ensures fresh(blocks) && fresh(Maps(blocks))
      ensures blocks[0].elems == room && elemSize >= elemsize
    {
      elemSize := elemsize + Padding(elemsize);
      elemsPerBlock := elemsperblock;
      numlongs := if elemsperblock % WORD_BITS == 0 then elemsperblock / WORD_BITS else elemsperblock / WORD_BITS + 1;
      blocksAllocated := 0;
      freeElems := 0;
      blocks := [];
      live := {};
      new;
      var failed := NewBlock(Some(room));
    }

    /** newblock: room is what malloc returned, or nothing. */
    method NewBlock(room: Option<nat>) returns (failed: bool)
      requires Valid() && (room.Some? ==> Unused(room.value))
      modifies `blocks, `freeElems, `blocksAllocated
      ensures failed <==> room.None?
      ensures failed ==> unchanged(this) && Valid()
      ensures !failed ==>
                && |blocks| == |old(blocks)| + 1 && blocks[1..] == old(blocks)
                && fresh(blocks[0]) && fresh(blocks[0].allocMap) && blocks[0].elems == room.value && blocks[0].used == {}
                && Valid() && freeElems == old(freeElems) + elemsPerBlock
    {
      hide Block.Valid, BlockHeap.Valid, InUse, Sum;
      if room.None? {
        return true;
      }
      Facts();
      var b := new Block(room.value, numlongs, elemsPerBlock);
      b.Counts(numlongs, elemsPerBlock);
      blocksAllocated := blocksAllocated + 1;
      freeElems := freeElems + elemsPerBlock;
      blocks := [b] + blocks;
      failed := false;
      BlockInFront(b, old(blocks));
    }

    twostate lemma KeptValid(was: seq<Block>)
      requires old(Valid()) && old(blocks) == was
      requires forall x | x in was :: unchanged(x) && unchanged(x.allocMap)
      ensures forall x | x in was :: x.Valid(numlongs, elemsPerBlock)
    {
      forall x | x in was
        ensures x.Valid(numlongs, elemsPerBlock)
      {
        assert old(x.Valid(numlongs, elemsPerBlock));
      }
    }

    twostate lemma ApartInFront(new b: Block, was: seq<Block>)
      requires old(AllApart()) && old(blocks) == was && blocks == [b] + was && fresh(b) && fresh(b.allocMap)
      requires forall x | x in was :: Apart(b.elems, x.elems)
      ensures AllApart()
    {
      forall i, j | 0 <= i < j < |blocks|
        ensures blocks[i] != blocks[j] && blocks[i].allocMap != blocks[j].allocMap && Apart(blocks[i].elems, blocks[j].elems)
      {
        assert blocks[j] == was[j - 1];
        if i > 0 {
          assert blocks[i] == was[i - 1];
        }
      }
    }

    twostate lemma SumInFront(new b: Block, was: seq<Block>)
      requires old(blocks) == was && blocks == [b] + was
      requires forall x | x in was :: unchanged(x)
      ensures Sum(Frees(blocks)) == b.freeElems + old(Sum(Frees(was)))
    {
      assert forall k | 0 <= k < |was| :: blocks[k + 1] == was[k] && was[k] in was;
      assert Frees(blocks)[1..] == old(Frees(was));
    }

    /** A fresh block in front of the chain. */
    twostate lemma BlockInFront(new b: Block, was: seq<Block>)
      requires old(Valid()) && old(blocks) == was && blocks == [b] + was && live == old(live)
      requires forall x | x in was :: unchanged(x) && unchanged(x.allocMap)
      requires fresh(b) && fresh(b.allocMap) && b.Valid(numlongs, elemsPerBlock) && b.used == {}
      requires b.freeElems == elemsPerBlock
      requires forall x | x in was :: Apart(b.elems, x.elems)
      requires blocksAllocated == old(blocksAllocated) + 1 && freeElems == old(freeElems) + elemsPerBlock
      ensures Valid()
    {
      hide Block.Valid, InUse, Sum;
      KeptValid(was);
      ApartInFront(b, was);
      SumInFront(b, was);
      EmptyBlockInFront(was);
      hide Apart, Frees, Holds;
    }

    /** A block with nothing in use holds no address. */
    twostate lemma EmptyBlockInFront(was: seq<Block>)
      requires old(blocks) == was && |blocks| > 0 && blocks[1..] == was && blocks[0].used == {}
      requires forall b | b in was :: b.used == old(b.used)
      ensures forall p :: InUse(p) <==> old(InUse(p))
    {
      forall p
        ensures InUse(p) <==> old(InUse(p))
      {
        if InUse(p) {
          var i, k :| Holds(p, i, k);
          assert blocks[i] == was[i - 1];
          assert old(Holds(p, i - 1, k));
        }
        if old(InUse(p)) {
          var i, k :| old(Holds(p, i, k));
          assert blocks[i + 1] == was[i];
          assert Holds(p, i + 1, k);
        }
      }
    }

    /** Using or releasing slot k of block i adds or removes exactly its address. */
    twostate lemma OneSlotChanged(new i: nat, new k: nat, new now: bool)
      requires Sized() && AllApart() && blocks == old(blocks) && i < |blocks| && k < elemsPerBlock
      requires forall j | 0 <= j < |blocks| :: forall l | l in old(blocks[j].used) :: l < elemsPerBlock
      requires forall j | 0 <= j < |blocks| && j != i :: blocks[j].used == old(blocks[j].used)
      requires blocks[i].used == if now then old(blocks[i].used) + {k} else old(blocks[i].used) - {k}
      ensures forall q :: InUse(q) <==> if q == SlotStart(i, k) then now else old(InUse(q))
    {
      var p := SlotStart(i, k);
      forall q
        ensures InUse(q) <==> if q == p then now else old(InUse(q))
      {
        if q == p {
          if now {
            assert Holds(q, i, k);
          } else if InUse(q) {
            var j, l :| Holds(q, j, l);
            assert l in old(blocks[j].used);
            OnePlace(q, i, k, j, l);
          }
        } else {
          if InUse(q) {
            var j, l :| Holds(q, j, l);
            assert old(Holds(q, j, l));
          }
          if old(InUse(q)) {
            var j, l :| old(Holds(q, j, l));
            assert Holds(q, j, l);
          }
        }
      }
    }

    /** The heap after slot k of block i changed. */
    twostate lemma StillValid(new i: nat)
      requires old(Valid()) && blocks == old(blocks) && i < |blocks| && blocksAllocated == old(blocksAllocated)
      requires forall j | 0 <= j < |blocks| && j != i :: blocks[j].used == old(blocks[j].used) && blocks[j].freeElems == old(blocks[j].freeElems)
      requires forall j | 0 <= j < |blocks| :: blocks[j].Valid(numlongs, elemsPerBlock)
      requires freeElems - old(freeElems) == blocks[i].freeElems - old(blocks[i].freeElems)
      requires forall p :: p in live <==> InUse(p)
      ensures Valid()
    {
      hide Block.Valid, InUse, Sum;
      SumUpdate(old(Frees(blocks)), i, blocks[i].freeElems);
      assert Frees(blocks) == old(Frees(blocks))[i := blocks[i].freeElems];
    }

    /** What Valid() says without the bits. */
    lemma Facts()
      requires Valid()
      ensures Sized() && AllApart() && freeElems == Sum(Frees(blocks)) && freeElems >= 0
      ensures forall i | 0 <= i < |blocks| :: blocks[i].Valid(numlongs, elemsPerBlock) && 0 <= blocks[i].freeElems <= elemsPerBlock
      ensures forall i | 0 <= i < |blocks| :: blocks[i].freeElems == elemsPerBlock <==> blocks[i].used == {}
      ensures forall i | 0 <= i < |blocks| :: forall k | k in blocks[i].used :: k < elemsPerBlock
      ensures forall p :: p in live <==> InUse(p)
    {
      hide Block.Valid, InUse;
      forall i | 0 <= i < |blocks|
        ensures 0 <= blocks[i].freeElems <= elemsPerBlock
        ensures blocks[i].freeElems == elemsPerBlock <==> blocks[i].used == {}
        ensures forall k | k in blocks[i].used :: k < elemsPerBlock
      {
        BlockFacts(i);
      }
      if |blocks| > 0 {
        SumCovers(Frees(blocks), 0);
      }
    }

    /** Slot k of block i starts at an address of the block, and at no other slot's. */
    lemma SlotAddress(i: nat, k: nat)
      requires Sized() && AllApart() && i < |blocks| && k < elemsPerBlock
      requires forall j | 0 <= j < |blocks| :: forall l | l in blocks[j].used :: l < elemsPerBlock
      ensures InRange(SlotStart(i, k))
      ensures InUse(SlotStart(i, k)) <==> k in blocks[i].used
    {
      var p := SlotStart(i, k);
      AddressesApart(k, elemsPerBlock, elemSize);
      assert blocks[i].elems <= p < blocks[i].elems + elemsPerBlock * elemSize;
      if k in blocks[i].used {
        assert Holds(p, i, k);
      }
      if InUse(p) {
        var j, l :| Holds(p, j, l);
        OnePlace(p, i, k, j, l);
      }
    }

    /** The addresses of free slots are in range, and not in use. */
    lemma FreeSlots(i: nat)
      requires Valid() && i < |blocks|
      ensures forall k: nat | k < elemsPerBlock && k !in blocks[i].used ::
                InRange(SlotStart(i, k)) && SlotStart(i, k) !in live
    {
      hide Block.Valid, InUse, InRange, Sum;
      Facts();
      forall k: nat | k < elemsPerBlock && k !in blocks[i].used
        ensures InRange(SlotStart(i, k)) && SlotStart(i, k) !in live
      {
        SlotAddress(i, k);
      }
    }

    /** Takes a free slot of block i. */
    method TakeFrom(i: nat) returns (p: nat)
      requires Valid() && i < |blocks| && blocks[i].freeElems > 0
      modifies `freeElems, `live, blocks[i], blocks[i].allocMap
      ensures Valid() && freeElems == old(freeElems) - 1
      ensures p !in old(live) && live == old(live) + {p as int} && InRange(p)
    {
      hide BlockHeap.Valid, Block.Valid, Sum;
      Facts();
      FreeSlots(i);
      var walker := blocks[i];
      var slot := walker.TakeFree(numlongs, elemsPerBlock);
      p := SlotStart(i, slot);
      freeElems := freeElems - 1;
      live := live + {p};
      BlockChanged(i, slot, true);
    }

    /** Takes the first slot of the block at the base, which nothing uses. */
    method TakeFirst() returns (p: nat)
      requires Valid() && |blocks| > 0 && blocks[0].used == {}
      modifies `freeElems, `live, blocks[0], blocks[0].allocMap
      ensures Valid() && freeElems == old(freeElems) - 1
      ensures p == blocks[0].elems && p !in old(live) && live == old(live) + {p as int} && InRange(p)
    {
      hide BlockHeap.Valid, Block.Valid, Sum;
      Facts();
      FreeSlots(0);
      blocks[0].Mark(numlongs, elemsPerBlock, 0, 0);
      p := blocks[0].elems;
      assert p == SlotStart(0, 0);
      freeElems := freeElems - 1;
      live := live + {p};
      BlockChanged(0, 0, true);
    }

    /** Only block i and the address of its slot k changed. */
    twostate lemma BlockChanged(new i: nat, new k: nat, new now: bool)
      requires old(Valid()) && blocks == old(blocks) && blocksAllocated == old(blocksAllocated)
      requires i < |blocks| && k < elemsPerBlock
      requires forall j | 0 <= j < |blocks| && j != i :: unchanged(blocks[j]) && unchanged(blocks[j].allocMap)
      requires blocks[i].Valid(numlongs, elemsPerBlock)
      requires blocks[i].used == if now then old(blocks[i].used) + {k} else old(blocks[i].used) - {k}
      requires freeElems - old(freeElems) == blocks[i].freeElems - old(blocks[i].freeElems)
      requires live == if now then old(live) + {SlotStart(i, k)} else old(live) - {SlotStart(i, k)}
      ensures Valid()
    {
      OldFacts();
      forall j | 0 <= j < |blocks|
        ensures blocks[j].Valid(numlongs, elemsPerBlock)
      {
        assert old(blocks[j].Valid(numlongs, elemsPerBlock));
      }
      hide Block.Valid, InUse, Sum;
      OneSlotChanged(i, k, now);
      StillValid(i);
    }

    twostate lemma OldFacts()
      requires old(Valid()) && blocks == old(blocks)
      ensures forall j | 0 <= j < |blocks| :: forall l | l in old(blocks[j].used) :: l < elemsPerBlock
    {
      forall j | 0 <= j < |blocks|
        ensures forall l | l in old(blocks[j].used) :: l < elemsPerBlock
      {
        assert old(blocks[j].Valid(numlongs, elemsPerBlock));
      }
    }

    /**
     BlockHeapAlloc: an address in range that is not in use, or nothing when there is no free element
     and malloc fails. Every other address keeps its state.
     */
    method Alloc(room: Option<nat>) returns (r: Option<nat>)
      requires Valid() && (room.Some? ==> Unused(room.value))
      modifies this, blocks, Maps(blocks)
      ensures Valid()
      ensures r.None? <==> old(freeElems) == 0 && room.None?
      ensures r.None? ==> unchanged(this)
      ensures r.Some? ==> r.value !in old(live) && live == old(live) + {r.value as int} && InRange(r.value)
      ensures old(freeElems) > 0 ==> blocks == old(blocks) && freeElems == old(freeElems) - 1
      ensures old(freeElems) == 0 && room.Some? ==> blocks[1..] == old(blocks) && freeElems == elemsPerBlock - 1
    {
      hide Block.Valid, InUse, Sum;
      Facts();
      if freeElems == 0 {
        var failed := NewBlock(room);
        if failed {
          return None;
        }
        var p := TakeFirst();
        return Some(p);
      }
      for i := 0 to |blocks|
        invariant unchanged(this) && Valid()
        invariant forall j | 0 <= j < i :: blocks[j].freeElems == 0
      {
        if blocks[i].freeElems > 0 {
          var p := TakeFrom(i);
          return Some(p);
        }
      }
      SumPositive(Frees(blocks));
      assert false;
    }

    /** p lies between the first and the last element of block i. */
    ghost predicate Spans(i: nat, p: int)
      requires i < |blocks|
      reads this
    {
      blocks[i].elems <= p <= blocks[i].elems + (elemsPerBlock - 1) * elemSize
    }

    /** The slot an address of block i lies in. */
    lemma SlotOf(i: nat, p: nat) returns (k: nat)
      requires Valid() && i < |blocks| && Spans(i, p)
      ensures k == (p - blocks[i].elems) / elemSize && k < elemsPerBlock && SlotStart(i, k) <= p < SlotStart(i, k) + elemSize
      ensures k in blocks[i].used <==> SlotStart(i, k) in live
      ensures p in live ==> p == SlotStart(i, k)
    {
      hide Block.Valid, Sum;
      Facts();
      k := (p - blocks[i].elems) / elemSize;
      DivisionBounds(p - blocks[i].elems, elemSize, elemsPerBlock);
      SlotAddress(i, k);
      if p in live {
        var j, l :| Holds(p, j, l);
        OnePlace(p, i, k, j, l);
      }
    }

    /** An address in use lies between the first and the last element of some block. */
    lemma LiveIsSpanned(p: int)
      requires Valid() && p in live
      ensures exists i :: 0 <= i < |blocks| && Spans(i, p)
    {
      hide Block.Valid, Sum;
      Facts();
      var i, k :| Holds(p, i, k);
      MulOrder(k, elemsPerBlock - 1, elemSize);
      assert Spans(i, p);
    }

    /**
     BlockHeapFree: gives back exactly the slot p lies in. Nothing happens for an address outside
     every block, nor (but for aborting) for a slot that is not in use.
     */
    method Free(p: nat) returns (r: Released)
      requires Valid()
      modifies this, blocks, Maps(blocks)
      ensures Valid() && blocks == old(blocks) && blocksAllocated == old(blocksAllocated)
      ensures p in old(live) ==> r == Freed && live == old(live) - {p as int}
      ensures r == Freed ==> freeElems == old(freeElems) + 1 && exists q | q in old(live) :: q <= p < q + elemSize && live == old(live) - {q}
      ensures r != Freed ==> live == old(live) && freeElems == old(freeElems)
      ensures r == NotOurs <==> forall i | 0 <= i < |blocks| :: !Spans(i, p)
    {
      hide Block.Valid, BlockHeap.Valid, Sum;
      Facts();
      for i := 0 to |blocks|
        invariant unchanged(this) && unchanged(blocks) && unchanged(Maps(blocks))
        invariant forall j | 0 <= j < i :: !Spans(j, p)
      {
        if blocks[i].elems <= p <= blocks[i].elems + (elemsPerBlock - 1) * elemSize {
          assert Spans(i, p);
          r := FreeIn(i, p);
          assert Spans(i, p);
          return;
        }
      }
      if p in live {
        LiveIsSpanned(p);
        assert false;
      }
      r := NotOurs;
    }

    method FreeIn(i: nat, p: nat) returns (r: Released)
      requires Valid() && i < |blocks| && Spans(i, p)
      modifies `freeElems, `live, blocks[i], blocks[i].allocMap
      ensures Valid() && r != NotOurs
      ensures p in old(live) ==> r == Freed && live == old(live) - {p as int}
      ensures r == Freed ==> freeElems == old(freeElems) + 1 && exists q | q in old(live) :: q <= p < q + elemSize && live == old(live) - {q}
      ensures r != Freed ==> live == old(live) && freeElems == old(freeElems)
    {
      hide Block.Valid, BlockHeap.Valid, Sum;
      Facts();
      ghost var k := SlotOf(i, p);
      var walker := blocks[i];
      var ctr := (p - walker.elems) / elemSize;
      walker.SlotWord(numlongs, elemsPerBlock, ctr);
      if And(walker.allocMap[ctr / WORD_BITS], One(ctr % WORD_BITS)) == 0 {
        return Aborted;
      }
      walker.Release(numlongs, elemsPerBlock, ctr);
      freeElems := freeElems + 1;
      live := live - {SlotStart(i, k)};
      BlockChanged(i, k, false);
      r := Freed;
    }

    /** Without block i, which has nothing in use, the same addresses are in use. */
    twostate lemma BlockRemoved(new i: nat)
      requires i < old(|blocks|) && blocks == old(blocks)[..i] + old(blocks)[i + 1..] && old(blocks)[i].used == {}
      requires forall b | b in old(blocks) :: unchanged(b)
      ensures forall p :: InUse(p) <==> old(InUse(p))
    {
      var was := old(blocks);
      assert forall j | 0 <= j < |blocks| :: blocks[j] == was[if j < i then j else j + 1];
      forall p
        ensures InUse(p) <==> old(InUse(p))
      {
        if InUse(p) {
          var j, k :| Holds(p, j, k);
          var l := if j < i then j else j + 1;
          assert blocks[j] == was[l] && was[l] in was;
          assert old(Holds(p, l, k));
        }
        if old(InUse(p)) {
          var j, k :| old(Holds(p, j, k));
          var l := if j < i then j else j - 1;
          assert was[j] in was && j != i;
          assert blocks[l] == was[j];
          assert Holds(p, l, k);
        }
      }
    }

    /** The collector's look at block i. */
    method IsFree(i: nat) returns (free: bool)
      requires Valid() && i < |blocks|
      ensures Valid() && (free <==> blocks[i].used == {})
    {
      hide Block.Valid;
      Facts();
      ghost var maps := Maps(blocks);
      var walker := blocks[i];
      free := walker.WhollyFree(numlongs, elemsPerBlock);
    }

    /** Unlinks a wholly free block. */
    method Unlink(i: nat)
      requires Valid() && i < |blocks| && blocks[i].used == {}
      modifies `blocks, `blocksAllocated, `freeElems
      ensures Valid() && blocks == old(blocks)[..i] + old(blocks)[i + 1..]
    {
      hide Block.Valid;
      Facts();
      ghost var was := blocks;
      SumRemove(Frees(blocks), i);
      blocks := blocks[..i] + blocks[i + 1..];
      blocksAllocated := blocksAllocated - 1;
      freeElems := freeElems - elemsPerBlock;
      assert Frees(blocks) == Frees(was)[..i] + Frees(was)[i + 1..];
      BlockRemoved(i);
      hide InUse, Sum;
    }

    /** With fewer free elements than a block has, no block can be wholly free. */
    lemma NoneWhollyFree()
      requires Valid() && freeElems < elemsPerBlock
      ensures forall i | 0 <= i < |blocks| :: blocks[i].used != {}
    {
      hide Block.Valid;
      Facts();
      forall i | 0 <= i < |blocks|
        ensures blocks[i].used != {}
      {
        SumCovers(Frees(blocks), i);
      }
    }

    /**
     BlockHeapGarbageCollect: afterwards exactly the blocks with something in use are left, in their
     order, and every address in use still is. The early exit changes nothing of that.
     */
    method Collect()
      requires Valid()
      modifies `blocks, `blocksAllocated, `freeElems
      ensures Valid() && live == old(live)
      ensures blocks == old(Occupied(blocks))
    {
      hide *;
      if freeElems < elemsPerBlock {
        NoneWhollyFree();
        AllOccupied(blocks);
        return;
      }
      var i := 0;
      while i < |blocks|
        invariant Valid() && live == old(live)
        invariant i <= |blocks|
        invariant old(Occupied(blocks)) == blocks[..i] + Occupied(blocks[i..])
        decreases |blocks| - i
      {
        ghost var was := blocks;
        OccupiedStep(blocks, i);
        var free := IsFree(i);
        if free {
          Unlink(i);
          assert blocks[..i] == was[..i] && blocks[i..] == was[i + 1..];
        } else {
          i := i + 1;
        }
      }
      OccupiedNone(blocks[i..]);
    }
  }

  /** elemsize & (sizeof(void *) - 1), which is added to the size whether or not it aligns anything. */
  function Padding(size: nat): nat {
    size % 8
  }
}
