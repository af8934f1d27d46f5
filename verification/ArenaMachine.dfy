/**
 The arena object: the loops of acquire_block, allocate and release over its blocks, and the storage that is
 live at any time.
 */
module ArenaMachine {
  import opened Arithmetic
  import opened Wrappers
  import opened Arena

  datatype Error = AllocationOverflow

  /** Storage handed out: `bytes` bytes at `offset` of a block. */
  datatype Allocation = Allocation(block: nat, offset: nat, bytes: nat, alignment: nat)

  /** The storage lies in the used part of its block, at an aligned address. */
  predicate Placed(blocks: seq<Block>, a: Allocation) {
    && a.block < |blocks| && a.bytes > 0 && a.alignment > 0
    && a.offset + a.bytes <= blocks[a.block].used
    && Aligned(blocks[a.block].base + a.offset, a.alignment)
  }

  predicate NoOverlap(a: Allocation, b: Allocation) {
    a.block != b.block || a.offset + a.bytes <= b.offset || b.offset + b.bytes <= a.offset
  }

  ghost predicate LiveOk(blocks: seq<Block>, live: seq<Allocation>) {
    && (forall i :: 0 <= i < |live| ==> Placed(blocks, live[i]))
    && (forall i, j :: 0 <= i < j < |live| ==> NoOverlap(live[i], live[j]))
  }

  function AddressOf(blocks: seq<Block>, a: Allocation): nat
    requires Placed(blocks, a)
  {
    blocks[a.block].base + a.offset
  }

  /** Live storage is disjoint in memory, not only within its block. */
  lemma LiveAddressesApart(s: State, live: seq<Allocation>, i: nat, j: nat)
    requires Sound(s) && LiveOk(s.blocks, live) && i < j < |live|
    ensures Placed(s.blocks, live[i]) && Placed(s.blocks, live[j])
    ensures var x, y := AddressOf(s.blocks, live[i]), AddressOf(s.blocks, live[j]);
            x + live[i].bytes <= y || y + live[j].bytes <= x
  {
    var a, b := live[i], live[j];
    assert Placed(s.blocks, a) && Placed(s.blocks, b) && NoOverlap(a, b);
    assert BlockOk(s.blocks[a.block]) && BlockOk(s.blocks[b.block]);
    if a.block < b.block {
      assert Apart(s.blocks[a.block], s.blocks[b.block]);
    } else if b.block < a.block {
      assert Apart(s.blocks[b.block], s.blocks[a.block]);
    }
  }

  /** What a rewind leaves: storage that still lies in the used part of its block. */
  ghost function StillUsed(blocks: seq<Block>, live: seq<Allocation>): seq<Allocation> {
    if live == [] then []
    else
      var last := live[|live| - 1];
      StillUsed(blocks, live[..|live| - 1]) +
      (if last.block < |blocks| && last.offset + last.bytes <= blocks[last.block].used then [last] else [])
  }

  lemma {:induction false} StillUsedOk(before: seq<Block>, after: seq<Block>, live: seq<Allocation>)
    requires LiveOk(before, live) && SamePlaces(before, after)
    ensures LiveOk(after, StillUsed(after, live))
    ensures forall a :: a in StillUsed(after, live) ==> a in live
  {
    hide Aligned;
    if live != [] {
      var front, last := live[..|live| - 1], live[|live| - 1];
      assert live == front + [last];
      StillUsedOk(before, after, front);
      var kept := StillUsed(after, front);
      assert Placed(before, last);
      forall i | 0 <= i < |kept| ensures NoOverlap(kept[i], last) {
        assert kept[i] in kept && kept[i] in front;
        var j :| 0 <= j < |front| && front[j] == kept[i];
        assert NoOverlap(live[j], live[|live| - 1]);
      }
    }
  }

  /** A rewind keeps exactly the storage that lies below the new usage of its block. */
  lemma {:induction false} StillUsedExactly(before: seq<Block>, after: seq<Block>, live: seq<Allocation>, a: Allocation)
    requires LiveOk(before, live) && SamePlaces(before, after)
    ensures a in StillUsed(after, live) <==> a in live && a.block < |after| && a.offset + a.bytes <= after[a.block].used
  {
    hide Aligned, NoOverlap;
    if live != [] {
      var front, last := live[..|live| - 1], live[|live| - 1];
      assert live == front + [last];
      StillUsedExactly(before, after, front, a);
    }
  }

  class ArenaObject {
    var blocks: seq<Block>
    var currentBlock: nat
    var totalUsed: nat
    ghost var live: seq<Allocation>

    function Value(): State
      reads this
    {
      State(blocks, currentBlock)
    }

    ghost predicate Valid()
      reads this
    {
      Sound(Value()) && totalUsed == TotalUsed(blocks) && LiveOk(blocks, live)
    }

    constructor ()
      ensures Valid() && Value() == EMPTY && totalUsed == 0 && live == []
    {
      blocks, currentBlock, totalUsed, live := [], 0, 0, [];
    }

    method Mark() returns (mark: nat)
      requires Valid()
      ensures mark == TotalUsed(blocks)
    {
      return totalUsed;
    }

    /** acquire_block: the first block from the current one on with room, or a new one. */
    method AcquireBlock(need: nat, base: nat)
      requires Sound(Value())
      modifies `blocks, `currentBlock
      ensures Value() == Acquire(old(Value()), need, base)
    {
      if blocks == [] {
        blocks := blocks + [Block(base, Max(DEFAULT_BLOCK_SIZE, need), 0)];
        currentBlock := 0;
        return;
      }
      for i := currentBlock to |blocks|
        invariant blocks == old(blocks) && currentBlock == old(currentBlock)
        invariant FirstFit(blocks, currentBlock, need) == FirstFit(blocks, i, need)
      {
        if blocks[i].size - blocks[i].used >= need || (blocks[i].used == 0 && blocks[i].size >= need) {
          currentBlock := i;
          return;
        }
      }
      blocks := blocks + [Block(base, Max(DEFAULT_BLOCK_SIZE, need), 0)];
      currentBlock := |blocks| - 1;
    }

    /**
     allocate: refuses requests whose byte count or padding does not fit a word, and otherwise places the
     storage in its first pass, aligned, inside the block and apart from everything live.
     */
    method AllocateStorage(size: nat, alignment: nat, count: nat, base: nat) returns (r: Result<Option<nat>, Error>)
      requires Valid() && 0 < size < WORD && 0 < alignment < WORD && count < WORD
      requires 0 < count && size * count + alignment - 1 < WORD ==>
                 Placeable(Value(), size * count + alignment - 1, base)
      modifies this
      ensures Valid()
      ensures r.Failure? <==> size * count + alignment - 1 >= WORD && count > 0
      ensures count == 0 ==> r == Success(None)
      ensures r.Failure? || count == 0 ==> Value() == old(Value()) && totalUsed == old(totalUsed) && live == old(live)
      ensures r.Success? && count > 0 ==>
                && Value() == Allocate(old(Value()), size * count, alignment, base)
                && |live| == |old(live)| + 1 && live[..|old(live)|] == old(live)
                && var added := live[|old(live)|];
                   && added.bytes == size * count && added.alignment == alignment && Placed(blocks, added)
                   && r == Success(Some(AddressOf(blocks, added)))
    {
      hide Sound, TotalUsed, LiveOk, Placed, NoOverlap, Acquire, Allocate, Placeable;
      if count == 0 {
        return Success(None);
      }
      var fits, bytes := CountBytes(size, count);
      if !fits {
        return Failure(AllocationOverflow);
      }
      var padded := (bytes + (alignment - 1)) % WORD;
      SumCheckExact(bytes, alignment - 1);
      if padded < bytes {
        return Failure(AllocationOverflow);
      }
      var address := Place(bytes, alignment, base);
      r := Success(Some(address));
    }

    /** The wrapped byte count and the division test on it. */
    static method CountBytes(size: nat, count: nat) returns (fits: bool, bytes: nat)
      requires 0 < size < WORD && 0 < count < WORD
      ensures fits <==> size * count < WORD
      ensures fits ==> bytes == size * count > 0
      ensures bytes < WORD && size * count > 0
    {
      ProductPositive(size, count);
      bytes := size * count % WORD;
      ProductCheckExact(size, count);
      fits := bytes / size == count;
    }

    /** The retry loop of allocate: its first pass always returns. */
    method Place(bytes: nat, alignment: nat, base: nat) returns (address: nat)
      requires Valid() && 0 < bytes && 0 < alignment && bytes + alignment - 1 < WORD
      requires Placeable(Value(), bytes + alignment - 1, base)
      modifies this
      ensures Valid() && Value() == Allocate(old(Value()), bytes, alignment, base)
      ensures |live| == |old(live)| + 1 && live[..|old(live)|] == old(live)
      ensures var added := live[|old(live)|];
              && added.bytes == bytes && added.alignment == alignment && Placed(blocks, added)
              && address == AddressOf(blocks, added)
    {
      hide Sound, TotalUsed, LiveOk, Placed, NoOverlap, Acquire, Allocate, Allocated, OffsetIn, AlignUp, Aligned,
           HasRoom, Placeable, BlockOk, BlocksOk, AllApart, UnusedAfter;
      PlacementFacts(Value(), live, bytes, alignment, base);
      ghost var acquired := Acquire(Value(), bytes + alignment - 1, base);
      AcquireBlock(bytes + alignment - 1, base);
      var done := false;
      address := 0;
      while !done
        invariant !done ==> State(blocks, currentBlock) == acquired && totalUsed == old(totalUsed) && live == old(live)
        invariant done ==>
                    && Valid() && Value() == Allocate(old(Value()), bytes, alignment, base)
                    && |live| == |old(live)| + 1 && live[..|old(live)|] == old(live)
                    && var added := live[|old(live)|];
                       && added.bytes == bytes && added.alignment == alignment && Placed(blocks, added)
                       && address == AddressOf(blocks, added)
        decreases !done
      {
        var block := blocks[currentBlock];
        var current, aligned, alignedOffset, required := Measure(block, bytes, alignment);
        if required >= alignedOffset && required <= block.size {
          blocks := blocks[currentBlock := block.(used := required)];
          totalUsed := totalUsed + required - (current - block.base);
          live := live + [Allocation(currentBlock, alignedOffset, bytes, alignment)];
          address, done := aligned, true;
        } else {
          assert false;
        }
      }
    }

    /** The word arithmetic of one pass: where the storage would start and end. */
    static method Measure(block: Block, bytes: nat, alignment: nat)
      returns (current: nat, aligned: nat, alignedOffset: nat, required: nat)
      requires BlockOk(block) && 0 < bytes && 0 < alignment && HasRoom(block, bytes + alignment - 1)
      ensures current == block.base + block.used && aligned == block.base + alignedOffset
      ensures alignedOffset == OffsetIn(block, alignment) && required == alignedOffset + bytes <= block.size
    {
      FirstPassFits(block, bytes, alignment);
      NothingWraps(block.base + block.used, alignment);
      assert OffsetIn(block, alignment) + bytes <= block.size < WORD;
      hide AlignUp, Aligned, BlockOk, HasRoom;
      current := (block.base + block.used) % WORD;
      var sum := (current + alignment - 1) % WORD;
      aligned := sum - sum % alignment;
      alignedOffset := aligned - block.base;
      required := (alignedOffset + bytes) % WORD;
    }

    /** release: rewinds the block in which the mark ends and clears the later ones. */
    method ReleaseTo(mark: nat)
      requires Valid()
      modifies this
      ensures Valid() && Value() == Release(old(Value()), mark) && totalUsed == Min(mark, old(totalUsed))
      ensures live == if mark >= old(totalUsed) then old(live) else StillUsed(blocks, old(live))
    {
      if mark < totalUsed {
        CutBack(mark);
      }
    }

    /** release of a mark below the total. */
    method CutBack(mark: nat)
      requires Valid() && mark < totalUsed
      modifies this
      ensures Valid() && Value() == Release(old(Value()), mark) && totalUsed == mark
      ensures live == StillUsed(blocks, old(live))
    {
      hide Release, TotalUsed, Sound, MarkBlock, RestAt, CutAt, StillUsed, LiveOk, SamePlaces, BlocksOk, AllApart,
           Placed, NoOverlap;
      ghost var before, k := Value(), MarkBlock(blocks, 0, mark);
      ReleaseCuts(before, mark);
      ReleaseKeeps(before, mark);
      CutAtMark(blocks, mark);
      CutPlaces(before, k, RestAt(blocks, 0, mark));
      RewindBlocks(mark);
      totalUsed := mark;
      StillUsedOk(before.blocks, blocks, live);
      live := StillUsed(blocks, live);
    }

    /** The two loops of release, and the new current block. */
    method RewindBlocks(mark: nat)
      requires MarkBlock(blocks, 0, mark) < |blocks|
      modifies `blocks, `currentBlock
      ensures Value() == CutAt(State(old(blocks), old(currentBlock)), MarkBlock(old(blocks), 0, mark),
                               RestAt(old(blocks), 0, mark))
    {
      ghost var was := blocks;
      ghost var k, rest := MarkBlock(was, 0, mark), RestAt(was, 0, mark);
      var remaining: nat := mark;
      var active := 0;
      while active < |blocks|
        invariant 0 <= active <= k && blocks == was
        invariant k == MarkBlock(was, active, remaining) && rest == RestAt(was, active, remaining)
        decreases |blocks| - active
      {
        if remaining <= blocks[active].used {
          blocks := blocks[active := blocks[active].(used := remaining)];
          active := active + 1;
          break;
        }
        remaining := remaining - blocks[active].used;
        active := active + 1;
      }
      hide MarkBlock, RestAt;
      assert active == k + 1 && blocks == was[k := was[k].(used := rest)];
      for i := active to |blocks|
        invariant |blocks| == |was|
        invariant forall j :: 0 <= j < |was| ==>
                                blocks[j] == if j < k then was[j] else if j == k then was[k].(used := rest)
                                             else if j < i then was[j].(used := 0) else was[j]
      {
        blocks := blocks[i := blocks[i].(used := 0)];
      }
      currentBlock := Min(Max(active - 1, 0), |blocks| - 1);
      assert blocks == CutAt(State(was, 0), k, rest).blocks;
    }

    method Reset()
      requires Valid()
      modifies this
      ensures Valid() && totalUsed == 0 && Value() == Release(old(Value()), 0)
    {
      ReleaseTo(0);
    }
  }

  lemma ProductPositive(size: nat, count: nat)
    requires size > 0 && count > 0
    ensures size * count > 0
  {
  }

  /** What is left of the mark when the walk over the blocks stops. */
  function RestAt(blocks: seq<Block>, i: nat, mark: nat): nat
    requires i <= |blocks|
    decreases |blocks| - i
  {
    if i == |blocks| || mark <= blocks[i].used then mark else RestAt(blocks, i + 1, mark - blocks[i].used)
  }

  lemma {:induction false} RestIsDifference(blocks: seq<Block>, i: nat, mark: nat)
    requires i <= |blocks|
    ensures TotalUsed(blocks[..MarkBlock(blocks, i, mark)]) + RestAt(blocks, i, mark) == TotalUsed(blocks[..i]) + mark
    decreases |blocks| - i
  {
    if i < |blocks| && mark > blocks[i].used {
      TotalUsedSnoc(blocks, i);
      RestIsDifference(blocks, i + 1, mark - blocks[i].used);
    }
  }

  lemma CutAtMark(blocks: seq<Block>, mark: nat)
    ensures RestAt(blocks, 0, mark) == mark - TotalUsed(blocks[..MarkBlock(blocks, 0, mark)])
  {
    RestIsDifference(blocks, 0, mark);
    assert blocks[..0] == [];
  }

  lemma CutPlaces(s: State, k: nat, rest: nat)
    requires k < |s.blocks|
    ensures SamePlaces(s.blocks, CutAt(s, k, rest).blocks)
  {
  }

  lemma PlacementFacts(s: State, live: seq<Allocation>, bytes: nat, alignment: nat, base: nat)
    requires Sound(s) && LiveOk(s.blocks, live) && 0 < bytes && 0 < alignment
             && Placeable(s, bytes + alignment - 1, base)
    ensures var a, t := Acquire(s, bytes + alignment - 1, base), Allocate(s, bytes, alignment, base);
            && a.current < |a.blocks|
            && var b := a.blocks[a.current];
               var offset := OffsetIn(b, alignment);
               var added := Allocation(a.current, offset, bytes, alignment);
               && BlockOk(b) && HasRoom(b, bytes + alignment - 1)
               && t == State(a.blocks[a.current := b.(used := offset + bytes)], a.current) && Sound(t)
               && TotalUsed(t.blocks) == TotalUsed(s.blocks) + offset + bytes - b.used
               && LiveOk(t.blocks, live + [added]) && Placed(t.blocks, added)
  {
    hide Acquire, Placeable, TotalUsed, AllApart, Aligned, AlignUp, LiveOk, UnusedAfter, Sound, Allocate, HasRoom,
         BlockOk, OffsetIn;
    AcquireKeeps(s, bytes + alignment - 1, base);
    AllocateKeeps(s, bytes, alignment, base);
    var a, t := Acquire(s, bytes + alignment - 1, base), Allocate(s, bytes, alignment, base);
    var b, offset := a.blocks[a.current], OffsetIn(a.blocks[a.current], alignment);
    assert BlockOk(b);
    hide BlocksOk;
    LiveInMore(s.blocks, a.blocks, live);
    OffsetIsAligned(b, alignment);
    GrownLive(a.blocks, a.current, offset, bytes, alignment, live);
    LastPlaced(t.blocks, live, Allocation(a.current, offset, bytes, alignment));
  }

  lemma NothingWraps(address: nat, alignment: nat)
    requires alignment > 0 && address + alignment - 1 < WORD
    ensures address % WORD == address && (address + alignment - 1) % WORD == address + alignment - 1
    ensures AlignUp(address, alignment) == address + alignment - 1 - (address + alignment - 1) % alignment
  {
  }

  lemma LiveInMore(blocks: seq<Block>, more: seq<Block>, live: seq<Allocation>)
    requires LiveOk(blocks, live) && blocks <= more
    ensures LiveOk(more, live)
  {
    hide Aligned;
    forall i | 0 <= i < |live| ensures Placed(more, live[i]) {
      assert Placed(blocks, live[i]);
    }
  }

  lemma LastPlaced(blocks: seq<Block>, live: seq<Allocation>, a: Allocation)
    requires LiveOk(blocks, live + [a])
    ensures Placed(blocks, a)
  {
    assert (live + [a])[|live|] == a;
  }

  lemma OffsetIsAligned(b: Block, alignment: nat)
    requires alignment > 0
    ensures Aligned(b.base + OffsetIn(b, alignment), alignment)
  {
    hide Aligned;
  }

  /** Storage placed at or after the used part of the current block overlaps nothing. */
  lemma GrownLive(blocks: seq<Block>, k: nat, offset: nat, bytes: nat, alignment: nat, live: seq<Allocation>)
    requires LiveOk(blocks, live) && k < |blocks| && bytes > 0 && alignment > 0
    requires offset >= blocks[k].used && Aligned(blocks[k].base + offset, alignment)
    ensures LiveOk(blocks[k := blocks[k].(used := offset + bytes)], live + [Allocation(k, offset, bytes, alignment)])
  {
    hide Aligned;
    var grown, all := blocks[k := blocks[k].(used := offset + bytes)], live + [Allocation(k, offset, bytes, alignment)];
    forall i | 0 <= i < |all| ensures Placed(grown, all[i]) {
      assert i < |live| ==> Placed(blocks, live[i]);
    }
    forall i, j | 0 <= i < j < |all| ensures NoOverlap(all[i], all[j]) {
      assert Placed(blocks, live[i]);
    }
  }
}
