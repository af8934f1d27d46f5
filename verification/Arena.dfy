/**
 The block arena: a bump allocator over a list of blocks with stack-like marks.  Addresses are numbers; where
 a new block lands is a parameter.
 */
module Arena {
  import opened Arithmetic
  import opened Wrappers

  const WORD := 0x1_0000_0000_0000_0000
  const DEFAULT_BLOCK_SIZE := 4096

  datatype Block = Block(base: nat, size: nat, used: nat)

  datatype State = State(blocks: seq<Block>, current: nat)

  const EMPTY := State([], 0)

  function TotalUsed(blocks: seq<Block>): nat {
    if blocks == [] then 0 else TotalUsed(blocks[..|blocks| - 1]) + blocks[|blocks| - 1].used
  }

  predicate BlockOk(b: Block) {
    b.used <= b.size < WORD && b.base + b.size <= WORD
  }

  predicate Apart(a: Block, b: Block) {
    a.base + a.size <= b.base || b.base + b.size <= a.base
  }

  predicate BlocksOk(blocks: seq<Block>) {
    forall i :: 0 <= i < |blocks| ==> BlockOk(blocks[i])
  }

  predicate AllApart(blocks: seq<Block>) {
    forall i, j :: 0 <= i < j < |blocks| ==> Apart(blocks[i], blocks[j])
  }

  predicate UnusedAfter(blocks: seq<Block>, current: nat) {
    forall i :: current < i < |blocks| ==> blocks[i].used == 0
  }

  /** Blocks lie apart in memory; the current block is in use unless it is the first, later ones are not. */
  predicate Sound(s: State) {
    && BlocksOk(s.blocks) && AllApart(s.blocks) && UnusedAfter(s.blocks, s.current)
    && (if s.blocks == [] then s.current == 0 else s.current < |s.blocks|)
    && (s.current > 0 ==> s.blocks[s.current].used > 0)
  }

  // ---------------------------------------------------------------- alignment and overflow

  predicate Aligned(address: nat, alignment: nat)
    requires alignment > 0
  {
    address % alignment == 0
  }

  /** (address + alignment - 1) & ~(alignment - 1) for a power-of-two alignment. */
  function AlignUp(address: nat, alignment: nat): (r: nat)
    requires alignment > 0
    ensures address <= r < address + alignment && Aligned(r, alignment)
  {
    var sum := address + alignment - 1;
    DropRemainder(sum, alignment);
    sum - sum % alignment
  }

  lemma DropRemainder(x: nat, d: nat)
    requires d > 0
    ensures 0 <= x % d < d && (x - x % d) % d == 0
  {
    var q, r := x / d, x % d;
    assert x == q * d + r;
    DivModUnique(x - r, d, q, 0);
  }

  lemma LessByProduct(a: nat, b: nat, d: nat)
    requires a * d < d * b
    ensures a < b
  {
    if b <= a {
      MoreByProduct(b, a, d);
    }
  }

  lemma MoreByProduct(a: nat, b: nat, d: nat)
    requires a <= b
    ensures d * a <= b * d
  {
    assert (b - a) * d >= 0;
  }

  /** The division test after a wrapped product notices exactly the products that do not fit a word. */
  lemma ProductCheckExact(size: nat, count: nat)
    requires 0 < size < WORD && count < WORD
    ensures (size * count % WORD) / size != count <==> size * count >= WORD
  {
    var product := size * count;
    var bytes := product % WORD;
    if product < WORD {
      assert bytes == product;
      DivModUnique(product, size, count, 0);
    } else {
      var q := bytes / size;
      assert bytes == q * size + bytes % size;
      assert q * size < size * count;
      LessByProduct(q, count, size);
    }
  }

  /** The comparison after a wrapped sum notices exactly the sums that do not fit a word. */
  lemma SumCheckExact(bytes: nat, extra: nat)
    requires bytes < WORD && extra < WORD
    ensures (bytes + extra) % WORD < bytes <==> bytes + extra >= WORD
  {
  }

  // ---------------------------------------------------------------- acquiring a block

  predicate HasRoom(b: Block, need: nat) {
    b.size - b.used >= need || (b.used == 0 && b.size >= need)
  }

  /** The first block from `i` on with room, the number of blocks when there is none. */
  function FirstFit(blocks: seq<Block>, i: nat, need: nat): (r: nat)
    requires i <= |blocks|
    ensures i <= r <= |blocks| && (r < |blocks| ==> HasRoom(blocks[r], need))
    decreases |blocks| - i
  {
    if i == |blocks| then i else if HasRoom(blocks[i], need) then i else FirstFit(blocks, i + 1, need)
  }

  function NewBlock(need: nat, base: nat): Block {
    Block(base, Max(DEFAULT_BLOCK_SIZE, need), 0)
  }

  /** No block from the current one on has room. */
  predicate NeedsBlock(s: State, need: nat) {
    s.current >= |s.blocks| || FirstFit(s.blocks, s.current, need) == |s.blocks|
  }

  /** A fresh block at `base` lies apart from the others. */
  predicate FreshFits(s: State, need: nat, base: nat) {
    BlockOk(NewBlock(need, base)) && forall i :: 0 <= i < |s.blocks| ==> Apart(s.blocks[i], NewBlock(need, base))
  }

  /** If a fresh block is needed, the host's allocator placed it at `base`, apart from the others. */
  predicate Placeable(s: State, need: nat, base: nat) {
    NeedsBlock(s, need) ==> FreshFits(s, need, base)
  }

  /** acquire_block. */
  function Acquire(s: State, need: nat, base: nat): State
    requires Sound(s)
  {
    if s.blocks == [] then State([NewBlock(need, base)], 0)
    else
      var i := FirstFit(s.blocks, s.current, need);
      if i < |s.blocks| then s.(current := i)
      else State(s.blocks + [NewBlock(need, base)], |s.blocks|)
  }

  // ---------------------------------------------------------------- allocating

  function OffsetIn(b: Block, alignment: nat): (r: nat)
    requires alignment > 0
    ensures b.used <= r < b.used + alignment
  {
    AlignUp(b.base + b.used, alignment) - b.base
  }

  /** Room for the bytes and the worst padding: the placement cannot miss and cannot wrap. */
  lemma FirstPassFits(b: Block, bytes: nat, alignment: nat)
    requires BlockOk(b) && alignment > 0 && bytes > 0 && HasRoom(b, bytes + alignment - 1)
    ensures OffsetIn(b, alignment) + bytes <= b.size
    ensures b.base + b.used + alignment - 1 < WORD
  {
    hide AlignUp;
  }

  function Allocated(s: State, bytes: nat, alignment: nat): State
    requires s.current < |s.blocks| && alignment > 0
  {
    var b := s.blocks[s.current];
    s.(blocks := s.blocks[s.current := b.(used := OffsetIn(b, alignment) + bytes)])
  }

  /** allocate, once the overflow checks have passed. */
  function Allocate(s: State, bytes: nat, alignment: nat, base: nat): State
    requires Sound(s) && alignment > 0
  {
    var acquired := Acquire(s, bytes + alignment - 1, base);
    if acquired.current < |acquired.blocks| then Allocated(acquired, bytes, alignment) else acquired
  }

  // ---------------------------------------------------------------- releasing

  function Cleared(blocks: seq<Block>): (r: seq<Block>)
    ensures |r| == |blocks| && forall i :: 0 <= i < |r| ==> r[i] == blocks[i].(used := 0)
  {
    seq(|blocks|, i requires 0 <= i < |blocks| => blocks[i].(used := 0))
  }

  /** The block in which `mark` used bytes end, counting from block `i` on. */
  function MarkBlock(blocks: seq<Block>, i: nat, mark: nat): (r: nat)
    requires i <= |blocks|
    ensures i <= r <= |blocks|
    decreases |blocks| - i
  {
    if i == |blocks| then i
    else if mark <= blocks[i].used then i
    else MarkBlock(blocks, i + 1, mark - blocks[i].used)
  }

  /** release of a mark below the current total: blocks before `k` stay, `k` is cut back, later ones are cleared. */
  function CutAt(s: State, k: nat, rest: nat): State
    requires k < |s.blocks|
  {
    State(s.blocks[..k] + [s.blocks[k].(used := rest)] + Cleared(s.blocks[k + 1..]), k)
  }

  function Release(s: State, mark: nat): State {
    if mark >= TotalUsed(s.blocks) then s
    else
      var k := MarkBlock(s.blocks, 0, mark);
      if k < |s.blocks| then
        CutAt(s, k, if mark >= TotalUsed(s.blocks[..k]) then mark - TotalUsed(s.blocks[..k]) else 0)
      else s
  }

  // ---------------------------------------------------------------- sums of usage

  lemma TotalUsedSnoc(blocks: seq<Block>, k: nat)
    requires k < |blocks|
    ensures TotalUsed(blocks[..k + 1]) == TotalUsed(blocks[..k]) + blocks[k].used
  {
    assert blocks[..k + 1][..k] == blocks[..k];
  }

  lemma {:induction false} TotalUsedGrows(blocks: seq<Block>, i: nat, j: nat)
    requires i <= j <= |blocks|
    ensures TotalUsed(blocks[..i]) <= TotalUsed(blocks[..j])
    decreases j - i
  {
    if i < j {
      TotalUsedGrows(blocks, i, j - 1);
      TotalUsedSnoc(blocks, j - 1);
    }
  }

  lemma {:induction false} UnusedAddNothing(blocks: seq<Block>, k: nat)
    requires k <= |blocks| && forall i :: k <= i < |blocks| ==> blocks[i].used == 0
    ensures TotalUsed(blocks) == TotalUsed(blocks[..k])
    decreases |blocks| - k
  {
    if k < |blocks| {
      UnusedAddNothing(blocks, k + 1);
      TotalUsedSnoc(blocks, k);
    } else {
      assert blocks[..k] == blocks;
    }
  }

  /** Where a mark ends: the first block whose running total reaches it. */
  lemma {:induction false} MarkBlockExact(blocks: seq<Block>, i: nat, mark: nat)
    requires i <= |blocks|
    ensures var k := MarkBlock(blocks, i, mark);
            && (k < |blocks| ==> TotalUsed(blocks[..i]) + mark <= TotalUsed(blocks[..k + 1]))
            && (k > i ==> TotalUsed(blocks[..k]) < TotalUsed(blocks[..i]) + mark)
            && (k == |blocks| > i ==> TotalUsed(blocks) < TotalUsed(blocks[..i]) + mark)
    decreases |blocks| - i
  {
    assert blocks[..|blocks|] == blocks;
    if i < |blocks| {
      TotalUsedSnoc(blocks, i);
      if mark > blocks[i].used {
        MarkBlockExact(blocks, i + 1, mark - blocks[i].used);
      }
    }
  }

  lemma ReleaseCuts(s: State, mark: nat)
    requires mark < TotalUsed(s.blocks)
    ensures var k := MarkBlock(s.blocks, 0, mark);
            && k < |s.blocks| && TotalUsed(s.blocks[..k]) <= mark <= TotalUsed(s.blocks[..k + 1])
            && (k > 0 ==> TotalUsed(s.blocks[..k]) < mark)
            && Release(s, mark) == CutAt(s, k, mark - TotalUsed(s.blocks[..k]))
  {
    MarkBlockExact(s.blocks, 0, mark);
    assert s.blocks[..0] == [];
  }

  lemma CutTotal(s: State, k: nat, rest: nat)
    requires k < |s.blocks|
    ensures TotalUsed(CutAt(s, k, rest).blocks) == TotalUsed(s.blocks[..k]) + rest
  {
    var blocks := CutAt(s, k, rest).blocks;
    UnusedAddNothing(blocks, k + 1);
    TotalUsedSnoc(blocks, k);
    assert blocks[..k] == s.blocks[..k];
  }

  // ---------------------------------------------------------------- what every operation keeps

  /** The same blocks in the same places, however full. */
  predicate SamePlaces(a: seq<Block>, b: seq<Block>) {
    |a| <= |b| && forall i :: 0 <= i < |a| ==> b[i].base == a[i].base && b[i].size == a[i].size
  }

  lemma PlacesApart(a: seq<Block>, b: seq<Block>)
    requires SamePlaces(a, b) && |a| == |b| && AllApart(a)
    ensures AllApart(b)
  {
    forall i, j | 0 <= i < j < |b| ensures Apart(b[i], b[j]) {
      assert Apart(a[i], a[j]);
    }
  }

  lemma AppendApart(blocks: seq<Block>, b: Block)
    requires AllApart(blocks) && forall i :: 0 <= i < |blocks| ==> Apart(blocks[i], b)
    ensures AllApart(blocks + [b])
  {
  }

  lemma {:induction false} FirstFitIsFirst(blocks: seq<Block>, i: nat, need: nat, j: nat)
    requires i <= |blocks| && i <= j < FirstFit(blocks, i, need)
    ensures j < |blocks| && blocks[j].size - blocks[j].used < need
    decreases |blocks| - i
  {
    if j > i {
      FirstFitIsFirst(blocks, i + 1, need, j);
    }
  }

  /**
   The block acquired is the first from the current one on with `need` bytes to spare; when none has, it is a
   new one behind the others, empty, of the default size or of `need` bytes if that is more.
   */
  lemma AcquireExactly(s: State, need: nat, base: nat)
    requires Sound(s)
    ensures var t := Acquire(s, need, base);
            && (forall j :: s.current <= j < t.current && j < |s.blocks| ==> s.blocks[j].size - s.blocks[j].used < need)
            && (t.current < |s.blocks| ==>
                  && t.blocks == s.blocks && s.current <= t.current
                  && s.blocks[t.current].size - s.blocks[t.current].used >= need)
            && (t.current >= |s.blocks| ==>
                  && t.current == |s.blocks| && |t.blocks| == |s.blocks| + 1 && t.blocks[..|s.blocks|] == s.blocks
                  && var b := t.blocks[t.current];
                  && b.base == base && b.used == 0 && b.size >= need && b.size >= 4096
                     && (b.size == need || b.size == 4096))
  {
    var t := Acquire(s, need, base);
    forall j | s.current <= j < t.current && j < |s.blocks| ensures s.blocks[j].size - s.blocks[j].used < need {
      FirstFitIsFirst(s.blocks, s.current, need, j);
    }
  }

  /** acquire_block only appends, keeps the total, and ends at a block with room. */
  lemma AcquireKeeps(s: State, need: nat, base: nat)
    requires Sound(s) && need > 0 && Placeable(s, need, base)
    ensures var t := Acquire(s, need, base);
            && t.current < |t.blocks| && HasRoom(t.blocks[t.current], need)
            && BlocksOk(t.blocks) && AllApart(t.blocks) && UnusedAfter(t.blocks, t.current)
            && s.current <= t.current && s.blocks <= t.blocks
            && (t.current > s.current ==> t.blocks[t.current].used == 0)
            && TotalUsed(t.blocks) == TotalUsed(s.blocks)
  {
    var t, added := Acquire(s, need, base), NewBlock(need, base);
    hide AllApart, TotalUsed;
    if |t.blocks| > |s.blocks| {
      NewBlockKeeps(s, need, base);
      hide Sound, BlocksOk, UnusedAfter, Placeable, NeedsBlock, FreshFits, FirstFit;
      assert t == State(s.blocks + [added], |s.blocks|);
    }
  }

  lemma NewBlockKeeps(s: State, need: nat, base: nat)
    requires Sound(s) && need > 0 && FreshFits(s, need, base)
    ensures var b := NewBlock(need, base);
            var blocks := s.blocks + [b];
            && BlocksOk(blocks) && AllApart(blocks) && UnusedAfter(blocks, |s.blocks|)
            && TotalUsed(blocks) == TotalUsed(s.blocks) && HasRoom(b, need) && b.used == 0
  {
    var b := NewBlock(need, base);
    AppendApart(s.blocks, b);
    hide AllApart;
    assert (s.blocks + [b])[..|s.blocks|] == s.blocks;
  }

  lemma {:induction false} TotalOfUpdate(blocks: seq<Block>, k: nat, used: nat)
    requires k < |blocks|
    ensures TotalUsed(blocks[k := blocks[k].(used := used)]) == TotalUsed(blocks) + used - blocks[k].used
    decreases |blocks|
  {
    var front, last := blocks[..|blocks| - 1], blocks[|blocks| - 1];
    var updated := blocks[k := blocks[k].(used := used)];
    if k < |front| {
      TotalOfUpdate(front, k, used);
      assert updated[..|front|] == front[k := front[k].(used := used)];
    } else {
      assert updated[..|front|] == front;
    }
  }

  lemma AllocatedKeeps(a: State, bytes: nat, alignment: nat)
    requires a.current < |a.blocks| && BlocksOk(a.blocks) && AllApart(a.blocks) && UnusedAfter(a.blocks, a.current)
    requires bytes > 0 && alignment > 0 && HasRoom(a.blocks[a.current], bytes + alignment - 1)
    ensures var t, b := Allocated(a, bytes, alignment), a.blocks[a.current];
            Sound(t) && TotalUsed(t.blocks) == TotalUsed(a.blocks) + OffsetIn(b, alignment) + bytes - b.used
  {
    var t, b := Allocated(a, bytes, alignment), a.blocks[a.current];
    assert BlockOk(b);
    FirstPassFits(b, bytes, alignment);
    TotalOfUpdate(a.blocks, a.current, OffsetIn(b, alignment) + bytes);
    hide AlignUp, TotalUsed, AllApart, OffsetIn;
    PlacesApart(a.blocks, t.blocks);
  }

  /** An allocation keeps the arena sound and adds exactly its bytes and padding to the total. */
  lemma AllocateKeeps(s: State, bytes: nat, alignment: nat, base: nat)
    requires Sound(s) && bytes > 0 && alignment > 0 && Placeable(s, bytes + alignment - 1, base)
    ensures var a, t := Acquire(s, bytes + alignment - 1, base), Allocate(s, bytes, alignment, base);
            && Sound(t) && a.current < |a.blocks| && t == Allocated(a, bytes, alignment)
            && TotalUsed(t.blocks) ==
               TotalUsed(s.blocks) + OffsetIn(a.blocks[a.current], alignment) + bytes - a.blocks[a.current].used
  {
    AcquireKeeps(s, bytes + alignment - 1, base);
    hide Acquire, AlignUp, OffsetIn, Sound, TotalUsed, AllApart;
    AllocatedKeeps(Acquire(s, bytes + alignment - 1, base), bytes, alignment);
  }

  lemma CutEach(s: State, k: nat, rest: nat)
    requires k < |s.blocks|
    ensures var t := CutAt(s, k, rest);
            && t.current == k && |t.blocks| == |s.blocks|
            && forall i :: 0 <= i < |t.blocks| ==>
                             t.blocks[i] == if i < k then s.blocks[i]
                                            else s.blocks[i].(used := if i == k then rest else 0)
  {
  }

  lemma CutSound(s: State, k: nat, rest: nat)
    requires Sound(s) && k < |s.blocks| && rest <= s.blocks[k].used && (k > 0 ==> rest > 0)
    ensures Sound(CutAt(s, k, rest))
  {
    hide CutAt, AllApart;
    var t := CutAt(s, k, rest);
    CutEach(s, k, rest);
    PlacesApart(s.blocks, t.blocks);
    forall i | 0 <= i < |t.blocks| ensures BlockOk(t.blocks[i]) {
      assert BlockOk(s.blocks[i]);
    }
  }

  /** Releasing any value keeps the arena sound, and the total becomes that value unless it is lower already. */
  lemma ReleaseKeeps(s: State, mark: nat)
    requires Sound(s)
    ensures Sound(Release(s, mark)) && TotalUsed(Release(s, mark).blocks) == Min(mark, TotalUsed(s.blocks))
    ensures |Release(s, mark).blocks| == |s.blocks|
  {
    if mark < TotalUsed(s.blocks) {
      ReleaseCuts(s, mark);
      var k := MarkBlock(s.blocks, 0, mark);
      TotalUsedSnoc(s.blocks, k);
      CutTotal(s, k, mark - TotalUsed(s.blocks[..k]));
      hide MarkBlock, TotalUsed, Sound;
      CutSound(s, k, mark - TotalUsed(s.blocks[..k]));
    }
  }

  // ---------------------------------------------------------------- stack discipline

  datatype Operation = Alloc(bytes: nat, alignment: nat, base: nat) | Rewind(mark: nat)

  predicate OperationOk(s: State, op: Operation) {
    op.Alloc? ==> op.bytes > 0 && op.alignment > 0 && Placeable(s, op.bytes + op.alignment - 1, op.base)
  }

  function After(s: State, op: Operation): State
    requires Sound(s) && OperationOk(s, op)
  {
    match op
    case Alloc(bytes, alignment, base) => Allocate(s, bytes, alignment, base)
    case Rewind(mark) => Release(s, mark)
  }

  lemma AfterSound(s: State, op: Operation)
    requires Sound(s) && OperationOk(s, op)
    ensures Sound(After(s, op))
  {
    hide Sound, Placeable;
    match op
    case Alloc(bytes, alignment, base) => AllocateKeeps(s, bytes, alignment, base);
    case Rewind(mark) => ReleaseKeeps(s, mark);
  }

  /** A run of operations from `s` to `t` that never rewinds below `floor`. */
  ghost predicate Runs(s: State, ops: seq<Operation>, floor: nat, t: State)
    requires Sound(s)
    decreases |ops|
  {
    if ops == [] then s == t
    else
      && OperationOk(s, ops[0]) && (ops[0].Rewind? ==> ops[0].mark >= floor)
      && (AfterSound(s, ops[0]); Runs(After(s, ops[0]), ops[1..], floor, t))
  }

  /** `t` still has everything that was in use in `m`: same earlier blocks, the marked block at least as full. */
  predicate Above(m: State, t: State) {
    && SamePlaces(m.blocks, t.blocks) && m.current <= t.current
    && (m.blocks != [] ==>
          m.current < |m.blocks| && t.blocks[..m.current] == m.blocks[..m.current] &&
          t.blocks[m.current].used >= m.blocks[m.current].used)
  }

  lemma AllocateStaysAbove(m: State, s: State, bytes: nat, alignment: nat, base: nat)
    requires Sound(m) && Sound(s) && Above(m, s) && bytes > 0 && alignment > 0
    requires Placeable(s, bytes + alignment - 1, base)
    ensures Above(m, Allocate(s, bytes, alignment, base))
  {
    AcquireKeeps(s, bytes + alignment - 1, base);
    AllocateKeeps(s, bytes, alignment, base);
    hide Acquire, AlignUp, TotalUsed, Sound, AllApart, BlocksOk;
    var a := Acquire(s, bytes + alignment - 1, base);
    AllocatedAbove(m, s, a, bytes, alignment);
  }

  lemma AllocatedAbove(m: State, s: State, a: State, bytes: nat, alignment: nat)
    requires Above(m, s) && s.blocks <= a.blocks && s.current <= a.current < |a.blocks| && alignment > 0
    ensures Above(m, Allocated(a, bytes, alignment))
  {
    hide AlignUp;
    var t := Allocated(a, bytes, alignment);
    assert forall i :: 0 <= i < |s.blocks| ==> a.blocks[i] == s.blocks[i];
    if m.blocks != [] {
      assert t.blocks[..m.current] == a.blocks[..m.current] == s.blocks[..m.current];
    }
  }

  /** In a sound arena the total ends in the current block. */
  lemma TotalEndsAtCurrent(s: State)
    requires Sound(s) && s.blocks != []
    ensures TotalUsed(s.blocks) == TotalUsed(s.blocks[..s.current]) + s.blocks[s.current].used
    ensures s.current > 0 ==> TotalUsed(s.blocks[..s.current]) < TotalUsed(s.blocks)
  {
    UnusedAddNothing(s.blocks, s.current + 1);
    TotalUsedSnoc(s.blocks, s.current);
  }

  /** A rewind to `m`'s total or more cuts at or after `m`'s current block; to the total itself, exactly there. */
  lemma CutBlockAbove(m: State, s: State, mark: nat)
    requires Sound(m) && Above(m, s) && m.blocks != []
    requires TotalUsed(m.blocks) <= mark < TotalUsed(s.blocks)
    ensures var k := MarkBlock(s.blocks, 0, mark);
            && m.current <= k < |s.blocks| && TotalUsed(s.blocks[..k]) <= mark
            && (k == m.current ==> mark - TotalUsed(s.blocks[..k]) >= m.blocks[k].used)
            && (mark == TotalUsed(m.blocks) ==> k == m.current && mark - TotalUsed(s.blocks[..k]) == m.blocks[k].used)
  {
    var c, k := m.current, MarkBlock(s.blocks, 0, mark);
    ReleaseCuts(s, mark);
    TotalEndsAtCurrent(m);
    assert s.blocks[..c] == m.blocks[..c];
    TotalUsedSnoc(s.blocks, c);
    hide Release, MarkBlock, Sound, TotalUsed;
    if k < c {
      TotalUsedGrows(s.blocks, k + 1, c);
    } else if k > c {
      TotalUsedGrows(s.blocks, c + 1, k);
    }
  }

  lemma CutAbove(m: State, s: State, k: nat, rest: nat)
    requires Above(m, s) && m.current <= k < |s.blocks| && m.blocks != []
    requires k == m.current ==> rest >= m.blocks[k].used
    ensures Above(m, CutAt(s, k, rest))
  {
    var t := CutAt(s, k, rest);
    assert t.blocks[..m.current] == s.blocks[..m.current];
  }

  lemma ReleaseStaysAbove(m: State, s: State, mark: nat)
    requires Sound(m) && Sound(s) && Above(m, s) && mark >= TotalUsed(m.blocks)
    ensures Above(m, Release(s, mark))
  {
    if m.blocks == [] {
      AboveNothing(m, Release(s, mark));
    } else if mark < TotalUsed(s.blocks) {
      CutBlockAbove(m, s, mark);
      ReleaseCuts(s, mark);
      hide Sound, TotalUsed, MarkBlock, Above;
      var k := MarkBlock(s.blocks, 0, mark);
      CutAbove(m, s, k, mark - TotalUsed(s.blocks[..k]));
    }
  }

  lemma AboveNothing(m: State, t: State)
    requires Sound(m) && m.blocks == []
    ensures Above(m, t)
  {
  }

  lemma {:induction false} RunStaysAbove(m: State, s: State, ops: seq<Operation>, t: State)
    requires Sound(m) && Sound(s) && Above(m, s) && Runs(s, ops, TotalUsed(m.blocks), t)
    ensures Sound(t) && Above(m, t)
    decreases |ops|
  {
    hide Above, Sound, TotalUsed, Placeable;
    if ops != [] {
      AfterSound(s, ops[0]);
      match ops[0] {
        case Alloc(bytes, alignment, base) => AllocateStaysAbove(m, s, bytes, alignment, base);
        case Rewind(mark) => ReleaseStaysAbove(m, s, mark);
      }
      hide After;
      RunStaysAbove(m, After(s, ops[0]), ops[1..], t);
    }
  }

  /** `r` is `m` again, but for empty blocks it may have gained. */
  predicate RestoredTo(m: State, r: State) {
    && r.current == m.current && m.blocks <= r.blocks
    && forall i :: |m.blocks| <= i < |r.blocks| ==> r.blocks[i].used == 0
  }

  /**
   Stack discipline: take a mark, allocate and rewind at will above it, release it.  Every block is back to its
   usage at the mark, the current block is the one at the mark, and blocks gained since are empty.
   */
  lemma ReleaseRestoresMark(m: State, ops: seq<Operation>, t: State)
    requires Sound(m) && Runs(m, ops, TotalUsed(m.blocks), t)
    ensures RestoredTo(m, Release(t, TotalUsed(m.blocks)))
  {
    RunStaysAbove(m, m, ops, t);
    RestoreFrom(m, t);
  }

  lemma RestoreFrom(m: State, s: State)
    requires Sound(m) && Sound(s) && Above(m, s)
    ensures RestoredTo(m, Release(s, TotalUsed(m.blocks)))
  {
    var mark := TotalUsed(m.blocks);
    if mark >= TotalUsed(s.blocks) {
      SameTotalSameUse(m, s);
    } else {
      ReleaseCuts(s, mark);
      if m.blocks == [] {
        CutToNothing(s);
        EmptyIsRestored(m, s);
      } else {
        CutBlockAbove(m, s, mark);
        hide TotalUsed, MarkBlock;
        CutRestores(m, s);
      }
    }
  }

  lemma CutToNothing(s: State)
    requires s.blocks != []
    ensures MarkBlock(s.blocks, 0, 0) == 0 && TotalUsed(s.blocks[..0]) == 0
  {
  }

  lemma EmptyIsRestored(m: State, s: State)
    requires Sound(m) && m.blocks == [] && s.blocks != []
    ensures RestoredTo(m, CutAt(s, 0, 0))
  {
  }

  lemma CutRestores(m: State, s: State)
    requires Sound(m) && Above(m, s) && m.blocks != []
    ensures m.current < |s.blocks| && RestoredTo(m, CutAt(s, m.current, m.blocks[m.current].used))
  {
    var c := m.current;
    var r := CutAt(s, c, m.blocks[c].used);
    hide AllApart, BlocksOk;
    forall i | 0 <= i < |m.blocks| ensures r.blocks[i] == m.blocks[i] {
      if i < c {
        assert s.blocks[..c][i] == m.blocks[..c][i];
      }
    }
  }

  lemma NothingToCut(s: State)
    requires Sound(s) && s.blocks != []
    ensures CutAt(s, s.current, s.blocks[s.current].used) == s
  {
    hide AllApart, BlocksOk;
    assert CutAt(s, s.current, s.blocks[s.current].used).blocks == s.blocks;
  }

  /** If nothing more is in use than at the mark, nothing has changed since. */
  lemma SameTotalSameUse(m: State, s: State)
    requires Sound(m) && Sound(s) && Above(m, s) && TotalUsed(m.blocks) >= TotalUsed(s.blocks)
    ensures RestoredTo(m, s)
  {
    if s.blocks != [] {
      TotalEndsAtCurrent(s);
      if m.blocks != [] {
        var c := m.current;
        TotalEndsAtCurrent(m);
        assert s.blocks[..c] == m.blocks[..c];
        TotalUsedSnoc(s.blocks, c);
        if c < s.current {
          TotalUsedGrows(s.blocks, c + 1, s.current);
        }
        assert s.current == c && s.blocks[c].used == m.blocks[c].used;
        hide TotalUsed, Sound, Above;
        CutRestores(m, s);
        NothingToCut(s);
      } else {
        TotalUsedGrows(s.blocks, 0, s.current);
      }
    }
  }
}
