/** What callers of the small heap may rely on, over any history of malloc, realloc and free (src/mem.c). */
module SmallHeapRuns {
  import opened Kernel
  import opened Blocks
  import opened SmallHeapSpec

  // ----- malloc -------------------------------------------------------------------------------

  /** Below the lowest unused block there is nothing to skip: the scan may as well start at offset 0. */
  lemma {:induction false} FitFromLowest(blocks: seq<Block>, off: nat, from: nat, size: nat, limit: int)
    requires UsedBelow(blocks, from - off)
    ensures Fit(blocks, off, from, size, limit) == Fit(blocks, off, 0, size, limit)
    decreases |blocks|
  {
    if blocks != [] && off < limit {
      if off < from {
        FitFromLowest(blocks[1..], off + blocks[0].size, from, size, limit);
      } else {
        FitSkipsNothing(blocks, off, from, size, limit);
      }
    }
  }

  lemma {:induction false} FitSkipsNothing(blocks: seq<Block>, off: nat, from: nat, size: nat, limit: int)
    requires from <= off
    ensures Fit(blocks, off, from, size, limit) == Fit(blocks, off, 0, size, limit)
    decreases |blocks|
  {
    if blocks != [] && off < limit {
      FitSkipsNothing(blocks[1..], off + blocks[0].size, from, size, limit);
    }
  }

  /** rt_malloc could serve the request from block i: the scan bound is strict. */
  ghost predicate Serves(blocks: seq<Block>, i: nat, size: nat)
    requires i < |blocks|
  {
    && !blocks[i].used && blocks[i].size >= HEADER + Wanted(size)
    && Total(blocks[..i]) + Wanted(size) < MemSize(blocks)
  }

  /**
   As long as lfree is the lowest unused block, malloc takes the first block of the whole heap that serves
   the request, and fails exactly when none does.
   */
  lemma MallocIsFirstFit(s: State, size: nat)
    requires Inv(s) && LfreeLowest(s) && size > 0 && Align(size) <= MemSize(s.blocks)
    ensures match Malloc(s, size).1
            case Null => forall i: nat :: i < |s.blocks| ==> !Serves(s.blocks, i, size)
            case At(p) => exists i: nat :: i < |s.blocks| && Serves(s.blocks, i, size)
                                           && p == Total(s.blocks[..i]) + HEADER
                                           && forall k: nat :: k < i ==> !Serves(s.blocks, k, size)
  {
    var (w, limit) := (Wanted(size), MemSize(s.blocks) - Wanted(size));
    FitFromLowest(s.blocks, 0, s.lfree, w, limit);
    FitIsFirst(s.blocks, 0, 0, w, limit);
    assert forall i: nat :: i < |s.blocks| ==> (Serves(s.blocks, i, size) <==> Fits(s.blocks, 0, 0, w, limit, i));
  }

  /** A request that cannot be rounded into the heap, or is empty, is refused. */
  lemma MallocRefuses(s: State, size: nat)
    requires size == 0 || Align(size) > MemSize(s.blocks)
    ensures Malloc(s, size) == (s, Null)
  {
  }

  /** A malloc changes nothing, or hands out a block that fits. */
  lemma MallocCase(s: State, size: nat) returns (i: nat)
    ensures Malloc(s, size).1.Null? ==> Malloc(s, size) == (s, Null)
    ensures Malloc(s, size).1.At? ==>
              var w := Wanted(size);
              && i < |s.blocks| && Fits(s.blocks, 0, s.lfree, w, MemSize(s.blocks) - w, i)
              && Malloc(s, size) == (Allocated(s, i, w), At(Total(s.blocks[..i]) + HEADER))
              && w >= size
  {
    var w := Wanted(size);
    FitIsFirst(s.blocks, 0, s.lfree, w, MemSize(s.blocks) - w);
    i := match Fit(s.blocks, 0, s.lfree, w, MemSize(s.blocks) - w) case Some(j) => j case None => 0;
  }

  lemma MallocKeepsInv(s: State, size: nat)
    requires Inv(s)
    ensures var r := Malloc(s, size).0;
            Inv(r) && Total(r.blocks) == Total(s.blocks) && (LfreeLowest(s) ==> LfreeLowest(r))
  {
    var i := MallocCase(s, size);
    if Malloc(s, size).1.At? {
      AllocatedKeepsInv(s, i, Wanted(size), MemSize(s.blocks) - Wanted(size));
    }
  }

  /** A successful malloc adds one live payload, of at least the size asked for, and disturbs no other. */
  lemma MallocAddsOne(s: State, size: nat, p: int)
    requires Inv(s)
    ensures var (r, q) := Malloc(s, size);
            match q
            case Null => r == s
            case At(new_p) =>
              && Live(r, new_p) && Capacity(r, new_p) >= size && !Live(s, new_p)
              && (Live(r, p) <==> Live(s, p) || p == new_p)
              && (Live(s, p) ==> Capacity(r, p) == Capacity(s, p))
  {
    var i := MallocCase(s, size);
    match Malloc(s, size).1
    case Null =>
    case At(q) =>
      AllocatedKeepsLive(s, i, Wanted(size), p);
      AllocatedKeepsLive(s, i, Wanted(size), q);
  }

  // ----- when a malloc succeeds, and how much it hands out ------------------------------------

  /** The size looked for is the least multiple of 8 that is neither below the request nor below 16. */
  lemma WantedIsLeast(size: nat)
    ensures Wanted(size) % 8 == 0 && Wanted(size) >= size && Wanted(size) >= 16
    ensures Wanted(size) < size + 8 || Wanted(size) == 16
  {
  }

  /** Block i would do, and it does not lie below lfree. */
  ghost predicate ServesNow(s: State, i: nat, size: nat)
    requires i < |s.blocks|
  {
    Serves(s.blocks, i, size) && s.lfree <= Total(s.blocks[..i])
  }

  ghost predicate NoneServes(s: State, size: nat) {
    forall i: nat :: i < |s.blocks| ==> !ServesNow(s, i, size)
  }

  /** Whatever lfree is: malloc takes the first block from lfree on that would do, and fails only if there is none. */
  lemma MallocFailsExactly(s: State, size: nat)
    requires Inv(s)
    ensures Malloc(s, size).1.Null? <==>
              size == 0 || Align(size) > MemSize(s.blocks) || NoneServes(s, size)
    ensures Malloc(s, size).1.At? ==>
              exists i: nat :: i < |s.blocks| && ServesNow(s, i, size) && Malloc(s, size).1.offset == Total(s.blocks[..i]) + HEADER
                               && forall k: nat :: k < i ==> !ServesNow(s, k, size)
  {
    var (w, limit) := (Wanted(size), MemSize(s.blocks) - Wanted(size));
    FitIsFirst(s.blocks, 0, s.lfree, w, limit);
    assert forall i: nat :: i < |s.blocks| ==> (ServesNow(s, i, size) <==> Fits(s.blocks, 0, s.lfree, w, limit, i));
  }

  /** What is handed out is exactly what was looked for if the rest has room for a header and 16 bytes, and the whole block otherwise. */
  lemma MallocHandsOut(s: State, size: nat)
    requires Inv(s) && Malloc(s, size).1.At?
    ensures var (r, p, room) := (Malloc(s, size).0, Malloc(s, size).1.offset, Capacity(s, Malloc(s, size).1.offset));
            && FreeAt(s.blocks, p - HEADER) && Live(r, p)
            && Capacity(r, p) == if room >= Wanted(size) + HEADER + 16 then Wanted(size) else room
  {
    var i := MallocCase(s, size);
    HandsOutAt(s, i, Wanted(size), Malloc(s, size).0, Malloc(s, size).1.offset);
  }

  lemma HandsOutAt(s: State, i: nat, w: nat, r: State, p: int)
    requires Inv(s) && i < |s.blocks| && !s.blocks[i].used && s.blocks[i].size >= HEADER + w
    requires r == Allocated(s, i, w) && p == Total(s.blocks[..i]) + HEADER
    ensures FreeAt(s.blocks, p - HEADER) && Live(r, p)
    ensures Capacity(r, p) == if Capacity(s, p) >= w + HEADER + 16 then w else Capacity(s, p)
  {
    AllocatedKeepsLive(s, i, w, p);
    SplitAround(s.blocks, i);
    SizedConcat(s.blocks[..i], [s.blocks[i]] + s.blocks[i + 1..]);
    HandedOut(s.blocks[..i], s.blocks[i], s.blocks[i + 1..], w);
  }

  lemma HandedOut(pre: seq<Block>, b: Block, post: seq<Block>, w: nat)
    requires Sized(pre) && !b.used && b.size >= HEADER + w
    ensures FreeAt(pre + ([b] + post), Total(pre)) && SizeAt(pre + ([b] + post), Total(pre)) == b.size
    ensures SizeAt(pre + (Carved(b, w) + post), Total(pre)) == if b.size - HEADER >= w + HEADER + 16 then w + HEADER else b.size
  {
    FreeAtConcat(pre, [b] + post, Total(pre));
    SizeAtTotal(pre, [b] + post);
    SizeAtTotal(pre, Carved(b, w) + post);
  }

  lemma {:induction false} SizeAtTotal(a: seq<Block>, b: seq<Block>)
    requires Sized(a) && b != []
    ensures SizeAt(a + b, Total(a)) == b[0].size
  {
    if a == [] {
      assert a + b == b;
    } else {
      assert (a + b)[1..] == a[1..] + b;
      SizeAtTotal(a[1..], b);
    }
  }

  // ----- payloads -----------------------------------------------------------------------------

  lemma {:induction false} UsedBeforeEnd(blocks: seq<Block>, off: int)
    requires Sized(blocks) && LastRoomy(blocks) && UsedAt(blocks, off)
    ensures off + HEADER < Total(blocks)
  {
    if off > 0 {
      UsedBeforeEnd(blocks[1..], off - blocks[0].size);
    } else if |blocks| > 1 {
      assert SizedBlock(blocks[1]);
    }
  }

  /** A live pointer is an address inside the heap, before heap_end. */
  lemma LivePayloadInside(s: State, p: int)
    requires Inv(s) && Live(s, p)
    ensures HEADER <= p < Total(s.blocks) && p + Capacity(s, p) <= Total(s.blocks)
  {
    UsedApart(s.blocks, p - HEADER, 0);
    UsedBeforeEnd(s.blocks, p - HEADER);
  }

  /** Live payloads lie inside the heap and do not overlap, nor does a payload overlap another one's header. */
  lemma LivePayloadsDisjoint(s: State, p: int, q: int)
    requires Inv(s) && Live(s, p) && Live(s, q) && p < q
    ensures HEADER <= p && p + Capacity(s, p) <= q - HEADER && q + Capacity(s, q) <= Total(s.blocks)
  {
    UsedApart(s.blocks, p - HEADER, q - HEADER);
    UsedApart(s.blocks, q - HEADER, 0);
  }

  /** Two live payloads, in whatever order, are apart. */
  lemma LivePayloadsApart(s: State, p: int, q: int)
    requires Inv(s) && Live(s, p) && Live(s, q) && p != q
    ensures p + Capacity(s, p) <= q || q + Capacity(s, q) <= p
    ensures HEADER <= p < p + Capacity(s, p) + HEADER && p + Capacity(s, p) <= Total(s.blocks)
    ensures HEADER <= q < q + Capacity(s, q) + HEADER && q + Capacity(s, q) <= Total(s.blocks)
  {
    LivePayloadInside(s, p);
    LivePayloadInside(s, q);
    UsedApart(s.blocks, p - HEADER, q - HEADER);
    UsedApart(s.blocks, q - HEADER, p - HEADER);
  }

  // ----- round trip ---------------------------------------------------------------------------

  /** The blocks around a payload are found where they are. */
  lemma AroundIs(s: State, p: int, pre: seq<Block>, b: Block, post: seq<Block>)
    requires s.blocks == pre + ([b] + post) && Sized(pre) && b.used && Total(pre) == p - HEADER && Live(s, p)
    ensures Around(s, p) == (pre, b, post)
  {
    IndexAtTotal(pre, b, post);
    assert s.blocks[..|pre|] == pre && s.blocks[|pre| + 1..] == post;
  }

  lemma AbsorbUndoesCarve(b: Block, post: seq<Block>, w: nat)
    requires !b.used && b.size >= HEADER + w && (post == [] || post[0].used)
    ensures var c := Carved(b, w);
            && c + post == [c[0]] + (c[1..] + post)
            && Absorbed(Block(c[0].size, false), c[1..] + post) == (b, post)
            && (|c| == 2 ==> c[1..] + post != [] && c[0].size + HEADER <= b.size)
  {
    var c := Carved(b, w);
    var rest := c[1..] + post;
    if |c| == 2 {
      assert rest[1..] == post && rest[0] == c[1];
    } else {
      assert rest == post;
    }
  }

  /** Merging what carving has separated. */
  lemma MergeUndoesCarve(pre: seq<Block>, b: Block, post: seq<Block>, w: nat, l: nat)
    requires !b.used && b.size >= HEADER + w && l <= Total(pre)
    requires (pre == [] || pre[|pre| - 1].used) && (post == [] || post[0].used)
    ensures var c := Carved(b, w);
            var (hole, rest) := (Block(c[0].size, false), c[1..] + post);
            && c + post == [c[0]] + rest
            && Merged(pre, hole, rest) == pre + ([b] + post) && MergedLfree(pre, hole, rest, l) == l
  {
    AbsorbUndoesCarve(b, post, w);
  }

  lemma FreeUndoesAllocation(s: State, i: nat, w: nat, limit: int)
    requires Inv(s) && i < |s.blocks| && Fits(s.blocks, 0, s.lfree, w, limit, i)
    ensures var (r, p) := (Allocated(s, i, w), Total(s.blocks[..i]) + HEADER);
            Live(r, p) && Freed(r, p) == s.(maxMem := r.maxMem)
  {
    var (r, p) := (Allocated(s, i, w), Total(s.blocks[..i]) + HEADER);
    var (pre, b, post) := (s.blocks[..i], s.blocks[i], s.blocks[i + 1..]);
    NeighboursUsed(s, i, pre, post);
    AllocatedKeepsLive(s, i, w, p);
    FreeUndoesTaking(s, i, w, pre, b, post, Carved(b, w), r, p);
  }

  lemma NeighboursUsed(s: State, i: nat, pre: seq<Block>, post: seq<Block>)
    requires Inv(s) && i < |s.blocks| && !s.blocks[i].used && pre == s.blocks[..i] && post == s.blocks[i + 1..]
    ensures Sized(pre) && (pre == [] || pre[|pre| - 1].used) && (post == [] || post[0].used)
  {
    SplitAt(s.blocks, i);
    NoTwoFreeThree(pre, [s.blocks[i]], post);
  }

  lemma FreeUndoesTaking(s: State, i: nat, w: nat, pre: seq<Block>, b: Block, post: seq<Block>, c: seq<Block>, r: State, p: int)
    requires i < |s.blocks| && pre == s.blocks[..i] && b == s.blocks[i] && post == s.blocks[i + 1..] && Sized(pre)
    requires !b.used && b.size >= HEADER + w && s.lfree <= Total(pre) && c == Carved(b, w)
    requires (pre == [] || pre[|pre| - 1].used) && (post == [] || post[0].used)
    requires r == Allocated(s, i, w) && p == Total(pre) + HEADER && Live(r, p)
    ensures Freed(r, p) == s.(maxMem := r.maxMem)
  {
    SplitAround(s.blocks, i);
    HeadOff(c, post);
    UncarvedState(s, pre, b, post, w, Min(r.lfree, Total(pre)));
    FreedRestores(s, pre, c[0], c[1..] + post, r, p);
  }

  /** A block given back, if merging restores the blocks and the lowest-free pointer. */
  lemma FreedRestores(s: State, pre: seq<Block>, c: Block, rest: seq<Block>, r: State, p: int)
    requires r.blocks == pre + ([c] + rest) && c.used && Sized(pre) && p == Total(pre) + HEADER && Live(r, p)
    requires r.usedMem == s.usedMem + c.size
    requires Merged(pre, Block(c.size, false), rest) == s.blocks
    requires MergedLfree(pre, Block(c.size, false), rest, Min(r.lfree, Total(pre))) == s.lfree
    ensures Freed(r, p) == s.(maxMem := r.maxMem)
  {
    AroundIs(r, p, pre, c, rest);
  }

  lemma UncarvedState(s: State, pre: seq<Block>, b: Block, post: seq<Block>, w: nat, l: nat)
    requires s.blocks == pre + ([b] + post) && !b.used && b.size >= HEADER + w && s.lfree <= Total(pre)
    requires (pre == [] || pre[|pre| - 1].used) && (post == [] || post[0].used)
    requires l == s.lfree
    ensures var (hole, after) := (Block(Carved(b, w)[0].size, false), Carved(b, w)[1..] + post);
            Merged(pre, hole, after) == s.blocks && MergedLfree(pre, hole, after, l) == s.lfree
  {
    MergeUndoesCarve(pre, b, post, w, l);
  }

  /** Freeing what was just allocated puts blocks, lowest-free pointer and used bytes back as they were. */
  lemma FreeUndoesMalloc(s: State, size: nat)
    requires Inv(s) && Malloc(s, size).1.At?
    ensures var (r, q) := Malloc(s, size);
            Live(r, q.offset) && Freed(r, q.offset) == s.(maxMem := r.maxMem)
  {
    var i := MallocCase(s, size);
    FreeUndoesAllocation(s, i, Wanted(size), MemSize(s.blocks) - Wanted(size));
  }

  // ----- realloc ------------------------------------------------------------------------------

  /** A pointer into the heap must be live; anything outside is recognised by its address. */
  ghost predicate Passable(s: State, p: Ptr) {
    p.At? && 0 <= p.offset < Total(s.blocks) ==> Live(s, p.offset)
  }

  ghost predicate Inside(s: State, p: Ptr) {
    p.At? && 0 <= p.offset < Total(s.blocks)
  }

  /** The guard of the branch that cuts the block in place. */
  ghost predicate Cuts(s: State, p: Ptr, newsize: nat) {
    && Inside(s, p) && Live(s, p.offset) && Align(newsize) <= MemSize(s.blocks)
    && Cuttable(s, p.offset, Align(newsize))
  }

  /** Allocate elsewhere, then free: for the branch that moves the payload. */
  ghost function Moved(s: State, p: int, n: nat): (State, Ptr)
    requires Inv(s) && Live(s, p)
  {
    if Malloc(s, n).1.Null? then (s, Null)
    else
      MallocAddsOne(s, n, p);
      (Freed(Malloc(s, n).0, p), Malloc(s, n).1)
  }

  ghost function Resized(s: State, p: int, n: nat): (State, Ptr)
    requires Inv(s) && Live(s, p)
  {
    if Capacity(s, p) == n then (s, At(p))
    else if Cuttable(s, p, n) then (Shrunk(s, p, n), At(p))
    else Moved(s, p, n)
  }

  ghost function Realloc(s: State, p: Ptr, newsize: nat): (State, Ptr)
    requires Inv(s) && Passable(s, p)
  {
    if Align(newsize) > MemSize(s.blocks) then (s, Null)
    else if p.Null? then Malloc(s, Align(newsize))
    else if !Inside(s, p) then (s, p)
    else Resized(s, p.offset, Align(newsize))
  }

  lemma ReallocKeepsInv(s: State, p: Ptr, newsize: nat)
    requires Inv(s) && Passable(s, p)
    ensures Inv(Realloc(s, p, newsize).0) && Total(Realloc(s, p, newsize).0.blocks) == Total(s.blocks)
  {
    var n := Align(newsize);
    if n <= MemSize(s.blocks) {
      MallocKeepsInv(s, n);
      if Cuts(s, p, newsize) {
        ShrunkKeepsInv(s, p.offset, n);
      } else if Inside(s, p) && Malloc(s, n).1.At? {
        MallocAddsOne(s, n, p.offset);
        FreedKeepsInv(Malloc(s, n).0, p.offset);
      }
    }
  }

  /** The one way a realloc can leave an unused block below lfree. */
  ghost predicate HidesHole(s: State, p: Ptr, newsize: nat) {
    Cuts(s, p, newsize) && Capacity(s, p.offset) != Align(newsize)
    && !(s.lfree < p.offset || NextUnused(s, p.offset))
  }

  lemma ReallocLfree(s: State, p: Ptr, newsize: nat)
    requires Inv(s) && LfreeLowest(s) && Passable(s, p)
    ensures LfreeLowest(Realloc(s, p, newsize).0) <==> !HidesHole(s, p, newsize)
  {
    var n := Align(newsize);
    if n <= MemSize(s.blocks) {
      MallocKeepsInv(s, n);
      if Cuts(s, p, newsize) {
        ShrunkLfree(s, p.offset, n);
      } else if Inside(s, p) && Malloc(s, n).1.At? {
        MallocAddsOne(s, n, p.offset);
        FreedKeepsInv(Malloc(s, n).0, p.offset);
      }
    }
  }

  /**
   A realloc of a live payload that succeeds gives a live payload of the size asked for and keeps every other
   one; one that fails changes nothing.
   */
  lemma ReallocMovesOne(s: State, p: int, newsize: nat, q: int)
    requires Inv(s) && Live(s, p)
    ensures var (r, out) := Realloc(s, At(p), newsize);
            match out
            case Null => r == s
            case At(new_p) =>
              && Live(r, new_p) && Capacity(r, new_p) >= Align(newsize)
              && (new_p != p ==> !Live(s, new_p) && !Live(r, p))
              && (q != p && q != new_p ==> (Live(r, q) <==> Live(s, q)))
              && (q != p && Live(s, q) ==> Capacity(r, q) == Capacity(s, q))
  {
    var n := Align(newsize);
    LivePayloadInside(s, p);
    if n <= MemSize(s.blocks) && Capacity(s, p) != n {
      if Cuts(s, At(p), newsize) {
        ShrunkKeepsLive(s, p, n, q);
        ShrunkKeepsLive(s, p, n, p);
      } else if Malloc(s, n).1.At? {
        var (m, new_p) := (Malloc(s, n).0, Malloc(s, n).1.offset);
        MallocKeepsInv(s, n);
        MallocAddsOne(s, n, p);
        MallocAddsOne(s, n, q);
        FreedKeepsLive(m, p, new_p);
        FreedKeepsLive(m, p, p);
        FreedKeepsLive(m, p, q);
        assert Live(m, new_p) && Capacity(m, new_p) >= n && new_p != p;
        assert Realloc(s, At(p), newsize) == (Freed(m, p), At(new_p));
      }
    }
  }

  /** A free ends exactly one live payload. */
  lemma FreedTakesOne(s: State, p: int, q: int)
    requires Inv(s) && Live(s, p)
    ensures var r := Freed(s, p);
            (Live(r, q) <==> Live(s, q) && q != p) && (Live(r, q) ==> Capacity(r, q) == Capacity(s, q))
  {
    FreedKeepsLive(s, p, q);
  }

  /** A realloc of NULL allocates, one of an address outside the heap gives it back as it is, and a size that does not fit in the heap is refused. */
  lemma ReallocOfOthers(s: State, p: Ptr, newsize: nat, q: int)
    requires Inv(s) && Passable(s, p) && (p.Null? || !Inside(s, p))
    ensures var (r, out) := Realloc(s, p, newsize);
            && (Align(newsize) > MemSize(s.blocks) ==> out.Null? && r == s)
            && (Align(newsize) <= MemSize(s.blocks) && p.At? ==> out == p && r == s)
            && (Align(newsize) <= MemSize(s.blocks) && p.Null? ==>
                  && (out.Null? <==> newsize == 0 || NoneServes(s, newsize))
                  && (out.Null? ==> r == s)
                  && (out.At? ==> Live(r, out.offset) && Capacity(r, out.offset) >= newsize && !Live(s, out.offset)
                                  && (Live(r, q) <==> Live(s, q) || q == out.offset) && (Live(s, q) ==> Capacity(r, q) == Capacity(s, q))))
  {
    AlignTwice(s, newsize);
    MallocFailsExactly(s, Align(newsize));
    MallocAddsOne(s, Align(newsize), q);
  }

  lemma AlignTwice(s: State, n: nat)
    ensures Align(Align(n)) == Align(n) && Wanted(Align(n)) == Wanted(n) && (Align(n) == 0 <==> n == 0)
    ensures NoneServes(s, Align(n)) <==> NoneServes(s, n)
  {
    assert forall i: nat :: i < |s.blocks| ==> (ServesNow(s, i, Align(n)) <==> ServesNow(s, i, n));
  }

  /** n bytes can be made of this payload where it lies: it has them exactly, or more than a header and 12 bytes too many. */
  ghost predicate FitsInPlace(capacity: int, n: nat) {
    capacity == n || n + HEADER + 12 < capacity
  }

  /**
   A realloc of a live payload leaves it where it is exactly if it fits in place, and then it has exactly the rounded size;
   it fails exactly if that is more than the heap, or it does not fit in place and an allocation of it fails.
   */
  lemma ReallocEndsExactly(s: State, p: int, newsize: nat)
    requires Inv(s) && Live(s, p)
    ensures var (r, out, n) := (Realloc(s, At(p), newsize).0, Realloc(s, At(p), newsize).1, Align(newsize));
            && (out == At(p) <==> n <= MemSize(s.blocks) && FitsInPlace(Capacity(s, p), n))
            && (out == At(p) ==> Live(r, p) && Capacity(r, p) == n)
            && (out.Null? <==> n > MemSize(s.blocks) || (!FitsInPlace(Capacity(s, p), n) && (newsize == 0 || NoneServes(s, newsize))))
  {
    var n := Align(newsize);
    LivePayloadInside(s, p);
    AlignTwice(s, newsize);
    MallocFailsExactly(s, n);
    ReallocMovesOne(s, p, newsize, p);
    MallocAddsOne(s, n, p);
    if Cuts(s, At(p), newsize) && Capacity(s, p) != n {
      ShrunkKeepsLive(s, p, n, p);
    }
  }

  // ----- whole runs ---------------------------------------------------------------------------

  datatype Op = MallocOp(size: nat) | FreeOp(p: Ptr) | ReallocOp(p: Ptr, newsize: nat)

  ghost predicate Enabled(s: State, op: Op) {
    match op
    case MallocOp(_) => true
    case FreeOp(p) => p.At? ==> Live(s, p.offset)
    case ReallocOp(p, _) => Passable(s, p)
  }

  ghost function Apply(s: State, op: Op): State
    requires Inv(s) && Enabled(s, op)
  {
    match op
    case MallocOp(size) => Malloc(s, size).0
    case FreeOp(p) => if p.Null? then s else Freed(s, p.offset)
    case ReallocOp(p, newsize) => Realloc(s, p, newsize).0
  }

  ghost predicate Leads(s: State, ops: seq<Op>, r: State)
    decreases |ops|
  {
    if ops == [] then s == r
    else Inv(s) && Enabled(s, ops[0]) && Leads(Apply(s, ops[0]), ops[1..], r)
  }

  /** No realloc of the run cuts a block in front of which everything is used and behind which the next one is. */
  ghost predicate NeverHides(s: State, ops: seq<Op>)
    decreases |ops|
  {
    ops == [] ||
    (Inv(s) && Enabled(s, ops[0]) ==>
      && (ops[0].ReallocOp? ==> !HidesHole(s, ops[0].p, ops[0].newsize))
      && NeverHides(Apply(s, ops[0]), ops[1..]))
  }

  function Fresh(memSize: nat): State {
    State([Block(memSize + HEADER, false)], 0, 0, 0)
  }

  lemma FreshInv(memSize: nat)
    requires memSize >= MIN_ALIGNED
    ensures Inv(Fresh(memSize)) && LfreeLowest(Fresh(memSize)) && MemSize(Fresh(memSize).blocks) == memSize
  {
    var blocks := [Block(memSize + HEADER, false)];
    assert blocks[1..] == [];
    assert Total(blocks) == memSize + HEADER && UsedBytes(blocks) == 0;
  }

  lemma ApplyKeepsInv(s: State, op: Op)
    requires Inv(s) && Enabled(s, op)
    ensures Inv(Apply(s, op)) && Total(Apply(s, op).blocks) == Total(s.blocks)
    ensures LfreeLowest(s) && (op.ReallocOp? ==> !HidesHole(s, op.p, op.newsize)) ==> LfreeLowest(Apply(s, op))
  {
    match op
    case MallocOp(size) => MallocKeepsInv(s, size);
    case FreeOp(p) => if p.At? { FreedKeepsInv(s, p.offset); }
    case ReallocOp(p, newsize) =>
      ReallocKeepsInv(s, p, newsize);
      if LfreeLowest(s) { ReallocLfree(s, p, newsize); }
  }

  lemma {:induction false} RunKeepsInv(s: State, ops: seq<Op>, r: State)
    requires Inv(s) && Leads(s, ops, r)
    ensures Inv(r) && Total(r.blocks) == Total(s.blocks)
    ensures LfreeLowest(s) && NeverHides(s, ops) ==> LfreeLowest(r)
    decreases |ops|
  {
    if ops != [] {
      ApplyKeepsInv(s, ops[0]);
      RunKeepsInv(Apply(s, ops[0]), ops[1..], r);
    }
  }

  /** The realloc allocates elsewhere before it frees: for a moment both payloads are in use. */
  ghost predicate Moves(s: State, p: Ptr, newsize: nat) {
    && Inside(s, p) && Live(s, p.offset) && Align(newsize) <= MemSize(s.blocks)
    && Capacity(s, p.offset) != Align(newsize) && !Cuttable(s, p.offset, Align(newsize))
  }

  /** The bytes in use at the busiest moment of one operation, its start apart. */
  ghost function Busiest(s: State, op: Op): nat
    requires Inv(s) && Enabled(s, op)
  {
    if op.ReallocOp? && Moves(s, op.p, op.newsize) then UsedBytes(Malloc(s, Align(op.newsize)).0.blocks)
    else UsedBytes(Apply(s, op).blocks)
  }

  /** The bytes in use at the busiest moment of a whole run. */
  ghost function HighWater(s: State, ops: seq<Op>): nat
    decreases |ops|
  {
    if ops == [] || !Inv(s) || !Enabled(s, ops[0]) then UsedBytes(s.blocks)
    else Max(Max(UsedBytes(s.blocks), Busiest(s, ops[0])), HighWater(Apply(s, ops[0]), ops[1..]))
  }

  lemma MallocRaisesMax(s: State, size: nat)
    requires Inv(s)
    ensures var r := Malloc(s, size).0; Inv(r) && r.usedMem >= s.usedMem && r.maxMem == Max(s.maxMem, r.usedMem)
  {
    MallocKeepsInv(s, size);
    var i := MallocCase(s, size);
  }

  lemma ApplyRaisesMax(s: State, op: Op)
    requires Inv(s) && Enabled(s, op)
    ensures Apply(s, op).maxMem == Max(s.maxMem, Busiest(s, op))
  {
    ApplyKeepsInv(s, op);
    match op
    case MallocOp(size) => MallocRaisesMax(s, size);
    case FreeOp(p) =>
    case ReallocOp(p, newsize) => MallocRaisesMax(s, Align(newsize));
  }

  /** maxMem is the running maximum of the bytes in use. */
  lemma {:induction false} MaxIsHighWater(s: State, ops: seq<Op>, r: State)
    requires Inv(s) && Leads(s, ops, r)
    ensures r.maxMem == Max(s.maxMem, HighWater(s, ops))
    decreases |ops|
  {
    if ops != [] {
      ApplyKeepsInv(s, ops[0]);
      ApplyRaisesMax(s, ops[0]);
      MaxIsHighWater(Apply(s, ops[0]), ops[1..], r);
    }
  }

  /**
   After any history on live pointers: the blocks tile the heap, no two neighbours are unused, lfree is an
   unused block or heap_end, usedMem counts the used bytes and maxMem is the most they have been, the moments
   inside a moving realloc included. If no realloc has hidden a hole, lfree is the
   lowest unused block, so malloc is first fit from offset 0 (MallocIsFirstFit).
   */
  lemma ReachableHeap(memSize: nat, ops: seq<Op>, r: State)
    requires memSize >= MIN_ALIGNED && Leads(Fresh(memSize), ops, r)
    ensures Total(r.blocks) == memSize + HEADER && NoTwoFree(r.blocks)
    ensures r.lfree == memSize + HEADER || FreeAt(r.blocks, r.lfree)
    ensures r.usedMem == UsedBytes(r.blocks) && r.maxMem == HighWater(Fresh(memSize), ops)
    ensures NeverHides(Fresh(memSize), ops) ==> LfreeLowest(r)
  {
    FreshInv(memSize);
    RunKeepsInv(Fresh(memSize), ops, r);
    MaxIsHighWater(Fresh(memSize), ops, r);
  }

  // ----- why the condition is needed ----------------------------------------------------------

  /** Two used blocks in front of an unused one; lfree points behind the first two. */
  function Crowded(): State {
    State([Block(80, true), Block(32, true), Block(32, false)], 112, 112, 112)
  }

  lemma CrowdedSums()
    ensures var b := Crowded().blocks;
            && b == [] + ([b[0]] + b[1..]) && b[1..] == [b[1], b[2]] && b[2..] == [b[2]]
            && Total(b) == 144 && UsedBytes(b) == 112 && Total(b[..1]) == 80 && Total(b[..2]) == 112
            && Inv(Crowded()) && LfreeLowest(Crowded()) && Live(Crowded(), 16)
  {
    var b := Crowded().blocks;
    var (x, y, z) := (Block(80, true), Block(32, true), Block(32, false));
    assert b[1..] == [y, z] && [y, z][1..] == [z] && [z][1..] == [];
    assert Total([z]) == 32 && Total([y, z]) == 64 && UsedBytes([z]) == 0 && UsedBytes([y, z]) == 32;
    assert b[..1] == [x] && b[..2] == [x, y] && [x][1..] == [] && [x, y][1..] == [y] && [y][1..] == [];
    assert Total([y]) == 32;
    assert FreeAt([z], 0) && FreeAt([y, z], 32) && FreeAt(b, 112);
    assert UsedBelow([z], 0) && UsedBelow([y, z], 32) && UsedBelow(b, 112);
    assert Sized([z]) && Sized([y, z]) && NoTwoFree([y, z]);
  }

  /**
   Cutting the first block of this reachable heap from 64 to 16 bytes leaves a hole that malloc can no longer find: a
   request for 16 bytes fails although the hole serves it.
   */
  lemma HiddenHole()
    ensures var s := Crowded();
            && Leads(Fresh(128), [MallocOp(64), MallocOp(16)], s)
            && Inv(s) && LfreeLowest(s) && Live(s, 16) && HidesHole(s, At(16), 16)
            && var r := Realloc(s, At(16), 16).0;
               && Malloc(r, 16).1 == Null
               && exists i: nat :: i < |r.blocks| && Serves(r.blocks, i, 16)
  {
    var s := Crowded();
    CrowdedIsReachable();
    CrowdedSums();
    LivePayloadInside(s, 16);
    CrowdedCut();
    assert Realloc(s, At(16), 16).0 == Shrunk(s, 16, 16);
    CutIsOverlooked(Shrunk(s, 16, 16));
  }

  lemma CrowdedAround()
    ensures Live(Crowded(), 16) && Around(Crowded(), 16) == ([], Block(80, true), [Block(32, true), Block(32, false)])
  {
    var b := Crowded().blocks;
    CrowdedSums();
    AroundIs(Crowded(), 16, [], b[0], b[1..]);
  }

  lemma CrowdedCut()
    ensures Live(Crowded(), 16) && Capacity(Crowded(), 16) == 64
    ensures Shrunk(Crowded(), 16, 16) == State([Block(32, true), Block(48, false), Block(32, true), Block(32, false)], 112, 64, 112)
  {
    CrowdedAround();
    var x := Block(32, true);
    TotalOne(x);
    assert [] + [x] == [x];
    assert Merged([x], Block(48, false), [Block(32, true), Block(32, false)])
        == [Block(32, true), Block(48, false), Block(32, true), Block(32, false)];
  }

  /** A fresh heap of 128 bytes after a malloc of 64 bytes. */
  function Halved(): State {
    State([Block(80, true), Block(64, false)], 80, 80, 80)
  }

  /** Such a heap arises from a fresh one by two mallocs. */
  lemma CrowdedIsReachable()
    ensures Leads(Fresh(128), [MallocOp(64), MallocOp(16)], Crowded())
  {
    FreshInv(128);
    FreshMalloc();
    HalvedMalloc();
    MallocKeepsInv(Fresh(128), 64);
    assert [MallocOp(64), MallocOp(16)][1..] == [MallocOp(16)];
    assert Leads(Crowded(), [], Crowded());
    assert [MallocOp(16)][1..] == [];
    assert Leads(Halved(), [MallocOp(16)], Crowded());
  }

  lemma FreshMalloc()
    ensures Malloc(Fresh(128), 64).0 == Halved()
  {
    var b := Fresh(128).blocks;
    TotalOne(b[0]);
    assert b[..0] == [] && b[1..] == [];
    assert Fit(b, 0, 0, 64, 64) == Some(0);
    assert Carved(b[0], 64) == [Block(80, true), Block(64, false)];
    assert Carved(b[0], 64) + [] == [Block(80, true), Block(64, false)];
    assert FirstFree(Halved().blocks) == 80;
  }

  lemma HalvedMalloc()
    ensures Malloc(Halved(), 16).0 == Crowded()
  {
    var (x, y) := (Block(80, true), Block(64, false));
    var b := Halved().blocks;
    TotalOne(x);
    TotalOne(y);
    assert b[1..] == [y] && b[..1] == [x] && b[2..] == [];
    assert Total(b) == 144;
    assert Fit([y], 80, 80, 16, 112) == Some(0);
    assert Fit(b, 0, 80, 16, 112) == Some(1);
    assert Carved(y, 16) + [] == [Block(32, true), Block(32, false)];
    assert FirstFree([Block(32, true), Block(32, false)]) == 32 by {
      assert [Block(32, true), Block(32, false)][1..] == [Block(32, false)];
    }
  }

  lemma TotalOne(b: Block)
    ensures Total([b]) == b.size
  {
    assert [b][1..] == [];
  }

  lemma CutIsOverlooked(r: State)
    requires r.blocks == [Block(32, true), Block(48, false), Block(32, true), Block(32, false)] && r.lfree == 112
    ensures Malloc(r, 16).1 == Null && Serves(r.blocks, 1, 16)
  {
    var (x, hole) := (Block(32, true), Block(48, false));
    assert r.blocks[..1] == [x] && r.blocks[..2] == [x, hole] && r.blocks[..3] == [x, hole, x];
    var y := Block(32, false);
    TotalOne(x);
    TotalOne(hole);
    TotalOne(y);
    TotalConcat([x], [hole]);
    TotalConcat([x] + [hole], [x]);
    TotalConcat([x] + [hole] + [x], [y]);
    assert [x] + [hole] == [x, hole] && [x] + [hole] + [x] == [x, hole, x] && [x] + [hole] + [x] + [y] == r.blocks;
    FitIsFirst(r.blocks, 0, 112, 16, 112);
    assert Fit(r.blocks, 0, 112, 16, 112).None?;
  }

  // ----- alignment ----------------------------------------------------------------------------

  lemma {:induction false} EightGrain(n: nat)
    requires OnGrain(n, 8)
    ensures n % 8 == 0
  {
    if n > 0 {
      EightGrain(n - 8);
    }
  }

  lemma AlignGrain(n: nat)
    ensures OnGrain(Align(n), 8) && OnGrain(Wanted(n), 8)
  {
    GrainTimes((n + 7) / 8, 8);
    assert OnGrain(8, 8) && OnGrain(16, 8);
  }

  /** The sizes of a block carved on the grain. */
  lemma CarvedSizes(b: Block, w: nat)
    requires OnGrain(b.size, 8) && OnGrain(w, 8)
    ensures forall k :: 0 <= k < |Carved(b, w)| ==> OnGrain(Carved(b, w)[k].size, 8)
  {
    assert OnGrain(8, 8) && OnGrain(16, 8);
    GrainSum(w, 16, 8);
    if b.size >= w + HEADER + HEADER + MIN_ALIGNED {
      GrainRest(b.size, w + 16, 8);
    }
  }

  lemma CarvedGrained(pre: seq<Block>, b: Block, post: seq<Block>, w: nat)
    requires Grained(pre + ([b] + post), 8) && OnGrain(w, 8)
    ensures Grained(pre + (Carved(b, w) + post), 8)
  {
    GrainedThree(pre, b, post, 8);
    CarvedSizes(b, w);
    var c := Carved(b, w);
    if |c| == 2 {
      assert c == [c[0]] + [c[1]] && [c[1]][1..] == [] && ([c[0]] + [c[1]])[1..] == [c[1]];
    } else {
      assert c[1..] == [];
    }
    GrainedConcat(c, post, 8);
    GrainedConcat(pre, c + post, 8);
  }

  lemma MallocKeepsGrain(s: State, size: nat)
    requires Grained(s.blocks, 8)
    ensures Grained(Malloc(s, size).0.blocks, 8)
  {
    AlignGrain(size);
    ScannedKeepsGrain(s, Wanted(size));
  }

  lemma ScannedKeepsGrain(s: State, w: nat)
    requires Grained(s.blocks, 8) && OnGrain(w, 8)
    ensures Grained(Scanned(s, w).0.blocks, 8)
  {
    var i := Fit(s.blocks, 0, s.lfree, w, MemSize(s.blocks) - w);
    if i.Some? {
      AllocatedGrained(s, i.value, w, Scanned(s, w).0);
    }
  }

  lemma AllocatedGrained(s: State, i: nat, w: nat, r: State)
    requires Grained(s.blocks, 8) && OnGrain(w, 8) && i < |s.blocks| && r == Allocated(s, i, w)
    ensures Grained(r.blocks, 8)
  {
    SplitAround(s.blocks, i);
    CarvedGrained(s.blocks[..i], s.blocks[i], s.blocks[i + 1..], w);
  }

  lemma FreedKeepsGrain(s: State, p: int)
    requires Live(s, p) && Grained(s.blocks, 8)
    ensures Grained(Freed(s, p).blocks, 8)
  {
    var (pre, b, post) := Around(s, p);
    GrainedThree(pre, b, post, 8);
    MergedGrained(pre, Block(b.size, false), post, 8);
  }

  lemma ShrunkKeepsGrain(s: State, p: int, size: nat)
    requires Live(s, p) && size <= Capacity(s, p) && OnGrain(size, 8) && Grained(s.blocks, 8)
    ensures Grained(Shrunk(s, p, size).blocks, 8)
  {
    var (pre, b, post) := Around(s, p);
    var cut := Block(size + HEADER, true);
    GrainedThree(pre, b, post, 8);
    assert OnGrain(8, 8) && OnGrain(16, 8);
    GrainSum(size, 16, 8);
    GrainRest(b.size, size + HEADER, 8);
    GrainedConcat(pre, [cut], 8);
    assert [cut][1..] == [];
    MergedGrained(pre + [cut], Block(b.size - size - HEADER, false), post, 8);
  }

  lemma ResizedKeepsGrain(s: State, p: int, n: nat)
    requires Inv(s) && Live(s, p) && OnGrain(n, 8) && Grained(s.blocks, 8)
    ensures Grained(Resized(s, p, n).0.blocks, 8)
  {
    if Cuttable(s, p, n) {
      ShrunkKeepsGrain(s, p, n);
    } else {
      MallocKeepsGrain(s, n);
      if Malloc(s, n).1.At? {
        MallocAddsOne(s, n, p);
        FreedKeepsGrain(Malloc(s, n).0, p);
      }
    }
  }

  lemma ApplyKeepsGrain(s: State, op: Op)
    requires Inv(s) && Enabled(s, op) && Grained(s.blocks, 8)
    ensures Grained(Apply(s, op).blocks, 8)
  {
    match op
    case MallocOp(size) => MallocKeepsGrain(s, size);
    case FreeOp(p) =>
      if p.At? {
        FreedKeepsGrain(s, p.offset);
      }
    case ReallocOp(p, newsize) =>
      MallocKeepsGrain(s, Align(newsize));
      AlignGrain(newsize);
      if p.At? && Inside(s, p) {
        ResizedKeepsGrain(s, p.offset, Align(newsize));
      }
  }

  lemma {:induction false} RunKeepsGrain(s: State, ops: seq<Op>, r: State)
    requires Inv(s) && Grained(s.blocks, 8) && Leads(s, ops, r)
    ensures Inv(r) && Grained(r.blocks, 8)
    decreases |ops|
  {
    if ops != [] {
      ApplyKeepsGrain(s, ops[0]);
      ApplyKeepsInv(s, ops[0]);
      RunKeepsGrain(Apply(s, ops[0]), ops[1..], r);
    }
  }

  /** What rt_system_heap_init leaves of an address range between the two headers. */
  function Room(beginAddr: nat, endAddr: nat): int {
    AlignDown(endAddr) - Align(beginAddr) - HEADER - HEADER
  }

  /** It is a multiple of 8. */
  lemma FreshGrained(beginAddr: nat, endAddr: nat)
    requires Room(beginAddr, endAddr) >= MIN_ALIGNED
    ensures Grained(Fresh(Room(beginAddr, endAddr)).blocks, 8)
  {
    EightsGrained(Room(beginAddr, endAddr), endAddr / 8 - (beginAddr + 7) / 8);
  }

  lemma EightsGrained(memSize: nat, n: nat)
    requires memSize + HEADER + HEADER == n * 8
    ensures Grained(Fresh(memSize).blocks, 8)
  {
    GrainTimes(n, 8);
    assert OnGrain(8, 8) && OnGrain(16, 8);
    GrainRest(n * 8, HEADER, 8);
    assert Fresh(memSize).blocks[1..] == [];
  }

  lemma LiveOnGrain(s: State, p: int)
    requires Inv(s) && Grained(s.blocks, 8) && Live(s, p)
    ensures p % 8 == 0
  {
    UsedAtIndex(s.blocks, p - HEADER);
    var i := IndexAt(s.blocks, p - HEADER);
    assert s.blocks == s.blocks[..i] + s.blocks[i..];
    GrainedConcat(s.blocks[..i], s.blocks[i..], 8);
    GrainedTotal(s.blocks[..i], 8);
    assert OnGrain(8, 8) && OnGrain(16, 8);
    GrainSum(p - HEADER, 16, 8);
    EightGrain(p);
  }

  /** After any history every payload starts on a multiple of RT_ALIGN_SIZE, whatever range the heap was given. */
  lemma PayloadsAligned(beginAddr: nat, endAddr: nat, ops: seq<Op>, r: State, p: int)
    requires Room(beginAddr, endAddr) >= MIN_ALIGNED && Leads(Fresh(Room(beginAddr, endAddr)), ops, r) && Live(r, p)
    ensures (Align(beginAddr) + p) % 8 == 0
  {
    FreshGrained(beginAddr, endAddr);
    GrainedPayload(Room(beginAddr, endAddr), Align(beginAddr), ops, r, p);
  }

  lemma GrainedPayload(memSize: nat, base: nat, ops: seq<Op>, r: State, p: int)
    requires memSize >= MIN_ALIGNED && Grained(Fresh(memSize).blocks, 8) && Leads(Fresh(memSize), ops, r) && Live(r, p)
    requires base % 8 == 0
    ensures (base + p) % 8 == 0
  {
    FreshInv(memSize);
    RunKeepsGrain(Fresh(memSize), ops, r);
    LiveOnGrain(r, p);
    EightsAdd(base, p);
  }

  lemma EightsAdd(a: int, b: int)
    requires a % 8 == 0 && b % 8 == 0
    ensures (a + b) % 8 == 0
  {
  }
}
