/**
  The memory heap object (src/memheap.c). Headers are kept in arrays indexed by their byte offset in the
  pool; the free list threads through them, its own header being one more node.
 */
module MemHeap {
  import opened Kernel
  import opened Blocks
  import opened BlockHeaders
  import opened MemHeapSpec
  import Runs = MemHeapRuns
  import R = RtList

  /** RT_ALIGN_DOWN(n, 8) */
  function AlignDown(n: nat): nat {
    n / 8 * 8
  }

  class MemHeap {
    const poolSize: nat
    const next: array<nat>
    const prev: array<nat>
    const used: array<bool>
    /** next_free and prev_free; the list's header is node poolSize. */
    const links: R.Lists
    var available: int
    ghost var blocks: seq<Block>
    ghost var free: seq<nat>

    ghost function State(): State
      reads this
    {
      MemHeapSpec.State.State(blocks, free, available)
    }

    /** The headers as those of a line of blocks: without the two links that close the ring. */
    ghost function Table(): Headers
      reads this, next, prev, used
      requires next.Length == prev.Length == poolSize >= 2 * HEADER
    {
      Headers(next[..][poolSize - HEADER := poolSize], prev[..][0 := 0], used[..])
    }

    ghost predicate Framed()
      reads this, next, prev, used, links
    {
      && next != prev && next as object != used && prev as object != used
      && next.Length == prev.Length == used.Length == poolSize >= 2 * HEADER
      && links.Separate() && links.next.Length == poolSize + 1
      && links.next != next && links.next != prev && links.prev != next && links.prev != prev
      && links.next as object != used && links.prev as object != used
      && next[poolSize - HEADER] == 0 && prev[0] == poolSize - HEADER
    }

    /** The headers describe the blocks, which fill the pool; the tailer ends it. */
    ghost predicate Linked()
      reads this, next, prev, used, links
    {
      && Framed() && Sized(blocks) && Total(blocks) == poolSize
      && blocks != [] && blocks[|blocks| - 1] == TAILER
      && Laid(Table(), 0, 0, blocks)
    }

    ghost predicate Listed()
      reads this, links, links.next, links.prev
    {
      links.Separate() && links.next.Length == poolSize + 1 && R.Ring(links.Here(), poolSize, free)
    }

    ghost predicate Valid()
      reads this, next, prev, used, links, links.next, links.prev
    {
      Linked() && Listed() && Inv(State())
    }

    /** A block that is not the tailer: its header, and where it ends. */
    lemma BlockHere(pre: seq<Block>, b: Block, post: seq<Block>)
      requires Linked() && blocks == pre + ([b] + post) && post != []
      ensures var ptr := Total(pre);
              ptr + b.size <= poolSize - HEADER && next[ptr] == ptr + b.size && used[ptr] == b.used &&
              used[next[ptr]] == post[0].used && (ptr > 0 <==> pre != [])
    {
      TotalThree(pre, [b], post);
      OneBlock(b);
      LastOf(post);
      HeadIsLaid(Table(), pre, b, post, Total(pre));
      NextIsLaid(Table(), pre, b, post, Total(pre), Total(pre) + b.size);
      assert SizedBlock(b) by { SizedConcat([b], post); }
      if pre != [] { LastOf(pre); }
    }

    /** rt_memheap_init, for a pool that has room for two headers. */
    constructor (size: nat)
      requires AlignDown(size) >= 2 * HEADER
      ensures Valid() && State() == Runs.Fresh(AlignDown(size)) && poolSize == AlignDown(size)
      ensures fresh(next) && fresh(prev) && fresh(used) && fresh(links) && fresh(links.next) && fresh(links.prev)
    {
      var n := AlignDown(size);
      var tail := n - HEADER;
      poolSize := n;
      next := new nat[n](k => if k == tail then 0 else tail);
      prev := new nat[n](k => if k == tail then 0 else tail);
      used := new bool[n](k => k == tail);
      links := new R.Lists(n + 1);
      available := n - 2 * HEADER;
      blocks, free := [Block(tail, false), TAILER], [0];
      new;
      ListWhole();
      WholeIsValid();
    }

    /** One free block and the tailer, with their headers and the free list in place. */
    lemma WholeIsValid()
      requires Framed() && Listed() && State() == Runs.Fresh(poolSize)
      requires var tail := poolSize - HEADER; tail > 0 && next[0] == tail && !used[0] && prev[tail] == 0 && used[tail]
      ensures Valid()
    {
      Runs.FreshInv(poolSize);
      FreshLaid(Table(), poolSize - HEADER);
    }

    /** The one free block goes on the empty list. */
    method ListWhole()
      requires links.Separate() && links.next.Length == poolSize + 1 && poolSize > 0
      requires R.Ring(links.Here(), poolSize, []) && free == [0]
      modifies links.next, links.prev
      ensures Listed()
    {
      links.InsertAfter(poolSize, 0, poolSize, [], []);
      assert [] + ([0] + []) == [0];
    }

    static lemma FreshLaid(h: Headers, tail: nat)
      requires SameLength(h) && |h.next| == tail + HEADER && tail > 0
      requires h.next[0] == tail && h.prev[0] == 0 && !h.used[0]
      requires h.next[tail] == tail + HEADER && h.prev[tail] == 0 && h.used[tail]
      ensures Laid(h, 0, 0, [Block(tail, false), TAILER])
    {
      var big := Block(tail, false);
      assert [TAILER] + [] == [TAILER] && [big] + [TAILER] == [big, TAILER];
      LaidCons(h, tail, 0, TAILER, []);
      LaidCons(h, 0, 0, big, [TAILER]);
    }

    /** The used flag of the block at ptr. */
    method Mark(ptr: nat, mark: bool, ghost pre: seq<Block>, ghost b: Block, ghost post: seq<Block>)
      requires Linked() && blocks == pre + ([b] + post) && ptr == Total(pre) && post != []
      modifies this`blocks, used
      ensures Linked() && blocks == pre + ([Block(b.size, mark)] + post)
    {
      BlockHere(pre, b, post);
      SizedThree(pre, b, mark, post);
      ghost var h := Table();
      used[ptr] := mark;
      assert Table().used == h.used[ptr := mark];
      MarkLaid(h, Table(), pre, b, post, mark);
      blocks := pre + ([Block(b.size, mark)] + post);
    }

    lemma SizedThree(pre: seq<Block>, b: Block, mark: bool, post: seq<Block>)
      requires Sized(pre + ([b] + post))
      ensures Sized(pre) && SizedBlock(b) && Sized(post)
      ensures Sized(pre + ([Block(b.size, mark)] + post)) && Total(pre + ([Block(b.size, mark)] + post)) == Total(pre + ([b] + post))
    {
      TotalThree(pre, [b], post);
      TotalThree(pre, [Block(b.size, mark)], post);
      OneBlock(b);
      OneBlock(Block(b.size, mark));
    }

    /** The block at ptr becomes a used one up to ptr2 and an unused rest. */
    method Split(ptr: nat, ptr2: nat, ghost pre: seq<Block>, ghost b: Block, ghost post: seq<Block>)
      requires Linked() && blocks == pre + ([b] + post) && ptr == Total(pre) && post != []
      requires ptr + MIN_HEADER <= ptr2 && ptr2 + MIN_HEADER <= ptr + b.size
      modifies this`blocks, next, prev, used
      ensures Linked()
      ensures blocks == pre + ([Block(ptr2 - ptr, true)] + ([Block(ptr + b.size - ptr2, false)] + post))
    {
      BlockHere(pre, b, post);
      SizedThree(pre, b, true, post);
      ghost var h, end := Table(), ptr + b.size;
      StoreSplit(ptr, ptr2, end);
      CarveLaid(h, Table(), pre, b, post, ptr, ptr2, end);
      SplitSizes(pre, b, post, ptr2 - ptr);
      blocks := pre + ([Block(ptr2 - ptr, true)] + ([Block(end - ptr2, false)] + post));
    }

    /** The stores of a split: a new header at ptr2 between those at ptr and end. */
    method StoreSplit(ptr: nat, ptr2: nat, ghost end: nat)
      requires Framed() && ptr < ptr2 < end <= poolSize - HEADER && next[ptr] == end
      modifies next, prev, used
      ensures Framed()
      ensures var (h, g) := (old(Table()), Table());
              Agree(h, g, 0, ptr) && Agree(h, g, end + 1, poolSize) &&
              g.next[ptr] == ptr2 && g.used[ptr] && g.prev[ptr] == h.prev[ptr] &&
              g.next[ptr2] == end && !g.used[ptr2] && g.prev[ptr2] == ptr &&
              g.next[end] == h.next[end] && g.used[end] == h.used[end] && g.prev[end] == ptr2
    {
      used[ptr2] := false;
      prev[ptr2] := ptr;
      next[ptr2] := next[ptr];
      prev[next[ptr]] := ptr2;
      next[ptr] := ptr2;
      used[ptr] := true;
    }

    lemma SplitSizes(pre: seq<Block>, b: Block, post: seq<Block>, n: nat)
      requires Sized(pre + ([b] + post)) && MIN_HEADER <= n && n + MIN_HEADER <= b.size
      ensures var v := pre + ([Block(n, true)] + ([Block(b.size - n, false)] + post));
              Sized(v) && Total(v) == Total(pre + ([b] + post)) && (post != [] ==> v[|v| - 1] == (pre + ([b] + post))[|pre| + |post|])
    {
      var (c, d) := (Block(n, true), Block(b.size - n, false));
      TotalThree(pre, [b], post);
      TotalThree(pre, [c], [d] + post);
      TotalThree([c], [d], post);
      OneBlock(b);
      OneBlock(c);
      OneBlock(d);
      TotalConcat([d], post);
      SizedConcat([d], post);
    }

    /** The block behind the unused one at ptr joins it. */
    method Fuse(ptr: nat, ghost pre: seq<Block>, ghost x: Block, ghost y: Block, ghost post: seq<Block>)
      requires Linked() && blocks == pre + ([x] + ([y] + post)) && ptr == Total(pre) && post != [] && !x.used
      modifies this`blocks, next, prev
      ensures Linked() && blocks == pre + ([Block(x.size + y.size, false)] + post)
    {
      BlockHere(pre, x, [y] + post);
      assert blocks == (pre + [x]) + ([y] + post);
      BlockHere(pre + [x], y, post);
      TotalConcat(pre, [x]);
      OneBlock(x);
      FuseSizes(pre, x, y, post);
      ghost var h, end := Table(), ptr + x.size + y.size;
      StoreFuse(ptr, end);
      FuseLaid(h, Table(), pre, x, y, post, ptr, end);
      blocks := pre + ([Block(x.size + y.size, false)] + post);
    }

    /** The stores of a merge: the header at ptr leads past the next one to end. */
    method StoreFuse(ptr: nat, ghost end: nat)
      requires Framed() && ptr < end <= poolSize - HEADER && ptr < next[ptr] < end && next[next[ptr]] == end
      modifies next, prev
      ensures Framed()
      ensures var (h, g) := (old(Table()), Table());
              Agree(h, g, 0, ptr) && Agree(h, g, end + 1, poolSize) &&
              g.next[ptr] == end && g.used[ptr] == h.used[ptr] && g.prev[ptr] == h.prev[ptr] &&
              g.next[end] == h.next[end] && g.used[end] == h.used[end] && g.prev[end] == ptr
    {
      var old_ptr := next[ptr];
      prev[next[old_ptr]] := ptr;
      next[ptr] := next[old_ptr];
    }

    lemma FuseSizes(pre: seq<Block>, x: Block, y: Block, post: seq<Block>)
      requires Sized(pre + ([x] + ([y] + post)))
      ensures Sized(pre) && SizedBlock(x) && SizedBlock(y) && Sized(post)
      ensures var v := pre + ([Block(x.size + y.size, false)] + post);
              Sized(v) && Total(v) == Total(pre + ([x] + ([y] + post)))
    {
      var z := Block(x.size + y.size, false);
      TotalThree(pre, [x], [y] + post);
      TotalThree([x], [y], post);
      SizedConcat([y], post);
      TotalConcat([y], post);
      TotalThree(pre, [z], post);
      OneBlock(x);
      OneBlock(y);
      OneBlock(z);
    }

    /** Where the free list leads on from its k-th entry. */
    lemma NextListed(k: nat)
      requires Listed() && k < |free|
      ensures free[k] < links.next.Length && links.next[free[k]] == R.FirstOr(free[k + 1..], poolSize) && free[k] != poolSize
    {
      SplitAround(free, k);
      R.RingParts(links.Here(), poolSize, free[..k], free[k], free[k + 1..]);
    }

    lemma FirstListed()
      requires Listed()
      ensures links.next[poolSize] == R.FirstOr(free, poolSize)
    {
      assert [] + free == free;
      links.LinksOf(poolSize, [], free);
    }

    /** The room of a listed block, from its header. */
    lemma RoomListed(k: nat)
      requires Linked() && Inv(State()) && k < |free|
      ensures free[k] < next.Length && next[free[k]] == free[k] + SizeAt(blocks, free[k]) && SizeAt(blocks, free[k]) >= HEADER
    {
      ListedIsFree(State(), k);
      var i := IndexAt(blocks, free[k]);
      SplitAround(blocks, i);
      Runs.BlockBeforeEnd(blocks[..i], blocks[i], blocks[i + 1..]);
      BlockHere(blocks[..i], blocks[i], blocks[i + 1..]);
    }

    /** The search of rt_memheap_alloc: the first block of the free list with room for size bytes. */
    method Find(size: nat) returns (header: nat, freeSize: nat, ghost k: nat)
      requires Valid() && size > 0
      ensures freeSize >= size <==> Fit(blocks, free, size).Some?
      ensures freeSize >= size ==> Fit(blocks, free, size) == Some(k) && header == free[k] && freeSize == SizeAt(blocks, header) - HEADER
    {
      freeSize, k := 0, 0;
      FirstListed();
      header := links.next[poolSize];
      FitIsFirst(blocks, free, size);
      while header != poolSize && freeSize < size
        invariant k <= |free| && header == R.FirstOr(free[k..], poolSize)
        invariant forall j: nat :: j < k ==> SizeAt(blocks, free[j]) < HEADER + size
        invariant freeSize >= size ==> k < |free| && header == free[k] && freeSize == SizeAt(blocks, header) - HEADER
        decreases |free| - k, size - freeSize
      {
        assert free[k..] != [];
        RoomListed(k);
        freeSize := next[header] - header - HEADER;
        if freeSize < size {
          NextListed(k);
          header := links.next[header];
          k := k + 1;
        }
      }
      if freeSize < size && k < |free| {
        NextListed(k);
      }
    }

    /** rt_memheap_alloc */
    method Alloc(request: nat) returns (p: Ptr)
      requires Valid()
      modifies this, next, prev, used, links.next, links.prev
      ensures Valid() && (State(), p) == Allocated(old(State()), request)
    {
      var size := Wanted(request);
      AllocatedKeepsInv(State(), request);
      if size < available {
        p := FindAndHandOut(request, size);
      } else {
        p := Null;
      }
    }

    /** What follows once there is enough memory in all. */
    method FindAndHandOut(ghost request: nat, size: nat) returns (p: Ptr)
      requires Valid() && size == Wanted(request) < available
      modifies this, next, prev, used, links.next, links.prev
      ensures Linked() && Listed() && (State(), p) == Allocated(old(State()), request)
    {
      var header, freeSize;
      ghost var k;
      header, freeSize, k := Find(size);
      if freeSize >= size {
        ListedIsFree(State(), k);
        RestNotListed(IndexAt(blocks, header), size);
        HandOut(header, freeSize, size, k, IndexAt(blocks, header));
        return At(header + HEADER);
      }
      return Null;
    }

    /** The block at header leaves the free list; a rest worth keeping goes to its front. */
    method HandOut(header: nat, freeSize: nat, size: nat, ghost k: nat, ghost i: nat)
      requires Linked() && Listed()
      requires i < |blocks| - 1 && k < |free| && header == free[k] == Total(blocks[..i])
      requires freeSize == blocks[i].size - HEADER && freeSize >= size
      requires Splits(blocks[i], size) ==> R.Count(free, header + HEADER + size) == 0
      modifies this, next, prev, used, links.next, links.prev
      ensures Linked() && Listed() && State() == Taken(old(State()), i, k, size)
    {
      ghost var s := State();
      ghost var (pre, b, post) := (blocks[..i], blocks[i], blocks[i + 1..]);
      SplitAround(blocks, i);
      if freeSize >= size + HEADER + MINIALLOC {
        TakenFront(s, i, k, size, pre, b, post);
        HandOutFront(header, size, k, pre, b, post);
      } else {
        TakenWhole(s, i, k, size, pre, b, post);
        HandOutWhole(header, freeSize, k, pre, b, post);
      }
    }

    /** The heap once the front of block b has been handed out. */
    static ghost function Front(s: MemHeapSpec.State, k: nat, pre: seq<Block>, b: Block, post: seq<Block>, size: nat): MemHeapSpec.State
      requires k < |s.free| && b.size >= HEADER
    {
      MemHeapSpec.State.State(
        pre + (Carved(b, size) + post), [s.free[k] + HEADER + size] + Without(s.free, k), s.available - size - HEADER)
    }

    /** And once all of it has. */
    static ghost function Whole(s: MemHeapSpec.State, k: nat, pre: seq<Block>, b: Block, post: seq<Block>, room: nat): MemHeapSpec.State
      requires k < |s.free|
    {
      MemHeapSpec.State.State(pre + ([Block(b.size, true)] + post), Without(s.free, k), s.available - room)
    }

    static lemma TakenFront(s: MemHeapSpec.State, i: nat, k: nat, size: nat, pre: seq<Block>, b: Block, post: seq<Block>)
      requires i < |s.blocks| && k < |s.free| && pre == s.blocks[..i] && b == s.blocks[i] && post == s.blocks[i + 1..]
      requires Splits(b, size)
      ensures Taken(s, i, k, size) == Front(s, k, pre, b, post, size)
    {
    }

    static lemma TakenWhole(s: MemHeapSpec.State, i: nat, k: nat, size: nat, pre: seq<Block>, b: Block, post: seq<Block>)
      requires i < |s.blocks| && k < |s.free| && pre == s.blocks[..i] && b == s.blocks[i] && post == s.blocks[i + 1..]
      requires !Splits(b, size) && b.size >= HEADER
      ensures Taken(s, i, k, size) == Whole(s, k, pre, b, post, b.size - HEADER)
    {
    }

    /** The block is handed out as it is. */
    method HandOutWhole(header: nat, freeSize: nat, ghost k: nat, ghost pre: seq<Block>, ghost b: Block, ghost post: seq<Block>)
      requires Linked() && Listed() && post != []
      requires blocks == pre + ([b] + post) && header == Total(pre) && k < |free| && header == free[k]
      modifies this, used, links.next, links.prev
      ensures Linked() && Listed() && State() == Whole(old(State()), k, pre, b, post, freeSize)
    {
      Mark(header, true, pre, b, post);
      available := available - freeSize;
      Unlist(header, k);
    }

    /** The front of the block is handed out, the rest listed first. */
    method HandOutFront(header: nat, size: nat, ghost k: nat, ghost pre: seq<Block>, ghost b: Block, ghost post: seq<Block>)
      requires Linked() && Listed() && post != []
      requires blocks == pre + ([b] + post) && header == Total(pre) && k < |free| && header == free[k] && Splits(b, size)
      requires R.Count(free, header + HEADER + size) == 0
      modifies this, next, prev, used, links.next, links.prev
      ensures Linked() && Listed() && State() == Front(old(State()), k, pre, b, post, size)
    {
      var rest := header + HEADER + size;
      BlockHere(pre, b, post);
      CountWithout(free, k, rest);
      Split(header, rest, pre, b, post);
      CarvedAs(b, size, post);
      Unlist(header, k);
      ListFirst(rest);
      available := available - size - HEADER;
    }

    static lemma CarvedAs(b: Block, size: nat, post: seq<Block>)
      requires Splits(b, size)
      ensures [Block(size + HEADER, true)] + ([Block(b.size - size - HEADER, false)] + post) == Carved(b, size) + post
    {
    }

    /** Nothing inside a block is listed. */
    lemma NotListed(pre: seq<Block>, b: Block, post: seq<Block>, x: nat)
      requires Inv(State()) && blocks == pre + ([b] + post) && Total(pre) < x < Total(pre) + b.size
      ensures R.Count(free, x) == 0
    {
      SizedConcat(pre, [b] + post);
      FreeAtConcat(pre, [b] + post, x);
      assert ([b] + post)[1..] == post;
    }

    /** Unused block i is not the last one, and the header of its rest is not listed yet. */
    lemma RestNotListed(i: nat, size: nat)
      requires Inv(State()) && i < |blocks| && !blocks[i].used
      ensures i < |blocks| - 1
      ensures Splits(blocks[i], size) ==> R.Count(free, Total(blocks[..i]) + HEADER + size) == 0
    {
      SplitAround(blocks, i);
      Runs.BlockBeforeEnd(blocks[..i], blocks[i], blocks[i + 1..]);
      if Splits(blocks[i], size) {
        NotListed(blocks[..i], blocks[i], blocks[i + 1..], Total(blocks[..i]) + HEADER + size);
      }
    }

    method Unlist(x: nat, ghost k: nat)
      requires Listed() && k < |free| && x == free[k]
      modifies this`free, links.next, links.prev
      ensures Listed() && free == Without(old(free), k)
    {
      SplitAround(free, k);
      links.Remove(x, poolSize, free[..k], free[k + 1..]);
      free := Without(free, k);
    }

    method ListFirst(x: nat)
      requires Listed() && x < poolSize && R.Count(free, x) == 0
      modifies this`free, links.next, links.prev
      ensures Listed() && free == [x] + old(free)
    {
      assert [] + free == free;
      links.InsertAfter(poolSize, x, poolSize, [], free);
      free := [x] + free;
      assert [] + ([x] + old(free)) == free;
    }

    /** Is the block in front unused? The first one has the tailer in front of it, which is used. */
    lemma BlockBefore(pre: seq<Block>, b: Block, post: seq<Block>)
      requires Linked() && blocks == pre + ([b] + post) && post != []
      ensures var ptr := Total(pre);
              ptr < poolSize && prev[ptr] < poolSize &&
              if pre == [] then prev[ptr] == poolSize - HEADER && used[prev[ptr]]
              else prev[ptr] == Total(pre[..|pre| - 1]) && used[prev[ptr]] == pre[|pre| - 1].used
    {
      if pre == [] {
        TailerHere();
        assert Total(pre) == 0;
        assert prev[0] == poolSize - HEADER;
      } else {
        assert Sized(pre) by { SizedConcat(pre, [b] + post); }
        BlockBehind(pre, b, post);
      }
    }

    lemma BlockBehind(pre: seq<Block>, b: Block, post: seq<Block>)
      requires Linked() && blocks == pre + ([b] + post) && post != [] && pre != [] && Sized(pre)
      ensures var (ptr, front) := (Total(pre), Total(pre[..|pre| - 1]));
              0 < ptr < poolSize && front < poolSize && prev[ptr] == front && used[front] == pre[|pre| - 1].used
    {
      BlockHere(pre, b, post);
      LastOf(pre);
      PrevIsLaid(Table(), pre, b, post, Total(pre), pre[..|pre| - 1], pre[|pre| - 1]);
    }

    lemma TailerHere()
      requires Linked()
      ensures used[poolSize - HEADER]
    {
      var n := |blocks| - 1;
      assert blocks == blocks[..n] + ([TAILER] + []);
      assert blocks == blocks[..n] + [TAILER];
      TotalConcat(blocks[..n], [TAILER]);
      OneBlock(TAILER);
      HeadIsLaid(Table(), blocks[..n], TAILER, [], poolSize - HEADER);
    }

    /** rt_memheap_free */
    method Free(p: nat)
      requires Valid() && Live(State(), p)
      modifies this, next, prev, used, links.next, links.prev
      ensures Valid() && State() == Freed(old(State()), p)
    {
      FreedKeepsInv(State(), p);
      LivePieces(State(), p);
      ghost var (pre, b, post) := Pieces(blocks, p - HEADER);
      Release(p - HEADER, pre, b, post);
    }

    /** The free-list entries a free relies on. */
    lemma EntriesAround(pre: seq<Block>, b: Block, post: seq<Block>)
      requires Inv(State()) && blocks == pre + ([b] + post) && b.used
      ensures R.Count(free, Total(pre)) == 0
      ensures post != [] && !post[0].used ==> R.Count(free, Total(pre) + b.size) > 0 && |post| > 1
    {
      SizedConcat(pre, [b] + post);
      FreeAtConcat(pre, [b] + post, Total(pre));
      FreeAtConcat(pre, [b] + post, Total(pre) + b.size);
      assert ([b] + post)[1..] == post;
      assert post != [] ==> post[|post| - 1] == TAILER;
    }

    method Release(ptr: nat, ghost pre: seq<Block>, ghost b: Block, ghost post: seq<Block>)
      requires Linked() && Listed() && Inv(State())
      requires blocks == pre + ([b] + post) && b.used && ptr == Total(pre) && post != []
      modifies this, next, prev, used, links.next, links.prev
      ensures Linked() && Listed() && State() == Returned(old(State()), pre, b, post)
    {
      ghost var s := State();
      EntriesAround(pre, b, post);
      BlockHere(pre, b, post);
      Mark(ptr, false, pre, b, post);
      available := available + (next[ptr] - ptr) - HEADER;
      Coalesce(ptr, pre, Block(b.size, false), post);
      assert State() == Returned(s, pre, b, post);
    }

    /** The hole at ptr is merged with its neighbours, or listed. */
    method Coalesce(ptr: nat, ghost pre: seq<Block>, ghost hole: Block, ghost post: seq<Block>)
      requires Linked() && Listed() && blocks == pre + ([hole] + post) && !hole.used && ptr == Total(pre) && post != []
      requires R.Count(free, ptr) == 0
      requires !post[0].used ==> R.Count(free, ptr + hole.size) > 0 && |post| > 1
      modifies this, next, prev, links.next, links.prev
      ensures Linked() && Listed() && blocks == Merged(pre, hole, post)
      ensures free == AfterLeft(AfterRight(old(free), ptr + hole.size, post), pre, ptr)
      ensures available == old(available) + (if Left(pre) then HEADER else 0) + (if Right(post) then HEADER else 0)
    {
      BlockHere(pre, hole, post);
      CountAfterRight(free, ptr + hole.size, post, ptr);
      var insert := MergeBoth(ptr, pre, hole, post);
      Insert(insert, ptr, pre);
    }

    /** With the one in front, and with the one behind. */
    method MergeBoth(ptr: nat, ghost pre: seq<Block>, ghost hole: Block, ghost post: seq<Block>) returns (insert: bool)
      requires Linked() && Listed() && blocks == pre + ([hole] + post) && !hole.used && ptr == Total(pre) && post != []
      requires !post[0].used ==> R.Count(free, ptr + hole.size) > 0 && |post| > 1
      modifies this, next, prev, links.next, links.prev
      ensures Linked() && Listed() && blocks == Merged(pre, hole, post) && (insert <==> !Left(pre))
      ensures free == AfterRight(old(free), ptr + hole.size, post)
      ensures available == old(available) + (if Left(pre) then HEADER else 0) + (if Right(post) then HEADER else 0)
    {
      var header;
      ghost var front, whole;
      header, insert, front, whole := MergeLeft(ptr, pre, hole, post);
      MergeRight(header, ptr + hole.size, front, whole, post);
      EitherOrder(pre, hole, post, front, whole, blocks);
    }

    static lemma CountAfterRight(list: seq<nat>, end: nat, post: seq<Block>, x: nat)
      requires R.Count(list, x) == 0
      ensures R.Count(AfterRight(list, end, post), x) == 0
    {
      CountDropped(list, end, x);
    }

    /** A block that has not been merged to the left goes first on the list. */
    method Insert(insert: bool, ptr: nat, ghost pre: seq<Block>)
      requires Listed() && (insert <==> !Left(pre)) && ptr < poolSize && R.Count(free, ptr) == 0
      modifies this`free, links.next, links.prev
      ensures Listed() && free == AfterLeft(old(free), pre, ptr)
    {
      if insert {
        ListFirst(ptr);
      }
    }

    /** Merging to the left first or to the right first comes to the same. */
    static lemma EitherOrder(pre: seq<Block>, hole: Block, post: seq<Block>, front: seq<Block>, whole: Block, merged: seq<Block>)
      requires !hole.used && merged == front + ([Absorbed(whole, post).0] + Absorbed(whole, post).1)
      requires !Left(pre) ==> front == pre && whole == hole
      requires Left(pre) ==> front == pre[..|pre| - 1] && whole == Block(pre[|pre| - 1].size + hole.size, false)
      ensures merged == Merged(pre, hole, post)
    {
    }

    /** The hole at ptr joins an unused block in front of it. */
    method MergeLeft(ptr: nat, ghost pre: seq<Block>, ghost hole: Block, ghost post: seq<Block>)
      returns (header: nat, insert: bool, ghost front: seq<Block>, ghost whole: Block)
      requires Linked() && blocks == pre + ([hole] + post) && ptr == Total(pre) && post != [] && !hole.used
      modifies this`blocks, this`available, next, prev
      ensures Linked() && blocks == front + ([whole] + post) && header == Total(front) && !whole.used
      ensures insert <==> !Left(pre)
      ensures insert ==> front == pre && whole == hole && available == old(available)
      ensures !insert ==> front == pre[..|pre| - 1] && whole == Block(pre[|pre| - 1].size + hole.size, false) && available == old(available) + HEADER
      ensures header + whole.size == ptr + hole.size
    {
      BlockHere(pre, hole, post);
      BlockBefore(pre, hole, post);
      header, insert, front, whole := ptr, true, pre, hole;
      if !used[prev[ptr]] {
        ghost var last := pre[|pre| - 1];
        front := pre[..|pre| - 1];
        LastOf(pre);
        SplitLast(pre, [hole] + post);
        available := available + HEADER;
        header := prev[ptr];
        Fuse(header, front, last, hole, post);
        insert, whole := false, Block(last.size + hole.size, false);
      }
    }

    /** The hole at header takes in an unused block behind it, at end, which leaves the free list. */
    method MergeRight(header: nat, ghost end: nat, ghost pre: seq<Block>, ghost hole: Block, ghost post: seq<Block>)
      requires Linked() && Listed() && blocks == pre + ([hole] + post) && header == Total(pre) && post != [] && !hole.used
      requires end == header + hole.size
      requires !post[0].used ==> R.Count(free, end) > 0 && |post| > 1
      modifies this, next, prev, links.next, links.prev
      ensures Linked() && Listed()
      ensures blocks == pre + ([Absorbed(hole, post).0] + Absorbed(hole, post).1)
      ensures free == AfterRight(old(free), end, post)
      ensures available == old(available) + if Right(post) then HEADER else 0
    {
      BlockHere(pre, hole, post);
      if !used[next[header]] {
        available := available + HEADER;
        var new_ptr := next[header];
        assert [hole] + post == [hole] + ([post[0]] + post[1..]);
        Fuse(header, pre, hole, post[0], post[1..]);
        Runs.DroppedAt(free, new_ptr);
        Unlist(new_ptr, Runs.Listed(free, new_ptr));
      }
    }
  }
}
