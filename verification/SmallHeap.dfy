/**
 The small heap object (src/mem.c). A header is kept in three arrays indexed by its byte offset from
 heap_ptr; since in the original it lies in the heap itself, every header write also overwrites the
 HEADER bytes at its offset with something unspecified.
 */
module SmallHeap {
  import opened Kernel
  import opened Blocks
  import opened BlockHeaders
  import opened SmallHeapSpec
  import opened SmallHeapRuns

  // ----- payload bytes ------------------------------------------------------------------------

  /** Byte offset k belongs to a live payload. */
  ghost predicate PayloadByte(blocks: seq<Block>, k: int) {
    blocks != [] &&
    if k < blocks[0].size then blocks[0].used && HEADER <= k else PayloadByte(blocks[1..], k - blocks[0].size)
  }

  ghost predicate AllPayload(blocks: seq<Block>, from: int, to: int) {
    forall k :: from <= k < to ==> PayloadByte(blocks, k)
  }

  ghost predicate NoPayload(blocks: seq<Block>, from: int, to: int) {
    forall k :: from <= k < to ==> !PayloadByte(blocks, k)
  }

  lemma {:induction false} PayloadByteConcat(a: seq<Block>, b: seq<Block>, k: int)
    requires Sized(a) && Sized(b)
    ensures PayloadByte(a + b, k) <==> if k < Total(a) then PayloadByte(a, k) else PayloadByte(b, k - Total(a))
    ensures PayloadByte(a, k) ==> HEADER <= k < Total(a)
  {
    if a == [] {
      assert a + b == b;
    } else {
      assert (a + b)[1..] == a[1..] + b;
      PayloadByteConcat(a[1..], b, k - a[0].size);
    }
  }

  /** Which bytes of a payload are live follows from where the payloads are, and the other way round. */
  lemma {:induction false} PayloadByteOfLive(blocks: seq<Block>, o: int, k: int)
    requires Sized(blocks) && UsedAt(blocks, o) && o + HEADER <= k < o + SizeAt(blocks, o)
    ensures PayloadByte(blocks, k)
  {
    if o > 0 {
      UsedApart(blocks[1..], o - blocks[0].size, 0);
      PayloadByteOfLive(blocks[1..], o - blocks[0].size, k - blocks[0].size);
    }
  }

  /** The header between pre and post, and everything inside a block there that is unused, is nobody's payload. */
  lemma GapIsClear(pre: seq<Block>, b: Block, post: seq<Block>, k: int)
    requires Sized(pre) && SizedBlock(b) && Sized(post)
    requires Total(pre) <= k < Total(pre) + if b.used then HEADER else b.size
    ensures !PayloadByte(pre + ([b] + post), k)
  {
    SizedConcat([b], post);
    PayloadByteConcat(pre, [b] + post, k);
    assert ([b] + post)[1..] == post;
  }

  lemma FusePayload(pre: seq<Block>, x: Block, y: Block, post: seq<Block>, k: int)
    requires !x.used && !y.used && Sized(pre + ([x] + ([y] + post)))
    ensures PayloadByte(pre + ([x] + ([y] + post)), k) <==> PayloadByte(pre + ([Block(x.size + y.size, false)] + post), k)
  {
    var b := Block(x.size + y.size, false);
    SplitThree(pre, x, [y] + post);
    ConsFacts(y, post);
    ConsFacts(x, [y] + post);
    ConsFacts(b, post);
    PayloadByteConcat(pre, [x] + ([y] + post), k);
    PayloadByteConcat(pre, [b] + post, k);
    assert ([x] + ([y] + post))[1..] == [y] + post && ([y] + post)[1..] == post && ([b] + post)[1..] == post;
  }

  // ----- walking the blocks -------------------------------------------------------------------

  lemma StepFacts(pre: seq<Block>, rest: seq<Block>)
    requires rest != []
    ensures Total(pre + [rest[0]]) == Total(pre) + rest[0].size
    ensures Sized(pre + rest) ==> Sized(pre + [rest[0]])
  {
    TotalConcat(pre, [rest[0]]);
    SizedConcat(pre, [rest[0]]);
    SizedConcat(pre, rest);
    assert [rest[0]][1..] == [];
  }

  /** One step of a walk along the next links. */
  lemma Walk(h: Headers, pre: seq<Block>, rest: seq<Block>)
    requires SameLength(h) && Laid(h, 0, 0, pre + rest) && rest != []
    ensures var ptr := Total(pre);
            && ptr < |h.next| && h.next[ptr] == ptr + rest[0].size && h.used[ptr] == rest[0].used
            && pre + rest == (pre + [rest[0]]) + rest[1..] && Total(pre + [rest[0]]) == ptr + rest[0].size
    ensures Sized(pre + rest) ==> Sized(pre + [rest[0]])
    ensures |rest| > 1 ==> var end := Total(pre) + rest[0].size; end < |h.next| && h.used[end] == rest[1].used
  {
    Rotate(pre, rest);
    HeadIsLaid(h, pre, rest[0], rest[1..], Total(pre));
    NextIsLaid(h, pre, rest[0], rest[1..], Total(pre), Total(pre) + rest[0].size);
    StepFacts(pre, rest);
  }

  function Shift(r: Option<nat>, n: nat): Option<nat> {
    match r
    case None => None
    case Some(i) => Some(i + n)
  }

  /** Index of the block at which a scan from off starts. */
  lemma {:induction false} StartAt(blocks: seq<Block>, off: nat) returns (i: nat)
    requires Sized(blocks) && (off == Total(blocks) || FreeAt(blocks, off))
    ensures i <= |blocks| && Total(blocks[..i]) == off
  {
    if off == 0 {
      i := 0;
    } else {
      var j := StartAt(blocks[1..], off - blocks[0].size);
      i := j + 1;
      assert blocks[..i] == [blocks[0]] + blocks[1..][..j];
    }
  }

  /** The scan of the whole heap passes over everything in front of its start. */
  lemma {:induction false} FitSkips(pre: seq<Block>, rest: seq<Block>, off: nat, from: nat, size: nat, limit: int)
    requires Sized(pre) && off + Total(pre) == from
    ensures Fit(pre + rest, off, from, size, limit) == Shift(Fit(rest, from, from, size, limit), |pre|)
    decreases |pre|
  {
    if pre == [] {
      assert pre + rest == rest;
    } else {
      assert (pre + rest)[1..] == pre[1..] + rest;
      FitSkips(pre[1..], rest, off + pre[0].size, from, size, limit);
    }
  }

  /** Handing out part of an unused block leaves every payload byte a payload byte. */
  lemma CarvedPayload(pre: seq<Block>, b: Block, post: seq<Block>, size: nat)
    requires Sized(pre) && SizedBlock(b) && Sized(post) && !b.used && b.size >= HEADER + size
    ensures forall k :: PayloadByte(pre + ([b] + post), k) ==> PayloadByte(pre + (Carved(b, size) + post), k)
  {
    var c := Carved(b, size);
    CarvedFacts(b, size);
    ConsFacts(b, post);
    SizedConcat(c, post);
    forall k | PayloadByte(pre + ([b] + post), k)
      ensures PayloadByte(pre + (c + post), k)
    {
      PayloadByteConcat(pre, [b] + post, k);
      PayloadByteConcat(pre, c + post, k);
      PayloadByteConcat([b], post, k - Total(pre));
      PayloadByteConcat(c, post, k - Total(pre));
      assert [b][1..] == [];
    }
  }

  /** Turning the used block b into a hole takes away its own payload bytes only. */
  lemma HoledPayload(pre: seq<Block>, b: Block, post: seq<Block>)
    requires Sized(pre) && SizedBlock(b) && Sized(post)
    ensures forall k :: PayloadByte(pre + ([b] + post), k) && !(Total(pre) + HEADER <= k < Total(pre) + b.size) ==>
              PayloadByte(pre + ([Block(b.size, false)] + post), k)
  {
    var hole := Block(b.size, false);
    ConsFacts(b, post);
    ConsFacts(hole, post);
    forall k | PayloadByte(pre + ([b] + post), k) && !(Total(pre) + HEADER <= k < Total(pre) + b.size)
      ensures PayloadByte(pre + ([hole] + post), k)
    {
      PayloadByteConcat(pre, [b] + post, k);
      PayloadByteConcat(pre, [hole] + post, k);
      assert ([b] + post)[1..] == post && ([hole] + post)[1..] == post;
    }
  }

  /** Cutting the used block b takes payload bytes away behind the cut only. */
  lemma CutPayload(pre: seq<Block>, b: Block, post: seq<Block>, size: nat)
    requires Sized(pre) && SizedBlock(b) && Sized(post) && size + HEADER + HEADER <= b.size
    ensures var all := pre + ([Block(size + HEADER, true)] + ([Block(b.size - size - HEADER, false)] + post));
            && (forall k :: PayloadByte(pre + ([b] + post), k) && !(Total(pre) + HEADER <= k < Total(pre) + b.size) ==>
                  PayloadByte(all, k))
            && (forall k :: Total(pre) + HEADER <= k < Total(pre) + HEADER + size ==> PayloadByte(all, k))
  {
    var (c, d) := (Block(size + HEADER, true), Block(b.size - size - HEADER, false));
    ConsFacts(b, post);
    ConsFacts(d, post);
    ConsFacts(c, [d] + post);
    assert ([b] + post)[1..] == post && ([d] + post)[1..] == post && ([c] + ([d] + post))[1..] == [d] + post;
    forall k: int | k >= Total(pre)
      ensures PayloadByte(pre + ([c] + ([d] + post)), k) <==> PayloadByte([c] + ([d] + post), k - Total(pre))
    {
      PayloadByteConcat(pre, [c] + ([d] + post), k);
    }
    forall k | PayloadByte(pre + ([b] + post), k) && !(Total(pre) + HEADER <= k < Total(pre) + b.size)
      ensures PayloadByte(pre + ([c] + ([d] + post)), k)
    {
      PayloadByteConcat(pre, [b] + post, k);
      PayloadByteConcat(pre, [c] + ([d] + post), k);
    }
  }

  /** A malloc takes its payload from bytes that were nobody's. */
  lemma MallocPayload(s: State, size: nat)
    requires Inv(s) && SmallHeapSpec.Malloc(s, size).1.At?
    ensures var (r, p) := (SmallHeapSpec.Malloc(s, size).0, SmallHeapSpec.Malloc(s, size).1.offset);
            && (forall k :: PayloadByte(s.blocks, k) ==> PayloadByte(r.blocks, k))
            && AllPayload(r.blocks, p, p + Capacity(r, p)) && NoPayload(s.blocks, p, p + Capacity(r, p))
  {
    var i := MallocCase(s, size);
    var (pre, b, post) := (s.blocks[..i], s.blocks[i], s.blocks[i + 1..]);
    var (r, p) := (SmallHeapSpec.Malloc(s, size).0, SmallHeapSpec.Malloc(s, size).1.offset);
    var w := Wanted(size);
    SplitAt(s.blocks, i);
    CarvedPayload(pre, b, post, w);
    CarvedFacts(b, w);
    AllocatedKeepsLive(s, i, w, p);
    AllocatedKeepsInv(s, i, w, MemSize(s.blocks) - w);
    UsedAtConcat(pre, Carved(b, w) + post, Total(pre));
    assert Capacity(r, p) <= b.size - HEADER;
    forall k | p <= k < p + Capacity(r, p)
      ensures PayloadByte(r.blocks, k) && !PayloadByte(s.blocks, k)
    {
      PayloadByteOfLive(r.blocks, p - HEADER, k);
      GapIsClear(pre, b, post, k);
    }
  }

  /** The bytes of a live payload are payload bytes. */
  lemma LivePayloadKept(s: State, p: int)
    requires Inv(s) && Live(s, p)
    ensures AllPayload(s.blocks, p, p + Capacity(s, p))
  {
    forall k | p <= k < p + Capacity(s, p)
      ensures PayloadByte(s.blocks, k)
    {
      PayloadByteOfLive(s.blocks, p - HEADER, k);
    }
  }

  // ----- the heap -----------------------------------------------------------------------------

  class SmallHeap {
    const memSize: nat
    const next: array<nat>
    const prev: array<nat>
    const used: array<bool>
    const bytes: array<bv8>
    var lfree: nat
    var usedMem: int
    var maxMem: int
    ghost var blocks: seq<Block>

    ghost function State(): State
      reads this
    {
      SmallHeapSpec.State.State(blocks, lfree, usedMem, maxMem)
    }

    ghost function Table(): Headers
      reads this, next, prev, used
    {
      Headers(next[..], prev[..], used[..])
    }

    /** heap_end, the last header, always counts as used and points to itself. */
    ghost predicate Framed()
      reads this, next, prev, used
    {
      && next != prev && next as object != used && prev as object != used
      && next as object != bytes && prev as object != bytes && used as object != bytes
      && next.Length == prev.Length == used.Length == bytes.Length == memSize + HEADER + HEADER
      && used[memSize + HEADER] && next[memSize + HEADER] == memSize + HEADER
    }

    /** The headers describe the blocks, which fill the heap up to heap_end. */
    ghost predicate Linked()
      reads this, next, prev, used
    {
      && Framed() && Sized(blocks) && Total(blocks) == memSize + HEADER
      && Laid(Table(), 0, 0, blocks)
    }

    ghost predicate Valid()
      reads this, next, prev, used
    {
      Linked() && Inv(State())
    }

    /** rt_system_heap_init, for an address range that leaves room for the two headers and a payload. */
    constructor (beginAddr: nat, endAddr: nat)
      requires Room(beginAddr, endAddr) >= MIN_ALIGNED
      ensures Valid() && fresh(next) && fresh(prev) && fresh(used) && fresh(bytes)
      ensures State() == Fresh(memSize) && memSize == Room(beginAddr, endAddr)
    {
      var size := Room(beginAddr, endAddr);
      var end := size + HEADER;
      memSize := size;
      next := new nat[end + HEADER](_ => end);
      prev := new nat[end + HEADER](k => if k == end then end else 0);
      used := new bool[end + HEADER](k => k == end);
      bytes := new bv8[end + HEADER](_ => 0);
      lfree, usedMem, maxMem := 0, 0, 0;
      blocks := [Block(end, false)];
      new;
      FreshInv(size);
      assert blocks[1..] == [];
    }

    /** Every byte of a live payload is what it was when the heap's bytes were `was`. */
    ghost predicate Kept(was: seq<bv8>, live: seq<Block>)
      reads bytes
      requires |was| == bytes.Length
    {
      forall k: nat :: k < bytes.Length && PayloadByte(live, k) ==> bytes[k] == was[k]
    }

    /** The header of b was written: the bytes it occupies are no longer what they were. */
    method Overwrite(o: nat, ghost pre: seq<Block>, ghost b: Block, ghost post: seq<Block>)
      requires Sized(pre) && SizedBlock(b) && Sized(post)
      requires o == Total(pre) && o + HEADER <= bytes.Length
      modifies bytes
      ensures Kept(old(bytes[..]), pre + ([b] + post))
    {
      for k := o to o + HEADER
        invariant forall i: nat :: i < bytes.Length && !(o <= i < o + HEADER) ==> bytes[i] == old(bytes[i])
      {
        bytes[k] := *;
      }
      forall i: nat | i < bytes.Length && PayloadByte(pre + ([b] + post), i)
        ensures bytes[i] == old(bytes[i])
      {
        if o <= i < o + HEADER {
          GapIsClear(pre, b, post, i);
        }
      }
    }

    /** The used flag of the block at ptr. */
    method Mark(ptr: nat, mark: bool, ghost pre: seq<Block>, ghost b: Block, ghost post: seq<Block>)
      requires Linked() && blocks == pre + ([b] + post) && ptr == Total(pre)
      modifies this`blocks, used, bytes
      ensures Linked() && blocks == pre + ([Block(b.size, mark)] + post)
      ensures Kept(old(bytes[..]), blocks)
    {
      SplitThree(pre, b, post);
      SplitThree(pre, Block(b.size, mark), post);
      Overwrite(ptr, pre, Block(b.size, mark), post);
      ghost var h := Table();
      used[ptr] := mark;
      MarkLaid(h, Table(), pre, b, post, mark);
      blocks := pre + ([Block(b.size, mark)] + post);
    }

    /** The header behind the block b was written. */
    method OverwriteNext(end: nat, ghost pre: seq<Block>, ghost b: Block, ghost post: seq<Block>)
      requires Sized(pre) && SizedBlock(b) && Sized(post) && post != []
      requires end == Total(pre) + b.size && end + HEADER <= bytes.Length
      modifies bytes
      ensures Kept(old(bytes[..]), pre + ([b] + post))
    {
      TotalConcat(pre, [b]);
      SizedConcat(pre, [b]);
      assert [b][1..] == [];
      Regroup(pre, b, post);
      Overwrite(end, pre + [b], post[0], post[1..]);
    }

    /** The headers of c at ptr and of d behind it were written. */
    method OverwriteTwo(ptr: nat, ptr2: nat, ghost pre: seq<Block>, ghost c: Block, ghost d: Block, ghost post: seq<Block>)
      requires Sized(pre) && SizedBlock(c) && Sized([d] + post)
      requires ptr == Total(pre) && ptr2 == ptr + c.size && ptr2 + HEADER <= bytes.Length
      modifies bytes
      ensures Kept(old(bytes[..]), pre + ([c] + ([d] + post)))
    {
      Overwrite(ptr, pre, c, [d] + post);
      OverwriteNext(ptr2, pre, c, [d] + post);
    }

    /** The headers of c at ptr and d at ptr2, and the one behind them unless it is heap_end, were written. */
    method OverwriteSplit(ptr: nat, ptr2: nat, end: nat,
                          ghost pre: seq<Block>, ghost c: Block, ghost d: Block, ghost post: seq<Block>)
      requires Sized(pre) && SizedBlock(c) && SizedBlock(d) && Sized(post) && Sized([d] + post)
      requires ptr == Total(pre) && ptr2 == ptr + c.size && end == ptr2 + d.size
      requires end + Total(post) == memSize + HEADER && bytes.Length == memSize + HEADER + HEADER
      modifies bytes
      ensures Kept(old(bytes[..]), pre + ([c] + ([d] + post)))
    {
      OverwriteTwo(ptr, ptr2, pre, c, d, post);
      if end != memSize + HEADER {
        assert Total(pre + [c]) == ptr2 && Sized(pre + [c]) by {
          TotalConcat(pre, [c]);
          SizedConcat(pre, [c]);
          assert [c][1..] == [];
        }
        assert (pre + [c]) + ([d] + post) == pre + ([c] + ([d] + post));
        OverwriteNext(end, pre + [c], d, post);
      }
    }

    /** The stores of a split: a new header at ptr2 between those at ptr and end. */
    method StoreSplit(ptr: nat, ptr2: nat, end: nat)
      requires Framed() && ptr < ptr2 < end <= memSize + HEADER && next[ptr] == end
      modifies next, prev, used
      ensures Framed()
      ensures next[ptr] == ptr2 && used[ptr] && prev[ptr] == old(prev[ptr])
      ensures next[ptr2] == end && !used[ptr2] && prev[ptr2] == ptr
      ensures end != memSize + HEADER ==> next[end] == old(next[end]) && used[end] == old(used[end]) && prev[end] == ptr2
      ensures Agree(old(Table()), Table(), 0, ptr) && Agree(old(Table()), Table(), end + 1, next.Length)
    {
      used[ptr2] := false;
      next[ptr2] := next[ptr];
      prev[ptr2] := ptr;
      next[ptr] := ptr2;
      used[ptr] := true;
      if next[ptr2] != memSize + HEADER {
        prev[next[ptr2]] := ptr2;
      }
    }

    /** Split the block at ptr: a used one up to ptr2, an unused one behind it. */
    method Split(ptr: nat, ptr2: nat, ghost pre: seq<Block>, ghost b: Block, ghost post: seq<Block>)
      requires Linked() && blocks == pre + ([b] + post) && ptr == Total(pre)
      requires ptr <= ptr2 && SizedBlock(Block(ptr2 - ptr, true)) && ptr2 + HEADER <= ptr + b.size
      modifies this`blocks, next, prev, used, bytes
      ensures Linked()
      ensures blocks == pre + ([Block(ptr2 - ptr, true)] + ([Block(ptr + b.size - ptr2, false)] + post))
      ensures Kept(old(bytes[..]), blocks)
    {
      ghost var (c, d) := (Block(ptr2 - ptr, true), Block(ptr + b.size - ptr2, false));
      ghost var h := Table();
      SplitThree(pre, b, post);
      HeadIsLaid(h, pre, b, post, ptr);
      var end := next[ptr];
      ConsFacts(d, post);
      OverwriteSplit(ptr, ptr2, end, pre, c, d, post);
      StoreSplit(ptr, ptr2, end);
      CarveLaid(h, Table(), pre, b, post, ptr, ptr2, end);
      SplitThree(pre, c, [d] + post);
      blocks := pre + ([c] + ([d] + post));
    }

    /** The stores of a merge: the header at end follows that at ptr directly. */
    method StoreFuse(ptr: nat, end: nat)
      requires Framed() && ptr < end <= memSize + HEADER
      modifies next, prev
      ensures Framed()
      ensures next[ptr] == end && used[ptr] == old(used[ptr]) && prev[ptr] == old(prev[ptr]) && prev[end] == ptr
      ensures end != memSize + HEADER ==> next[end] == old(next[end]) && used[end] == old(used[end])
      ensures Agree(old(Table()), Table(), 0, ptr) && Agree(old(Table()), Table(), end + 1, next.Length)
    {
      next[ptr] := end;
      prev[end] := ptr;
    }

    method OverwriteFuse(ptr: nat, end: nat, ghost pre: seq<Block>, ghost b: Block, ghost post: seq<Block>)
      requires Sized(pre) && SizedBlock(b) && Sized(post)
      requires ptr == Total(pre) && end == ptr + b.size
      requires end + Total(post) == memSize + HEADER && bytes.Length == memSize + HEADER + HEADER
      modifies bytes
      ensures Kept(old(bytes[..]), pre + ([b] + post))
    {
      Overwrite(ptr, pre, b, post);
      if end != memSize + HEADER {
        OverwriteNext(end, pre, b, post);
      }
    }

    /** Two unused neighbours at ptr and in front of end become one. */
    method FuseAt(ptr: nat, end: nat, ghost pre: seq<Block>, ghost x: Block, ghost y: Block, ghost post: seq<Block>)
      requires Linked() && blocks == pre + ([x] + ([y] + post)) && !x.used && !y.used
      requires ptr == Total(pre) && end == ptr + x.size + y.size
      modifies this`blocks, next, prev, bytes
      ensures Linked()
      ensures blocks == pre + ([Block(x.size + y.size, false)] + post)
      ensures Kept(old(bytes[..]), blocks)
    {
      ghost var b := Block(x.size + y.size, false);
      ghost var h := Table();
      SplitThree(pre, x, [y] + post);
      ConsFacts(y, post);
      HeadIsLaid(h, pre, x, [y] + post, ptr);
      OverwriteFuse(ptr, end, pre, b, post);
      StoreFuse(ptr, end);
      FuseLaid(h, Table(), pre, x, y, post, ptr, end);
      blocks := pre + ([b] + post);
      SplitThree(pre, b, post);
    }

    /** plug_holes, forward: combine mem with the block behind it if that is unused. */
    method PlugForward(mem: nat, ghost pre: seq<Block>, ghost hole: Block, ghost post: seq<Block>)
      requires Linked() && blocks == pre + ([hole] + post) && !hole.used && mem == Total(pre)
      modifies this`blocks, this`lfree, next, prev, bytes
      ensures Linked() && blocks == pre + ([Absorbed(hole, post).0] + Absorbed(hole, post).1)
      ensures lfree == if post != [] && !post[0].used && old(lfree) == mem + hole.size then mem else old(lfree)
      ensures Kept(old(bytes[..]), blocks)
      ensures forall k :: PayloadByte(blocks, k) <==> PayloadByte(old(blocks), k)
    {
      SplitThree(pre, hole, post);
      HeadIsLaid(Table(), pre, hole, post, mem);
      NextIsLaid(Table(), pre, hole, post, mem, mem + hole.size);
      var nmem := next[mem];
      if mem != nmem && !used[nmem] && nmem != memSize + HEADER {
        assert post == [post[0]] + post[1..];
        if lfree == nmem {
          lfree := mem;
        }
        forall k
          ensures PayloadByte(pre + ([Absorbed(hole, post).0] + Absorbed(hole, post).1), k) <==> PayloadByte(blocks, k)
        {
          FusePayload(pre, hole, post[0], post[1..], k);
        }
        FuseAt(mem, next[nmem], pre, hole, post[0], post[1..]);
      }
    }

    /** plug_holes, backward: combine mem with the block in front of it if that is unused. */
    method PlugBackward(mem: nat, ghost pre: seq<Block>, ghost hole: Block, ghost post: seq<Block>)
      requires Linked() && blocks == pre + ([hole] + post) && !hole.used && mem == Total(pre)
      modifies this`blocks, this`lfree, next, prev, bytes
      ensures Linked() && blocks == Joined(pre, hole, post)
      ensures lfree == if pre != [] && !pre[|pre| - 1].used && old(lfree) == mem then Total(pre[..|pre| - 1]) else old(lfree)
      ensures Kept(old(bytes[..]), blocks)
      ensures forall k :: PayloadByte(blocks, k) <==> PayloadByte(old(blocks), k)
    {
      SplitThree(pre, hole, post);
      HeadIsLaid(Table(), pre, hole, post, mem);
      var pmem := prev[mem];
      ghost var front := if pre == [] then [] else pre[..|pre| - 1];
      ghost var last := if pre == [] then hole else pre[|pre| - 1];
      PrevIsLaid(Table(), pre, hole, post, mem, front, last);
      if pmem != mem && !used[pmem] {
        if lfree == mem {
          lfree := pmem;
        }
        forall k
          ensures PayloadByte(Joined(pre, hole, post), k) <==> PayloadByte(blocks, k)
        {
          FusePayload(front, last, hole, post, k);
        }
        FuseAt(pmem, next[mem], front, last, hole, post);
      }
    }

    /** plug_holes on the unused block at mem. */
    method PlugHoles(mem: nat, ghost pre: seq<Block>, ghost hole: Block, ghost post: seq<Block>)
      requires Linked() && blocks == pre + ([hole] + post) && !hole.used && mem == Total(pre)
      modifies this`blocks, this`lfree, next, prev, bytes
      ensures Linked() && blocks == Merged(pre, hole, post)
      ensures lfree == MergedLfree(pre, hole, post, old(lfree))
      ensures Kept(old(bytes[..]), pre + ([hole] + post))
    {
      PlugForward(mem, pre, hole, post);
      PlugBackward(mem, pre, Absorbed(hole, post).0, Absorbed(hole, post).1);
    }

    /** The walk that moves lfree to the next unused block, or to heap_end. */
    method AdvanceLfree(ghost done: seq<Block>, ghost todo: seq<Block>)
      requires Linked() && blocks == done + todo && lfree == Total(done)
      modifies this`lfree
      ensures Linked() && lfree == Total(done) + FirstFree(todo)
    {
      ghost var pre, rest := done, todo;
      SizedConcat(pre, rest);
      TotalConcat(pre, rest);
      if todo != [] {
        Walk(Table(), pre, rest);
      }
      while used[lfree] && lfree != memSize + HEADER
        invariant Linked() && blocks == pre + rest && Sized(rest) && lfree == Total(pre)
        invariant lfree + FirstFree(rest) == Total(done) + FirstFree(todo) && lfree + Total(rest) == memSize + HEADER
        invariant rest != [] ==> used[lfree] == rest[0].used
        decreases |rest|
      {
        Walk(Table(), pre, rest);
        lfree := next[lfree];
        pre, rest := pre + [rest[0]], rest[1..];
      }
    }

    /** The block at ptr becomes used, split if a useful rest remains; returns the bytes it takes, header included. */
    method TakeBlock(ptr: nat, size: nat, ghost pre: seq<Block>, ghost b: Block, ghost post: seq<Block>) returns (taken: nat)
      requires Linked() && blocks == pre + ([b] + post) && ptr == Total(pre)
      requires !b.used && b.size >= HEADER + size
      modifies this`blocks, next, prev, used, bytes
      ensures Linked() && blocks == pre + (Carved(b, size) + post) && taken == Carved(b, size)[0].size
      ensures Kept(old(bytes[..]), blocks)
    {
      HeadIsLaid(Table(), pre, b, post, ptr);
      if next[ptr] - (ptr + HEADER) >= size + HEADER + MIN_ALIGNED {
        taken := size + HEADER;
        Split(ptr, ptr + HEADER + size, pre, b, post);
        assert [Block(size + HEADER, true)] + ([Block(b.size - size - HEADER, false)] + post) == Carved(b, size) + post;
      } else {
        taken := next[ptr] - ptr;
        Mark(ptr, true, pre, b, post);
      }
    }

    /** Hand out size bytes of the unused block at ptr. */
    method Take(ptr: nat, size: nat, ghost pre: seq<Block>, ghost b: Block, ghost post: seq<Block>)
      requires Linked() && blocks == pre + ([b] + post) && ptr == Total(pre)
      requires !b.used && b.size >= HEADER + size
      modifies this, next, prev, used, bytes
      ensures Linked() && State() == Allocated(old(State()), |pre|, size)
      ensures Kept(old(bytes[..]), old(blocks))
    {
      assert blocks[..|pre|] == pre && blocks[|pre|] == b && blocks[|pre| + 1..] == post;
      SplitThree(pre, b, post);
      CarvedPayload(pre, b, post, size);
      var taken := TakeBlock(ptr, size, pre, b, post);
      usedMem := usedMem + taken;
      if maxMem < usedMem {
        maxMem := usedMem;
      }
      if ptr == lfree {
        AdvanceLfree(pre, Carved(b, size) + post);
      }
    }

    /** The scan of rt_malloc: the first unused block from lfree on with room for the wanted bytes. */
    method Scan(wanted: nat) returns (ptr: nat, found: bool, ghost pre: seq<Block>, ghost rest: seq<Block>)
      requires Linked() && (lfree == Total(blocks) || FreeAt(blocks, lfree))
      ensures found == Fit(blocks, 0, lfree, wanted, memSize - wanted).Some?
      ensures found ==> blocks == pre + rest && rest != [] && ptr == Total(pre)
                        && !rest[0].used && rest[0].size >= HEADER + wanted
                        && |pre| == Fit(blocks, 0, lfree, wanted, memSize - wanted).value
    {
      ghost var limit := memSize - wanted;
      ghost var i := StartAt(blocks, lfree);
      pre, rest := blocks[..i], blocks[i..];
      assert blocks == pre + rest;
      SizedConcat(pre, rest);
      FitSkips(pre, rest, 0, lfree, wanted, limit);
      ptr := lfree;
      found := false;
      while ptr < memSize - wanted
        invariant blocks == pre + rest && Sized(pre) && Sized(rest) && ptr == Total(pre) && ptr >= lfree
        invariant Fit(blocks, 0, lfree, wanted, limit) == Shift(Fit(rest, ptr, lfree, wanted, limit), |pre|)
        decreases |rest|
      {
        assert rest != [] by { TotalConcat(pre, rest); }
        Walk(Table(), pre, rest);
        if !used[ptr] && next[ptr] - (ptr + HEADER) >= wanted {
          found := true;
          return;
        }
        FitNext(rest, ptr, lfree, wanted, limit, |pre|);
        ptr := next[ptr];
        pre, rest := pre + [rest[0]], rest[1..];
      }
    }

    /** The scan goes on behind a block that does not fit. */
    static lemma FitNext(rest: seq<Block>, off: nat, from: nat, size: nat, limit: int, n: nat)
      requires rest != [] && from <= off < limit && (rest[0].used || rest[0].size < HEADER + size)
      ensures Shift(Fit(rest, off, from, size, limit), n) == Shift(Fit(rest[1..], off + rest[0].size, from, size, limit), n + 1)
    {
    }

    /** The critical section of rt_malloc. */
    method Allocate(wanted: nat) returns (p: Ptr)
      requires Linked() && (lfree == Total(blocks) || FreeAt(blocks, lfree))
      modifies this, next, prev, used, bytes
      ensures Linked() && Kept(old(bytes[..]), old(blocks))
      ensures (State(), p) == Scanned(old(State()), wanted)
    {
      ghost var pre, rest;
      var ptr, found;
      ptr, found, pre, rest := Scan(wanted);
      ghost var s := State();
      if found {
        Rotate(pre, rest);
        assert blocks[..|pre|] == pre;
        assert Scanned(s, wanted) == (Allocated(s, |pre|, wanted), At(ptr + HEADER));
        Take(ptr, wanted, pre, rest[0], rest[1..]);
        return At(ptr + HEADER);
      }
      assert Scanned(s, wanted) == (s, Null);
      return Null;
    }

    /** rt_malloc */
    method Malloc(size: nat) returns (p: Ptr)
      requires Valid()
      modifies this, next, prev, used, bytes
      ensures Valid() && (State(), p) == SmallHeapSpec.Malloc(old(State()), size)
      ensures Kept(old(bytes[..]), old(blocks))
    {
      MallocKeepsInv(State(), size);
      if size == 0 {
        return Null;
      }
      var wanted := Align(size);
      if wanted > memSize {
        return Null;
      }
      if wanted < MIN_ALIGNED {
        wanted := MIN_ALIGNED;
      }
      p := Allocate(wanted);
    }

    /** The header at p and the blocks around it become an unused block, merged with its neighbours. */
    method Release(mem: nat, ghost pre: seq<Block>, ghost b: Block, ghost post: seq<Block>)
      requires Linked() && blocks == pre + ([b] + post) && b.used && mem == Total(pre)
      modifies this, next, prev, used, bytes
      ensures Linked()
      ensures blocks == Merged(pre, Block(b.size, false), post)
      ensures lfree == MergedLfree(pre, Block(b.size, false), post, Min(old(lfree), mem))
      ensures usedMem == old(usedMem) - b.size && maxMem == old(maxMem)
      ensures Kept(old(bytes[..]), pre + ([Block(b.size, false)] + post))
    {
      ghost var hole := Block(b.size, false);
      HeadIsLaid(Table(), pre, b, post, mem);
      Mark(mem, false, pre, b, post);
      HeadIsLaid(Table(), pre, hole, post, mem);
      if mem < lfree {
        lfree := mem;
      }
      usedMem := usedMem - (next[mem] - mem);
      PlugHoles(mem, pre, hole, post);
    }

    /** rt_free; every payload but the one given back keeps its bytes. */
    method Free(p: Ptr)
      requires Valid() && (p.At? ==> Live(State(), p.offset))
      modifies this, next, prev, used, bytes
      ensures Valid() && State() == if p.Null? then old(State()) else Freed(old(State()), p.offset)
      ensures p.At? ==> forall k: nat ::
        k < bytes.Length && PayloadByte(old(blocks), k) && !(p.offset <= k < p.offset + Capacity(old(State()), p.offset)) ==>
          bytes[k] == old(bytes[k])
    {
      if p.At? {
        ghost var (pre, b, post) := SmallHeapSpec.Around(State(), p.offset);
        FreedKeepsInv(State(), p.offset);
        LivePieces(State(), p.offset);
        HoledPayload(pre, b, post);
        Release(p.offset - HEADER, pre, b, post);
      }
    }

    /** rt_memcpy between two payloads that do not overlap. */
    method Copy(dst: nat, src: nat, len: nat)
      requires dst + len <= bytes.Length && src + len <= bytes.Length && (dst + len <= src || src + len <= dst)
      modifies bytes
      ensures forall k: nat :: k < bytes.Length && !(dst <= k < dst + len) ==> bytes[k] == old(bytes[k])
      ensures bytes[dst..dst + len] == old(bytes[src..src + len])
    {
      for i := 0 to len
        invariant forall k: nat :: k < bytes.Length && !(dst <= k < dst + i) ==> bytes[k] == old(bytes[k])
        invariant bytes[dst..dst + i] == old(bytes[src..src + i])
      {
        bytes[dst + i] := bytes[src + i];
      }
    }

    /** The payload bytes of everybody but the owner of p are as they were. */
    twostate predicate OthersKept(s: State, p: int)
      reads bytes
    {
      forall k: nat :: k < bytes.Length && PayloadByte(s.blocks, k) && !(p <= k < p + Capacity(s, p)) ==>
        bytes[k] == old(bytes[k])
    }

    /** The branch of rt_realloc that cuts the block in place. */
    method Cut(p: nat, size: nat)
      requires Valid() && Cuttable(State(), p, size)
      modifies this, next, prev, used, bytes
      ensures Valid() && State() == Shrunk(old(State()), p, size)
      ensures OthersKept(old(State()), p)
      ensures Carried(p, At(p), size)
    {
      ghost var s := State();
      ghost var (pre, b, post) := SmallHeapSpec.Around(s, p);
      LivePayloadInside(s, p);
      ShrunkKeepsInv(s, p, size);
      ShrunkIs(s, p, size, pre, b, post);
      ghost var was := bytes[..];
      CutBlock(p - HEADER, p + size, pre, b, post);
      CutKept(s, p, size, pre, b, post, was, bytes[..]);
      assert bytes[p..p + size] == was[p..p + size];
    }

    /** What is kept of the blocks after a cut is kept of the payloads. */
    static lemma CutKept(s: SmallHeapSpec.State, p: nat, size: nat, pre: seq<Block>, b: Block, post: seq<Block>, was: seq<bv8>, now: seq<bv8>)
      requires Inv(s) && Cuttable(s, p, size) && (pre, b, post) == SmallHeapSpec.Around(s, p)
      requires |was| == |now| && p + size <= |was|
      requires var all := pre + ([Block(size + HEADER, true)] + ([Block(b.size - size - HEADER, false)] + post));
               forall k: nat :: k < |was| && PayloadByte(all, k) ==> now[k] == was[k]
      ensures now[p..p + size] == was[p..p + size]
      ensures forall k: nat :: k < |was| && PayloadByte(s.blocks, k) && !(p <= k < p + Capacity(s, p)) ==> now[k] == was[k]
    {
      LivePieces(s, p);
      CutPayload(pre, b, post, size);
    }

    /** The heap once the block b has been cut to its first a bytes. */
    static ghost function Sliced(s: SmallHeapSpec.State, pre: seq<Block>, b: Block, post: seq<Block>, a: nat): SmallHeapSpec.State
      requires a <= b.size
    {
      var (front, hole) := (pre + [Block(a, true)], Block(b.size - a, false));
      SmallHeapSpec.State.State(Merged(front, hole, post), MergedLfree(front, hole, post, s.lfree), s.usedMem - hole.size, s.maxMem)
    }

    static lemma ShrunkIs(s: SmallHeapSpec.State, p: int, size: nat, pre: seq<Block>, b: Block, post: seq<Block>)
      requires Live(s, p) && size <= Capacity(s, p) && (pre, b, post) == SmallHeapSpec.Around(s, p)
      ensures size + HEADER <= b.size && Shrunk(s, p, size) == Sliced(s, pre, b, post, size + HEADER)
    {
    }

    /** A used block at mem is cut at ptr2; the rest is merged with what is behind it. */
    method CutBlock(mem: nat, ptr2: nat, ghost pre: seq<Block>, ghost b: Block, ghost post: seq<Block>)
      requires Linked() && blocks == pre + ([b] + post) && b.used && mem == Total(pre)
      requires mem + HEADER <= ptr2 && ptr2 + HEADER <= mem + b.size
      modifies this, next, prev, used, bytes
      ensures Linked() && State() == Sliced(old(State()), pre, b, post, ptr2 - mem)
      ensures Kept(old(bytes[..]), pre + ([Block(ptr2 - mem, true)] + ([Block(mem + b.size - ptr2, false)] + post)))
    {
      ghost var (cut, hole) := (Block(ptr2 - mem, true), Block(mem + b.size - ptr2, false));
      HeadIsLaid(Table(), pre, b, post, mem);
      usedMem := usedMem - (next[mem] - ptr2);
      Split(mem, ptr2, pre, b, post);
      TotalConcat(pre, [cut]);
      assert [cut][1..] == [];
      assert (pre + [cut]) + ([hole] + post) == pre + ([cut] + ([hole] + post));
      PlugHoles(ptr2, pre + [cut], hole, post);
    }

    /** The first n bytes of the payload at p go to the one at q, and p is given back. */
    method CopyAndFree(p: nat, q: nat, n: nat, ghost content: seq<bv8>)
      requires Valid() && Live(State(), p) && Live(State(), q) && p + n <= bytes.Length && q + n <= bytes.Length
      requires (q + n <= p || p + n <= q) && (q + n <= p || p + Capacity(State(), p) <= q)
      requires AllPayload(blocks, q, q + n) && bytes[p..p + n] == content
      modifies this, next, prev, used, bytes
      ensures Valid() && State() == Freed(old(State()), p)
      ensures Holds(At(q), n, content)
      ensures forall k: nat ::
        (k < bytes.Length && PayloadByte(old(blocks), k) && !(p <= k < p + Capacity(old(State()), p)) && !(q <= k < q + n)) ==>
          bytes[k] == old(bytes[k])
    {
      ghost var s := State();
      Copy(q, p, n);
      ghost var copied := bytes[..];
      Free(At(p));
      StillHeld(s, p, q, n, copied, bytes[..]);
      assert bytes[q..q + n] == content;
    }

    /** Bytes kept by a free, seen in one slice. */
    static lemma StillHeld(s: SmallHeapSpec.State, p: int, q: nat, n: nat, was: seq<bv8>, now: seq<bv8>)
      requires |was| == |now| && q + n <= |was| && AllPayload(s.blocks, q, q + n) && (q + n <= p || p + Capacity(s, p) <= q)
      requires forall k: nat :: k < |was| && PayloadByte(s.blocks, k) && !(p <= k < p + Capacity(s, p)) ==> now[k] == was[k]
      ensures now[q..q + n] == was[q..q + n]
    {
    }

    /** rt_malloc, and what it leaves alone: seen from the owner of p. */
    method MallocBeside(p: nat, size: nat, newsize: nat, n: nat, ghost content: seq<bv8>) returns (r: Ptr)
      requires Valid() && Live(State(), p) && size == Capacity(State(), p) && n <= size
      requires p + size <= bytes.Length && bytes[p..p + n] == content
      modifies this, next, prev, used, bytes
      ensures Valid() && (State(), r) == SmallHeapSpec.Malloc(old(State()), newsize)
      ensures Kept(old(bytes[..]), old(blocks))
      ensures Live(State(), p) && Capacity(State(), p) == size
      ensures bytes[p..p + n] == content
      ensures r.At? ==> && Live(State(), r.offset) && newsize <= Capacity(State(), r.offset)
                        && 0 <= r.offset && r.offset + newsize <= bytes.Length
                        && (r.offset + newsize <= p || p + size <= r.offset)
                        && AllPayload(blocks, r.offset, r.offset + newsize)
                        && Beside(old(State()), State(), p, r.offset, newsize, old(bytes[..]), bytes[..])
    {
      ghost var s := State();
      MallocAddsOne(s, newsize, p);
      LivePayloadKept(s, p);
      r := Malloc(newsize);
      if r.At? {
        MallocPayload(s, newsize);
        LivePayloadsApart(State(), p, r.offset);
      }
    }

    /** The branch of rt_realloc that moves the payload: allocate, copy the first n bytes, free. */
    method Move(p: nat, size: nat, newsize: nat, n: nat) returns (r: Ptr)
      requires Valid() && Live(State(), p) && size == Capacity(State(), p) && n <= size && n <= newsize
      requires p + size <= bytes.Length
      modifies this, next, prev, used, bytes
      ensures Valid() && (State(), r) == Moved(old(State()), p, newsize)
      ensures OthersKept(old(State()), p)
      ensures r.At? ==> Carried(p, r, n)
    {
      ghost var s, was, content := State(), bytes[..], bytes[p..p + n];
      r := MallocBeside(p, size, newsize, n, content);
      if r.At? {
        MoveInto(p, r.offset, n, newsize, content, s, was);
      }
    }

    /** The second half of a move, seen from the state s before it. */
    method MoveInto(p: nat, q: nat, n: nat, ghost m: nat, ghost content: seq<bv8>, ghost s: SmallHeapSpec.State, ghost was: seq<bv8>)
      requires Valid() && Live(State(), p) && Live(State(), q) && p + n <= bytes.Length && q + n <= bytes.Length && n <= m
      requires (q + n <= p || p + n <= q) && (q + n <= p || p + Capacity(State(), p) <= q)
      requires AllPayload(blocks, q, q + n) && bytes[p..p + n] == content
      requires Beside(s, State(), p, q, m, was, bytes[..])
      modifies this, next, prev, used, bytes
      ensures Valid() && State() == Freed(old(State()), p)
      ensures Holds(At(q), n, content)
      ensures forall k: nat :: k < bytes.Length && PayloadByte(s.blocks, k) && !(p <= k < p + Capacity(s, p)) ==> bytes[k] == was[k]
    {
      ghost var t, now := State(), bytes[..];
      CopyAndFree(p, q, n, content);
      StillKept(s, t, p, q, n, m, was, now, bytes[..]);
    }

    /** Between s and t, q got m bytes that belonged to nobody, and nobody lost any: not p, nor anyone else. */
    static ghost predicate Beside(s: SmallHeapSpec.State, t: SmallHeapSpec.State, p: int, q: int, m: nat, was: seq<bv8>, now: seq<bv8>) {
      && Live(s, p) && Live(t, p) && Capacity(t, p) == Capacity(s, p)
      && |was| == |now| && NoPayload(s.blocks, q, q + m)
      && forall k: nat :: k < |was| && PayloadByte(s.blocks, k) ==> now[k] == was[k] && PayloadByte(t.blocks, k)
    }

    /** Bytes kept by an allocation, then by a copy into what it returned. */
    static lemma StillKept(s: SmallHeapSpec.State, t: SmallHeapSpec.State, p: int, q: nat, n: nat, m: nat,
                           was: seq<bv8>, now: seq<bv8>, end: seq<bv8>)
      requires Beside(s, t, p, q, m, was, now) && n <= m && |now| == |end|
      requires forall k: nat :: k < |was| && PayloadByte(t.blocks, k) && !(p <= k < p + Capacity(t, p)) && !(q <= k < q + n) ==> end[k] == now[k]
      ensures forall k: nat :: k < |was| && PayloadByte(s.blocks, k) && !(p <= k < p + Capacity(s, p)) ==> end[k] == was[k]
    {
    }

    /** The n bytes from r on are these. */
    ghost predicate Holds(r: Ptr, n: int, content: seq<bv8>)
      reads bytes
    {
      r.At? && 0 <= n && 0 <= r.offset && r.offset + n <= bytes.Length && bytes[r.offset..r.offset + n] == content
    }

    /** rt_realloc for a live payload. */
    method Resize(p: nat, wanted: nat) returns (r: Ptr)
      requires Valid() && Live(State(), p)
      modifies this, next, prev, used, bytes
      ensures Valid() && (State(), r) == Resized(old(State()), p, wanted)
      ensures OthersKept(old(State()), p)
      ensures r.At? ==> Carried(p, r, Min(Capacity(old(State()), p), wanted))
    {
      var size := PayloadSize(p);
      var n := if size < wanted then size else wanted;
      if size == wanted {
        return At(p);
      }
      if wanted + HEADER + MIN_SIZE < size {
        Cut(p, wanted);
        return At(p);
      }
      r := Move(p, size, wanted, n);
    }

    /** The bytes a live payload can hold, from the headers. */
    method PayloadSize(p: nat) returns (size: nat)
      requires Valid() && Live(State(), p)
      ensures size == Capacity(State(), p) && p + size <= bytes.Length
    {
      LivePayloadInside(State(), p);
      ghost var (pre, b, post) := SmallHeapSpec.Around(State(), p);
      HeadIsLaid(Table(), pre, b, post, p - HEADER);
      SplitThree(pre, b, post);
      var ptr := p - HEADER;
      size := next[ptr] - ptr - HEADER;
    }

    /** The first n bytes of what was at p are at r now. */
    twostate predicate Carried(p: int, r: Ptr, n: int)
      reads bytes
    {
      0 <= p && 0 <= n && p + n <= bytes.Length && Holds(r, n, old(bytes[p..p + n]))
    }

    /** rt_realloc: a payload keeps its first bytes, as many as the old and the new size share. */
    method Realloc(p: Ptr, newsize: nat) returns (r: Ptr)
      requires Valid() && Passable(State(), p)
      modifies this, next, prev, used, bytes
      ensures Valid() && (State(), r) == SmallHeapRuns.Realloc(old(State()), p, newsize)
      ensures !Inside(old(State()), p) ==> Kept(old(bytes[..]), old(blocks))
      ensures Inside(old(State()), p) ==> OthersKept(old(State()), p.offset)
      ensures Inside(old(State()), p) && r.At? ==> Carried(p.offset, r, Min(Capacity(old(State()), p.offset), Align(newsize)))
    {
      r := Null;
      var wanted := Align(newsize);
      if wanted <= memSize {
        if p.Null? {
          r := Malloc(wanted);
        } else if p.offset < 0 || p.offset >= memSize + HEADER {
          r := p;
        } else {
          r := Resize(p.offset, wanted);
        }
      }
    }
  }
}
