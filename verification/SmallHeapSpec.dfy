/**
 What the small heap of src/mem.c means: a sequence of blocks, each a header and a payload, that fills
 the heap from offset 0 to heap_end.
 */
module SmallHeapSpec {
  import opened Kernel
  import opened Blocks

  /** SIZEOF_STRUCT_MEM, MIN_SIZE_ALIGNED and MIN_SIZE for RT_ALIGN_SIZE 8 and 32-bit size fields. */
  const HEADER := 16
  const MIN_ALIGNED := 16
  const MIN_SIZE := 12

  /** lfree is an offset; usedMem and maxMem are the statistics. */
  datatype State = State(blocks: seq<Block>, lfree: nat, usedMem: int, maxMem: int)

  /** RT_ALIGN(n, 8) */
  function Align(n: nat): (r: nat)
    ensures r % 8 == 0 && n <= r < n + 8
  {
    (n + 7) / 8 * 8
  }

  /** RT_ALIGN_DOWN(n, 8) */
  function AlignDown(n: nat): (r: nat)
    ensures r % 8 == 0 && r <= n < r + 8
  {
    n / 8 * 8
  }

  function Max(a: int, b: int): int {
    if a < b then b else a
  }

  function Min(a: int, b: int): int {
    if a < b then a else b
  }

  // ----- measures -----------------------------------------------------------------------------

  /** Every block whose header lies below the limit is used. */
  ghost predicate UsedBelow(blocks: seq<Block>, limit: int) {
    blocks == [] || limit <= 0 || (blocks[0].used && UsedBelow(blocks[1..], limit - blocks[0].size))
  }

  /** Offset of the first unused block, or of the end. */
  function FirstFree(blocks: seq<Block>): nat {
    if blocks == [] || !blocks[0].used then 0 else blocks[0].size + FirstFree(blocks[1..])
  }

  // ----- concatenation ------------------------------------------------------------------------

  lemma {:induction false} UsedBelowConcat(a: seq<Block>, b: seq<Block>, limit: int)
    ensures UsedBelow(a + b, limit) <==> UsedBelow(a, limit) && UsedBelow(b, limit - Total(a))
  {
    if a == [] {
      assert a + b == b;
    } else {
      assert (a + b)[1..] == a[1..] + b;
      if limit <= 0 {
      } else {
        UsedBelowConcat(a[1..], b, limit - a[0].size);
      }
    }
  }

  // ----- operations ---------------------------------------------------------------------------

  /** NULL, or an offset from heap_ptr (any offset: callers may pass foreign pointers to realloc). */
  datatype Ptr = Null | At(offset: int)

  /** mem_size_aligned: everything but the headers at both ends. */
  function MemSize(blocks: seq<Block>): int {
    Total(blocks) - HEADER
  }

  /** Index of the first unused block with room for size bytes whose header is in [from, limit). */
  function Fit(blocks: seq<Block>, off: nat, from: nat, size: nat, limit: int): (r: Option<nat>)
    ensures r.Some? ==> r.value < |blocks|
    decreases |blocks|
  {
    if blocks == [] || off >= limit then None
    else if off >= from && !blocks[0].used && blocks[0].size >= HEADER + size then Some(0)
    else match Fit(blocks[1..], off + blocks[0].size, from, size, limit)
      case None => None
      case Some(i) => Some(i + 1)
  }

  /** An unused block after size bytes of it have been handed out: split if a useful rest remains. */
  function Carved(b: Block, size: nat): seq<Block> {
    if b.size >= size + HEADER + HEADER + MIN_ALIGNED then [Block(size + HEADER, true), Block(b.size - size - HEADER, false)]
    else [Block(b.size, true)]
  }

  /** The size rt_malloc looks for, when it looks at all. */
  function Wanted(size: nat): nat {
    if Align(size) < MIN_ALIGNED then MIN_ALIGNED else Align(size)
  }

  function Allocated(s: State, i: nat, size: nat): State
    requires i < |s.blocks|
  {
    var (pre, b, post) := (s.blocks[..i], s.blocks[i], s.blocks[i + 1..]);
    var off := Total(pre);
    var used := s.usedMem + Carved(b, size)[0].size;
    State(pre + (Carved(b, size) + post),
          if off == s.lfree then off + FirstFree(Carved(b, size) + post) else s.lfree,
          used, Max(s.maxMem, used))
  }

  /** What the critical section of rt_malloc does for a rounded size. */
  function Scanned(s: State, wanted: nat): (State, Ptr) {
    match Fit(s.blocks, 0, s.lfree, wanted, MemSize(s.blocks) - wanted)
    case None => (s, Null)
    case Some(i) => (Allocated(s, i, wanted), At(Total(s.blocks[..i]) + HEADER))
  }

  function Malloc(s: State, size: nat): (State, Ptr) {
    if size == 0 || Align(size) > MemSize(s.blocks) then (s, Null) else Scanned(s, Wanted(size))
  }

  /** The lowest-free offset after such a merge: it follows a header that disappears. */
  function MergedLfree(pre: seq<Block>, hole: Block, post: seq<Block>, lfree: nat): nat {
    var off := Total(pre);
    var l := if post != [] && !post[0].used && lfree == off + hole.size then off else lfree;
    if pre != [] && !pre[|pre| - 1].used && l == off then Total(pre[..|pre| - 1]) else l
  }

  /** p is what a malloc returned and no free has taken back. */
  ghost predicate Live(s: State, p: int) {
    UsedAt(s.blocks, p - HEADER)
  }

  /** The blocks around a live payload: those before it, its own, those behind it. */
  ghost function Around(s: State, p: int): (r: (seq<Block>, Block, seq<Block>))
    requires Live(s, p)
    ensures s.blocks == r.0 + ([r.1] + r.2) && Total(r.0) == p - HEADER
    ensures r.1 == Block(SizeAt(s.blocks, p - HEADER), true)
  {
    UsedAtIndex(s.blocks, p - HEADER);
    var i := IndexAt(s.blocks, p - HEADER);
    SplitAround(s.blocks, i);
    (s.blocks[..i], s.blocks[i], s.blocks[i + 1..])
  }

  /** The bytes a live payload can hold. */
  function Capacity(s: State, p: int): int {
    SizeAt(s.blocks, p - HEADER) - HEADER
  }

  ghost function Freed(s: State, p: int): State
    requires Live(s, p)
  {
    var (pre, b, post) := Around(s, p);
    var hole := Block(b.size, false);
    State(Merged(pre, hole, post), MergedLfree(pre, hole, post, Min(s.lfree, Total(pre))), s.usedMem - b.size, s.maxMem)
  }

  /** The payload at p cut to size bytes; the rest becomes a hole. lfree is not lowered. */
  ghost function Shrunk(s: State, p: int, size: nat): State
    requires Live(s, p) && size <= Capacity(s, p)
  {
    var (pre, b, post) := Around(s, p);
    var front := pre + [Block(size + HEADER, true)];
    var hole := Block(b.size - size - HEADER, false);
    State(Merged(front, hole, post), MergedLfree(front, hole, post, s.lfree), s.usedMem - hole.size, s.maxMem)
  }

  // ----- the invariant ------------------------------------------------------------------------

  /** The last block has room for a payload; so a live pointer is never heap_end itself. */
  ghost predicate LastRoomy(blocks: seq<Block>) {
    blocks != [] && blocks[|blocks| - 1].size >= HEADER + MIN_SIZE
  }

  /** Blocks tile the heap, no two neighbours are both unused, lfree is unused or heap_end, usedMem is exact. */
  ghost predicate Inv(s: State) {
    && Sized(s.blocks) && NoTwoFree(s.blocks) && MemSize(s.blocks) >= MIN_ALIGNED && LastRoomy(s.blocks)
    && (s.lfree == Total(s.blocks) || FreeAt(s.blocks, s.lfree))
    && s.usedMem == UsedBytes(s.blocks) <= s.maxMem
  }

  /** lfree is really the lowest unused block. */
  ghost predicate LfreeLowest(s: State) {
    UsedBelow(s.blocks, s.lfree)
  }

  lemma {:induction false} FirstFreeIsFree(blocks: seq<Block>)
    requires Sized(blocks)
    ensures FirstFree(blocks) == Total(blocks) || FreeAt(blocks, FirstFree(blocks))
    ensures UsedBelow(blocks, FirstFree(blocks))
  {
    if blocks != [] && blocks[0].used {
      FirstFreeIsFree(blocks[1..]);
    }
  }

  lemma {:induction false} UsedBelowAll(blocks: seq<Block>, limit: int, more: int)
    requires Sized(blocks) && UsedBelow(blocks, limit) && limit >= Total(blocks)
    ensures UsedBelow(blocks, more)
  {
    if blocks != [] {
      UsedBelowAll(blocks[1..], limit - blocks[0].size, more - blocks[0].size);
    }
  }

  lemma {:induction false} UsedBelowLess(blocks: seq<Block>, limit: int, less: int)
    requires UsedBelow(blocks, limit) && less <= limit
    ensures UsedBelow(blocks, less)
  {
    if blocks != [] && less > 0 {
      UsedBelowLess(blocks[1..], limit - blocks[0].size, less - blocks[0].size);
    }
  }

  // ----- malloc -------------------------------------------------------------------------------

  /** The block at index i can be handed out by a scan of [from, limit). */
  ghost predicate Fits(blocks: seq<Block>, off: nat, from: nat, size: nat, limit: int, i: nat)
    requires i < |blocks|
  {
    !blocks[i].used && blocks[i].size >= HEADER + size && from <= off + Total(blocks[..i]) < limit
  }

  /** The scan finds the first block that fits, and nothing only if none fits. */
  lemma {:induction false} FitIsFirst(blocks: seq<Block>, off: nat, from: nat, size: nat, limit: int)
    ensures match Fit(blocks, off, from, size, limit)
            case Some(i) => Fits(blocks, off, from, size, limit, i)
                            && forall k: nat :: k < i ==> !Fits(blocks, off, from, size, limit, k)
            case None => forall k: nat :: k < |blocks| ==> !Fits(blocks, off, from, size, limit, k)
    decreases |blocks|
  {
    if blocks != [] {
      var rest := blocks[1..];
      FitIsFirst(rest, off + blocks[0].size, from, size, limit);
      forall k: nat | 0 < k < |blocks|
        ensures Fits(blocks, off, from, size, limit, k) <==> Fits(rest, off + blocks[0].size, from, size, limit, k - 1)
        ensures off + Total(blocks[..k]) == off + blocks[0].size + Total(rest[..k - 1])
      {
        assert blocks[..k] == [blocks[0]] + rest[..k - 1];
      }
    }
  }

  lemma CarvedFacts(b: Block, size: nat)
    requires b.size >= HEADER + size
    ensures var c := Carved(b, size);
            && Total(c) == b.size && Sized(c) && NoTwoFree(c) && c[0].used && c[0].size >= HEADER + size
            && UsedBytes(c) == c[0].size
  {
    var c := Carved(b, size);
    if |c| == 2 {
      assert c[1..] == [c[1]] && c[1..][1..] == [];
      assert Total(c[1..]) == c[1].size && UsedBytes(c[1..]) == 0;
    } else {
      assert c[1..] == [];
    }
  }

  lemma CarvedLfree(pre: seq<Block>, b: Block, post: seq<Block>, size: nat, l: nat)
    requires Sized(pre) && SizedBlock(b) && Sized(post) && !b.used && b.size >= HEADER + size
    requires l <= Total(pre)
    ensures var (u, v) := (pre + ([b] + post), pre + (Carved(b, size) + post));
            var l' := if Total(pre) == l then l + FirstFree(Carved(b, size) + post) else l;
            && (l == Total(u) || FreeAt(u, l) ==> l' == Total(v) || FreeAt(v, l'))
            && (UsedBelow(u, l) ==> UsedBelow(v, l'))
  {
    var tail := Carved(b, size) + post;
    var l' := if Total(pre) == l then l + FirstFree(tail) else l;
    CarvedFacts(b, size);
    SizedConcat(Carved(b, size), post);
    FirstFreeIsFree(tail);
    TotalConcat(pre, [b] + post);
    TotalConcat(pre, tail);
    FreeAtConcat(pre, [b] + post, l);
    FreeAtConcat(pre, tail, l');
    UsedBelowConcat(pre, [b] + post, l);
    UsedBelowConcat(pre, tail, l');
    if Total(pre) == l && UsedBelow(pre, l) {
      UsedBelowAll(pre, l, l');
    }
  }

  lemma CarvedShape(pre: seq<Block>, b: Block, post: seq<Block>, size: nat)
    requires Sized(pre) && SizedBlock(b) && Sized(post) && !b.used && b.size >= HEADER + size
    ensures var (u, v) := (pre + ([b] + post), pre + (Carved(b, size) + post));
            && Sized(v) && Total(v) == Total(u)
            && UsedBytes(v) == UsedBytes(u) + Carved(b, size)[0].size
            && (NoTwoFree(u) ==> NoTwoFree(v))
  {
    CarvedFacts(b, size);
    TotalThree(pre, [b], post);
    TotalThree(pre, Carved(b, size), post);
    NoTwoFreeThree(pre, [b], post);
    NoTwoFreeThree(pre, Carved(b, size), post);
    assert [b][1..] == [];
  }

  lemma CarvedLast(pre: seq<Block>, b: Block, post: seq<Block>, size: nat)
    requires LastRoomy(pre + ([b] + post))
    ensures LastRoomy(pre + (Carved(b, size) + post))
  {
  }

  lemma AllocatedKeepsLowest(s: State, i: nat, size: nat)
    requires Sized(s.blocks) && LfreeLowest(s)
    requires i < |s.blocks| && !s.blocks[i].used && s.blocks[i].size >= HEADER + size && s.lfree <= Total(s.blocks[..i])
    ensures LfreeLowest(Allocated(s, i, size))
  {
    SplitAt(s.blocks, i);
    CarvedLfree(s.blocks[..i], s.blocks[i], s.blocks[i + 1..], size, s.lfree);
    assert UsedBelow(s.blocks[..i] + ([s.blocks[i]] + s.blocks[i + 1..]), s.lfree);
  }

  lemma AllocatedShape(s: State, i: nat, size: nat)
    requires Inv(s) && i < |s.blocks| && !s.blocks[i].used && s.blocks[i].size >= HEADER + size && s.lfree <= Total(s.blocks[..i])
    ensures Inv(Allocated(s, i, size)) && Total(Allocated(s, i, size).blocks) == Total(s.blocks)
  {
    var (pre, b, post) := (s.blocks[..i], s.blocks[i], s.blocks[i + 1..]);
    SplitAt(s.blocks, i);
    CarvedShape(pre, b, post, size);
    CarvedLast(pre, b, post, size);
    CarvedLfree(pre, b, post, size, s.lfree);
  }

  /** Handing out a block the scan found keeps the shape, the accounting and the lowest-free pointer. */
  lemma AllocatedKeepsInv(s: State, i: nat, size: nat, limit: int)
    requires Inv(s) && limit <= MemSize(s.blocks)
    requires i < |s.blocks| && Fits(s.blocks, 0, s.lfree, size, limit, i)
    ensures Inv(Allocated(s, i, size)) && Total(Allocated(s, i, size).blocks) == Total(s.blocks)
    ensures LfreeLowest(s) ==> LfreeLowest(Allocated(s, i, size))
  {
    AllocatedShape(s, i, size);
    if LfreeLowest(s) {
      AllocatedKeepsLowest(s, i, size);
    }
  }

  lemma CarvedView(b: Block, size: nat, post: seq<Block>, off: int)
    requires SizedBlock(b) && !b.used && b.size >= HEADER + size
    ensures var (u, v) := ([b] + post, Carved(b, size) + post);
            && (UsedAt(v, off) <==> UsedAt(u, off) || off == 0)
            && (UsedAt(u, off) ==> SizeAt(v, off) == SizeAt(u, off) && off != 0)
            && SizeAt(v, 0) >= HEADER + size
  {
    var c := Carved(b, size);
    assert ([b] + post)[1..] == post;
    if |c| == 2 {
      assert (c + post)[1..] == [c[1]] + post && ([c[1]] + post)[1..] == post;
      if off > c[0].size {
        assert UsedAt(c + post, off) == UsedAt([c[1]] + post, off - c[0].size) == UsedAt(post, off - c[0].size - c[1].size);
        if off > b.size {
          assert SizeAt(c + post, off) == SizeAt([c[1]] + post, off - c[0].size) == SizeAt(post, off - c[0].size - c[1].size);
        }
      }
    } else {
      assert (c + post)[1..] == post;
    }
  }

  lemma CarvedInPlace(pre: seq<Block>, b: Block, post: seq<Block>, size: nat, off: int)
    requires Sized(pre) && SizedBlock(b) && !b.used && b.size >= HEADER + size
    ensures var (u, v, t) := (pre + ([b] + post), pre + (Carved(b, size) + post), Total(pre));
            && (UsedAt(v, off) <==> UsedAt(u, off) || off == t)
            && (UsedAt(u, off) ==> SizeAt(v, off) == SizeAt(u, off) && off != t)
            && UsedAt(v, t) && SizeAt(v, t) >= HEADER + size
  {
    CarvedView(b, size, post, off - Total(pre));
    UsedAtConcat(pre, [b] + post, off);
    UsedAtConcat(pre, Carved(b, size) + post, off);
    UsedAtConcat(pre, Carved(b, size) + post, Total(pre));
    CarvedView(b, size, post, 0);
  }

  /** Every payload that was live stays live and keeps its size; the new one was not live and has the room asked for. */
  lemma AllocatedKeepsLive(s: State, i: nat, size: nat, p: int)
    requires Sized(s.blocks)
    requires i < |s.blocks| && !s.blocks[i].used && s.blocks[i].size >= HEADER + size
    ensures var r, q := Allocated(s, i, size), Total(s.blocks[..i]) + HEADER;
            && (Live(r, p) <==> Live(s, p) || p == q)
            && (Live(s, p) ==> Capacity(r, p) == Capacity(s, p) && p != q)
            && Live(r, q) && Capacity(r, q) >= size
  {
    SplitAt(s.blocks, i);
    CarvedInPlace(s.blocks[..i], s.blocks[i], s.blocks[i + 1..], size, p - HEADER);
  }

  // ----- free and shrink: making a hole -------------------------------------------------------

  /**
   In heap v lfree l' is as good as l in heap u: a legal value if l was, and still below every unused block
   if l was.
   */
  ghost predicate SameLfree(u: seq<Block>, l: int, v: seq<Block>, l': int) {
    && (l == Total(u) || FreeAt(u, l) ==> l' == Total(v) || FreeAt(v, l'))
    && (UsedBelow(u, l) ==> UsedBelow(v, l'))
  }

  lemma FuseFree(pre: seq<Block>, x: Block, y: Block, post: seq<Block>, l: int)
    requires !x.used && !y.used && x.size > 0 && y.size > 0 && Sized(pre)
    ensures var (u, v) := (pre + ([x, y] + post), pre + ([Block(x.size + y.size, false)] + post));
            && Total(u) == Total(v)
            && (FreeAt(u, l) ==> FreeAt(v, if l == Total(pre) + x.size then Total(pre) else l))
  {
    var (a, b) := ([x, y] + post, [Block(x.size + y.size, false)] + post);
    var rel := l - Total(pre);
    assert a[1..] == [y] + post && a[1..][1..] == post && b[1..] == post;
    assert Total(a) == x.size + Total(a[1..]);
    TotalConcat(pre, a);
    TotalConcat(pre, b);
    FreeAtConcat(pre, a, l);
    FreeAtConcat(pre, b, l);
    FreeAtConcat(pre, b, Total(pre));
    if rel > x.size {
      assert FreeAt(a, rel) == FreeAt(a[1..], rel - x.size) == FreeAt(post, rel - x.size - y.size);
      assert FreeAt(b, rel) == FreeAt(post, rel - b[0].size);
    }
  }

  lemma FuseUsedBelow(pre: seq<Block>, x: Block, y: Block, post: seq<Block>, l: int)
    requires !x.used && !y.used && x.size > 0 && y.size > 0 && UsedBelow(pre + ([x, y] + post), l)
    ensures UsedBelow(pre + ([Block(x.size + y.size, false)] + post), if l == Total(pre) + x.size then Total(pre) else l)
  {
    var (a, b) := ([x, y] + post, [Block(x.size + y.size, false)] + post);
    UsedBelowConcat(pre, a, l);
    assert l <= Total(pre);
    UsedBelowConcat(pre, b, l);
  }

  /** Fusing two unused neighbours anywhere in the heap. */
  lemma FuseLfree(u: seq<Block>, l: int, v: seq<Block>, l': int, pre: seq<Block>, x: Block, y: Block, post: seq<Block>)
    requires !x.used && !y.used && x.size > 0 && y.size > 0 && Sized(pre)
    requires u == pre + ([x, y] + post) && v == pre + ([Block(x.size + y.size, false)] + post)
    requires l' == if l == Total(pre) + x.size then Total(pre) else l
    ensures SameLfree(u, l, v, l')
  {
    FuseFree(pre, x, y, post, l);
    assert UsedBelow(u, l) ==> UsedBelow(v, l') by {
      if UsedBelow(u, l) { FuseUsedBelow(pre, x, y, post, l); }
    }
    assert l == Total(u) ==> l' == Total(v) by {
      TotalConcat(pre, [x, y] + post);
      assert ([x, y] + post)[1..] == [y] + post;
    }
  }

  lemma AbsorbedLfree(u: seq<Block>, v: seq<Block>, pre: seq<Block>, hole: Block, post: seq<Block>, l: nat, l1: nat)
    requires Sized(pre) && Sized(post) && hole.size > 0 && !hole.used
    requires u == pre + ([hole] + post) && v == pre + ([Absorbed(hole, post).0] + Absorbed(hole, post).1)
    requires l1 == if post != [] && !post[0].used && l == Total(pre) + hole.size then Total(pre) else l
    ensures SameLfree(u, l, v, l1)
  {
    if post != [] && !post[0].used {
      assert SizedBlock(post[0]);
      assert [hole] + post == [hole, post[0]] + post[1..];
      FuseLfree(u, l, v, l1, pre, hole, post[0], post[1..]);
    }
  }

  lemma JoinedLfree(pre: seq<Block>, hole: Block, post: seq<Block>, l: nat)
    requires Sized(pre) && hole.size > 0 && !hole.used
    ensures var l1 := if pre != [] && !pre[|pre| - 1].used && l == Total(pre) then Total(pre[..|pre| - 1]) else l;
            SameLfree(pre + ([hole] + post), l, Joined(pre, hole, post), l1)
  {
    if pre != [] && !pre[|pre| - 1].used {
      var (front, last) := (pre[..|pre| - 1], pre[|pre| - 1]);
      assert Total(pre) == Total(front) + last.size && Sized(front) && last.size > 0 by { LastOf(pre); }
      LastTwo(pre, hole, post);
      var l1 := if l == Total(pre) then Total(front) else l;
      FuseLfree(pre + ([hole] + post), l, Joined(pre, hole, post), l1, front, last, hole, post);
    }
  }

  /** Merging a hole with its unused neighbours leaves lfree as good as it was. */
  lemma MergedLfreeGood(pre: seq<Block>, hole: Block, post: seq<Block>, l: nat)
    requires Sized(pre) && Sized(post) && hole.size > 0 && !hole.used
    ensures SameLfree(pre + ([hole] + post), l, Merged(pre, hole, post), MergedLfree(pre, hole, post, l))
  {
    var l1 := if post != [] && !post[0].used && l == Total(pre) + hole.size then Total(pre) else l;
    var (b, rest) := Absorbed(hole, post);
    AbsorbedLfree(pre + ([hole] + post), pre + ([b] + rest), pre, hole, post, l, l1);
    JoinedLfree(pre, b, rest, l1);
  }

  lemma MergedLast(pre: seq<Block>, hole: Block, post: seq<Block>)
    requires LastRoomy([hole] + post)
    ensures LastRoomy(Merged(pre, hole, post))
  {
    var (b, rest) := Absorbed(hole, post);
    assert LastRoomy([b] + rest);
  }

  /** Everything Inv says, of a heap that still has a hole to merge. */
  lemma HoleKeepsInv(pre: seq<Block>, hole: Block, post: seq<Block>, l: nat, used: int, max: int)
    requires Gap(pre, hole, post) && Total(pre) + hole.size + Total(post) >= HEADER + MIN_ALIGNED
    requires l == Total(pre) + hole.size + Total(post) || FreeAt(pre + ([hole] + post), l)
    requires used == UsedBytes(pre) + UsedBytes(post) <= max
    requires LastRoomy([hole] + post)
    ensures var r := State(Merged(pre, hole, post), MergedLfree(pre, hole, post, l), used, max);
            && Inv(r) && Total(r.blocks) == Total(pre) + hole.size + Total(post)
            && (UsedBelow(pre + ([hole] + post), l) ==> LfreeLowest(r))
  {
    MergedKeeps(pre, hole, post);
    MergedLast(pre, hole, post);
    assert Total(pre + ([hole] + post)) == Total(pre) + hole.size + Total(post) by {
      TotalThree(pre, [hole], post);
      assert [hole][1..] == [];
    }
    MergedLfreeGood(pre, hole, post, l);
  }

  /** Inv around a live payload, in pieces. */
  lemma LivePieces(s: State, p: int)
    requires Inv(s) && Live(s, p)
    ensures var (pre, b, post) := Around(s, p);
            && Gap(pre, Block(b.size, false), post) && LastRoomy([b] + post)
            && Total(s.blocks) == Total(pre) + b.size + Total(post)
            && UsedBytes(s.blocks) == UsedBytes(pre) + b.size + UsedBytes(post)
  {
    var (pre, b, post) := Around(s, p);
    TotalThree(pre, [b], post);
    NoTwoFreeThree(pre, [b], post);
    assert [b][1..] == [];
  }

  /** A block turned from used to unused: lfree is lowered to it if need be. */
  lemma TurnedLfree(pre: seq<Block>, b: Block, post: seq<Block>, l: nat)
    requires Sized(pre) && SizedBlock(b) && b.used
    ensures var (u, v) := (pre + ([b] + post), pre + ([Block(b.size, false)] + post));
            var l' := Min(l, Total(pre));
            && (l == Total(u) || FreeAt(u, l) ==> FreeAt(v, l'))
            && (UsedBelow(u, l) ==> UsedBelow(v, l'))
  {
    var (x, y) := ([b] + post, [Block(b.size, false)] + post);
    assert x[1..] == post && y[1..] == post;
    var l' := Min(l, Total(pre));
    TotalConcat(pre, x);
    FreeAtConcat(pre, x, l);
    FreeAtConcat(pre, y, l');
    UsedBelowConcat(pre, x, l);
    UsedBelowConcat(pre, y, l');
    if UsedBelow(pre, l) {
      UsedBelowLess(pre, l, l');
    }
  }

  /** Freeing a live payload keeps the shape, the accounting and the lowest-free pointer. */
  lemma FreedKeepsInv(s: State, p: int)
    requires Inv(s) && Live(s, p)
    ensures Inv(Freed(s, p)) && Total(Freed(s, p).blocks) == Total(s.blocks)
    ensures LfreeLowest(s) ==> LfreeLowest(Freed(s, p))
  {
    var (pre, b, post) := Around(s, p);
    var hole := Block(b.size, false);
    LivePieces(s, p);
    TurnedLfree(pre, b, post, s.lfree);
    HoleKeepsInv(pre, hole, post, Min(s.lfree, Total(pre)), s.usedMem - b.size, s.maxMem);
  }

  lemma HeadView(b: Block, c: Block, post: seq<Block>, off: int)
    requires b.size == c.size > 0 && b.used && !c.used
    ensures UsedAt([c] + post, off) <==> UsedAt([b] + post, off) && off != 0
    ensures off != 0 ==> SizeAt([c] + post, off) == SizeAt([b] + post, off)
  {
    assert ([b] + post)[1..] == post && ([c] + post)[1..] == post;
  }

  /** Free ends exactly one payload; every other one stays where it is with its size. */
  lemma FreedKeepsLive(s: State, p: int, q: int)
    requires Inv(s) && Live(s, p)
    ensures Live(Freed(s, p), q) <==> Live(s, q) && q != p
    ensures Live(s, q) && q != p ==> Capacity(Freed(s, p), q) == Capacity(s, q)
  {
    var (pre, b, post) := Around(s, p);
    var hole := Block(b.size, false);
    LivePieces(s, p);
    MergedUsedAt(pre, hole, post, q - HEADER);
    HeadView(b, hole, post, q - HEADER - Total(pre));
    UsedAtConcat(pre, [b] + post, q - HEADER);
    UsedAtConcat(pre, [hole] + post, q - HEADER);
  }

  // ----- cutting a block ----------------------------------------------------------------------

  /** A used block, and the same block cut into a used front and a hole. */
  lemma CutHead(b: Block, a: nat, post: seq<Block>, l: int, off: int)
    requires b.used && 0 < a < b.size
    ensures var (u, v) := ([b] + post, [Block(a, true), Block(b.size - a, false)] + post);
            && Total(u) == Total(v)
            && (FreeAt(u, l) ==> FreeAt(v, l) && l >= b.size)
            && (UsedBelow(u, l) ==> (UsedBelow(v, l) <==> l <= a))
            && (UsedAt(u, off) <==> UsedAt(v, off))
            && (UsedAt(u, off) ==> SizeAt(v, off) == if off == 0 then a else SizeAt(u, off))
  {
    var (u, v) := ([b] + post, [Block(a, true), Block(b.size - a, false)] + post);
    assert u[1..] == post && v[1..] == [v[1]] + post && v[1..][1..] == post;
    if l > a {
      assert FreeAt(v, l) == FreeAt(v[1..], l - a);
      assert l > b.size ==> FreeAt(v[1..], l - a) == FreeAt(post, l - a - (b.size - a));
    }
    if l > 0 {
      assert FreeAt(u, l) == FreeAt(post, l - b.size);
      assert l < b.size ==> !FreeAt(post, l - b.size);
    }
    if off > a {
      assert UsedAt(v, off) == UsedAt(v[1..], off - a) == UsedAt(post, off - a - (b.size - a));
      assert UsedAt(u, off) == UsedAt(post, off - b.size);
      if off >= b.size {
        assert SizeAt(v, off) == SizeAt(v[1..], off - a) == SizeAt(post, off - a - (b.size - a));
      }
    }
  }

  lemma CutAnywhere(pre: seq<Block>, b: Block, a: nat, post: seq<Block>, l: int, off: int)
    requires Sized(pre) && b.used && 0 < a < b.size
    ensures var (u, v) := (pre + ([b] + post), pre + ([Block(a, true), Block(b.size - a, false)] + post));
            && Total(u) == Total(v)
            && (FreeAt(u, l) ==> FreeAt(v, l) && (l < Total(pre) || l >= Total(pre) + b.size))
            && (FreeAt(u, l) && UsedBelow(u, l) ==> (UsedBelow(v, l) <==> l < Total(pre)))
            && (l == Total(u) ==> !UsedBelow(v, l))
            && (UsedAt(u, off) <==> UsedAt(v, off))
            && (UsedAt(u, off) ==> SizeAt(v, off) == if off == Total(pre) then a else SizeAt(u, off))
  {
    var (x, y) := ([b] + post, [Block(a, true), Block(b.size - a, false)] + post);
    CutHead(b, a, post, l - Total(pre), off - Total(pre));
    TotalConcat(pre, x);
    TotalConcat(pre, y);
    FreeAtConcat(pre, x, l);
    FreeAtConcat(pre, y, l);
    UsedBelowConcat(pre, x, l);
    UsedBelowConcat(pre, y, l);
    UsedAtConcat(pre, x, off);
    UsedAtConcat(pre, y, off);
  }

  lemma ShrunkPieces(s: State, p: int, size: nat)
    requires Inv(s) && Live(s, p) && size < Capacity(s, p)
    ensures var (pre, b, post) := Around(s, p);
            var (front, hole) := (pre + [Block(size + HEADER, true)], Block(b.size - size - HEADER, false));
            && front + ([hole] + post) == pre + ([Block(size + HEADER, true), hole] + post)
            && Total(front) == Total(pre) + size + HEADER && UsedBytes(front) == UsedBytes(pre) + size + HEADER
            && Sized(front) && NoTwoFree(front)
  {
    var (pre, b, post) := Around(s, p);
    var (cut, hole) := (Block(size + HEADER, true), Block(b.size - size - HEADER, false));
    LivePieces(s, p);
    TotalConcat(pre, [cut]);
    SizedConcat(pre, [cut]);
    NoTwoFreeConcat(pre, [cut]);
    assert [cut][1..] == [];
    assert [cut] + ([hole] + post) == [cut, hole] + post;
    assert pre + [cut] + ([hole] + post) == pre + ([cut] + ([hole] + post));
  }

  /** The source cuts only if the hole has room for a header and more than MIN_SIZE bytes. */
  ghost predicate Cuttable(s: State, p: int, size: nat) {
    Live(s, p) && size + HEADER + MIN_SIZE < Capacity(s, p)
  }

  /** Cutting a block keeps the shape and the accounting; lfree stays a legal value. */
  lemma ShrunkKeepsInv(s: State, p: int, size: nat)
    requires Inv(s) && Cuttable(s, p, size)
    ensures Inv(Shrunk(s, p, size)) && Total(Shrunk(s, p, size).blocks) == Total(s.blocks)
  {
    var (pre, b, post) := Around(s, p);
    var (front, hole) := (pre + [Block(size + HEADER, true)], Block(b.size - size - HEADER, false));
    LivePieces(s, p);
    ShrunkPieces(s, p, size);
    assert s.lfree == Total(s.blocks) || FreeAt(front + ([hole] + post), s.lfree) by {
      CutAnywhere(pre, b, size + HEADER, post, s.lfree, 0);
    }
    HoleKeepsInv(front, hole, post, s.lfree, s.usedMem - hole.size, s.maxMem);
  }

  /** Cutting changes no payload but the one that is cut, and that keeps its first size bytes. */
  lemma ShrunkKeepsLive(s: State, p: int, size: nat, q: int)
    requires Inv(s) && Cuttable(s, p, size)
    ensures Live(Shrunk(s, p, size), q) <==> Live(s, q)
    ensures Live(s, q) ==> Capacity(Shrunk(s, p, size), q) == if q == p then size else Capacity(s, q)
  {
    var (pre, b, post) := Around(s, p);
    var (front, hole) := (pre + [Block(size + HEADER, true)], Block(b.size - size - HEADER, false));
    LivePieces(s, p);
    ShrunkPieces(s, p, size);
    CutAnywhere(pre, b, size + HEADER, post, s.lfree, q - HEADER);
    MergedUsedAt(front, hole, post, q - HEADER);
  }

  /** The block behind the payload at p is unused. */
  ghost predicate NextUnused(s: State, p: int)
    requires Live(s, p)
  {
    var post := Around(s, p).2;
    post != [] && !post[0].used
  }

  /** If the block behind is the lowest unused one, everything in front of the hole is used. */
  lemma HoleIsLowest(pre: seq<Block>, b: Block, post: seq<Block>, a: nat, l: nat)
    requires Sized(pre) && SizedBlock(b) && b.used && 0 < a < b.size
    requires post != [] && !post[0].used && UsedBelow(pre + ([b] + post), l) && l >= Total(pre) + b.size
    ensures l == Total(pre) + b.size
    ensures UsedBelow(Merged(pre + [Block(a, true)], Block(b.size - a, false), post), Total(pre) + a)
  {
    var (front, hole) := (pre + [Block(a, true)], Block(b.size - a, false));
    assert ([b] + post)[1..] == post && [Block(a, true)][1..] == [];
    UsedBelowConcat(pre, [b] + post, l);
    UsedBelowAll(pre, l, Total(pre) + a);
    UsedBelowConcat(pre, [Block(a, true)], Total(pre) + a);
    TotalConcat(pre, [Block(a, true)]);
    UsedBelowConcat(front, [Absorbed(hole, post).0] + Absorbed(hole, post).1, Total(pre) + a);
    assert front[|front| - 1].used;
  }

  /**
   rt_realloc does not lower lfree when it cuts a block. lfree stays the lowest unused block exactly when it
   was below the block already, or the hole is merged with an unused block behind it.
   */
  lemma ShrunkLfree(s: State, p: int, size: nat)
    requires Inv(s) && LfreeLowest(s) && Cuttable(s, p, size)
    ensures LfreeLowest(Shrunk(s, p, size)) <==> s.lfree < p || NextUnused(s, p)
  {
    var (pre, b, post) := Around(s, p);
    var (front, hole) := (pre + [Block(size + HEADER, true)], Block(b.size - size - HEADER, false));
    LivePieces(s, p);
    ShrunkPieces(s, p, size);
    CutAnywhere(pre, b, size + HEADER, post, s.lfree, 0);
    assert front[|front| - 1].used;
    if NextUnused(s, p) && s.lfree >= Total(pre) + b.size {
      HoleIsLowest(pre, b, post, size + HEADER, s.lfree);
    } else if NextUnused(s, p) {
      MergedLfreeGood(front, hole, post, s.lfree);
    }
  }
}
