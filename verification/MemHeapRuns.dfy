/** What callers of a memory heap can rely on, over any history of allocations and frees. */
module MemHeapRuns {
  import opened Kernel
  import opened Blocks
  import opened MemHeapSpec
  import R = RtList

  function Capacity(s: State, p: int): int {
    SizeAt(s.blocks, p - HEADER) - HEADER
  }

  /** An allocation fails exactly when the request is not below the free total, or no listed block has room. */
  lemma AllocatedRefuses(s: State, size: nat)
    requires Inv(s)
    ensures Allocated(s, size).1.Null? <==>
            Wanted(size) >= s.available || forall x: nat :: FreeAt(s.blocks, x) ==> SizeAt(s.blocks, x) < HEADER + Wanted(size)
    ensures Allocated(s, size).1.Null? ==> Allocated(s, size).0 == s
  {
    FitIsFirst(s.blocks, s.free, Wanted(size));
    var k := Fit(s.blocks, s.free, Wanted(size));
    if k.Some? {
      ListedIsFree(s, k.value);
    } else {
      forall x: nat | FreeAt(s.blocks, x)
        ensures SizeAt(s.blocks, x) < HEADER + Wanted(size)
      {
        assert R.Count(s.free, x) == 1;
        var j := Listed(s.free, x);
        assert s.free[j] == x;
      }
    }
  }

  /** Where x is listed. */
  function Listed(free: seq<nat>, x: nat): (j: nat)
    requires R.Count(free, x) > 0
    ensures j < |free| && free[j] == x
  {
    if free[0] == x then 0 else 1 + Listed(free[1..], x)
  }

  lemma {:induction false} DroppedAt(list: seq<nat>, x: nat)
    requires R.Count(list, x) > 0
    ensures Dropped(list, x) == Without(list, Listed(list, x))
  {
    if list[0] != x {
      DroppedAt(list[1..], x);
      WithoutCons(list[0], list[1..], Listed(list[1..], x));
      assert [list[0]] + list[1..] == list;
    }
  }

  lemma WithoutCons(y: nat, tail: seq<nat>, k: nat)
    requires k < |tail|
    ensures [y] + Without(tail, k) == Without([y] + tail, k + 1)
  {
  }

  lemma CarvedUsedAt(b: Block, size: nat, post: seq<Block>, off: int)
    requires !b.used && b.size >= HEADER + size
    ensures var (u, v) := ([b] + post, Carved(b, size) + post);
            (UsedAt(v, off) <==> UsedAt(u, off) || off == 0) &&
            (UsedAt(u, off) ==> SizeAt(v, off) == SizeAt(u, off) && off != 0) &&
            SizeAt(v, 0) >= HEADER + size
  {
    var c := Carved(b, size);
    assert ([b] + post)[1..] == post;
    if |c| == 2 {
      assert (c + post)[1..] == [c[1]] + post && ([c[1]] + post)[1..] == post;
    } else {
      assert (c + post)[1..] == post;
    }
  }

  /** An allocation adds one live payload with room for the request and leaves the others as they are. */
  lemma AllocatedAddsOne(s: State, size: nat, p: int)
    requires Inv(s) && Allocated(s, size).1.At?
    ensures var (r, q) := Allocated(s, size);
            (Live(r, p) <==> Live(s, p) || p == q.offset) &&
            (Live(s, p) ==> Capacity(r, p) == Capacity(s, p) && p != q.offset) &&
            Live(r, q.offset) && Capacity(r, q.offset) >= Wanted(size)
  {
    var k := Fit(s.blocks, s.free, Wanted(size)).value;
    FirstWithRoom(s, Wanted(size), k);
    AddsOneAt(s, IndexAt(s.blocks, s.free[k]), k, Wanted(size), p, Allocated(s, size).0, Allocated(s, size).1.offset);
  }

  lemma AddsOneAt(s: State, i: nat, k: nat, w: nat, p: int, r: State, q: int)
    requires Inv(s) && k < |s.free| && i < |s.blocks| && !s.blocks[i].used && Total(s.blocks[..i]) == s.free[k]
    requires s.blocks[i].size >= HEADER + w && r == Taken(s, i, k, w) && q == s.free[k] + HEADER
    ensures (Live(r, p) <==> Live(s, p) || p == q) && (Live(s, p) ==> Capacity(r, p) == Capacity(s, p) && p != q)
    ensures Live(r, q) && Capacity(r, q) >= w
  {
    TakenAddsOne(s, i, k, w, p);
  }

  lemma TakenAddsOne(s: State, i: nat, k: nat, w: nat, p: int)
    requires Inv(s) && k < |s.free| && i < |s.blocks| && !s.blocks[i].used && Total(s.blocks[..i]) == s.free[k]
    requires s.blocks[i].size >= HEADER + w
    ensures var (r, q) := (Taken(s, i, k, w), s.free[k] + HEADER);
            (Live(r, p) <==> Live(s, p) || p == q) && (Live(s, p) ==> Capacity(r, p) == Capacity(s, p) && p != q) &&
            Live(r, q) && Capacity(r, q) >= w
  {
    var (pre, b, post) := (s.blocks[..i], s.blocks[i], s.blocks[i + 1..]);
    SplitAround(s.blocks, i);
    CarvedInPlace(pre, b, post, w, p - HEADER);
    TakenKeepsInv(s, i, k, w);
    BlockBeforeEnd(pre, b, post);
  }

  lemma CarvedInPlace(pre: seq<Block>, b: Block, post: seq<Block>, w: nat, off: int)
    requires Sized(pre + ([b] + post)) && !b.used && b.size >= HEADER + w
    ensures var (u, v, t) := (pre + ([b] + post), pre + (Carved(b, w) + post), Total(pre));
            (UsedAt(v, off) <==> UsedAt(u, off) || off == t) &&
            (UsedAt(u, off) ==> SizeAt(v, off) == SizeAt(u, off) && off != t) &&
            UsedAt(v, t) && SizeAt(v, t) >= HEADER + w
  {
    SizedConcat(pre, [b] + post);
    CarvedUsedAt(b, w, post, off - Total(pre));
    UsedAtConcat(pre, [b] + post, off);
    UsedAtConcat(pre, Carved(b, w) + post, off);
    UsedAtConcat(pre, Carved(b, w) + post, Total(pre));
  }

  lemma BlockBeforeEnd(pre: seq<Block>, b: Block, post: seq<Block>)
    requires Shaped(pre + ([b] + post)) && !b.used
    ensures Total(pre) + HEADER < Total(pre + ([b] + post)) && post != []
  {
    TotalThree(pre, [b], post);
    OneBlock(b);
    AtLeastConcat(pre, [b] + post, HEADER);
    assert post != [];
    assert ([b] + post)[1..] == post && post[0].size >= HEADER;
  }

  // ---- what is handed out, and the order of the free list ----

  /** The size looked for is a multiple of 8 not more than 7 bytes above the request, but at least 12. */
  lemma WantedIsLeast(size: nat)
    ensures Wanted(size) >= size && Wanted(size) >= 12
    ensures Wanted(size) == 12 || (Wanted(size) % 8 == 0 && Wanted(size) < size + 8)
  {
  }

  /** w bytes are taken from the k-th listed block, at p: all of it, or its front if the rest has room for a header and 12 bytes; that rest goes first on the list. */
  ghost predicate TakesFrom(s: State, w: nat, k: nat, r: State, p: int)
    requires k < |s.free|
  {
    var room := SizeAt(s.blocks, s.free[k]) - HEADER;
    var split := room >= w + HEADER + 12;
    && p == s.free[k] + HEADER && room >= w
    && TooSmall(s, k, w)
    && Capacity(r, p) == (if split then w else room)
    && r.free == (if split then [s.free[k] + HEADER + w] else []) + (s.free[..k] + s.free[k + 1..])
    && r.available == s.available - (if split then w + HEADER else room)
  }

  /** No block listed in front of the k-th has room for w bytes. */
  ghost predicate TooSmall(s: State, k: nat, w: nat)
    requires k <= |s.free|
  {
    forall j: nat :: j < k ==> SizeAt(s.blocks, s.free[j]) < HEADER + w
  }

  /** An allocation takes the first block of the list that has room. */
  lemma AllocatedHandsOut(s: State, size: nat) returns (k: nat)
    requires Inv(s) && Allocated(s, size).1.At?
    ensures k < |s.free| && TakesFrom(s, Wanted(size), k, Allocated(s, size).0, Allocated(s, size).1.offset)
  {
    k := Fit(s.blocks, s.free, Wanted(size)).value;
    FirstWithRoom(s, Wanted(size), k);
    TakenFrom(s, IndexAt(s.blocks, s.free[k]), k, Wanted(size), Allocated(s, size).0);
  }

  lemma FirstWithRoom(s: State, w: nat, k: nat)
    requires Inv(s) && Fit(s.blocks, s.free, w) == Some(k)
    ensures k < |s.free| && TooSmall(s, k, w) && SizeAt(s.blocks, s.free[k]) >= HEADER + w
    ensures var i := IndexAt(s.blocks, s.free[k]);
            i < |s.blocks| && !s.blocks[i].used && Total(s.blocks[..i]) == s.free[k] && s.blocks[i].size == SizeAt(s.blocks, s.free[k])
  {
    FitIsFirst(s.blocks, s.free, w);
    ListedIsFree(s, k);
  }

  lemma TakenFrom(s: State, i: nat, k: nat, w: nat, r: State)
    requires Inv(s) && k < |s.free| && i < |s.blocks| && !s.blocks[i].used && Total(s.blocks[..i]) == s.free[k]
    requires s.blocks[i].size == SizeAt(s.blocks, s.free[k]) >= HEADER + w && r == Taken(s, i, k, w)
    requires TooSmall(s, k, w)
    ensures TakesFrom(s, w, k, r, s.free[k] + HEADER)
  {
    var (pre, b, post) := (s.blocks[..i], s.blocks[i], s.blocks[i + 1..]);
    SplitAround(s.blocks, i);
    SizedConcat(pre, [b] + post);
    UsedAtConcat(pre, Carved(b, w) + post, s.free[k]);
  }

  /** An unused block ends where the header of payload q begins. */
  ghost predicate FreeInFront(s: State, q: int) {
    exists x: nat :: FreeAt(s.blocks, x) && x + SizeAt(s.blocks, x) == q - HEADER
  }

  lemma {:induction false} FreeEndsPrefix(pre: seq<Block>, x: nat)
    requires Sized(pre) && FreeAt(pre, x) && x + SizeAt(pre, x) == Total(pre)
    ensures !pre[|pre| - 1].used
  {
    if x > 0 {
      FreeEndsPrefix(pre[1..], x - pre[0].size);
    } else {
      FirstIsLess(pre);
    }
  }

  lemma FirstIsLess(blocks: seq<Block>)
    requires Sized(blocks)
    ensures |blocks| > 1 ==> blocks[0].size < Total(blocks)
  {
    assert |blocks| > 1 ==> SizedBlock(blocks[1..][0]);
  }

  lemma FrontExactly(s: State, q: int, pre: seq<Block>, rest: seq<Block>)
    requires Sized(s.blocks) && s.blocks == pre + rest && Total(pre) == q - HEADER
    ensures FreeInFront(s, q) <==> Left(pre)
  {
    SizedConcat(pre, rest);
    if Left(pre) {
      LastOf(pre);
      var (front, last) := (pre[..|pre| - 1], pre[|pre| - 1]);
      assert pre == front + [last];
      FreeAtConcat(front, [last], Total(front));
      UsedAtConcat(front, [last], Total(front));
      FreeAtConcat(pre, rest, Total(front));
      UsedAtConcat(pre, rest, Total(front));
    }
    if FreeInFront(s, q) {
      var x: nat :| FreeAt(s.blocks, x) && x + SizeAt(s.blocks, x) == q - HEADER;
      FreeAtConcat(pre, rest, x);
      UsedAtConcat(pre, rest, x);
      SizeIsPositive(s.blocks, x);
      FreeEndsPrefix(pre, x);
    }
  }

  lemma {:induction false} SizeIsPositive(blocks: seq<Block>, x: nat)
    requires Sized(blocks) && FreeAt(blocks, x)
    ensures SizeAt(blocks, x) > 0
  {
    if x > 0 {
      SizeIsPositive(blocks[1..], x - blocks[0].size);
    }
  }

  /** The list without the entry for x, which is on it. */
  ghost predicate ListedWithout(list: seq<nat>, x: nat, r: seq<nat>) {
    exists j: nat :: j < |list| && list[j] == x && r == list[..j] + list[j + 1..]
  }

  /** The free list, without the block at end if that is free. */
  ghost predicate OffTheList(s: State, end: int, tail: seq<nat>) {
    if FreeAt(s.blocks, end) then end >= 0 && ListedWithout(s.free, end, tail) else tail == s.free
  }

  /** A free block that follows is taken off the list; the block goes first on it, unless it is joined to a free one in front. */
  lemma FreedListsExactly(s: State, q: int, head: seq<nat>, tail: seq<nat>)
    requires Inv(s) && Live(s, q)
    requires head == if FreeInFront(s, q) then [] else [q - HEADER]
    requires OffTheList(s, q + Capacity(s, q), tail)
    ensures Freed(s, q).free == head + tail
  {
    LivePieces(s, q);
    var (pre, b, post) := Pieces(s.blocks, q - HEADER);
    PiecesListed(s, q, pre, b, post, head, tail, Total(pre) + b.size);
  }

  lemma PiecesListed(s: State, q: int, pre: seq<Block>, b: Block, post: seq<Block>, head: seq<nat>, tail: seq<nat>, end: nat)
    requires Inv(s) && s.blocks == pre + ([b] + post) && Total(pre) == q - HEADER && end == Total(pre) + b.size
    requires head == if FreeInFront(s, q) then [] else [q - HEADER]
    requires end == q + Capacity(s, q) ==> OffTheList(s, end, tail)
    ensures Returned(s, pre, b, post).free == head + tail
  {
    FrontExactly(s, q, pre, [b] + post);
    BehindExactly(pre, b, post);
    TailExactly(s, end, post, tail);
    HeadAndTail(s, pre, b, post, head, tail, Returned(s, pre, b, post));
  }

  lemma HeadAndTail(s: State, pre: seq<Block>, b: Block, post: seq<Block>, head: seq<nat>, tail: seq<nat>, r: State)
    requires r == Returned(s, pre, b, post) && head == (if Left(pre) then [] else [Total(pre)])
    requires tail == AfterRight(s.free, Total(pre) + b.size, post)
    ensures r.free == head + tail
  {
    assert [] + tail == tail;
  }

  lemma TailExactly(s: State, end: nat, post: seq<Block>, tail: seq<nat>)
    requires Inv(s) && (FreeAt(s.blocks, end) <==> Right(post))
    requires OffTheList(s, end, tail)
    ensures tail == AfterRight(s.free, end, post)
  {
    if Right(post) {
      var j: nat :| j < |s.free| && s.free[j] == end && tail == s.free[..j] + s.free[j + 1..];
      assert R.Count(s.free, end) == 1;
      OnlyOne(s.free, end, j);
    }
  }

  lemma BehindExactly(pre: seq<Block>, b: Block, post: seq<Block>)
    requires Sized(pre + ([b] + post))
    ensures SizeAt(pre + ([b] + post), Total(pre)) == b.size
    ensures FreeAt(pre + ([b] + post), Total(pre) + b.size) <==> Right(post)
  {
    SizedConcat(pre, [b] + post);
    UsedAtConcat(pre, [b] + post, Total(pre));
    FreeAtConcat(pre, [b] + post, Total(pre) + b.size);
    assert ([b] + post)[1..] == post;
  }

  /** What occurs once is dropped from where it is. */
  lemma {:induction false} OnlyOne(list: seq<nat>, x: nat, j: nat)
    requires R.Count(list, x) == 1 && j < |list| && list[j] == x
    ensures Dropped(list, x) == Without(list, j)
  {
    if list[0] == x {
      if j > 0 {
        R.CountPositive(list[1..], j - 1);
        assert false;
      }
    } else {
      OnlyOne(list[1..], x, j - 1);
      WithoutCons(list[0], list[1..], j - 1);
      assert list == [list[0]] + list[1..];
    }
  }

  /** A free takes one live payload away and leaves the others as they are. */
  lemma FreedTakesOne(s: State, q: int, p: int)
    requires Inv(s) && Live(s, q)
    ensures var r := Freed(s, q);
            (Live(r, p) <==> Live(s, p) && p != q) && (Live(r, p) ==> Capacity(r, p) == Capacity(s, p))
  {
    LivePieces(s, q);
    var (pre, b, post) := Pieces(s.blocks, q - HEADER);
    ReleasedInPlace(pre, b, post, p - HEADER);
    FreedKeepsInv(s, q);
    StillLive(s, pre, b, post, p - HEADER, Freed(s, q));
  }

  lemma StillLive(s: State, pre: seq<Block>, b: Block, post: seq<Block>, off: int, r: State)
    requires s.blocks == pre + ([b] + post) && r.blocks == Merged(pre, Block(b.size, false), post) && Total(r.blocks) == Total(s.blocks)
    requires UsedAt(r.blocks, off) <==> UsedAt(s.blocks, off) && off != Total(pre)
    requires UsedAt(r.blocks, off) ==> SizeAt(r.blocks, off) == SizeAt(s.blocks, off)
    ensures Live(r, off + HEADER) <==> Live(s, off + HEADER) && off != Total(pre)
    ensures Live(r, off + HEADER) ==> Capacity(r, off + HEADER) == Capacity(s, off + HEADER)
  {
  }

  lemma ReleasedInPlace(pre: seq<Block>, b: Block, post: seq<Block>, off: int)
    requires Sized(pre + ([b] + post)) && b.used
    ensures var (u, v) := (pre + ([b] + post), Merged(pre, Block(b.size, false), post));
            (UsedAt(v, off) <==> UsedAt(u, off) && off != Total(pre)) && (UsedAt(v, off) ==> SizeAt(v, off) == SizeAt(u, off))
  {
    var hole := Block(b.size, false);
    SizedConcat(pre, [b] + post);
    assert ([b] + post)[1..] == post && ([hole] + post)[1..] == post;
    MergedUsedAt(pre, hole, post, off);
    UsedAtConcat(pre, [b] + post, off);
    UsedAtConcat(pre, [hole] + post, off);
  }

  /** Live payloads lie inside the pool and do not overlap, nor does one reach into another's header. */
  lemma LivePayloadsDisjoint(s: State, p: int, q: int)
    requires Inv(s) && Live(s, p) && Live(s, q) && p < q
    ensures HEADER <= p && p + Capacity(s, p) <= q - HEADER && q + Capacity(s, q) <= Total(s.blocks)
  {
    UsedApart(s.blocks, p - HEADER, q - HEADER);
    UsedApart(s.blocks, q - HEADER, 0);
  }

  lemma AbsorbUndoesCarve(b: Block, post: seq<Block>, w: nat)
    requires !b.used && b.size >= HEADER + w && post != [] && post[0].used
    ensures var c := Carved(b, w);
            Absorbed(Block(c[0].size, false), c[1..] + post) == (b, post)
  {
    var c := Carved(b, w);
    var rest := c[1..] + post;
    if |c| == 2 {
      assert rest[1..] == post && rest[0] == c[1];
    } else {
      assert rest == post;
    }
  }

  /** Freeing what was just allocated restores the blocks, hence the free extents and their total. */
  lemma FreeUndoesAlloc(s: State, size: nat)
    requires Inv(s) && Allocated(s, size).1.At?
    ensures var (r, q) := Allocated(s, size);
            Live(r, q.offset) && Freed(r, q.offset).blocks == s.blocks && Freed(r, q.offset).available == s.available &&
            forall x: nat :: R.Count(Freed(r, q.offset).free, x) == R.Count(s.free, x)
  {
    var (r, q) := Allocated(s, size);
    var w := Wanted(size);
    var k := Fit(s.blocks, s.free, w).value;
    FitIsFirst(s.blocks, s.free, w);
    ListedIsFree(s, k);
    var i := IndexAt(s.blocks, s.free[k]);
    AllocatedAddsOne(s, size, 0);
    AllocatedKeepsInv(s, size);
    FreedKeepsInv(r, q.offset);
    UncarvedBlocks(s, i, w, r, q.offset);
  }

  lemma PiecesAt(pre: seq<Block>, b: Block, post: seq<Block>)
    requires Sized(pre)
    ensures var blocks := pre + ([b] + post);
            IndexAt(blocks, Total(pre)) < |blocks| && Pieces(blocks, Total(pre)) == (pre, b, post)
  {
    IndexAtTotal(pre, b, post);
    var blocks := pre + ([b] + post);
    assert blocks[..|pre|] == pre && blocks[|pre|] == b && blocks[|pre| + 1..] == post;
  }

  lemma UncarvedBlocks(s: State, i: nat, w: nat, r: State, q: int)
    requires Inv(s) && i < |s.blocks| && !s.blocks[i].used && s.blocks[i].size >= HEADER + w
    requires r.blocks == s.blocks[..i] + (Carved(s.blocks[i], w) + s.blocks[i + 1..])
    requires q == Total(s.blocks[..i]) + HEADER && Live(r, q)
    ensures Freed(r, q).blocks == s.blocks
  {
    var (pre, b, post) := (s.blocks[..i], s.blocks[i], s.blocks[i + 1..]);
    SplitAround(s.blocks, i);
    BlockBeforeEnd(pre, b, post);
    NoTwoFreeThree(pre, [b], post);
    SizedConcat(pre, [b] + post);
    UncarvedPieces(pre, b, post, w, Carved(b, w), r, q);
  }

  lemma UncarvedPieces(pre: seq<Block>, b: Block, post: seq<Block>, w: nat, c: seq<Block>, r: State, q: int)
    requires Sized(pre) && !b.used && b.size >= HEADER + w && c == Carved(b, w) && post != [] && post[0].used && (pre == [] || pre[|pre| - 1].used)
    requires r.blocks == pre + (c + post) && q == Total(pre) + HEADER && Live(r, q)
    ensures Freed(r, q).blocks == pre + ([b] + post)
  {
    HeadOff(c, post);
    MergeUndoesCarve(pre, b, post, w);
    FreedPieces(pre, c[0], c[1..] + post, r, q, pre + ([b] + post));
  }

  lemma FreedPieces(pre: seq<Block>, c: Block, rest: seq<Block>, r: State, q: int, whole: seq<Block>)
    requires r.blocks == pre + ([c] + rest) && Sized(pre) && c.used && q == Total(pre) + HEADER && Live(r, q)
    requires Merged(pre, Block(c.size, false), rest) == whole
    ensures Freed(r, q).blocks == whole
  {
    PiecesAt(pre, c, rest);
  }

  lemma MergeUndoesCarve(pre: seq<Block>, b: Block, post: seq<Block>, w: nat)
    requires !b.used && b.size >= HEADER + w && post != [] && post[0].used && (pre == [] || pre[|pre| - 1].used)
    ensures var c := Carved(b, w);
            Merged(pre, Block(c[0].size, false), c[1..] + post) == pre + ([b] + post)
  {
    AbsorbUndoesCarve(b, post, w);
  }

  // ---- whole runs ----

  datatype Op = Alloc(size: nat) | Free(p: int)

  ghost predicate Enabled(s: State, op: Op) {
    op.Free? ==> Live(s, op.p)
  }

  ghost function Apply(s: State, op: Op): State
    requires Inv(s) && Enabled(s, op)
  {
    match op
    case Alloc(size) => Allocated(s, size).0
    case Free(p) => Freed(s, p)
  }

  lemma ApplyKeepsInv(s: State, op: Op)
    requires Inv(s) && Enabled(s, op)
    ensures Inv(Apply(s, op)) && Total(Apply(s, op).blocks) == Total(s.blocks)
  {
    match op
    case Alloc(size) => AllocatedKeepsInv(s, size);
    case Free(p) => FreedKeepsInv(s, p);
  }

  ghost predicate Leads(s: State, ops: seq<Op>, r: State)
    decreases |ops|
  {
    if ops == [] then s == r
    else Inv(s) && Enabled(s, ops[0]) && Leads(Apply(s, ops[0]), ops[1..], r)
  }

  /** rt_memheap_init: one unused block, and the tailer. */
  function Fresh(poolSize: nat): State
    requires poolSize >= HEADER
  {
    State([Block(poolSize - HEADER, false), TAILER], [0], poolSize - 2 * HEADER)
  }

  lemma FreshInv(poolSize: nat)
    requires poolSize >= 2 * HEADER
    ensures Inv(Fresh(poolSize)) && Total(Fresh(poolSize).blocks) == poolSize
  {
    var s := Fresh(poolSize);
    var big := Block(poolSize - HEADER, false);
    OneBlock(big);
    OneBlock(TAILER);
    assert s.blocks == [big] + [TAILER] && s.blocks[1..] == [TAILER];
    FreeRoomConcat([big], [TAILER]);
    TotalConcat([big], [TAILER]);
    forall x: nat
      ensures R.Count(s.free, x) == if FreeAt(s.blocks, x) then 1 else 0
    {
      assert s.free[1..] == [];
      assert !FreeAt([TAILER], x - big.size) by { assert [TAILER][1..] == []; }
    }
  }

  lemma {:induction false} RunKeepsInv(s: State, ops: seq<Op>, r: State)
    requires Inv(s) && Leads(s, ops, r)
    ensures Inv(r) && Total(r.blocks) == Total(s.blocks)
    decreases |ops|
  {
    if ops != [] {
      ApplyKeepsInv(s, ops[0]);
      RunKeepsInv(Apply(s, ops[0]), ops[1..], r);
    }
  }

  /**
    After any history on live pointers: the blocks tile the pool, no two neighbours are unused, the
    free list holds exactly the unused blocks, and available is the sum of their payloads.
   */
  lemma ReachableHeap(poolSize: nat, ops: seq<Op>, r: State)
    requires poolSize >= 2 * HEADER && Leads(Fresh(poolSize), ops, r)
    ensures Total(r.blocks) == poolSize && NoTwoFree(r.blocks)
    ensures forall x: nat :: R.Count(r.free, x) == if FreeAt(r.blocks, x) then 1 else 0
    ensures r.available == FreeRoom(r.blocks)
  {
    FreshInv(poolSize);
    RunKeepsInv(Fresh(poolSize), ops, r);
  }

  // ---- alignment ----

  /** The two alignments in question: whole words, and RT_ALIGN_SIZE. */
  predicate Word8(grain: nat) {
    grain == 4 || grain == 8
  }

  lemma GrainConstants(grain: nat)
    requires Word8(grain)
    ensures OnGrain(HEADER, grain) && (OnGrain(MINIALLOC, grain) <==> grain == 4)
  {
    if grain == 4 {
      assert OnGrain(4, 4) && OnGrain(8, 4) && OnGrain(12, 4) && OnGrain(16, 4) && OnGrain(20, 4);
    } else {
      assert OnGrain(8, 8) && OnGrain(16, 8) && !OnGrain(4, 8);
    }
  }

  /** Sizes looked for are whole words, and multiples of 8 exactly when more than 8 bytes are asked for. */
  lemma WantedGrain(size: nat, grain: nat)
    requires Word8(grain)
    ensures OnGrain(Wanted(size), grain) <==> grain == 4 || size > 8
  {
    var n := (size + 7) / 8;
    GrainConstants(grain);
    if grain == 8 {
      GrainTimes(n, 8);
    } else {
      assert n * 8 == (2 * n) * 4;
      GrainTimes(2 * n, 4);
    }
  }

  lemma CarvedSizes(b: Block, w: nat, grain: nat)
    requires Word8(grain) && OnGrain(b.size, grain) && b.size >= HEADER && Splits(b, w)
    ensures OnGrain(w + HEADER, grain) <==> OnGrain(w, grain)
    ensures OnGrain(w, grain) ==> OnGrain(b.size - w - HEADER, grain)
  {
    GrainConstants(grain);
    if OnGrain(w, grain) {
      GrainSum(w, HEADER, grain);
      GrainRest(b.size, w + HEADER, grain);
    }
    if OnGrain(w + HEADER, grain) {
      GrainRest(w + HEADER, HEADER, grain);
    }
  }

  /** Carving keeps the grain exactly when it does not split, or splits on it. */
  lemma CarvedGrained(pre: seq<Block>, b: Block, post: seq<Block>, w: nat, grain: nat)
    requires Word8(grain) && Grained(pre + ([b] + post), grain) && b.size >= HEADER
    ensures Grained(pre + (Carved(b, w) + post), grain) <==> !Splits(b, w) || OnGrain(w, grain)
  {
    var c := Carved(b, w);
    GrainedThree(pre, b, post, grain);
    GrainedConcat(c, post, grain);
    GrainedConcat(pre, c + post, grain);
    if Splits(b, w) {
      CarvedSizes(b, w, grain);
      assert c[1..] == [c[1]] && [c[1]][1..] == [];
    } else {
      assert c[1..] == [];
    }
  }

  /** The unused block an allocation finds. */
  ghost function Chosen(s: State, size: nat): (b: Block)
    requires Inv(s) && Allocated(s, size).1.At?
    ensures b.size >= HEADER
  {
    var k := Fit(s.blocks, s.free, Wanted(size)).value;
    ListedIsFree(s, k);
    s.blocks[IndexAt(s.blocks, s.free[k])]
  }

  /**
    An allocation keeps all headers on the grain exactly when it fails, or takes a whole block, or looks
    for a size on the grain: for 8 bytes, when more than 8 are asked for.
   */
  lemma AllocatedGrainExactly(s: State, size: nat, grain: nat)
    requires Inv(s) && Word8(grain) && Grained(s.blocks, grain)
    ensures Grained(Allocated(s, size).0.blocks, grain) <==>
            Allocated(s, size).1.Null? || !Splits(Chosen(s, size), Wanted(size)) || grain == 4 || size > 8
  {
    if Allocated(s, size).1.At? {
      var k := Fit(s.blocks, s.free, Wanted(size)).value;
      ListedIsFree(s, k);
      var i := IndexAt(s.blocks, s.free[k]);
      SplitAround(s.blocks, i);
      CarvedGrained(s.blocks[..i], s.blocks[i], s.blocks[i + 1..], Wanted(size), grain);
      WantedGrain(size, grain);
    }
  }

  lemma FreedKeepsGrain(s: State, p: int, grain: nat)
    requires Inv(s) && Live(s, p) && Word8(grain) && Grained(s.blocks, grain)
    ensures Grained(Freed(s, p).blocks, grain)
  {
    LivePieces(s, p);
    var (pre, b, post) := Pieces(s.blocks, p - HEADER);
    GrainedThree(pre, b, post, grain);
    MergedGrained(pre, Block(b.size, false), post, grain);
  }

  /** No request of the run is for 8 bytes or less. */
  ghost predicate AsksForMore(ops: seq<Op>)
    decreases |ops|
  {
    ops == [] || ((ops[0].Alloc? ==> ops[0].size > 8) && AsksForMore(ops[1..]))
  }

  lemma {:induction false} RunKeepsGrain(s: State, ops: seq<Op>, r: State, grain: nat)
    requires Inv(s) && Word8(grain) && Grained(s.blocks, grain) && Leads(s, ops, r) && (grain == 8 ==> AsksForMore(ops))
    ensures Inv(r) && Grained(r.blocks, grain)
    decreases |ops|
  {
    if ops != [] {
      match ops[0] {
        case Alloc(size) => AllocatedGrainExactly(s, size, grain);
        case Free(p) => FreedKeepsGrain(s, p, grain);
      }
      ApplyKeepsInv(s, ops[0]);
      RunKeepsGrain(Apply(s, ops[0]), ops[1..], r, grain);
    }
  }

  lemma FreshGrained(poolSize: nat, grain: nat)
    requires Word8(grain) && poolSize >= 2 * HEADER && OnGrain(poolSize, grain)
    ensures Grained(Fresh(poolSize).blocks, grain)
  {
    GrainConstants(grain);
    GrainRest(poolSize, HEADER, grain);
    var blocks := Fresh(poolSize).blocks;
    assert blocks[1..] == [TAILER] && [TAILER][1..] == [];
  }

  lemma LiveOnGrain(s: State, p: int, grain: nat)
    requires Inv(s) && Word8(grain) && Grained(s.blocks, grain) && Live(s, p)
    ensures p >= 0 && OnGrain(p, grain)
  {
    LivePieces(s, p);
    var i := IndexAt(s.blocks, p - HEADER);
    GrainedConcat(s.blocks[..i], [s.blocks[i]] + s.blocks[i + 1..], grain);
    GrainedTotal(s.blocks[..i], grain);
    GrainConstants(grain);
    GrainSum(p - HEADER, HEADER, grain);
  }

  lemma {:induction false} GrainIsRemainder(n: nat, grain: nat)
    requires Word8(grain) && OnGrain(n, grain)
    ensures if grain == 4 then n % 4 == 0 else n % 8 == 0
  {
    if n > 0 {
      GrainIsRemainder(n - grain, grain);
    }
  }

  /** After any history every payload starts on a whole word; units is the pool's size in steps of RT_ALIGN_SIZE. */
  lemma PayloadsOnWords(units: nat, ops: seq<Op>, r: State, p: int)
    requires units >= 6 && Leads(Fresh(8 * units), ops, r) && Live(r, p)
    ensures p % 4 == 0
  {
    FreshInv(8 * units);
    assert units * 8 == (2 * units) * 4;
    GrainTimes(2 * units, 4);
    FreshGrained(8 * units, 4);
    RunKeepsGrain(Fresh(8 * units), ops, r, 4);
    LiveOnGrain(r, p, 4);
    GrainIsRemainder(p, 4);
  }

  /** And on a multiple of RT_ALIGN_SIZE if every request is for more than 8 bytes. */
  lemma PayloadsAligned(units: nat, ops: seq<Op>, r: State, p: int)
    requires units >= 6 && Leads(Fresh(8 * units), ops, r) && Live(r, p) && AsksForMore(ops)
    ensures p % 8 == 0
  {
    FreshInv(8 * units);
    GrainTimes(units, 8);
    FreshGrained(8 * units, 8);
    RunKeepsGrain(Fresh(8 * units), ops, r, 8);
    LiveOnGrain(r, p, 8);
    GrainIsRemainder(p, 8);
  }

  /**
    Not otherwise: a request of at most 8 bytes is given 12, so the payload after it is 4 bytes off
    (AllocatedGrainExactly says when).
   */
  lemma SecondPayloadMisaligned(poolSize: nat, size: nat)
    requires poolSize >= 200 && 0 < size <= 8
    ensures Inv(Fresh(poolSize)) && Inv(Allocated(Fresh(poolSize), size).0)
    ensures Allocated(Allocated(Fresh(poolSize), size).0, size).1 == At(60) && 60 % 8 == 4
  {
    FreshInv(poolSize);
    var f := Fresh(poolSize);
    var w := Wanted(size);
    assert w == MINIALLOC;
    AllocatedKeepsInv(f, size);
    assert IndexAt(f.blocks, 0) == 0;
    var s := Allocated(f, size).0;
    assert s.free == [36] && s.blocks == [Block(36, true), Block(poolSize - HEADER - 36, false), TAILER];
    assert s.blocks[1..] == [Block(poolSize - HEADER - 36, false), TAILER];
    assert SizeAt(s.blocks, 36) == SizeAt(s.blocks[1..], 0) == poolSize - HEADER - 36;
  }
}
