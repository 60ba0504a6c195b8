/**
  What a memory heap object (src/memheap.c) means: blocks that tile the pool, the last one the tailer,
  and the free list in its own order.
 */
module MemHeapSpec {
  import opened Kernel
  import opened Blocks
  import R = RtList

  /** RT_MEMHEAP_SIZE and RT_MEMHEAP_MINIALLOC. */
  const HEADER := 24
  const MINIALLOC := 12

  /** free holds header offsets; available counts payload bytes. */
  datatype State = State(blocks: seq<Block>, free: seq<nat>, available: int)

  datatype Ptr = Null | At(offset: int)

  /** The size looked for: RT_ALIGN(size, 8), and at least MINIALLOC. */
  function Wanted(size: nat): (r: nat)
    ensures r >= size && r >= MINIALLOC
  {
    var a := (size + 7) / 8 * 8;
    if a < MINIALLOC then MINIALLOC else a
  }

  // ---- measures ----

  /** Payload bytes of the unused blocks. */
  function FreeRoom(blocks: seq<Block>): int {
    if blocks == [] then 0
    else (if blocks[0].used then 0 else blocks[0].size - HEADER) + FreeRoom(blocks[1..])
  }

  lemma {:induction false} FreeRoomConcat(a: seq<Block>, b: seq<Block>)
    ensures FreeRoom(a + b) == FreeRoom(a) + FreeRoom(b)
  {
    if a == [] {
      assert a + b == b;
    } else {
      assert (a + b)[1..] == a[1..] + b;
      FreeRoomConcat(a[1..], b);
    }
  }

  lemma {:induction false} FreeAtIndex(blocks: seq<Block>, off: int)
    requires FreeAt(blocks, off)
    ensures var i := IndexAt(blocks, off);
            i < |blocks| && !blocks[i].used && Total(blocks[..i]) == off && blocks[i].size == SizeAt(blocks, off)
  {
    if off > 0 {
      FreeAtIndex(blocks[1..], off - blocks[0].size);
      var i := IndexAt(blocks[1..], off - blocks[0].size);
      assert blocks[..i + 1] == [blocks[0]] + blocks[1..][..i];
    }
  }

  // ---- the invariant ----

  const TAILER := Block(HEADER, true)

  /** The tailer ends the pool; the free list holds exactly the unused blocks; their payload is counted. */
  ghost predicate Inv(s: State) {
    && Shaped(s.blocks)
    && Lists(s.free, s.blocks)
    && s.available == FreeRoom(s.blocks)
  }

  /** Each unused block is listed once, and nothing else is listed. */
  ghost predicate Lists(free: seq<nat>, blocks: seq<Block>) {
    forall x: nat :: R.Count(free, x) == if FreeAt(blocks, x) then 1 else 0
  }

  ghost predicate Shaped(blocks: seq<Block>) {
    Sized(blocks) && AtLeast(blocks, HEADER) && NoTwoFree(blocks) && blocks != [] && blocks[|blocks| - 1] == TAILER
  }

  // ---- operations ----

  /** Position in the free list of the first block with room for size bytes. */
  function Fit(blocks: seq<Block>, free: seq<nat>, size: nat): (k: Option<nat>)
    ensures k.Some? ==> k.value < |free|
  {
    if free == [] then None
    else if SizeAt(blocks, free[0]) >= HEADER + size then Some(0)
    else
      match Fit(blocks, free[1..], size)
      case None => None
      case Some(k) => Some(k + 1)
  }

  /** A block is split if the rest has room for a header and MINIALLOC bytes. */
  predicate Splits(b: Block, size: nat) {
    b.size >= size + HEADER + HEADER + MINIALLOC
  }

  function Carved(b: Block, size: nat): seq<Block>
    requires b.size >= HEADER
  {
    if Splits(b, size) then [Block(size + HEADER, true), Block(b.size - size - HEADER, false)] else [Block(b.size, true)]
  }

  /** The block i, at position k of the free list, is handed out; a rest is put first on the list. */
  function Taken(s: State, i: nat, k: nat, size: nat): State
    requires i < |s.blocks| && k < |s.free| && s.blocks[i].size >= HEADER
  {
    var b := s.blocks[i];
    State(s.blocks[..i] + (Carved(b, size) + s.blocks[i + 1..]),
          if Splits(b, size) then [s.free[k] + HEADER + size] + Without(s.free, k) else Without(s.free, k),
          s.available - if Splits(b, size) then size + HEADER else b.size - HEADER)
  }

  lemma ListedIsFree(s: State, k: nat)
    requires Inv(s) && k < |s.free|
    ensures FreeAt(s.blocks, s.free[k])
    ensures var i := IndexAt(s.blocks, s.free[k]);
            i < |s.blocks| && !s.blocks[i].used && Total(s.blocks[..i]) == s.free[k] &&
            HEADER <= s.blocks[i].size == SizeAt(s.blocks, s.free[k])
  {
    R.CountPositive(s.free, k);
    FreeAtIndex(s.blocks, s.free[k]);
    var i := IndexAt(s.blocks, s.free[k]);
    AtLeastConcat(s.blocks[..i], s.blocks[i..], HEADER);
    assert s.blocks == s.blocks[..i] + s.blocks[i..];
  }

  ghost function Allocated(s: State, size: nat): (State, Ptr)
    requires Inv(s)
  {
    var k := Fit(s.blocks, s.free, Wanted(size));
    if Wanted(size) >= s.available || k.None? then (s, Null)
    else
      ListedIsFree(s, k.value);
      (Taken(s, IndexAt(s.blocks, s.free[k.value]), k.value, Wanted(size)), At(s.free[k.value] + HEADER))
  }

  /** p was handed out and not taken back. */
  ghost predicate Live(s: State, p: int) {
    UsedAt(s.blocks, p - HEADER) && p < Total(s.blocks)
  }

  /** The list without its first entry for x. */
  function Dropped(free: seq<nat>, x: nat): seq<nat> {
    if free == [] then []
    else if free[0] == x then free[1..]
    else [free[0]] + Dropped(free[1..], x)
  }

  /** The block in front is unused. */
  predicate Left(pre: seq<Block>) {
    pre != [] && !pre[|pre| - 1].used
  }

  /** The block behind is unused. */
  predicate Right(post: seq<Block>) {
    post != [] && !post[0].used
  }

  /** The free list once an unused block at end has been merged away. */
  function AfterRight(free: seq<nat>, end: nat, post: seq<Block>): seq<nat> {
    if Right(post) then Dropped(free, end) else free
  }

  /** And once a block at ptr has been merged into one in front of it, or been listed itself. */
  function AfterLeft(free: seq<nat>, pre: seq<Block>, ptr: nat): seq<nat> {
    if Left(pre) then free else [ptr] + free
  }

  /** The block b between pre and post is given back and merged with unused neighbours. */
  function Returned(s: State, pre: seq<Block>, b: Block, post: seq<Block>): State {
    State(Merged(pre, Block(b.size, false), post),
          AfterLeft(AfterRight(s.free, Total(pre) + b.size, post), pre, Total(pre)),
          s.available + b.size - HEADER + (if Left(pre) then HEADER else 0) + (if Right(post) then HEADER else 0))
  }

  /** The block with a header at off, and those around it. */
  function Pieces(blocks: seq<Block>, off: int): (seq<Block>, Block, seq<Block>)
    requires IndexAt(blocks, off) < |blocks|
  {
    var i := IndexAt(blocks, off);
    (blocks[..i], blocks[i], blocks[i + 1..])
  }

  ghost function Freed(s: State, p: int): State
    requires Live(s, p)
  {
    UsedAtIndex(s.blocks, p - HEADER);
    var (pre, b, post) := Pieces(s.blocks, p - HEADER);
    Returned(s, pre, b, post)
  }

  // ---- replacing a stretch of blocks ----

  lemma FreeRoomThree(pre: seq<Block>, m: seq<Block>, post: seq<Block>)
    ensures FreeRoom(pre + (m + post)) == FreeRoom(pre) + FreeRoom(m) + FreeRoom(post)
  {
    FreeRoomConcat(pre, m + post);
    FreeRoomConcat(m, post);
  }

  /** A stretch of blocks may be replaced by one that fits its neighbours. */
  lemma ReplacedShape(pre: seq<Block>, m: seq<Block>, n: seq<Block>, post: seq<Block>)
    requires Shaped(pre + (m + post)) && m != [] && n != [] && Total(m) == Total(n)
    requires Sized(n) && AtLeast(n, HEADER) && NoTwoFree(n)
    requires pre == [] || n[0].used || pre[|pre| - 1].used
    requires post == [] || n[|n| - 1].used || post[0].used
    requires post != [] || n[|n| - 1] == TAILER
    ensures Shaped(pre + (n + post)) && Total(pre + (n + post)) == Total(pre + (m + post))
  {
    TotalThree(pre, m, post);
    TotalThree(pre, n, post);
    AtLeastConcat(pre, m + post, HEADER);
    AtLeastConcat(m, post, HEADER);
    AtLeastConcat(n, post, HEADER);
    AtLeastConcat(pre, n + post, HEADER);
    NoTwoFreeThree(pre, m, post);
    NoTwoFreeThree(pre, n, post);
  }

  // ---- handing out ----

  lemma {:induction false} FitIsFirst(blocks: seq<Block>, free: seq<nat>, size: nat)
    ensures var k := Fit(blocks, free, size);
            (k.Some? ==> SizeAt(blocks, free[k.value]) >= HEADER + size) &&
            forall j: nat :: j < (if k.Some? then k.value else |free|) ==> SizeAt(blocks, free[j]) < HEADER + size
  {
    if free != [] && SizeAt(blocks, free[0]) < HEADER + size {
      FitIsFirst(blocks, free[1..], size);
    }
  }

  lemma OneBlock(b: Block)
    ensures Total([b]) == b.size && FreeRoom([b]) == (if b.used then 0 else b.size - HEADER)
    ensures AtLeast([b], HEADER) <==> b.size >= HEADER
    ensures Sized([b]) <==> SizedBlock(b)
    ensures NoTwoFree([b])
  {
    assert [b][1..] == [];
  }

  lemma CarvedFacts(b: Block, size: nat)
    requires !b.used && b.size >= HEADER + size
    ensures var c := Carved(b, size);
            && Total(c) == b.size && Sized(c) && AtLeast(c, HEADER) && NoTwoFree(c) && c[0].used && c[0].size >= HEADER + size
            && FreeRoom(c) == (if Splits(b, size) then b.size - size - HEADER - HEADER else 0)
  {
    var c := Carved(b, size);
    OneBlock(c[0]);
    if |c| == 2 {
      OneBlock(c[1]);
      assert c == [c[0]] + [c[1]] && c[1..] == [c[1]];
      TotalConcat([c[0]], [c[1]]);
      FreeRoomConcat([c[0]], [c[1]]);
    } else {
      assert c == [c[0]];
    }
  }

  /** Behind pre, carving takes the block's own header off the free ones and may add that of the rest. */
  lemma CarvedFree(b: Block, post: seq<Block>, size: nat, x: int)
    requires !b.used && b.size >= HEADER + size
    ensures FreeAt(Carved(b, size) + post, x) <==> (Splits(b, size) && x == size + HEADER) || (x != 0 && FreeAt([b] + post, x))
    ensures FreeAt([b] + post, 0) && (Splits(b, size) ==> !FreeAt([b] + post, size + HEADER))
  {
    var c := Carved(b, size);
    assert ([b] + post)[1..] == post;
    if |c| == 2 {
      assert (c + post)[1..] == [c[1]] + post && ([c[1]] + post)[1..] == post;
    } else {
      assert (c + post)[1..] == post;
    }
  }

  lemma CountWithout(free: seq<nat>, k: nat, x: nat)
    requires k < |free|
    ensures R.Count(Without(free, k), x) == R.Count(free, x) - if free[k] == x then 1 else 0
  {
    SplitAround(free, k);
    R.CountConcat(free[..k], [free[k]] + free[k + 1..], x);
    R.CountConcat(free[..k], free[k + 1..], x);
    assert ([free[k]] + free[k + 1..])[1..] == free[k + 1..];
  }

  lemma CountPut(free: seq<nat>, y: nat, x: nat)
    ensures R.Count([y] + free, x) == R.Count(free, x) + if y == x then 1 else 0
  {
    assert ([y] + free)[1..] == free;
  }

  lemma TakenKeepsInv(s: State, i: nat, k: nat, size: nat)
    requires Inv(s) && k < |s.free| && i < |s.blocks| && !s.blocks[i].used && Total(s.blocks[..i]) == s.free[k]
    requires s.blocks[i].size >= HEADER + size
    ensures Inv(Taken(s, i, k, size)) && Total(Taken(s, i, k, size).blocks) == Total(s.blocks)
  {
    var (pre, b, post) := (s.blocks[..i], s.blocks[i], s.blocks[i + 1..]);
    assert s.blocks == pre + ([b] + post) by { SplitAround(s.blocks, i); }
    assert Sized(pre) by { SizedConcat(pre, [b] + post); }
    TakenShape(pre, b, post, size);
    TakenList(pre, b, post, s.free, k, size);
    assert s.available == FreeRoom(pre + ([b] + post));
  }

  lemma TakenList(pre: seq<Block>, b: Block, post: seq<Block>, free: seq<nat>, k: nat, size: nat)
    requires !b.used && b.size >= HEADER + size && k < |free| && free[k] == Total(pre) && Sized(pre)
    requires Lists(free, pre + ([b] + post))
    ensures var v := pre + (Carved(b, size) + post);
            Lists(if Splits(b, size) then [free[k] + HEADER + size] + Without(free, k) else Without(free, k), v) &&
            FreeRoom(v) == FreeRoom(pre + ([b] + post)) - if Splits(b, size) then size + HEADER else b.size - HEADER
  {
    var u, v, c, t := pre + ([b] + post), pre + (Carved(b, size) + post), Carved(b, size), Total(pre);
    var rest := Without(free, k);
    CarvedFacts(b, size);
    OneBlock(b);
    FreeRoomThree(pre, [b], post);
    FreeRoomThree(pre, c, post);
    forall x: nat
      ensures R.Count(if Splits(b, size) then [free[k] + HEADER + size] + rest else rest, x) == if FreeAt(v, x) then 1 else 0
    {
      CountWithout(free, k, x);
      CountPut(rest, free[k] + HEADER + size, x);
      FreeAtConcat(pre, [b] + post, x);
      FreeAtConcat(pre, c + post, x);
      CarvedFree(b, post, size, x - t);
      assert R.Count(free, x) == if FreeAt(u, x) then 1 else 0;
    }
  }

  lemma TakenShape(pre: seq<Block>, b: Block, post: seq<Block>, size: nat)
    requires Shaped(pre + ([b] + post)) && !b.used && b.size >= HEADER + size
    ensures Shaped(pre + (Carved(b, size) + post)) && Total(pre + (Carved(b, size) + post)) == Total(pre + ([b] + post))
  {
    CarvedFacts(b, size);
    OneBlock(b);
    NoTwoFreeThree(pre, [b], post);
    ReplacedShape(pre, [b], Carved(b, size), post);
  }

  lemma AllocatedKeepsInv(s: State, size: nat)
    requires Inv(s)
    ensures Inv(Allocated(s, size).0) && Total(Allocated(s, size).0.blocks) == Total(s.blocks)
  {
    var k := Fit(s.blocks, s.free, Wanted(size));
    if Wanted(size) < s.available && k.Some? {
      FitIsFirst(s.blocks, s.free, Wanted(size));
      ListedIsFree(s, k.value);
      TakenKeepsInv(s, IndexAt(s.blocks, s.free[k.value]), k.value, Wanted(size));
    }
  }

  // ---- giving back ----

  lemma {:induction false} CountDropped(free: seq<nat>, y: nat, x: nat)
    ensures R.Count(Dropped(free, y), x) == R.Count(free, x) - if x == y && R.Count(free, x) > 0 then 1 else 0
  {
    if free != [] && free[0] != y {
      CountDropped(free[1..], y, x);
      CountPut(Dropped(free[1..], y), free[0], x);
    }
  }

  /** Two unused neighbours made one: the second header is gone, its bytes are payload. */
  lemma FusedFree(pre: seq<Block>, x: Block, y: Block, post: seq<Block>, off: int)
    requires Sized(pre) && !x.used && !y.used && x.size > 0 && y.size > 0
    ensures var (u, v) := (pre + ([x, y] + post), pre + ([Block(x.size + y.size, false)] + post));
            (FreeAt(v, off) <==> FreeAt(u, off) && off != Total(pre) + x.size) &&
            FreeAt(u, Total(pre) + x.size) && FreeAt(u, Total(pre)) &&
            FreeRoom(v) == FreeRoom(u) + HEADER && Total(v) == Total(u)
  {
    var z := Block(x.size + y.size, false);
    var (a, b) := ([x, y] + post, [z] + post);
    assert a[1..] == [y] + post && a[1..][1..] == post && b[1..] == post;
    FreeAtConcat(pre, a, off);
    FreeAtConcat(pre, a, Total(pre) + x.size);
    FreeAtConcat(pre, a, Total(pre));
    FreeAtConcat(pre, b, off);
    FreeRoomConcat(pre, a);
    FreeRoomConcat(pre, b);
    TotalConcat(pre, a);
    TotalConcat(pre, b);
  }

  lemma FusedLists(u: seq<Block>, v: seq<Block>, pre: seq<Block>, x: Block, y: Block, post: seq<Block>, free: seq<nat>)
    requires Sized(pre) && !x.used && !y.used && x.size > 0 && y.size > 0
    requires u == pre + ([x, y] + post) && v == pre + ([Block(x.size + y.size, false)] + post) && Lists(free, u)
    ensures Lists(Dropped(free, Total(pre) + x.size), v) && FreeRoom(v) == FreeRoom(u) + HEADER
  {
    var gone := Total(pre) + x.size;
    FusedFree(pre, x, y, post, 0);
    forall l: nat
      ensures R.Count(Dropped(free, gone), l) == if FreeAt(v, l) then 1 else 0
    {
      FusedFree(pre, x, y, post, l);
      CountDropped(free, gone, l);
      assert R.Count(free, l) == if FreeAt(u, l) then 1 else 0;
    }
  }

  /** A used block is put first on the list. */
  lemma ReleasedLists(pre: seq<Block>, b: Block, post: seq<Block>, free: seq<nat>)
    requires Sized(pre) && b.used && b.size > 0 && Lists(free, pre + ([b] + post))
    ensures var v := pre + ([Block(b.size, false)] + post);
            Lists([Total(pre)] + free, v) && FreeRoom(v) == FreeRoom(pre + ([b] + post)) + b.size - HEADER
  {
    var hole := Block(b.size, false);
    var (u, v, t) := (pre + ([b] + post), pre + ([hole] + post), Total(pre));
    OneBlock(b);
    OneBlock(hole);
    FreeRoomThree(pre, [b], post);
    FreeRoomThree(pre, [hole], post);
    assert ([b] + post)[1..] == post && ([hole] + post)[1..] == post;
    forall l: nat
      ensures R.Count([t] + free, l) == if FreeAt(v, l) then 1 else 0
    {
      CountPut(free, t, l);
      FreeAtConcat(pre, [b] + post, l);
      FreeAtConcat(pre, [hole] + post, l);
      assert R.Count(free, l) == if FreeAt(u, l) then 1 else 0;
    }
  }

  lemma DroppedPut(free: seq<nat>, x: nat, y: nat)
    ensures Dropped([x] + free, y) == if x == y then free else [x] + Dropped(free, y)
  {
    assert ([x] + free)[1..] == free;
  }

  /** Merged to the right: the block behind gives up its entry. */
  lemma AbsorbedLists(u: seq<Block>, v: seq<Block>, pre: seq<Block>, hole: Block, post: seq<Block>, free: seq<nat>)
    requires Sized(pre) && Sized(post) && !hole.used && hole.size > 0
    requires u == pre + ([hole] + post) && v == pre + ([Absorbed(hole, post).0] + Absorbed(hole, post).1)
    requires Lists([Total(pre)] + free, u)
    ensures Lists([Total(pre)] + AfterRight(free, Total(pre) + hole.size, post), v)
    ensures FreeRoom(v) == FreeRoom(u) + if Right(post) then HEADER else 0
  {
    if Right(post) {
      assert SizedBlock(post[0]);
      assert [hole] + post == [hole, post[0]] + post[1..];
      FusedLists(u, v, pre, hole, post[0], post[1..], [Total(pre)] + free);
      DroppedPut(free, Total(pre), Total(pre) + hole.size);
    }
  }

  /** Merged to the left: the block itself gives up its entry. */
  lemma JoinedLast(u: seq<Block>, v: seq<Block>, front: seq<Block>, last: Block, hole: Block, post: seq<Block>, free: seq<nat>)
    requires Sized(front) && !last.used && !hole.used && last.size > 0 && hole.size > 0
    requires u == front + ([last, hole] + post) && v == front + ([Block(last.size + hole.size, false)] + post)
    requires Lists([Total(front) + last.size] + free, u)
    ensures Lists(free, v) && FreeRoom(v) == FreeRoom(u) + HEADER
  {
    var t := Total(front) + last.size;
    FusedLists(u, v, front, last, hole, post, [t] + free);
    DroppedPut(free, t, t);
  }

  lemma {:induction false} AtLeastLast(a: seq<Block>)
    requires a != [] && AtLeast(a, HEADER)
    ensures AtLeast(a[..|a| - 1], HEADER) && a[|a| - 1].size >= HEADER
  {
    assert a == a[..|a| - 1] + [a[|a| - 1]];
    AtLeastConcat(a[..|a| - 1], [a[|a| - 1]], HEADER);
  }

  lemma MergedAtLeast(pre: seq<Block>, hole: Block, post: seq<Block>)
    requires AtLeast(pre, HEADER) && hole.size >= HEADER && AtLeast(post, HEADER)
    ensures AtLeast(Merged(pre, hole, post), HEADER)
  {
    var (b, rest) := Absorbed(hole, post);
    assert AtLeast([b] + rest, HEADER) by { assert ([b] + rest)[1..] == rest; }
    AtLeastConcat(pre, [b] + rest, HEADER);
    if pre != [] && !pre[|pre| - 1].used {
      AtLeastLast(pre);
      var big := Block(pre[|pre| - 1].size + b.size, false);
      assert ([big] + rest)[1..] == rest;
      AtLeastConcat(pre[..|pre| - 1], [big] + rest, HEADER);
    }
  }

  lemma MergedShape(pre: seq<Block>, b: Block, post: seq<Block>)
    requires Shaped(pre + ([b] + post)) && post != []
    ensures Shaped(Merged(pre, Block(b.size, false), post))
    ensures Total(Merged(pre, Block(b.size, false), post)) == Total(pre + ([b] + post))
  {
    var hole := Block(b.size, false);
    TotalThree(pre, [b], post);
    NoTwoFreeThree(pre, [b], post);
    OneBlock(b);
    AtLeastConcat(pre, [b] + post, HEADER);
    assert ([b] + post)[1..] == post;
    MergedKeeps(pre, hole, post);
    MergedAtLeast(pre, hole, post);
    assert post[|post| - 1] == TAILER;
  }

  lemma ReturnedKeepsInv(s: State, pre: seq<Block>, b: Block, post: seq<Block>)
    requires Inv(s) && s.blocks == pre + ([b] + post) && b.used && post != []
    ensures Inv(Returned(s, pre, b, post)) && Total(Returned(s, pre, b, post).blocks) == Total(s.blocks)
  {
    var hole := Block(b.size, false);
    SizedConcat(pre, [b] + post);
    AtLeastConcat(pre, [b] + post, HEADER);
    assert Sized(post) && b.size > 0 by { assert ([b] + post)[1..] == post; }
    MergedShape(pre, b, post);
    ReturnedLists(s, pre, b, post);
  }

  lemma ReturnedLists(s: State, pre: seq<Block>, b: Block, post: seq<Block>)
    requires Sized(pre) && Sized(post) && b.used && b.size > 0
    requires Lists(s.free, pre + ([b] + post)) && s.available == FreeRoom(pre + ([b] + post))
    ensures var r := Returned(s, pre, b, post);
            Lists(r.free, r.blocks) && r.available == FreeRoom(r.blocks)
  {
    ReturnedRight(pre, b, post, s.free);
    var free := AfterRight(s.free, Total(pre) + b.size, post);
    var (c, rest) := Absorbed(Block(b.size, false), post);
    if Left(pre) {
      ReturnedLeft(pre, c, rest, free);
    }
  }

  /** The block put on the list and merged to the right. */
  lemma ReturnedRight(pre: seq<Block>, b: Block, post: seq<Block>, free: seq<nat>)
    requires Sized(pre) && Sized(post) && b.used && b.size > 0 && Lists(free, pre + ([b] + post))
    ensures var (c, rest) := Absorbed(Block(b.size, false), post);
            Lists([Total(pre)] + AfterRight(free, Total(pre) + b.size, post), pre + ([c] + rest)) &&
            FreeRoom(pre + ([c] + rest)) == FreeRoom(pre + ([b] + post)) + b.size - HEADER + if Right(post) then HEADER else 0
  {
    var hole := Block(b.size, false);
    var (c, rest) := Absorbed(hole, post);
    ReleasedLists(pre, b, post, free);
    AbsorbedLists(pre + ([hole] + post), pre + ([c] + rest), pre, hole, post, free);
  }

  /** And merged to the left. */
  lemma ReturnedLeft(pre: seq<Block>, c: Block, rest: seq<Block>, free: seq<nat>)
    requires Sized(pre) && !c.used && c.size > 0 && Left(pre)
    requires Lists([Total(pre)] + free, pre + ([c] + rest))
    ensures Lists(free, Joined(pre, c, rest)) && FreeRoom(Joined(pre, c, rest)) == FreeRoom(pre + ([c] + rest)) + HEADER
  {
    var (front, last) := (pre[..|pre| - 1], pre[|pre| - 1]);
    assert Total(pre) == Total(front) + last.size && Sized(front) && last.size > 0 by { LastOf(pre); }
    LastTwo(pre, c, rest);
    JoinedLast(pre + ([c] + rest), Joined(pre, c, rest), front, last, c, rest, free);
  }

  /** A live payload lies in a used block that is not the tailer. */
  lemma LivePieces(s: State, p: int)
    requires Inv(s) && Live(s, p)
    ensures var i := IndexAt(s.blocks, p - HEADER);
            i < |s.blocks| && s.blocks[i].used && Total(s.blocks[..i]) == p - HEADER &&
            s.blocks == s.blocks[..i] + ([s.blocks[i]] + s.blocks[i + 1..]) && s.blocks[i + 1..] != []
  {
    UsedAtIndex(s.blocks, p - HEADER);
    var i := IndexAt(s.blocks, p - HEADER);
    SplitAround(s.blocks, i);
    if s.blocks[i + 1..] == [] {
      assert s.blocks == s.blocks[..i] + [s.blocks[i]];
      TotalConcat(s.blocks[..i], [s.blocks[i]]);
      OneBlock(s.blocks[i]);
    }
  }

  /** Giving a block back keeps ring, free list and accounting in step. */
  lemma FreedKeepsInv(s: State, p: int)
    requires Inv(s) && Live(s, p)
    ensures Inv(Freed(s, p)) && Total(Freed(s, p).blocks) == Total(s.blocks)
  {
    LivePieces(s, p);
    var (pre, b, post) := Pieces(s.blocks, p - HEADER);
    ReturnedKeepsInv(s, pre, b, post);
  }
}
