/** Memory as a sequence of blocks without gaps, each a header and a payload. */
module Blocks {
  import opened Kernel

  /** No heap has a smaller header. */
  const MIN_HEADER := 16

  /** size counts the header: it is the distance from this header to the next one. */
  datatype Block = Block(size: nat, used: bool)

  ghost predicate SizedBlock(b: Block) {
    b.size >= MIN_HEADER
  }

  ghost predicate Sized(blocks: seq<Block>) {
    blocks == [] || (SizedBlock(blocks[0]) && Sized(blocks[1..]))
  }

  /** n is a sum of grains. */
  ghost predicate OnGrain(n: nat, grain: nat)
    requires grain > 0
  {
    n == 0 || (n >= grain && OnGrain(n - grain, grain))
  }

  /** Every size is a multiple of the grain. */
  ghost predicate Grained(blocks: seq<Block>, grain: nat)
    requires grain > 0
  {
    blocks == [] || (OnGrain(blocks[0].size, grain) && Grained(blocks[1..], grain))
  }

  /** Every block is at least this long. */
  ghost predicate AtLeast(blocks: seq<Block>, n: nat) {
    blocks == [] || (blocks[0].size >= n && AtLeast(blocks[1..], n))
  }

  function Total(blocks: seq<Block>): nat {
    if blocks == [] then 0 else blocks[0].size + Total(blocks[1..])
  }

  function UsedBytes(blocks: seq<Block>): nat {
    if blocks == [] then 0 else (if blocks[0].used then blocks[0].size else 0) + UsedBytes(blocks[1..])
  }

  ghost predicate NoTwoFree(blocks: seq<Block>) {
    |blocks| < 2 || ((blocks[0].used || blocks[1].used) && NoTwoFree(blocks[1..]))
  }

  /** An unused block has its header at offset off. */
  ghost predicate FreeAt(blocks: seq<Block>, off: int) {
    blocks != [] && if off <= 0 then off == 0 && !blocks[0].used else FreeAt(blocks[1..], off - blocks[0].size)
  }

  /** A used block has its header at offset off. */
  ghost predicate UsedAt(blocks: seq<Block>, off: int) {
    blocks != [] && if off <= 0 then off == 0 && blocks[0].used else UsedAt(blocks[1..], off - blocks[0].size)
  }

  /** Size of the block whose header is at offset off. */
  function SizeAt(blocks: seq<Block>, off: int): nat {
    if blocks == [] || off < 0 then 0 else if off == 0 then blocks[0].size else SizeAt(blocks[1..], off - blocks[0].size)
  }

  /** Index of the block whose header is at off. */
  function IndexAt(blocks: seq<Block>, off: int): nat {
    if blocks == [] || off <= 0 then 0 else 1 + IndexAt(blocks[1..], off - blocks[0].size)
  }

  lemma {:induction false} UsedAtIndex(blocks: seq<Block>, off: int)
    requires UsedAt(blocks, off)
    ensures var i := IndexAt(blocks, off);
            i < |blocks| && blocks[i].used && Total(blocks[..i]) == off && blocks[i].size == SizeAt(blocks, off)
  {
    if off > 0 {
      UsedAtIndex(blocks[1..], off - blocks[0].size);
      var i := IndexAt(blocks[1..], off - blocks[0].size);
      assert blocks[..i + 1] == [blocks[0]] + blocks[1..][..i];
    }
  }

  lemma {:induction false} TotalConcat(a: seq<Block>, b: seq<Block>)
    ensures Total(a + b) == Total(a) + Total(b) && UsedBytes(a + b) == UsedBytes(a) + UsedBytes(b)
  {
    if a == [] {
      assert a + b == b;
    } else {
      assert (a + b)[1..] == a[1..] + b;
      TotalConcat(a[1..], b);
    }
  }

  lemma {:induction false} SizedConcat(a: seq<Block>, b: seq<Block>)
    ensures Sized(a + b) <==> Sized(a) && Sized(b)
  {
    if a == [] {
      assert a + b == b;
    } else {
      assert (a + b)[1..] == a[1..] + b;
      SizedConcat(a[1..], b);
    }
  }

  lemma {:induction false} GrainedConcat(a: seq<Block>, b: seq<Block>, grain: nat)
    requires grain > 0
    ensures Grained(a + b, grain) <==> Grained(a, grain) && Grained(b, grain)
  {
    if a == [] {
      assert a + b == b;
    } else {
      assert (a + b)[1..] == a[1..] + b;
      GrainedConcat(a[1..], b, grain);
    }
  }

  lemma {:induction false} AtLeastConcat(a: seq<Block>, b: seq<Block>, n: nat)
    ensures AtLeast(a + b, n) <==> AtLeast(a, n) && AtLeast(b, n)
  {
    if a == [] {
      assert a + b == b;
    } else {
      assert (a + b)[1..] == a[1..] + b;
      AtLeastConcat(a[1..], b, n);
    }
  }

  lemma {:induction false} NoTwoFreeConcat(a: seq<Block>, b: seq<Block>)
    ensures NoTwoFree(a + b) <==>
            NoTwoFree(a) && NoTwoFree(b) && (a == [] || b == [] || a[|a| - 1].used || b[0].used)
  {
    if a == [] {
      assert a + b == b;
    } else if |a| == 1 {
      assert b == [] ==> a + b == a;
      assert (a + b)[1..] == b;
    } else {
      assert (a + b)[1..] == a[1..] + b;
      NoTwoFreeConcat(a[1..], b);
    }
  }

  lemma {:induction false} FreeAtConcat(a: seq<Block>, b: seq<Block>, off: int)
    requires Sized(a)
    ensures FreeAt(a + b, off) <==> if off < Total(a) then FreeAt(a, off) else FreeAt(b, off - Total(a))
  {
    if a == [] {
      assert a + b == b;
    } else {
      assert (a + b)[1..] == a[1..] + b;
      FreeAtConcat(a[1..], b, off - a[0].size);
    }
  }

  lemma {:induction false} UsedAtConcat(a: seq<Block>, b: seq<Block>, off: int)
    requires Sized(a)
    ensures UsedAt(a + b, off) <==> if off < Total(a) then UsedAt(a, off) else UsedAt(b, off - Total(a))
    ensures SizeAt(a + b, off) == if off < Total(a) then SizeAt(a, off) else SizeAt(b, off - Total(a))
  {
    if a == [] {
      assert a + b == b;
    } else {
      assert (a + b)[1..] == a[1..] + b;
      UsedAtConcat(a[1..], b, off - a[0].size);
    }
  }

  lemma TotalThree(pre: seq<Block>, mid: seq<Block>, post: seq<Block>)
    ensures Total(pre + (mid + post)) == Total(pre) + Total(mid) + Total(post)
    ensures UsedBytes(pre + (mid + post)) == UsedBytes(pre) + UsedBytes(mid) + UsedBytes(post)
    ensures Sized(pre + (mid + post)) <==> Sized(pre) && Sized(mid) && Sized(post)
  {
    SizedConcat(pre, mid + post);
    SizedConcat(mid, post);
    TotalConcat(pre, mid + post);
    TotalConcat(mid, post);
  }

  lemma NoTwoFreeThree(pre: seq<Block>, mid: seq<Block>, post: seq<Block>)
    requires mid != []
    ensures NoTwoFree(pre + (mid + post)) <==>
            && NoTwoFree(pre) && NoTwoFree(mid) && NoTwoFree(post)
            && (pre == [] || pre[|pre| - 1].used || mid[0].used)
            && (post == [] || mid[|mid| - 1].used || post[0].used)
  {
    NoTwoFreeConcat(pre, mid + post);
    NoTwoFreeConcat(mid, post);
  }

  lemma SplitAt(blocks: seq<Block>, i: nat)
    requires i < |blocks| && Sized(blocks)
    ensures var (pre, b, post) := (blocks[..i], blocks[i], blocks[i + 1..]);
            && blocks == pre + ([b] + post)
            && Sized(pre) && SizedBlock(b) && Sized(post)
            && Total(blocks) == Total(pre) + b.size + Total(post)
            && UsedBytes(blocks) == UsedBytes(pre) + (if b.used then b.size else 0) + UsedBytes(post)
  {
    var (pre, b, post) := (blocks[..i], blocks[i], blocks[i + 1..]);
    SplitAround(blocks, i);
    TotalThree(pre, [b], post);
    assert [b][1..] == [];
  }

  lemma LastOf(a: seq<Block>)
    requires a != []
    ensures Total(a) == Total(a[..|a| - 1]) + a[|a| - 1].size
    ensures UsedBytes(a) == UsedBytes(a[..|a| - 1]) + if a[|a| - 1].used then a[|a| - 1].size else 0
    ensures NoTwoFree(a) ==> NoTwoFree(a[..|a| - 1])
    ensures Sized(a) ==> Sized(a[..|a| - 1]) && SizedBlock(a[|a| - 1])
    ensures NoTwoFree(a) && |a| > 1 ==> a[|a| - 2].used || a[|a| - 1].used
  {
    var (front, last) := (a[..|a| - 1], a[|a| - 1]);
    assert a == front + [last];
    TotalConcat(front, [last]);
    NoTwoFreeConcat(front, [last]);
    SizedConcat(front, [last]);
    assert [last][1..] == [];
  }

  // ----- merging ------------------------------------------------------------------------------

  /** A hole takes in an unused block behind it. */
  function Absorbed(hole: Block, post: seq<Block>): (Block, seq<Block>) {
    if post != [] && !post[0].used then (Block(hole.size + post[0].size, false), post[1..]) else (hole, post)
  }

  /** An unused block in front takes in the hole. */
  function Joined(pre: seq<Block>, hole: Block, post: seq<Block>): seq<Block> {
    if pre != [] && !pre[|pre| - 1].used then
      pre[..|pre| - 1] + ([Block(pre[|pre| - 1].size + hole.size, false)] + post)
    else pre + ([hole] + post)
  }

  /** A hole between its neighbours, merged with those that are unused. */
  function Merged(pre: seq<Block>, hole: Block, post: seq<Block>): seq<Block> {
    Joined(pre, Absorbed(hole, post).0, Absorbed(hole, post).1)
  }

  /** The blocks with a hole in place of what stood between pre and post, before any merging. */
  ghost predicate Gap(pre: seq<Block>, hole: Block, post: seq<Block>) {
    && Sized(pre) && Sized(post) && SizedBlock(hole) && !hole.used
    && NoTwoFree(pre) && NoTwoFree(post)
  }

  lemma AbsorbedKeeps(hole: Block, post: seq<Block>)
    requires Gap([], hole, post)
    ensures var (b, rest) := Absorbed(hole, post);
            && Gap([], b, rest) && (rest == [] || rest[0].used)
            && b.size + Total(rest) == hole.size + Total(post) && UsedBytes(rest) == UsedBytes(post)
  {
  }

  lemma JoinedKeeps(pre: seq<Block>, hole: Block, post: seq<Block>)
    requires Gap(pre, hole, post) && (post == [] || post[0].used)
    ensures var m := Joined(pre, hole, post);
            && Sized(m) && NoTwoFree(m) && Total(m) == Total(pre) + hole.size + Total(post)
            && UsedBytes(m) == UsedBytes(pre) + UsedBytes(post)
  {
    if pre != [] && !pre[|pre| - 1].used {
      LastOf(pre);
      var mid := [Block(pre[|pre| - 1].size + hole.size, false)];
      TotalThree(pre[..|pre| - 1], mid, post);
      NoTwoFreeThree(pre[..|pre| - 1], mid, post);
    } else {
      TotalThree(pre, [hole], post);
      NoTwoFreeThree(pre, [hole], post);
    }
  }

  /** Merging keeps the size of the heap and the used bytes, and leaves no two unused neighbours. */
  lemma MergedKeeps(pre: seq<Block>, hole: Block, post: seq<Block>)
    requires Gap(pre, hole, post)
    ensures var m := Merged(pre, hole, post);
            && Sized(m) && NoTwoFree(m) && Total(m) == Total(pre) + hole.size + Total(post)
            && UsedBytes(m) == UsedBytes(pre) + UsedBytes(post)
  {
    AbsorbedKeeps(hole, post);
    JoinedKeeps(pre, Absorbed(hole, post).0, Absorbed(hole, post).1);
  }

  lemma FuseUsedAt(pre: seq<Block>, x: Block, y: Block, post: seq<Block>, off: int)
    requires !x.used && !y.used && x.size > 0 && y.size > 0 && Sized(pre)
    ensures var (u, v) := (pre + ([x, y] + post), pre + ([Block(x.size + y.size, false)] + post));
            (UsedAt(u, off) <==> UsedAt(v, off)) && (UsedAt(u, off) ==> SizeAt(u, off) == SizeAt(v, off))
  {
    var (a, b) := ([x, y] + post, [Block(x.size + y.size, false)] + post);
    var rel := off - Total(pre);
    assert a[1..] == [y] + post && a[1..][1..] == post && b[1..] == post;
    UsedAtConcat(pre, a, off);
    UsedAtConcat(pre, b, off);
    if rel > x.size {
      assert UsedAt(a, rel) == UsedAt(a[1..], rel - x.size) == UsedAt(post, rel - x.size - y.size);
      assert UsedAt(b, rel) == UsedAt(post, rel - b[0].size);
      if rel > x.size + y.size {
        assert SizeAt(a, rel) == SizeAt(a[1..], rel - x.size) == SizeAt(post, rel - x.size - y.size);
      }
    }
  }

  lemma LastTwo(pre: seq<Block>, hole: Block, post: seq<Block>)
    requires pre != []
    ensures pre + ([hole] + post) == pre[..|pre| - 1] + ([pre[|pre| - 1], hole] + post)
  {
  }

  lemma {:induction false} UsedApart(blocks: seq<Block>, o1: int, o2: int)
    requires Sized(blocks) && UsedAt(blocks, o1)
    ensures 0 <= o1 && SizeAt(blocks, o1) >= MIN_HEADER && o1 + SizeAt(blocks, o1) <= Total(blocks)
    ensures UsedAt(blocks, o2) && o1 < o2 ==> o1 + SizeAt(blocks, o1) <= o2
  {
    if o1 > 0 {
      UsedApart(blocks[1..], o1 - blocks[0].size, o2 - blocks[0].size);
    } else if UsedAt(blocks, o2) && o1 < o2 {
      UsedApart(blocks[1..], o2 - blocks[0].size, 0);
    }
  }

  lemma {:induction false} IndexAtTotal(pre: seq<Block>, b: Block, post: seq<Block>)
    requires Sized(pre)
    ensures IndexAt(pre + ([b] + post), Total(pre)) == |pre|
  {
    if pre != [] {
      assert (pre + ([b] + post))[1..] == pre[1..] + ([b] + post);
      IndexAtTotal(pre[1..], b, post);
    }
  }

  lemma MergedUsedAt(pre: seq<Block>, hole: Block, post: seq<Block>, off: int)
    requires Sized(pre) && Sized(post) && hole.size > 0 && !hole.used
    ensures var (u, v) := (pre + ([hole] + post), Merged(pre, hole, post));
            (UsedAt(u, off) <==> UsedAt(v, off)) && (UsedAt(u, off) ==> SizeAt(u, off) == SizeAt(v, off))
  {
    var (b, rest) := Absorbed(hole, post);
    if post != [] && !post[0].used {
      assert [hole] + post == [hole, post[0]] + post[1..];
      FuseUsedAt(pre, hole, post[0], post[1..], off);
    }
    if pre != [] && !pre[|pre| - 1].used {
      LastOf(pre);
      LastTwo(pre, b, rest);
      FuseUsedAt(pre[..|pre| - 1], pre[|pre| - 1], b, rest, off);
    }
  }

  lemma MergedGrained(pre: seq<Block>, hole: Block, post: seq<Block>, grain: nat)
    requires grain > 0
    requires Grained(pre, grain) && OnGrain(hole.size, grain) && Grained(post, grain)
    ensures Grained(Merged(pre, hole, post), grain)
  {
    var (b, rest) := Absorbed(hole, post);
    if post != [] && !post[0].used {
      GrainSum(hole.size, post[0].size, grain);
    }
    JoinedGrained(pre, b, rest, grain);
  }

  lemma JoinedGrained(pre: seq<Block>, b: Block, rest: seq<Block>, grain: nat)
    requires grain > 0
    requires Grained(pre, grain) && OnGrain(b.size, grain) && Grained(rest, grain)
    ensures Grained(Joined(pre, b, rest), grain)
  {
    if pre != [] && !pre[|pre| - 1].used {
      var (front, last) := (pre[..|pre| - 1], pre[|pre| - 1]);
      assert pre == front + [last];
      GrainedConcat(front, [last], grain);
      GrainSum(last.size, b.size, grain);
      GrainedThree(front, Block(last.size + b.size, false), rest, grain);
    } else {
      GrainedThree(pre, b, rest, grain);
    }
  }

  lemma GrainedThree(pre: seq<Block>, b: Block, post: seq<Block>, grain: nat)
    requires grain > 0
    ensures Grained(pre + ([b] + post), grain) <==> Grained(pre, grain) && OnGrain(b.size, grain) && Grained(post, grain)
  {
    GrainedConcat(pre, [b] + post, grain);
    assert ([b] + post)[1..] == post;
  }

  lemma {:induction false} GrainedTotal(blocks: seq<Block>, grain: nat)
    requires grain > 0
    requires Grained(blocks, grain)
    ensures OnGrain(Total(blocks), grain)
  {
    if blocks != [] {
      GrainedTotal(blocks[1..], grain);
      GrainSum(blocks[0].size, Total(blocks[1..]), grain);
    }
  }

  lemma {:induction false} GrainSum(a: nat, b: nat, grain: nat)
    requires grain > 0 && OnGrain(a, grain) && OnGrain(b, grain)
    ensures OnGrain(a + b, grain)
  {
    if a > 0 {
      GrainSum(a - grain, b, grain);
    }
  }

  lemma {:induction false} GrainRest(a: nat, b: nat, grain: nat)
    requires grain > 0 && OnGrain(a, grain) && OnGrain(b, grain) && b <= a
    ensures OnGrain(a - b, grain)
  {
    if b > 0 {
      GrainRest(a - grain, b - grain, grain);
    }
  }

  lemma {:induction false} GrainTimes(k: nat, grain: nat)
    requires grain > 0
    ensures OnGrain(k * grain, grain)
  {
    if k > 0 {
      assert k * grain - grain == (k - 1) * grain;
      GrainTimes(k - 1, grain);
    }
  }
}
