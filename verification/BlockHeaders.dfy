/**
 Headers kept in arrays indexed by byte offset, next to the blocks they describe, and what the surgery on
 them means: marking a block, carving one in two, fusing two into one.
 */
module BlockHeaders {
  import opened Kernel
  import opened Blocks

  datatype Headers = Headers(next: seq<nat>, prev: seq<nat>, used: seq<bool>)

  ghost predicate SameLength(h: Headers) {
    |h.next| == |h.prev| == |h.used|
  }

  /** The headers from offset off on describe the blocks; the header in front of them is at `before`. */
  ghost predicate Laid(h: Headers, off: nat, before: nat, blocks: seq<Block>)
    requires SameLength(h)
    decreases |blocks|
  {
    blocks == [] ||
    (&& off < |h.next| && h.next[off] == off + blocks[0].size && h.prev[off] == before && h.used[off] == blocks[0].used
     && Laid(h, off + blocks[0].size, off, blocks[1..]))
  }

  /** Offset of the last header of the blocks. */
  function LastOff(off: nat, before: nat, blocks: seq<Block>): nat
    decreases |blocks|
  {
    if blocks == [] then before else LastOff(off + blocks[0].size, off, blocks[1..])
  }

  /** The two agree on the headers in [from, to). */
  ghost predicate Agree(h: Headers, g: Headers, from: nat, to: nat) {
    && SameLength(h) && SameLength(g) && |h.next| == |g.next|
    && forall k :: from <= k < to && k < |h.next| ==> h.next[k] == g.next[k] && h.prev[k] == g.prev[k] && h.used[k] == g.used[k]
  }

  lemma {:induction false} LaidFrame(h: Headers, g: Headers, off: nat, before: nat, blocks: seq<Block>)
    requires SameLength(h) && Laid(h, off, before, blocks) && Sized(blocks) && Agree(h, g, off, off + Total(blocks))
    ensures Laid(g, off, before, blocks)
    decreases |blocks|
  {
    if blocks != [] {
      LaidFrame(h, g, off + blocks[0].size, off, blocks[1..]);
    }
  }

  /** From offset off on, only the back link of the first header changed: it is now `back`. */
  ghost predicate Relinked(h: Headers, g: Headers, off: nat, back: nat, blocks: seq<Block>) {
    && Agree(h, g, off + 1, off + Total(blocks))
    && (blocks != [] ==> off < |h.next| && g.next[off] == h.next[off] && g.used[off] == h.used[off] && g.prev[off] == back)
  }

  lemma LaidRelinked(h: Headers, g: Headers, off: nat, before: nat, blocks: seq<Block>, back: nat)
    requires SameLength(h) && SameLength(g) && Sized(blocks)
    requires Laid(h, off, before, blocks) && Relinked(h, g, off, back, blocks)
    ensures Laid(g, off, back, blocks)
  {
    if blocks != [] {
      LaidFrame(h, g, off + blocks[0].size, off, blocks[1..]);
    }
  }

  lemma {:induction false} LaidConcat(h: Headers, off: nat, before: nat, a: seq<Block>, b: seq<Block>)
    requires SameLength(h)
    ensures Laid(h, off, before, a + b) <==> Laid(h, off, before, a) && Laid(h, off + Total(a), LastOff(off, before, a), b)
    decreases |a|
  {
    if a == [] {
      assert a + b == b;
    } else {
      assert (a + b)[1..] == a[1..] + b;
      LaidConcat(h, off + a[0].size, off, a[1..], b);
    }
  }

  lemma {:induction false} LastOffIs(off: nat, before: nat, a: seq<Block>)
    requires a != []
    ensures LastOff(off, before, a) == off + Total(a[..|a| - 1])
    decreases |a|
  {
    if |a| == 1 {
      assert a[1..] == [] && a[..0] == [];
    } else {
      LastOffIs(off + a[0].size, off, a[1..]);
      assert a[..|a| - 1] == [a[0]] + a[1..][..|a| - 2];
    }
  }

  lemma SplitThree(pre: seq<Block>, b: Block, post: seq<Block>)
    ensures Sized(pre + ([b] + post)) <==> Sized(pre) && SizedBlock(b) && Sized(post)
    ensures Total(pre + ([b] + post)) == Total(pre) + b.size + Total(post)
  {
    TotalThree(pre, [b], post);
    assert [b][1..] == [];
  }

  lemma ConsFacts(b: Block, post: seq<Block>)
    ensures Sized([b] + post) <==> SizedBlock(b) && Sized(post)
    ensures Total([b] + post) == b.size + Total(post)
  {
    assert ([b] + post)[1..] == post;
  }

  // ----- header surgery -----------------------------------------------------------------------

  /** One header, then the rest. */
  lemma LaidCons(h: Headers, off: nat, before: nat, b: Block, post: seq<Block>)
    requires SameLength(h)
    ensures Laid(h, off, before, [b] + post) <==>
            && off < |h.next| && h.next[off] == off + b.size && h.prev[off] == before && h.used[off] == b.used
            && Laid(h, off + b.size, off, post)
  {
    assert ([b] + post)[1..] == post;
  }

  lemma MarkLaid(h: Headers, g: Headers, pre: seq<Block>, b: Block, post: seq<Block>, used: bool)
    requires SameLength(h) && Sized(pre) && SizedBlock(b) && Sized(post) && Laid(h, 0, 0, pre + ([b] + post))
    requires Total(pre) < |h.used| && g == h.(used := h.used[Total(pre) := used])
    ensures Laid(g, 0, 0, pre + ([Block(b.size, used)] + post))
  {
    LaidConcat(h, 0, 0, pre, [b] + post);
    MarkTail(h, g, Total(pre), LastOff(0, 0, pre), b, post, used);
    Spliced(h, g, pre, [b] + post, [Block(b.size, used)] + post);
  }

  lemma MarkTail(h: Headers, g: Headers, ptr: nat, before: nat, b: Block, post: seq<Block>, used: bool)
    requires SameLength(h) && SizedBlock(b) && Sized(post) && Laid(h, ptr, before, [b] + post)
    requires ptr < |h.used| && g == h.(used := h.used[ptr := used])
    ensures Laid(g, ptr, before, [Block(b.size, used)] + post)
  {
    LaidCons(h, ptr, before, b, post);
    LaidFrame(h, g, ptr + b.size, ptr, post);
    LaidCons(g, ptr, before, Block(b.size, used), post);
  }

  /** One header more: the block b at ptr becomes a used block up to ptr2 and an unused rest up to end. */
  lemma CarveLaid(h: Headers, g: Headers, pre: seq<Block>, b: Block, post: seq<Block>, ptr: nat, ptr2: nat, end: nat)
    requires SameLength(h) && SameLength(g) && Sized(pre) && Sized(post) && Laid(h, 0, 0, pre + ([b] + post))
    requires ptr == Total(pre) && ptr < ptr2 < end == ptr + b.size && ptr2 < |h.next| == |g.next|
    requires Agree(h, g, 0, ptr) && Relinked(h, g, end, ptr2, post)
    requires g.next[ptr] == ptr2 && g.used[ptr] && g.prev[ptr] == h.prev[ptr]
    requires g.next[ptr2] == end && !g.used[ptr2] && g.prev[ptr2] == ptr
    ensures Laid(g, 0, 0, pre + ([Block(ptr2 - ptr, true)] + ([Block(end - ptr2, false)] + post)))
  {
    var before := LastOff(0, 0, pre);
    var (c, d) := (Block(ptr2 - ptr, true), Block(end - ptr2, false));
    assert Laid(h, ptr, before, [b] + post) by { LaidConcat(h, 0, 0, pre, [b] + post); }
    CarveBehind(h, g, ptr, ptr2, end, before, b, c, d, post);
    Spliced(h, g, pre, [b] + post, [c] + ([d] + post));
  }

  lemma CarveBehind(h: Headers, g: Headers, ptr: nat, ptr2: nat, end: nat, before: nat, b: Block, c: Block, d: Block, post: seq<Block>)
    requires SameLength(h) && SameLength(g) && Sized(post) && Laid(h, ptr, before, [b] + post)
    requires ptr < ptr2 < end == ptr + b.size && ptr2 < |h.next| == |g.next| && Relinked(h, g, end, ptr2, post)
    requires c == Block(ptr2 - ptr, true) && d == Block(end - ptr2, false)
    requires g.next[ptr] == ptr2 && g.used[ptr] && g.prev[ptr] == h.prev[ptr]
    requires g.next[ptr2] == end && !g.used[ptr2] && g.prev[ptr2] == ptr
    ensures Laid(g, ptr, before, [c] + ([d] + post))
  {
    LaidCons(h, ptr, before, b, post);
    LaidRelinked(h, g, end, ptr, post, ptr2);
    CarveTail(g, ptr, before, c, d, post);
  }

  /** The headers in front did not change; those behind describe something else now. */
  lemma Spliced(h: Headers, g: Headers, pre: seq<Block>, tail: seq<Block>, tail': seq<Block>)
    requires SameLength(h) && Sized(pre) && Laid(h, 0, 0, pre + tail) && Agree(h, g, 0, Total(pre))
    requires Laid(g, Total(pre), LastOff(0, 0, pre), tail')
    ensures Laid(g, 0, 0, pre + tail')
  {
    LaidConcat(h, 0, 0, pre, tail);
    LaidFrame(h, g, 0, 0, pre);
    LaidConcat(g, 0, 0, pre, tail');
  }

  lemma CarveTail(g: Headers, ptr: nat, before: nat, c: Block, d: Block, post: seq<Block>)
    requires SameLength(g) && ptr + c.size < |g.next|
    requires g.next[ptr] == ptr + c.size && g.used[ptr] == c.used && g.prev[ptr] == before
    requires g.next[ptr + c.size] == ptr + c.size + d.size && g.used[ptr + c.size] == d.used && g.prev[ptr + c.size] == ptr
    requires Laid(g, ptr + c.size + d.size, ptr + c.size, post)
    ensures Laid(g, ptr, before, [c] + ([d] + post))
  {
    LaidCons(g, ptr + c.size, ptr, d, post);
    LaidCons(g, ptr, before, c, [d] + post);
  }

  /** One header less: x at ptr takes in y behind it, up to end. */
  lemma FuseLaid(h: Headers, g: Headers, pre: seq<Block>, x: Block, y: Block, post: seq<Block>, ptr: nat, end: nat)
    requires SameLength(h) && SameLength(g) && Sized(pre) && Sized(post) && Laid(h, 0, 0, pre + ([x] + ([y] + post)))
    requires ptr == Total(pre) && ptr < end == ptr + x.size + y.size && ptr < |h.next| == |g.next| && !x.used
    requires Agree(h, g, 0, ptr) && Relinked(h, g, end, ptr, post)
    requires g.next[ptr] == end && g.used[ptr] == h.used[ptr] && g.prev[ptr] == h.prev[ptr]
    ensures Laid(g, 0, 0, pre + ([Block(x.size + y.size, false)] + post))
  {
    var before := LastOff(0, 0, pre);
    assert Laid(h, ptr, before, [x] + ([y] + post)) by { LaidConcat(h, 0, 0, pre, [x] + ([y] + post)); }
    FuseTail(h, g, x, y, post, ptr, end, before);
    Spliced(h, g, pre, [x] + ([y] + post), [Block(x.size + y.size, false)] + post);
  }

  lemma FuseTail(h: Headers, g: Headers, x: Block, y: Block, post: seq<Block>, ptr: nat, end: nat, before: nat)
    requires SameLength(h) && SameLength(g) && Sized(post) && Laid(h, ptr, before, [x] + ([y] + post))
    requires end == ptr + x.size + y.size && |h.next| == |g.next| && !x.used && Relinked(h, g, end, ptr, post)
    requires ptr < |h.next| && g.next[ptr] == end && g.used[ptr] == h.used[ptr] && g.prev[ptr] == h.prev[ptr]
    ensures Laid(g, ptr, before, [Block(x.size + y.size, false)] + post)
  {
    TwoLaid(h, ptr, before, x, y, post);
    LaidRelinked(h, g, end, ptr + x.size, post, ptr);
    LaidCons(g, ptr, before, Block(x.size + y.size, false), post);
  }

  lemma TwoLaid(h: Headers, ptr: nat, before: nat, x: Block, y: Block, post: seq<Block>)
    requires SameLength(h) && Laid(h, ptr, before, [x] + ([y] + post))
    ensures ptr < |h.next| && h.prev[ptr] == before && h.used[ptr] == x.used
    ensures Laid(h, ptr + x.size + y.size, ptr + x.size, post)
  {
    LaidCons(h, ptr, before, x, [y] + post);
    LaidCons(h, ptr + x.size, ptr, y, post);
  }

  /** Where the header in front of ptr is: prev of the first block is the block itself. */
  function Back(pre: seq<Block>): nat {
    if pre == [] then 0 else Total(pre[..|pre| - 1])
  }

  lemma BackIsLastOff(pre: seq<Block>)
    ensures LastOff(0, 0, pre) == Back(pre)
  {
    if pre != [] {
      LastOffIs(0, 0, pre);
    }
  }

  lemma HeadIsLaid(h: Headers, pre: seq<Block>, b: Block, post: seq<Block>, ptr: nat)
    requires SameLength(h) && Laid(h, 0, 0, pre + ([b] + post)) && ptr == Total(pre)
    ensures ptr < |h.next| && h.next[ptr] == ptr + b.size && h.used[ptr] == b.used && h.prev[ptr] == Back(pre)
  {
    var before := LastOff(0, 0, pre);
    assert before == Back(pre) by { BackIsLastOff(pre); }
    assert Laid(h, ptr, before, [b] + post) by { LaidConcat(h, 0, 0, pre, [b] + post); }
    LaidCons(h, ptr, before, b, post);
  }

  /** The header behind b is that of the first block of post, or heap_end. */
  lemma NextIsLaid(h: Headers, pre: seq<Block>, b: Block, post: seq<Block>, ptr: nat, end: nat)
    requires SameLength(h) && Laid(h, 0, 0, pre + ([b] + post)) && ptr == Total(pre) && end == ptr + b.size
    ensures post != [] ==> end < |h.next| && h.used[end] == post[0].used && h.next[end] == end + post[0].size
  {
    NextFrom(h, pre, b, post, ptr, LastOff(0, 0, pre), [b] + post, end);
  }

  lemma NextFrom(h: Headers, pre: seq<Block>, b: Block, post: seq<Block>, ptr: nat, before: nat, rest: seq<Block>, end: nat)
    requires SameLength(h) && rest == [b] + post && Laid(h, 0, 0, pre + rest) && ptr == Total(pre) && end == ptr + b.size
    requires before == LastOff(0, 0, pre)
    ensures post != [] ==> end < |h.next| && h.used[end] == post[0].used && h.next[end] == end + post[0].size
  {
    LaidConcat(h, 0, 0, pre, rest);
    BehindHead(h, ptr, before, b, post, end);
  }

  lemma BehindHead(h: Headers, ptr: nat, before: nat, b: Block, post: seq<Block>, end: nat)
    requires SameLength(h) && Laid(h, ptr, before, [b] + post) && end == ptr + b.size
    ensures post != [] ==> end < |h.next| && h.used[end] == post[0].used && h.next[end] == end + post[0].size
  {
    LaidCons(h, ptr, before, b, post);
  }

  /** The header in front of b is that of the last block of pre, or b itself. */
  lemma PrevIsLaid(h: Headers, pre: seq<Block>, b: Block, post: seq<Block>, ptr: nat, front: seq<Block>, last: Block)
    requires SameLength(h) && Laid(h, 0, 0, pre + ([b] + post)) && ptr == Total(pre) && Sized(pre)
    requires pre != [] ==> front == pre[..|pre| - 1] && last == pre[|pre| - 1]
    ensures ptr < |h.next|
    ensures pre == [] ==> h.prev[ptr] == ptr
    ensures pre != [] ==> && pre + ([b] + post) == front + ([last] + ([b] + post))
                          && h.prev[ptr] == Total(front) < ptr == Total(front) + last.size && h.used[Total(front)] == last.used
  {
    HeadIsLaid(h, pre, b, post, ptr);
    if pre != [] {
      SplitLast(pre, [b] + post);
      LastOf(pre);
      HeadIsLaid(h, front, last, [b] + post, Total(front));
    }
  }
}
