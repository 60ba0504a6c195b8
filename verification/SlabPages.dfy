/**
 The page allocator under the slab (src/slab.c, rt_page_alloc and rt_page_free): a list of free runs, and the
 set of free pages it stands for. Pages are counted from heap_start.
 */
module SlabPages {
  import opened Kernel

  /** struct rt_page_head: count free pages from this one on. */
  datatype Run = Run(page: nat, count: nat)

  /** Sorted by address, no run empty, at least one page in use between two runs. */
  ghost predicate Canonical(list: seq<Run>) {
    list == [] || (list[0].count > 0 && Behind(list[1..], End(list[0]) + 1) && Canonical(list[1..]))
  }

  function End(r: Run): nat {
    r.page + r.count
  }

  /** The first run starts at page x or later. */
  ghost predicate Behind(list: seq<Run>, x: nat) {
    list != [] ==> x <= list[0].page
  }

  ghost predicate Free(list: seq<Run>, p: int) {
    list != [] && (list[0].page <= p < End(list[0]) || Free(list[1..], p))
  }

  /** Every run lies below page n. */
  ghost predicate Within(list: seq<Run>, n: nat) {
    list == [] || (End(list[0]) <= n && Within(list[1..], n))
  }

  function FreeCount(list: seq<Run>): nat {
    if list == [] then 0 else list[0].count + FreeCount(list[1..])
  }

  // ----- the operations -----------------------------------------------------------------------

  /** rt_page_alloc: the first run that is long enough gives its first n pages. */
  function Alloc(list: seq<Run>, n: nat): (seq<Run>, Option<nat>) {
    if list == [] || n == 0 then (list, None)
    else if list[0].count > n then ([Run(list[0].page + n, list[0].count - n)] + list[1..], Some(list[0].page))
    else if list[0].count == n then (list[1..], Some(list[0].page))
    else ([list[0]] + Alloc(list[1..], n).0, Alloc(list[1..], n).1)
  }

  /** The run b grown by n pages, and joined with the next one if it now touches it. */
  function Grown(b: Run, n: nat, rest: seq<Run>): seq<Run> {
    if rest != [] && End(b) + n == rest[0].page then [Run(b.page, b.count + n + rest[0].count)] + rest[1..]
    else [Run(b.page, b.count + n)] + rest
  }

  /** rt_page_free: n pages from p on go back, joined with the runs they touch. */
  function Freed(list: seq<Run>, p: nat, n: nat): seq<Run> {
    if list == [] then [Run(p, n)]
    else if End(list[0]) == p then Grown(list[0], n, list[1..])
    else if list[0].page == p + n then [Run(p, n + list[0].count)] + list[1..]
    else if list[0].page > p + n then [Run(p, n)] + list
    else [list[0]] + Freed(list[1..], p, n)
  }

  /** No run has a page of [p, p + n). */
  ghost predicate Clear(list: seq<Run>, p: nat, n: nat) {
    list == [] || ((End(list[0]) <= p || p + n <= list[0].page) && Clear(list[1..], p, n))
  }

  // ----- a list is its set of pages -----------------------------------------------------------

  lemma {:induction false} NothingBefore(list: seq<Run>, x: nat, p: int)
    requires Canonical(list) && Behind(list, x) && p < x
    ensures !Free(list, p)
  {
    if list != [] {
      NothingBefore(list[1..], End(list[0]) + 1, p);
    }
  }

  /** First page of the list, whose predecessor is in use; and the page behind the first run, which is too. */
  lemma FirstRun(list: seq<Run>)
    requires Canonical(list) && list != []
    ensures Free(list, list[0].page) && !Free(list, End(list[0])) && !Free(list, list[0].page - 1)
  {
    NothingBefore(list, list[0].page, list[0].page - 1);
    NothingBefore(list[1..], End(list[0]) + 1, End(list[0]));
  }

  /** Two canonical lists of the same pages start with the same run. */
  lemma SameFirst(a: seq<Run>, b: seq<Run>)
    requires Canonical(a) && Canonical(b) && a != [] && b != [] && forall p :: Free(a, p) <==> Free(b, p)
    ensures a[0] == b[0]
  {
    FirstRun(a);
    FirstRun(b);
    assert a[0].page == b[0].page by {
      assert Free(b, a[0].page) && Free(a, b[0].page);
      if a[0].page < b[0].page { NothingBefore(b, b[0].page, a[0].page); }
      if b[0].page < a[0].page { NothingBefore(a, a[0].page, b[0].page); }
    }
    assert Free(a, End(a[0])) <==> Free(b, End(a[0]));
    assert Free(a, End(b[0])) <==> Free(b, End(b[0]));
  }

  /** The list is determined by the set of free pages. */
  lemma {:induction false} Determined(a: seq<Run>, b: seq<Run>)
    requires Canonical(a) && Canonical(b) && forall p :: Free(a, p) <==> Free(b, p)
    ensures a == b
  {
    if a == [] || b == [] {
      if a != [] { FirstRun(a); }
      if b != [] { FirstRun(b); }
    } else {
      SameFirst(a, b);
      forall p
        ensures Free(a[1..], p) <==> Free(b[1..], p)
      {
        assert Free(a, p) <==> Free(b, p);
        if p < End(a[0]) {
          NothingBefore(a[1..], End(a[0]) + 1, p);
          NothingBefore(b[1..], End(b[0]) + 1, p);
        }
      }
      Determined(a[1..], b[1..]);
    }
  }

  ghost predicate NoneFree(list: seq<Run>, p: nat, n: nat) {
    forall q :: p <= q < p + n ==> !Free(list, q)
  }

  lemma {:induction false} ClearExactly(list: seq<Run>, p: nat, n: nat)
    requires Canonical(list) && n > 0
    ensures Clear(list, p, n) <==> NoneFree(list, p, n)
  {
    if list != [] {
      ClearExactly(list[1..], p, n);
      var b := list[0];
      if !(End(b) <= p || p + n <= b.page) {
        var q := if b.page <= p then p else b.page;
        assert p <= q < p + n && Free(list, q);
      } else {
        assert forall q :: p <= q < p + n ==> (Free(list, q) <==> Free(list[1..], q));
      }
    }
  }

  // ----- rt_page_alloc ------------------------------------------------------------------------

  lemma {:induction false} AllocKeeps(list: seq<Run>, n: nat, x: nat)
    requires Canonical(list)
    ensures var r := Alloc(list, n).0; Canonical(r) && (Behind(list, x) ==> Behind(r, x))
    ensures FreeCount(list) == FreeCount(Alloc(list, n).0) + if Alloc(list, n).1.Some? then n else 0
  {
    if list != [] && n > 0 && list[0].count < n {
      AllocKeeps(list[1..], n, End(list[0]) + 1);
    }
  }

  /** Exactly the n pages handed out stop being free. */
  lemma {:induction false} AllocTakes(list: seq<Run>, n: nat, q: int)
    requires Canonical(list) && Alloc(list, n).1.Some?
    ensures var (r, p) := (Alloc(list, n).0, Alloc(list, n).1.value);
            Free(r, q) <==> Free(list, q) && !(p <= q < p + n)
    ensures var p := Alloc(list, n).1.value; p <= q < p + n ==> Free(list, q)
    ensures Behind(list, Alloc(list, n).1.value) || list[0].page <= Alloc(list, n).1.value
  {
    var rest := list[1..];
    if list[0].count >= n {
      if q < End(list[0]) {
        NothingBefore(rest, End(list[0]) + 1, q);
      }
    } else {
      AllocTakes(rest, n, q);
      AllocBehind(rest, n, End(list[0]) + 1);
    }
  }

  lemma {:induction false} NothingAllocated(list: seq<Run>, n: nat)
    requires Alloc(list, n).1.None?
    ensures Alloc(list, n).0 == list
  {
    if list != [] && n > 0 {
      NothingAllocated(list[1..], n);
    }
  }

  lemma {:induction false} AllocBehind(list: seq<Run>, n: nat, x: nat)
    requires Canonical(list) && Behind(list, x) && Alloc(list, n).1.Some?
    ensures x <= Alloc(list, n).1.value
  {
    if list[0].count < n {
      AllocBehind(list[1..], n, End(list[0]) + 1);
    }
  }

  /** All the n pages from p on are free. */
  ghost predicate Serves(list: seq<Run>, p: nat, n: nat) {
    forall q :: p <= q < p + n ==> Free(list, q)
  }

  /** Free pages that follow each other belong to one run. */
  lemma {:induction false} ServedByRest(list: seq<Run>, p: nat, n: nat)
    requires Canonical(list) && list != [] && n > list[0].count && Serves(list, p, n)
    ensures Serves(list[1..], p, n) && p > End(list[0])
  {
    var b := list[0];
    assert Free(list, p) by { assert p <= p < p + n; }
    FirstRun(list);
    assert p >= b.page by { if p < b.page { NothingBefore(list, b.page, p); } }
    assert End(b) < p + n && !Free(list, End(b));
    assert forall q :: p <= q < p + n ==> (Free(list, q) <==> Free(list[1..], q));
  }

  /** rt_page_alloc returns the lowest page from which n pages are free, and nothing only if there is none. */
  lemma {:induction false} AllocIsLowest(list: seq<Run>, n: nat, p: nat)
    requires Canonical(list) && n > 0
    ensures Alloc(list, n).1.None? ==> !Serves(list, p, n)
    ensures Alloc(list, n).1.Some? ==> Serves(list, Alloc(list, n).1.value, n)
    ensures Alloc(list, n).1.Some? && Serves(list, p, n) ==> Alloc(list, n).1.value <= p
  {
    if Alloc(list, n).1.Some? {
      forall q | Alloc(list, n).1.value <= q < Alloc(list, n).1.value + n
        ensures Free(list, q)
      {
        AllocTakes(list, n, q);
      }
    }
    if Serves(list, p, n) {
      assert Free(list, p) by { assert p <= p < p + n; }
      if list[0].count < n {
        ServedByRest(list, p, n);
        AllocIsLowest(list[1..], n, p);
      } else if p < list[0].page {
        NothingBefore(list, list[0].page, p);
      }
    }
  }

  // ----- rt_page_free -------------------------------------------------------------------------

  lemma {:induction false} FreedKeeps(list: seq<Run>, p: nat, n: nat, x: nat)
    requires Canonical(list) && Clear(list, p, n) && n > 0
    ensures var r := Freed(list, p, n); Canonical(r) && (Behind(list, x) && x <= p ==> Behind(r, x))
    ensures FreeCount(Freed(list, p, n)) == FreeCount(list) + n
  {
    if list != [] && End(list[0]) != p && list[0].page < p + n {
      FreedKeeps(list[1..], p, n, End(list[0]) + 1);
    }
  }

  /** Exactly the pages given back become free. */
  lemma {:induction false} FreedAdds(list: seq<Run>, p: nat, n: nat, q: int)
    requires Canonical(list) && Clear(list, p, n) && n > 0
    ensures Free(Freed(list, p, n), q) <==> Free(list, q) || p <= q < p + n
  {
    if list == [] {
    } else if End(list[0]) == p {
      var rest := list[1..];
      if rest != [] && p + n == rest[0].page {
        assert Freed(list, p, n)[1..] == rest[1..];
      } else {
        assert Freed(list, p, n)[1..] == rest;
      }
    } else if list[0].page == p + n {
      assert Freed(list, p, n)[1..] == list[1..];
    } else if list[0].page > p + n {
      assert Freed(list, p, n)[1..] == list;
    } else {
      FreedAdds(list[1..], p, n, q);
    }
  }

  /** Giving back what was just handed out restores the very same list. */
  lemma FreeUndoesAlloc(list: seq<Run>, n: nat)
    requires Canonical(list) && Alloc(list, n).1.Some?
    ensures var (r, p) := (Alloc(list, n).0, Alloc(list, n).1.value); Clear(r, p, n) && Freed(r, p, n) == list
  {
    var (r, p) := (Alloc(list, n).0, Alloc(list, n).1.value);
    AllocKeeps(list, n, 0);
    forall q
      ensures Free(r, q) <==> Free(list, q) && !(p <= q < p + n)
      ensures p <= q < p + n ==> Free(list, q)
    {
      AllocTakes(list, n, q);
    }
    ClearExactly(r, p, n);
    FreedKeeps(r, p, n, 0);
    forall q
      ensures Free(Freed(r, p, n), q) <==> Free(list, q)
    {
      FreedAdds(r, p, n, q);
    }
    Determined(Freed(r, p, n), list);
  }

  /** In whatever order two stretches of pages are given back, the list ends up the same. */
  lemma FreesCommute(list: seq<Run>, p: nat, n: nat, q: nat, m: nat)
    requires Canonical(list) && n > 0 && m > 0 && Clear(list, p, n) && Clear(list, q, m)
    requires p + n <= q || q + m <= p
    ensures Clear(Freed(list, p, n), q, m) && Clear(Freed(list, q, m), p, n)
    ensures Freed(Freed(list, p, n), q, m) == Freed(Freed(list, q, m), p, n)
  {
    var (a, b) := (Freed(list, p, n), Freed(list, q, m));
    StillClear(list, p, n, q, m);
    StillClear(list, q, m, p, n);
    FreedKeeps(list, p, n, 0);
    FreedKeeps(list, q, m, 0);
    FreedKeeps(a, q, m, 0);
    FreedKeeps(b, p, n, 0);
    forall x
      ensures Free(Freed(a, q, m), x) <==> Free(Freed(b, p, n), x)
    {
      FreedAdds(list, p, n, x);
      FreedAdds(list, q, m, x);
      FreedAdds(a, q, m, x);
      FreedAdds(b, p, n, x);
    }
    Determined(Freed(a, q, m), Freed(b, p, n));
  }

  lemma StillClear(list: seq<Run>, p: nat, n: nat, q: nat, m: nat)
    requires Canonical(list) && n > 0 && m > 0 && Clear(list, p, n) && Clear(list, q, m)
    requires p + n <= q || q + m <= p
    ensures Clear(Freed(list, p, n), q, m)
  {
    FreedKeeps(list, p, n, 0);
    ClearExactly(list, q, m);
    forall x | q <= x < q + m
      ensures !Free(Freed(list, p, n), x)
    {
      FreedAdds(list, p, n, x);
    }
    ClearExactly(Freed(list, p, n), q, m);
  }

  // ----- whole runs ---------------------------------------------------------------------------

  datatype Op = AllocOp(n: nat) | FreeOp(p: nat, n: nat)

  /** A caller may give back any pages of the heap that are in use. */
  ghost predicate Enabled(pages: nat, list: seq<Run>, op: Op) {
    op.FreeOp? ==> op.n > 0 && op.p + op.n <= pages && NoneFree(list, op.p, op.n)
  }

  function Apply(list: seq<Run>, op: Op): seq<Run> {
    match op
    case AllocOp(n) => Alloc(list, n).0
    case FreeOp(p, n) => Freed(list, p, n)
  }

  /** Pages in use after the operation, given those in use before it. */
  function InUse(list: seq<Run>, op: Op, before: int): int {
    match op
    case AllocOp(n) => if Alloc(list, n).1.Some? then before + n else before
    case FreeOp(_, n) => before - n
  }

  /** ops can happen one after the other, and lead from one list and count of pages in use to another. */
  ghost predicate Leads(pages: nat, list: seq<Run>, used: int, ops: seq<Op>, r: seq<Run>, left: int)
    decreases |ops|
  {
    if ops == [] then list == r && used == left
    else Enabled(pages, list, ops[0])
         && Leads(pages, Apply(list, ops[0]), InUse(list, ops[0], used), ops[1..], r, left)
  }

  lemma {:induction false} AllocWithin(list: seq<Run>, n: nat, pages: nat)
    requires Within(list, pages)
    ensures Within(Alloc(list, n).0, pages)
  {
    if list != [] && n > 0 && list[0].count < n {
      AllocWithin(list[1..], n, pages);
    }
  }

  lemma {:induction false} FreedWithin(list: seq<Run>, p: nat, n: nat, pages: nat)
    requires Within(list, pages) && p + n <= pages
    ensures Within(Freed(list, p, n), pages)
  {
    if list != [] && End(list[0]) != p && list[0].page < p + n {
      FreedWithin(list[1..], p, n, pages);
    }
  }

  lemma ApplyKeeps(pages: nat, list: seq<Run>, op: Op, used: int)
    requires Canonical(list) && Within(list, pages) && Enabled(pages, list, op)
    ensures Canonical(Apply(list, op)) && Within(Apply(list, op), pages)
    ensures FreeCount(Apply(list, op)) + InUse(list, op, used) == FreeCount(list) + used
  {
    match op
    case AllocOp(n) =>
      AllocKeeps(list, n, 0);
      AllocWithin(list, n, pages);
    case FreeOp(p, n) =>
      ClearExactly(list, p, n);
      FreedKeeps(list, p, n, 0);
      FreedWithin(list, p, n, pages);
  }

  lemma {:induction false} RunKeeps(pages: nat, list: seq<Run>, used: int, ops: seq<Op>, r: seq<Run>, left: int)
    requires Canonical(list) && Within(list, pages) && Leads(pages, list, used, ops, r, left)
    ensures Canonical(r) && Within(r, pages) && FreeCount(r) + left == FreeCount(list) + used
    decreases |ops|
  {
    if ops != [] {
      ApplyKeeps(pages, list, ops[0], used);
      RunKeeps(pages, Apply(list, ops[0]), InUse(list, ops[0], used), ops[1..], r, left);
    }
  }

  lemma {:induction false} CountFits(list: seq<Run>, x: nat, pages: nat)
    requires Canonical(list) && Within(list, pages) && Behind(list, x) && x <= pages
    ensures FreeCount(list) <= pages - x
    ensures FreeCount(list) == pages - x > 0 ==> list == [Run(x, pages - x)]
  {
    if list != [] {
      var y := if End(list[0]) + 1 <= pages then End(list[0]) + 1 else pages;
      if list[1..] != [] { WithinFirst(list[1..], pages); }
      CountFits(list[1..], y, pages);
      if FreeCount(list) == pages - x {
        assert list == [list[0]] + list[1..];
        assert list[1..] == [];
      }
    }
  }

  lemma WithinFirst(list: seq<Run>, pages: nat)
    requires Canonical(list) && Within(list, pages) && list != []
    ensures list[0].page < pages
  {
  }

  /**
   From the single run rt_page_init makes, whatever is allocated and given back in whatever order: the list
   stays canonical, every page is either free or in use, and once nothing is in use the list is the initial
   one again.
   */
  lemma ReachablePages(pages: nat, ops: seq<Op>, r: seq<Run>, left: int)
    requires pages > 0 && Leads(pages, Freed([], 0, pages), 0, ops, r, left)
    ensures Canonical(r) && Within(r, pages) && FreeCount(r) + left == pages && 0 <= left
    ensures left == 0 ==> r == [Run(0, pages)]
  {
    var all := [Run(0, pages)];
    assert all[1..] == [];
    assert FreeCount(all) == pages;
    RunKeeps(pages, all, 0, ops, r, left);
    CountFits(r, 0, pages);
  }
}
