/**
 The page list itself (src/slab.c): each free run keeps its length and the next run in the header of its first
 page; rt_page_list points to the first one. Lists are edited through the link that led to a run.
 */
module SlabPageList {
  import opened Kernel
  import opened SlabPages

  /** The null pointer, and the link variable rt_page_list where a header is expected. */
  const NULL := -1

  datatype Headers = Headers(next: seq<int>, count: seq<nat>)

  ghost predicate SameLength(h: Headers) {
    |h.next| == |h.count|
  }

  /** Following the links from `from`, one meets these runs and then `to`. */
  ghost predicate Chain(h: Headers, from: int, list: seq<Run>, to: int)
    requires SameLength(h)
    decreases |list|
  {
    if list == [] then from == to
    else from == list[0].page < |h.next| && h.count[from] == list[0].count && Chain(h, h.next[from], list[1..], to)
  }

  /** Where a chain through the list starts. */
  function FirstOr(list: seq<Run>, to: int): int {
    if list == [] then to else list[0].page
  }

  /** All first pages lie in [from, to). */
  ghost predicate Between(list: seq<Run>, from: int, to: int) {
    list == [] || (from <= list[0].page < to && Between(list[1..], from, to))
  }

  ghost predicate Agree(h: Headers, g: Headers, from: int, to: int) {
    && SameLength(h) && SameLength(g) && |h.next| == |g.next|
    && forall k :: from <= k < to && 0 <= k < |h.next| ==> h.next[k] == g.next[k] && h.count[k] == g.count[k]
  }

  lemma {:induction false} ChainFrame(h: Headers, g: Headers, from: int, list: seq<Run>, to: int, low: int, high: int)
    requires SameLength(h) && Chain(h, from, list, to) && Between(list, low, high) && Agree(h, g, low, high)
    ensures Chain(g, from, list, to)
    decreases |list|
  {
    if list != [] {
      ChainFrame(h, g, h.next[from], list[1..], to, low, high);
    }
  }

  lemma {:induction false} ChainStarts(h: Headers, from: int, list: seq<Run>, to: int)
    requires SameLength(h) && Chain(h, from, list, to)
    ensures from == FirstOr(list, to)
  {
  }

  lemma {:induction false} ChainConcat(h: Headers, from: int, a: seq<Run>, b: seq<Run>, to: int)
    requires SameLength(h)
    ensures Chain(h, from, a + b, to) <==> Chain(h, from, a, FirstOr(b, to)) && Chain(h, FirstOr(b, to), b, to)
    decreases |a|
  {
    if a == [] {
      assert a + b == b;
      if Chain(h, from, b, to) {
        ChainStarts(h, from, b, to);
      }
    } else {
      assert (a + b)[1..] == a[1..] + b;
      if 0 <= from < |h.next| {
        ChainConcat(h, h.next[from], a[1..], b, to);
      }
    }
  }

  lemma {:induction false} BetweenConcat(a: seq<Run>, b: seq<Run>, from: int, to: int)
    ensures Between(a + b, from, to) <==> Between(a, from, to) && Between(b, from, to)
  {
    if a == [] {
      assert a + b == b;
    } else {
      assert (a + b)[1..] == a[1..] + b;
      BetweenConcat(a[1..], b, from, to);
    }
  }

  lemma {:induction false} Widen(list: seq<Run>, from: int, to: int, from': int, to': int)
    requires Between(list, from, to) && from' <= from && to <= to'
    ensures Between(list, from', to')
  {
    if list != [] {
      Widen(list[1..], from, to, from', to');
    }
  }

  /** A canonical list is sorted by first page. */
  lemma {:induction false} CanonicalBetween(list: seq<Run>, x: nat, pages: nat)
    requires Canonical(list) && Behind(list, x) && Within(list, pages)
    ensures Between(list, x, pages)
  {
    if list != [] {
      CanonicalBetween(list[1..], End(list[0]) + 1, pages);
      Widen(list[1..], End(list[0]) + 1, pages, x, pages);
    }
  }

  /** The part of a canonical list in front of x, and the part from x on. */
  lemma {:induction false} CanonicalSplit(a: seq<Run>, b: seq<Run>, pages: nat)
    requires Canonical(a + b) && Within(a + b, pages)
    ensures Canonical(a) && Canonical(b) && Within(a, pages) && Within(b, pages)
    ensures b != [] ==> Between(a, 0, b[0].page)
    ensures a != [] ==> Behind(b, End(a[|a| - 1]) + 1)
  {
    if a == [] {
      assert a + b == b;
    } else {
      assert (a + b)[1..] == a[1..] + b;
      CanonicalSplit(a[1..], b, pages);
      if |a| == 1 {
        assert a[1..] == [] && [] + b == b;
      } else if b != [] {
        assert a[1..][0].page <= b[0].page;
      }
    }
  }

  lemma {:induction false} WithinConcat(a: seq<Run>, b: seq<Run>, n: nat)
    ensures Within(a + b, n) <==> Within(a, n) && Within(b, n)
  {
    if a == [] {
      assert a + b == b;
    } else {
      assert (a + b)[1..] == a[1..] + b;
      WithinConcat(a[1..], b, n);
    }
  }

  /** The last header of a chain leads elsewhere now; every other one in front of x is as it was. */
  lemma {:induction false} Relink(h: Headers, g: Headers, from: int, a: seq<Run>, l: Run, to: int, to': int)
    requires SameLength(h) && SameLength(g) && |h.next| == |g.next| && Chain(h, from, a + [l], to)
    requires Between(a, 0, l.page) && Agree(h, g, 0, l.page)
    requires l.page < |g.next| && g.next[l.page] == to' && g.count[l.page] == l.count
    ensures Chain(g, from, a + [l], to')
  {
    ChainConcat(h, from, a, [l], to);
    ChainFrame(h, g, from, a, l.page, 0, l.page);
    assert [l][1..] == [];
    ChainConcat(g, from, a, [l], to');
  }

  /** The header whose link leads out of `done`. */
  function LinkOf(done: seq<Run>): int {
    if done == [] then NULL else done[|done| - 1].page
  }

  /** The last header of `done` comes behind all the others. */
  lemma LastLink(done: seq<Run>, pages: nat)
    requires Canonical(done) && Within(done, pages) && done != []
    ensures done == done[..|done| - 1] + [done[|done| - 1]]
    ensures Between(done[..|done| - 1], 0, LinkOf(done)) && 0 <= LinkOf(done) < pages
  {
    assert done == done[..|done| - 1] + [done[|done| - 1]];
    LastBetween(done[..|done| - 1], done[|done| - 1], pages);
  }

  lemma LastBetween(a: seq<Run>, l: Run, pages: nat)
    requires Canonical(a + [l]) && Within(a + [l], pages)
    ensures Between(a, 0, l.page) && 0 <= l.page < pages
  {
    CanonicalSplit(a, [l], pages);
    CanonicalBetween([l], 0, pages);
  }

  /** The tail of a list, seen from the header tables. */
  lemma TailKept(h: Headers, g: Headers, mid: seq<Run>, tail: seq<Run>, from: int, pages: nat, high: nat)
    requires SameLength(h) && Canonical(mid + tail) && Within(mid + tail, pages) && |h.next| == pages
    requires Chain(h, from, mid + tail, NULL) && Behind(tail, high) && Agree(h, g, high, pages)
    ensures Chain(g, FirstOr(tail, NULL), tail, NULL)
  {
    ChainConcat(h, from, mid, tail, NULL);
    CanonicalSplit(mid, tail, pages);
    CanonicalBetween(tail, high, pages);
    ChainFrame(h, g, FirstOr(tail, NULL), tail, NULL, high, pages);
  }

  /**
   Surgery on a list done + (mid + tail): behind `done` comes `front` now, of at most one run, then `tail`. The
   headers in front of link and those from high on are as they were; link, or rt_page_list, leads to the new part.
   */
  lemma Spliced(h: Headers, g: Headers, head: int, head': int, done: seq<Run>, mid: seq<Run>, tail: seq<Run>, front: seq<Run>, high: nat)
    requires SameLength(h) && SameLength(g) && |h.next| == |g.next|
    requires Canonical(done + (mid + tail)) && Within(done + (mid + tail), |h.next|) && Chain(h, head, done + (mid + tail), NULL)
    requires Behind(tail, high) && Agree(h, g, high, |h.next|)
    requires front == [] || (|front| == 1 && front[0].page < |g.next| && g.count[front[0].page] == front[0].count
                             && g.next[front[0].page] == FirstOr(tail, NULL))
    requires done == [] ==> head' == FirstOr(front + tail, NULL)
    requires done != [] ==> head' == head && Agree(h, g, 0, LinkOf(done)) && LinkOf(done) < |h.next|
                            && g.next[LinkOf(done)] == FirstOr(front + tail, NULL) && g.count[LinkOf(done)] == h.count[LinkOf(done)]
    ensures Chain(g, head', done + (front + tail), NULL)
  {
    var pages := |h.next|;
    CanonicalSplit(done, mid + tail, pages);
    ChainConcat(h, head, done, mid + tail, NULL);
    TailKept(h, g, mid, tail, FirstOr(mid + tail, NULL), pages, high);
    FrontLaid(g, front, tail);
    if done == [] {
      assert done + (front + tail) == front + tail;
    } else {
      LastLink(done, pages);
      LastCount(h, head, done, FirstOr(mid + tail, NULL));
      Relink(h, g, head, done[..|done| - 1], done[|done| - 1], FirstOr(mid + tail, NULL), FirstOr(front + tail, NULL));
      ChainConcat(g, head', done, front + tail, NULL);
    }
  }

  lemma FrontLaid(g: Headers, front: seq<Run>, tail: seq<Run>)
    requires SameLength(g) && Chain(g, FirstOr(tail, NULL), tail, NULL)
    requires front == [] || (|front| == 1 && front[0].page < |g.next| && g.count[front[0].page] == front[0].count
                             && g.next[front[0].page] == FirstOr(tail, NULL))
    ensures Chain(g, FirstOr(front + tail, NULL), front + tail, NULL)
  {
    if front == [] {
      assert front + tail == tail;
    } else {
      assert (front + tail)[1..] == tail;
    }
  }

  /** The header at the end of a chain, and where it leads. */
  lemma LastCount(h: Headers, head: int, done: seq<Run>, to: int)
    requires SameLength(h) && done != [] && Chain(h, head, done, to)
    ensures 0 <= LinkOf(done) < |h.next| && h.count[LinkOf(done)] == done[|done| - 1].count && h.next[LinkOf(done)] == to
  {
    var (a, l) := (done[..|done| - 1], done[|done| - 1]);
    assert done == a + [l] && [l][1..] == [];
    ChainConcat(h, head, a, [l], to);
  }

  class PageList {
    const next: array<int>
    const count: array<nat>
    var pageList: int
    ghost var list: seq<Run>

    ghost function Table(): Headers
      reads next, count
    {
      Headers(next[..], count[..])
    }

    ghost predicate Valid()
      reads this, next, count
    {
      && next.Length == count.Length
      && Canonical(list) && Within(list, next.Length)
      && Chain(Table(), pageList, list, NULL)
    }

    /** rt_page_init */
    constructor (npages: nat)
      requires npages > 0
      ensures Valid() && list == Freed([], 0, npages) && next.Length == npages && fresh(next) && fresh(count)
    {
      next := new int[npages](_ => NULL);
      count := new nat[npages](_ => npages);
      pageList := 0;
      list := [Run(0, npages)];
      new;
      assert list[1..] == [];
    }

    /** The list as it is being walked: done lies behind, todo ahead; link is the header that leads to b. */
    ghost predicate At(done: seq<Run>, link: int, b: int, todo: seq<Run>)
      reads this, next, count
    {
      Valid() && list == done + todo && b == FirstOr(todo, NULL) && link == LinkOf(done)
    }

    /** The header ahead, and the one that leads to it. */
    lemma Ahead(done: seq<Run>, link: int, b: int, todo: seq<Run>)
      requires At(done, link, b, todo)
      ensures Canonical(todo)
      ensures todo != [] ==> 0 <= b < next.Length && count[b] == todo[0].count && next[b] == FirstOr(todo[1..], NULL)
      ensures todo != [] ==> End(todo[0]) <= next.Length && link < b
      ensures if done == [] then pageList == b else 0 <= link < next.Length && next[link] == b
    {
      ChainConcat(Table(), pageList, done, todo, NULL);
      CanonicalSplit(done, todo, next.Length);
      if todo != [] {
        ChainStarts(Table(), next[b], todo[1..], NULL);
      }
      if done != [] {
        LastCount(Table(), pageList, done, b);
      }
    }

    lemma AheadNext(done: seq<Run>, link: int, b: int, todo: seq<Run>)
      requires At(done, link, b, todo) && todo != []
      ensures 0 <= b < next.Length && At(done + [todo[0]], b, next[b], todo[1..])
      ensures var rest := todo[1..];
              rest != [] ==> b < next[b] < next.Length && count[next[b]] == rest[0].count && next[next[b]] == FirstOr(rest[1..], NULL)
                             && End(rest[0]) <= next.Length
    {
      Ahead(done, link, b, todo);
      assert done + todo == (done + [todo[0]]) + todo[1..];
      Ahead(done + [todo[0]], b, next[b], todo[1..]);
    }

    /** The step to the next run. */
    method Advance(ghost done: seq<Run>, link: int, b: int, ghost todo: seq<Run>) returns (link': int, b': int)
      requires At(done, link, b, todo) && todo != [] && 0 <= b < next.Length
      ensures At(done + [todo[0]], link', b', todo[1..])
    {
      AheadNext(done, link, b, todo);
      link', b' := b, next[b];
    }

    /** *prev = to */
    method SetLink(link: int, to: int)
      requires next.Length == count.Length && (link == NULL || 0 <= link < next.Length)
      modifies this`pageList, next
      ensures link == NULL ==> pageList == to && Table() == old(Table())
      ensures link != NULL ==> pageList == old(pageList) && Table() == old(Table()).(next := old(Table()).next[link := to])
    {
      if link == NULL {
        pageList := to;
      } else {
        next[link] := to;
      }
    }

    /** The scan passes a run that is too short. */
    static lemma AllocNext(done: seq<Run>, todo: seq<Run>, n: nat)
      requires todo != [] && 0 < todo[0].count < n
      ensures done + Alloc(todo, n).0 == (done + [todo[0]]) + Alloc(todo[1..], n).0
      ensures Alloc(todo, n).1 == Alloc(todo[1..], n).1
    {
    }

    /** rt_page_alloc */
    method AllocPages(npages: nat) returns (r: Option<nat>)
      requires Valid()
      modifies this, next, count
      ensures Valid() && (list, r) == Alloc(old(list), npages)
    {
      if npages == 0 {
        return None;
      }
      AllocKeeps(list, npages, 0);
      AllocWithin(list, npages, next.Length);
      ghost var done, todo := [], list;
      assert done + todo == list && done + Alloc(todo, npages).0 == Alloc(list, npages).0;
      var link, b := NULL, pageList;
      ChainStarts(Table(), pageList, list, NULL);
      while b != NULL
        invariant At(done, link, b, todo) && list == old(list)
        invariant Alloc(list, npages) == (done + Alloc(todo, npages).0, Alloc(todo, npages).1)
        decreases |todo|
      {
        Ahead(done, link, b, todo);
        if count[b] > npages {
          TakeFront(done, link, b, todo, npages);
          return Some(b);
        }
        if count[b] == npages {
          TakeAll(done, link, b, todo);
          return Some(b);
        }
        AllocNext(done, todo, npages);
        link, b := Advance(done, link, b, todo);
        done, todo := done + [todo[0]], todo[1..];
      }
      return None;
    }

    /** Split pages: the rest of the run starts n pages later. */
    method TakeFront(ghost done: seq<Run>, link: int, b: nat, ghost todo: seq<Run>, npages: nat)
      requires At(done, link, b, todo) && todo != [] && npages > 0 && todo[0].count > npages
      requires var r := done + ([Run(todo[0].page + npages, todo[0].count - npages)] + todo[1..]); Canonical(r) && Within(r, next.Length)
      modifies this, next, count
      ensures Valid() && list == done + ([Run(todo[0].page + npages, todo[0].count - npages)] + todo[1..])
    {
      Ahead(done, link, b, todo);
      ghost var h, head := Table(), pageList;
      ghost var front := [Run(b + npages, count[b] - npages)];
      assert list == done + ([todo[0]] + todo[1..]);
      var n := b + npages;
      StoreHeader(n, next[b], count[b] - npages);
      SetLink(link, n);
      Spliced(h, Table(), head, pageList, done, [todo[0]], todo[1..], front, End(todo[0]));
      list := done + (front + todo[1..]);
    }

    /** n->next = to; n->page = pages */
    method StoreHeader(n: nat, to: int, pages: nat)
      requires n < next.Length == count.Length
      modifies next, count
      ensures Table() == Headers(old(Table()).next[n := to], old(Table()).count[n := pages])
    {
      next[n] := to;
      count[n] := pages;
    }

    /** The run fits: it leaves the list. */
    method TakeAll(ghost done: seq<Run>, link: int, b: nat, ghost todo: seq<Run>)
      requires At(done, link, b, todo) && todo != []
      requires Canonical(done + todo[1..]) && Within(done + todo[1..], next.Length)
      modifies this, next
      ensures Valid() && list == done + todo[1..]
    {
      Ahead(done, link, b, todo);
      ghost var h, head := Table(), pageList;
      assert list == done + ([todo[0]] + todo[1..]) && [] + todo[1..] == todo[1..];
      SetLink(link, next[b]);
      Spliced(h, Table(), head, pageList, done, [todo[0]], todo[1..], [], End(todo[0]));
      list := done + todo[1..];
    }

    /** The walk passes a run that does not touch the pages from p on. */
    static lemma FreedNext(done: seq<Run>, todo: seq<Run>, p: nat, n: nat)
      requires todo != [] && End(todo[0]) != p && todo[0].page < p + n
      ensures done + Freed(todo, p, n) == (done + [todo[0]]) + Freed(todo[1..], p, n)
    {
    }

    /** rt_page_free, for pages that are in use. */
    method FreePages(n: nat, npages: nat)
      requires Valid() && npages > 0 && n + npages <= next.Length && NoneFree(list, n, npages)
      modifies this, next, count
      ensures Valid() && list == Freed(old(list), n, npages)
    {
      ClearExactly(list, n, npages);
      FreedKeeps(list, n, npages, 0);
      FreedWithin(list, n, npages, next.Length);
      ghost var done, todo := [], list;
      assert done + todo == list && done + Freed(todo, n, npages) == Freed(list, n, npages);
      var link, b := NULL, pageList;
      ChainStarts(Table(), pageList, list, NULL);
      while b != NULL
        invariant At(done, link, b, todo) && list == old(list) && Clear(todo, n, npages) && link < n
        invariant Freed(list, n, npages) == done + Freed(todo, n, npages)
        decreases |todo|
      {
        Ahead(done, link, b, todo);
        assert b > n || b + count[b] <= n;
        if b + count[b] == n {
          Grow(done, link, b, todo, npages);
          return;
        }
        if b == n + npages {
          GrowDown(done, link, b, todo, n, npages);
          return;
        }
        if b > n + npages {
          break;
        }
        FreedNext(done, todo, n, npages);
        link, b := Advance(done, link, b, todo);
        done, todo := done + [todo[0]], todo[1..];
      }
      assert Freed(todo, n, npages) == [Run(n, npages)] + todo;
      PutRun(done, link, b, todo, n, npages);
    }

    /** The run at b grows upward, and swallows the next one if it now touches it. */
    method Grow(ghost done: seq<Run>, link: int, b: nat, ghost todo: seq<Run>, npages: nat)
      requires At(done, link, b, todo) && todo != [] && npages > 0
      requires var r := done + Grown(todo[0], npages, todo[1..]); Canonical(r) && Within(r, next.Length)
      modifies this, next, count
      ensures Valid() && list == done + Grown(todo[0], npages, todo[1..])
    {
      Ahead(done, link, b, todo);
      AheadNext(done, link, b, todo);
      assert todo == [todo[0]] + todo[1..];
      ghost var h, rest := Table(), todo[1..];
      GrowInPlace(b, npages);
      GrownSpliced(h, Table(), pageList, done, todo[0], rest, npages);
      list := done + Grown(todo[0], npages, rest);
    }

    /** The stores of it. */
    method GrowInPlace(b: nat, npages: nat)
      requires next.Length == count.Length && b < next.Length && npages > 0
      requires next[b] < next.Length
      modifies next, count
      ensures var (h, g) := (old(Table()), Table());
              if b + h.count[b] + npages == h.next[b]
              then g == Headers(h.next[b := h.next[h.next[b]]], h.count[b := h.count[b] + npages + h.count[h.next[b]]])
              else g == h.(count := h.count[b := h.count[b] + npages])
    {
      count[b] := count[b] + npages;
      if b + count[b] == next[b] {
        count[b] := count[b] + count[next[b]];
        next[b] := next[next[b]];
      }
    }

    static lemma GrownSpliced(h: Headers, g: Headers, head: int, done: seq<Run>, x: Run, rest: seq<Run>, n: nat)
      requires SameLength(h) && SameLength(g) && |h.next| == |g.next| && n > 0
      requires Canonical(done + ([x] + rest)) && Within(done + ([x] + rest), |h.next|) && Chain(h, head, done + ([x] + rest), NULL)
      requires x.page < |h.next| && h.count[x.page] == x.count && h.next[x.page] == FirstOr(rest, NULL) && LinkOf(done) < x.page
      requires rest != [] ==> x.page < rest[0].page < |h.next| && h.count[rest[0].page] == rest[0].count
                              && h.next[rest[0].page] == FirstOr(rest[1..], NULL)
      requires if End(x) + n == h.next[x.page]
               then g == Headers(h.next[x.page := h.next[h.next[x.page]]], h.count[x.page := x.count + n + h.count[h.next[x.page]]])
               else g == h.(count := h.count[x.page := x.count + n])
      ensures Chain(g, head, done + Grown(x, n, rest), NULL)
    {
      CanonicalSplit(done, [x] + rest, |h.next|);
      ChainConcat(h, head, done, [x] + rest, NULL);
      if done != [] {
        LastCount(h, head, done, x.page);
      }
      var y := Grown(x, n, rest)[0];
      assert ([x] + rest)[1..] == rest;
      if End(x) + n == h.next[x.page] {
        assert [x] + rest == [x, rest[0]] + rest[1..];
        Spliced(h, g, head, head, done, [x, rest[0]], rest[1..], [y], End(rest[0]));
      } else {
        Spliced(h, g, head, head, done, [x], rest, [y], End(x));
      }
    }

    /** The run at b is swallowed by the pages in front of it. */
    method GrowDown(ghost done: seq<Run>, link: int, b: nat, ghost todo: seq<Run>, n: nat, npages: nat)
      requires At(done, link, b, todo) && todo != [] && npages > 0 && b == n + npages && link < n
      requires var r := done + ([Run(n, npages + todo[0].count)] + todo[1..]); Canonical(r) && Within(r, next.Length)
      modifies this, next, count
      ensures Valid() && list == done + ([Run(n, npages + todo[0].count)] + todo[1..])
    {
      Ahead(done, link, b, todo);
      ghost var h, head := Table(), pageList;
      ghost var front := [Run(n, npages + todo[0].count)];
      assert list == done + ([todo[0]] + todo[1..]);
      StoreHeader(n, next[b], count[b] + npages);
      SetLink(link, n);
      Spliced(h, Table(), head, pageList, done, [todo[0]], todo[1..], front, End(todo[0]));
      list := done + (front + todo[1..]);
    }

    /** A run of its own, between link and b. */
    method PutRun(ghost done: seq<Run>, link: int, b: int, ghost todo: seq<Run>, n: nat, npages: nat)
      requires At(done, link, b, todo) && npages > 0 && n + npages <= next.Length && link < n && Behind(todo, n + npages)
      requires var r := done + ([Run(n, npages)] + todo); Canonical(r) && Within(r, next.Length)
      modifies this, next, count
      ensures Valid() && list == done + ([Run(n, npages)] + todo)
    {
      Ahead(done, link, b, todo);
      ghost var h, head := Table(), pageList;
      ghost var front := [Run(n, npages)];
      assert [] + todo == todo;
      StoreHeader(n, b, npages);
      SetLink(link, n);
      Spliced(h, Table(), head, pageList, done, [], todo, front, n + npages);
      list := done + (front + todo);
    }
  }
}
