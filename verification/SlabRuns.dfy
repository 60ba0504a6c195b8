/** What callers of the slab allocator may rely on, over any history of malloc and free (src/slab.c). */
module SlabRuns {
  import opened Kernel
  import P = SlabPages
  import opened SlabSpec

  // ----- pages --------------------------------------------------------------------------------

  lemma {:induction false} FreeIsWithin(list: seq<P.Run>, x: int, npages: nat)
    requires P.Within(list, npages) && P.Free(list, x)
    ensures x < npages
  {
    if !(list[0].page <= x < P.End(list[0])) {
      FreeIsWithin(list[1..], x, npages);
    }
  }

  /** Pages newly handed out lie apart from all others. */
  lemma ApartAlloc(npages: nat, pages: seq<P.Run>, taken: map<nat, nat>, n: nat)
    requires Apart(npages, pages, taken) && P.Alloc(pages, n).1.Some?
    ensures var (r, p) := (P.Alloc(pages, n).0, P.Alloc(pages, n).1.value);
            n > 0 && p !in taken && Apart(npages, r, taken[p := n])
  {
    var (r, p) := (P.Alloc(pages, n).0, P.Alloc(pages, n).1.value);
    P.AllocKeeps(pages, n, 0);
    P.AllocWithin(pages, n, npages);
    forall q
      ensures P.Free(r, q) <==> P.Free(pages, q) && !(p <= q < p + n)
      ensures p <= q < p + n ==> P.Free(pages, q)
    {
      P.AllocTakes(pages, n, q);
    }
    assert P.Free(pages, p) && P.Free(pages, p + n - 1) by { assert p <= p < p + n && p <= p + n - 1 < p + n; }
    FreeIsWithin(pages, p + n - 1, npages);
    forall q | q in taken
      ensures q != p && P.NoneFree(r, q, taken[q]) && (q < p ==> q + taken[q] <= p) && (p < q ==> p + n <= q)
    {
      assert P.NoneFree(pages, q, taken[q]);
      assert !P.Free(pages, q) by { assert q <= q < q + taken[q]; }
    }
    assert P.NoneFree(r, p, n);
    StillCovered(npages, pages, r, taken, p, n);
  }

  lemma StillCovered(npages: nat, pages: seq<P.Run>, r: seq<P.Run>, taken: map<nat, nat>, p: nat, n: nat)
    requires forall x: nat :: x < npages ==> P.Free(pages, x) || Covered(taken, x)
    requires (forall q :: P.Free(r, q) <==> P.Free(pages, q) && !(p <= q < p + n)) && p !in taken
    ensures forall x: nat :: x < npages ==> P.Free(r, x) || Covered(taken[p := n], x)
  {
    var now := taken[p := n];
    forall x: nat | x < npages
      ensures P.Free(r, x) || Covered(now, x)
    {
      if p <= x < p + n {
        assert p in now;
      } else if Covered(taken, x) {
        var q :| q in taken && q <= x < q + taken[q];
        assert q in now && now[q] == taken[q];
      }
    }
  }

  lemma ApartFreed(npages: nat, pages: seq<P.Run>, taken: map<nat, nat>, p: nat)
    requires Apart(npages, pages, taken) && p in taken
    ensures Apart(npages, P.Freed(pages, p, taken[p]), taken - {p})
  {
    var (n, rest) := (taken[p], taken - {p});
    assert P.NoneFree(pages, p, n);
    P.ClearExactly(pages, p, n);
    P.FreedKeeps(pages, p, n, 0);
    P.FreedWithin(pages, p, n, npages);
    var r := P.Freed(pages, p, n);
    forall x
      ensures P.Free(r, x) <==> P.Free(pages, x) || p <= x < p + n
    {
      P.FreedAdds(pages, p, n, x);
    }
    forall q | q in rest
      ensures P.NoneFree(r, q, rest[q])
    {
      assert P.NoneFree(pages, q, taken[q]);
    }
    forall x: nat | x < npages
      ensures P.Free(r, x) || Covered(rest, x)
    {
      if !P.Free(pages, x) && !(p <= x < p + n) {
        var q :| q in taken && q <= x < q + taken[q];
        assert q in rest && rest[q] == taken[q];
      }
    }
  }

  // ----- malloc -------------------------------------------------------------------------------

  /** A chunk that is taken was not live, and every other one is as live as before. */
  lemma ChunkTakenFacts(z: Zone, c: nat)
    requires Counted(z) && z.nfree > 0
    ensures var (r, x) := ChunkTaken(z);
            && Counted(r) && r.index == z.index && r.nmax == z.nmax && r.nfree == z.nfree - 1
            && !(x <= z.uindex && x !in z.free) && x < z.nmax
            && (c <= r.uindex && c !in r.free <==> (c <= z.uindex && c !in z.free) || c == x)
  {
    if z.uindex + 1 == z.nmax {
      assert z.free != [] && z.free[0] in z.free;
      assert z.free[1..] == Without(z.free, 0);
      WithoutDistinct(z.free, 0);
    }
  }

  lemma FromZoneKeeps(s: State, i: nat, q: Ptr)
    requires Inv(s) && i < NZONES && s.lists[i] != []
    ensures s.lists[i][0] in s.zones && s.zones[s.lists[i][0]].nfree > 0
    ensures var (r, p) := FromZone(s, i);
            && Inv(r) && p.Chunk? && !Live(s, p) && r.zones[p.zone].index == i && (Live(r, q) <==> Live(s, q) || q == p)
  {
    var z := s.lists[i][0];
    assert z in s.lists[i];
    assert Listed(s, i, z) && ZoneOk(s, z);
    var (r, p) := FromZone(s, i);
    ChunkTakenFacts(s.zones[z], if q.Chunk? then q.number else 0);
    FromZoneLists(s, i, r);
    forall y | y in r.zones
      ensures ZoneOk(r, y)
    {
      assert ZoneOk(s, y);
    }
  }

  lemma FromZoneLists(s: State, i: nat, r: State)
    requires Inv(s) && i < NZONES && s.lists[i] != []
    requires s.lists[i][0] in s.zones && s.zones[s.lists[i][0]].nfree > 0 && r == FromZone(s, i).0
    ensures |r.lists| == NZONES && (forall j :: 0 <= j < NZONES ==> Distinct(r.lists[j]))
    ensures forall j: nat, y: nat :: j < NZONES ==> Listed(r, j, y)
  {
    var z := s.lists[i][0];
    assert z in s.lists[i];
    assert Listed(s, i, z) && ZoneOk(s, z);
    ChunkTakenFacts(s.zones[z], 0);
    assert s.lists[i][1..] == Without(s.lists[i], 0);
    WithoutDistinct(s.lists[i], 0);
    forall j: nat, y: nat | j < NZONES
      ensures Listed(r, j, y)
    {
      assert Listed(s, j, y) && Listed(s, j, z);
    }
  }

  /** Everything is in order but for z, which is neither spare nor listed. */
  ghost predicate Startable(s: State, z: nat) {
    && ZoneSize(s.zoneSize) && Apart(s.npages, s.pages, s.taken) && z in s.taken && s.taken[z] == ZonePages(s) && z !in s.spare
    && (forall y :: y in s.zones && y != z ==> ZoneOk(s, y))
    && |s.lists| == NZONES && (forall j :: 0 <= j < NZONES ==> Distinct(s.lists[j]) && z !in s.lists[j])
    && (forall j: nat, y: nat :: j < NZONES && y != z ==> Listed(s, j, y))
    && Distinct(s.spare) && |s.spare| <= RELEASE_THRESH && forall y :: y in s.spare ==> y in s.zones
  }

  /** A zone, spare or new, is put to work. */
  lemma StartedKeeps(s: State, z: nat, i: nat, base: nat, nmax: nat, q: Ptr)
    requires Startable(s, z)
    requires i < NZONES && ChunkSize(i) > 0 && LaidOut(s.zoneSize, i, base, nmax) && nmax >= 2
    ensures var (r, p) := Started(s, z, i, base, nmax);
            && Inv(r) && p == Chunk(z, 0) && r.zones[z].index == i
            && (forall c: nat :: Live(r, Chunk(z, c)) <==> c == 0)
            && (!(q.Chunk? && q.zone == z) && q != Large(z) ==> (Live(r, q) <==> Live(s, q))) && !Live(r, Large(z))
  {
    var r := Started(s, z, i, base, nmax).0;
    forall y | y in r.zones
      ensures ZoneOk(r, y)
    {
      assert y != z ==> ZoneOk(s, y);
    }
    assert Distinct([z] + s.lists[i]);
    forall j: nat, y: nat | j < NZONES
      ensures Listed(r, j, y)
    {
      assert y != z ==> Listed(s, j, y);
      assert y in [z] + s.lists[i] <==> y == z || y in s.lists[i];
    }
  }

  lemma SpareStartable(s: State)
    requires Inv(s) && s.spare != []
    ensures var z := s.spare[0]; z in s.zones && z in s.taken && Startable(s.(spare := s.spare[1..]), z)
  {
    var z := s.spare[0];
    assert z in s.spare;
    assert ZoneOk(s, z);
    var t := s.(spare := s.spare[1..]);
    assert t.spare == Without(s.spare, 0);
    WithoutDistinct(s.spare, 0);
    forall j: nat, y: nat | j < NZONES && y != z
      ensures Listed(t, j, y)
    {
      assert Listed(s, j, y);
    }
    forall j | 0 <= j < NZONES
      ensures z !in s.lists[j]
    {
      assert Listed(s, j, z);
    }
    forall y | y in t.zones && y != z
      ensures ZoneOk(t, y)
    {
      assert ZoneOk(s, y);
    }
  }

  lemma FromSpareKeeps(s: State, i: nat, base: nat, nmax: nat, q: Ptr)
    requires Inv(s) && s.spare != [] && i < NZONES && s.lists[i] == []
    requires ChunkSize(i) > 0 && LaidOut(s.zoneSize, i, base, nmax) && nmax >= 2
    ensures var (r, p) := FromNewZone(s, i, base, nmax);
            && Inv(r) && p.Chunk? && !Live(s, p) && r.zones[p.zone].index == i && (Live(r, q) <==> Live(s, q) || q == p)
  {
    var z := s.spare[0];
    var t := s.(spare := s.spare[1..]);
    SpareStartable(s);
    StartedKeeps(t, z, i, base, nmax, q);
    assert z in s.spare;
    if !(q.Chunk? && q.zone == z) {
      OffSpare(s, q);
    }
  }

  /** Taking the first zone off the spare list wakes no chunk of another zone. */
  lemma OffSpare(s: State, q: Ptr)
    requires s.spare != [] && !(q.Chunk? && q.zone == s.spare[0])
    ensures Live(s.(spare := s.spare[1..]), q) <==> Live(s, q)
  {
    assert q.Chunk? ==> (q.zone in s.spare <==> q.zone in s.spare[1..]);
  }

  lemma FreshStartable(s: State)
    requires Inv(s) && P.Alloc(s.pages, ZonePages(s)).1.Some?
    ensures var (pages, z) := (P.Alloc(s.pages, ZonePages(s)).0, P.Alloc(s.pages, ZonePages(s)).1.value);
            z !in s.taken && z !in s.zones && z !in s.spare && Startable(s.(pages := pages, taken := s.taken[z := ZonePages(s)]), z)
  {
    var n := ZonePages(s);
    var z := P.Alloc(s.pages, n).1.value;
    ApartAlloc(s.npages, s.pages, s.taken, n);
    assert z in s.zones ==> ZoneOk(s, z);
    var t := s.(pages := P.Alloc(s.pages, n).0, taken := s.taken[z := n]);
    forall j: nat, y: nat | j < NZONES
      ensures Listed(t, j, y)
    {
      assert Listed(s, j, y);
    }
    forall j | 0 <= j < NZONES
      ensures z !in s.lists[j]
    {
      assert Listed(s, j, z);
    }
    forall y | y in t.zones
      ensures ZoneOk(t, y)
    {
      assert ZoneOk(s, y);
    }
  }

  lemma FromFreshKeeps(s: State, i: nat, base: nat, nmax: nat, q: Ptr)
    requires Inv(s) && s.spare == [] && i < NZONES && s.lists[i] == []
    requires ChunkSize(i) > 0 && LaidOut(s.zoneSize, i, base, nmax) && nmax >= 2
    ensures var (r, p) := FromNewZone(s, i, base, nmax);
            && Inv(r) && (p.Null? ==> r == s)
            && (p != Null ==> p.Chunk? && !Live(s, p) && p.zone in r.zones && r.zones[p.zone].index == i && (Live(r, q) <==> Live(s, q) || q == p))
  {
    var n := ZonePages(s);
    if P.Alloc(s.pages, n).1.Some? {
      var (pages, z) := (P.Alloc(s.pages, n).0, P.Alloc(s.pages, n).1.value);
      FreshStartable(s);
      var t := s.(pages := pages, taken := s.taken[z := n]);
      StartedKeeps(t, z, i, base, nmax, q);
      assert !(q.Chunk? && q.zone == z) && q != Large(z) ==> (Live(t, q) <==> Live(s, q));
    }
  }

  lemma FromPagesKeeps(s: State, n: nat, q: Ptr)
    requires Inv(s)
    ensures var (r, p) := FromPages(s, n);
            && Inv(r) && (p.Null? ==> r == s)
            && (p != Null ==> p.Large? && !Live(s, p) && p.page in r.taken && r.taken[p.page] == n && (Live(r, q) <==> Live(s, q) || q == p))
  {
    if P.Alloc(s.pages, n).1.Some? {
      var (r, p) := FromPages(s, n);
      ApartAlloc(s.npages, s.pages, s.taken, n);
      assert p.page in s.zones ==> ZoneOk(s, p.page);
      forall j: nat, y: nat | j < NZONES
        ensures Listed(r, j, y)
      {
        assert Listed(s, j, y);
      }
      forall y | y in r.zones
        ensures ZoneOk(r, y)
      {
        assert ZoneOk(s, y);
      }
    }
  }

  /** The bytes a live pointer may be used for. */
  ghost function Capacity(s: State, p: Ptr): nat
    requires Live(s, p)
  {
    if p.Large? then s.taken[p.page] * PAGE else ChunkSize(s.zones[p.zone].index)
  }

  lemma PagesSuffice(size: nat)
    ensures (PagesFor(size) - 1) * PAGE < size <= PagesFor(size) * PAGE || size == PagesFor(size) == 0
  {
  }

  /** A malloc that succeeds adds one live block, of the size asked for or more, and disturbs no other; one that fails changes nothing. */
  lemma MallocAddsOne(s: State, size: nat, q: Ptr)
    requires Inv(s)
    ensures var (r, p) := Malloc(s, size);
            && Inv(r) && r.zoneSize == s.zoneSize && r.npages == s.npages && (p.Null? ==> r == s)
            && (p != Null ==> !Live(s, p) && Live(r, p) && Capacity(r, p) >= size && (Live(r, q) <==> Live(s, q) || q == p))
  {
    if size >= ZoneLimit(s.zoneSize) {
      FromPagesKeeps(s, PagesFor(size), q);
      FromPagesKeeps(s, PagesFor(size), Malloc(s, size).1);
      PagesSuffice(size);
    } else if size > 0 {
      var (i, c) := ZoneIndex(size);
      ZoneHolds(s.zoneSize, size);
      SmallMalloc(s, i, ChunkOffset(c), ChunksIn(s.zoneSize, c), q);
      SmallMalloc(s, i, ChunkOffset(c), ChunksIn(s.zoneSize, c), Malloc(s, size).1);
    }
  }

  // ----- when a malloc succeeds, and what it hands out ----------------------------------------

  /** Somewhere n pages in a row are free. */
  ghost predicate HasRun(pages: seq<P.Run>, n: nat) {
    exists p: nat :: P.Serves(pages, p, n)
  }

  /** Some zone of index i in use has a free chunk. */
  ghost predicate Offers(s: State, i: nat) {
    exists z :: z in s.zones && z !in s.spare && s.zones[z].index == i && s.zones[z].nfree > 0
  }

  lemma OffersListed(s: State, i: nat)
    requires Inv(s) && i < NZONES
    ensures Offers(s, i) <==> s.lists[i] != []
  {
    if s.lists[i] != [] {
      assert s.lists[i][0] in s.lists[i] && Listed(s, i, s.lists[i][0]);
    }
    if Offers(s, i) {
      var z :| z in s.zones && z !in s.spare && s.zones[z].index == i && s.zones[z].nfree > 0;
      assert Listed(s, i, z);
    }
  }

  lemma AllocExactly(pages: seq<P.Run>, n: nat)
    requires P.Canonical(pages) && n > 0
    ensures P.Alloc(pages, n).1.Some? <==> HasRun(pages, n)
    ensures P.Alloc(pages, n).1.Some? ==> Lowest(pages, P.Alloc(pages, n).1.value, n)
  {
    forall p: nat
      ensures P.Serves(pages, p, n) ==> P.Alloc(pages, n).1.Some? && P.Alloc(pages, n).1.value <= p
    {
      P.AllocIsLowest(pages, n, p);
    }
    if P.Alloc(pages, n).1.Some? {
      P.AllocIsLowest(pages, n, 0);
    }
  }

  /** p is the lowest page from which n pages are free. */
  ghost predicate Lowest(pages: seq<P.Run>, p: nat, n: nat) {
    P.Serves(pages, p, n) && forall q: nat :: P.Serves(pages, q, n) ==> p <= q
  }

  /**
   A malloc fails exactly if nothing is asked for; or a large block, and nowhere are so many pages free in a row; or a
   chunk, and no zone in use offers one of its size, no zone is spare, and nowhere are the pages of a zone free.
   */
  lemma MallocFailsExactly(s: State, size: nat)
    requires Inv(s)
    ensures Malloc(s, size).1.Null? <==>
            || size == 0
            || (size >= ZoneLimit(s.zoneSize) && !HasRun(s.pages, PagesFor(size)))
            || (0 < size < ZoneLimit(s.zoneSize) && !Offers(s, ZoneIndex(size).0) && s.spare == [] && !HasRun(s.pages, s.zoneSize / PAGE))
  {
    if size >= ZoneLimit(s.zoneSize) {
      AllocExactly(s.pages, PagesFor(size));
    } else if size > 0 {
      ZoneHolds(s.zoneSize, size);
      OffersListed(s, ZoneIndex(size).0);
      AllocExactly(s.pages, ZonePages(s));
    }
  }

  /** The pages from p on, n of them, and no others, stop being free. */
  ghost predicate Takes(a: State, b: State, p: nat, n: nat) {
    && (forall q :: P.Free(b.pages, q) <==> P.Free(a.pages, q) && !(p <= q < p + n))
    && b.taken == a.taken[p := n]
  }

  lemma AllocTakesAll(s: State, n: nat, r: State)
    requires Inv(s) && P.Alloc(s.pages, n).1.Some? && n > 0
    requires r.pages == P.Alloc(s.pages, n).0 && r.taken == s.taken[P.Alloc(s.pages, n).1.value := n]
    ensures Takes(s, r, P.Alloc(s.pages, n).1.value, n)
  {
    forall q
      ensures P.Free(r.pages, q) <==> P.Free(s.pages, q) && !(P.Alloc(s.pages, n).1.value <= q < P.Alloc(s.pages, n).1.value + n)
    {
      P.AllocTakes(s.pages, n, q);
    }
  }

  /** A large block gets the lowest pages that will do, and only as many as it needs. */
  lemma LargeIsLowest(s: State, size: nat)
    requires Inv(s) && size >= ZoneLimit(s.zoneSize) && Malloc(s, size).1 != Null
    ensures var (r, p) := Malloc(s, size);
            && p.Large? && Lowest(s.pages, p.page, PagesFor(size)) && Takes(s, r, p.page, PagesFor(size))
            && (PagesFor(size) - 1) * PAGE < size <= PagesFor(size) * PAGE
            && r.zones == s.zones && r.lists == s.lists && r.spare == s.spare
  {
    AllocExactly(s.pages, PagesFor(size));
    AllocTakesAll(s, PagesFor(size), Malloc(s, size).0);
    PagesSuffice(size);
  }

  /**
   A chunk comes from a zone in use if one offers it: the next one that was never used, or else the one given back
   last. Otherwise a spare zone is started with its first chunk, or else a zone on the lowest pages that will do.
   */
  lemma ChunkComesFrom(s: State, size: nat)
    requires Inv(s) && 0 < size < ZoneLimit(s.zoneSize) && Malloc(s, size).1 != Null
    ensures var (r, p) := Malloc(s, size);
            && p.Chunk? && p.zone in r.zones && r.zones[p.zone].index == ZoneIndex(size).0
            && (!Offers(s, ZoneIndex(size).0) ==> Begun(s.zoneSize, ZoneIndex(size).1, r.zones[p.zone]))
            && if Offers(s, ZoneIndex(size).0) then
                 && p.zone in s.zones && p.zone !in s.spare && s.zones[p.zone].index == ZoneIndex(size).0
                 && s.zones[p.zone].nfree > 0 && r.zones[p.zone].nfree == s.zones[p.zone].nfree - 1
                 && p.number == NextChunk(s.zones[p.zone])
                 && r.pages == s.pages && r.taken == s.taken && r.spare == s.spare
               else if s.spare != [] then
                 p.zone == s.spare[0] && p.number == 0 && r.spare == s.spare[1..] && r.pages == s.pages && r.taken == s.taken
               else
                 && Lowest(s.pages, p.zone, s.zoneSize / PAGE) && p.number == 0 && r.spare == []
                 && Takes(s, r, p.zone, s.zoneSize / PAGE)
  {
    var i := ZoneIndex(size).0;
    ZoneHolds(s.zoneSize, size);
    ZoneIsFilled(s.zoneSize, size);
    OffersListed(s, i);
    if s.lists[i] != [] {
      FromZoneKeeps(s, i, Null);
      assert s.lists[i][0] in s.lists[i] && Listed(s, i, s.lists[i][0]) && ZoneOk(s, s.lists[i][0]);
    } else if s.spare == [] {
      AllocExactly(s.pages, ZonePages(s));
      AllocTakesAll(s, ZonePages(s), Malloc(s, size).0);
    }
  }

  /** Of several zones, the first on the list. */
  lemma ChunkFromFirst(s: State, size: nat, i: nat)
    requires Inv(s) && 0 < size < ZoneLimit(s.zoneSize) && i == ZoneIndex(size).0 < NZONES && s.lists[i] != []
    ensures Malloc(s, size).1.Chunk? && Malloc(s, size).1.zone == s.lists[i][0]
  {
    FromZoneKeeps(s, i, Null);
  }

  /** A zone filled with chunks of c bytes, the first of which has been handed out. */
  ghost predicate Begun(zoneSize: nat, c: nat, z: Zone) {
    c > 0 && Filled(zoneSize, c, z.base, z.nmax) && z.uindex == 0 && z.free == [] && z.nfree == z.nmax - 1
  }

  /** The chunk a zone gives next. */
  function NextChunk(z: Zone): nat {
    if z.uindex + 1 < z.nmax then z.uindex + 1 else if z.free != [] then z.free[0] else 0
  }

  /** The part of rt_malloc for chunks. */
  ghost function Small(s: State, i: nat, base: nat, nmax: nat): (State, Ptr)
    requires Inv(s) && i < NZONES && nmax > 0
  {
    if s.lists[i] != [] then
      assert Listed(s, i, s.lists[i][0]) by { assert s.lists[i][0] in s.lists[i]; }
      FromZone(s, i)
    else FromNewZone(s, i, base, nmax)
  }

  lemma SmallMalloc(s: State, i: nat, base: nat, nmax: nat, q: Ptr)
    requires Inv(s) && i < NZONES && ChunkSize(i) > 0 && LaidOut(s.zoneSize, i, base, nmax) && nmax >= 2
    ensures var (r, p) := Small(s, i, base, nmax);
            && Inv(r) && (p.Null? ==> r == s) && r.zoneSize == s.zoneSize
            && (p != Null ==> p.Chunk? && !Live(s, p) && p.zone in r.zones && r.zones[p.zone].index == i && (Live(r, q) <==> Live(s, q) || q == p))
  {
    if s.lists[i] != [] {
      FromZoneKeeps(s, i, q);
    } else if s.spare != [] {
      FromSpareKeeps(s, i, base, nmax, q);
    } else {
      FromFreshKeeps(s, i, base, nmax, q);
    }
  }

  // ----- free ---------------------------------------------------------------------------------

  function Members(list: seq<nat>): set<nat> {
    set x | x in list
  }

  lemma OneMore(a: set<nat>, x: nat)
    requires x !in a
    ensures |a + {x}| == |a| + 1
  {
    assert a * {x} == {};
  }

  lemma {:induction false} DistinctSize(list: seq<nat>)
    requires Distinct(list)
    ensures |Members(list)| == |list|
  {
    if list != [] {
      DistinctSize(list[1..]);
      OneMore(Members(list[1..]), list[0]);
      assert Members(list) == Members(list[1..]) + {list[0]};
    }
  }

  function Below(n: nat): set<nat> {
    if n == 0 then {} else Below(n - 1) + {n - 1}
  }

  lemma {:induction false} BelowFacts(n: nat)
    ensures |Below(n)| == n
    ensures forall x: nat :: x in Below(n) <==> x < n
  {
    if n > 0 {
      BelowFacts(n - 1);
      OneMore(Below(n - 1), n - 1);
    }
  }

  lemma FullSubset(a: set<nat>, b: set<nat>)
    requires a <= b && |a| == |b|
    ensures a == b
  {
    assert |b - a| == |b| - |a|;
  }

  /** A zone whose free count is its size has no live chunk. */
  lemma AllFree(z: Zone, c: nat)
    requires Counted(z) && z.nfree == z.nmax && c <= z.uindex
    ensures c in z.free
  {
    var (all, below) := (Members(z.free), Below(z.uindex + 1));
    DistinctSize(z.free);
    BelowFacts(z.uindex + 1);
    assert forall x :: x in all ==> x in below;
    FullSubset(all, below);
    assert c in all;
  }

  /** Giving a chunk back keeps everything in order, even before the zone is retired. */
  lemma ChunkGivenKeeps(s: State, z: nat, c: nat, q: Ptr)
    requires Inv(s) && Live(s, Chunk(z, c))
    ensures z in s.zones && s.zones[z].index < |s.lists|
    ensures var r := ChunkGiven(s, z, c); Inv(r) && (Live(r, q) <==> Live(s, q) && q != Chunk(z, c))
  {
    var zone := s.zones[z];
    assert ZoneOk(s, z);
    var r := ChunkGiven(s, z, c);
    assert Distinct([c] + zone.free);
    GivenLists(s, z, c, r);
    forall y | y in r.zones
      ensures ZoneOk(r, y)
    {
      assert ZoneOk(s, y);
    }
  }

  lemma GivenLists(s: State, z: nat, c: nat, r: State)
    requires Inv(s) && Live(s, Chunk(z, c)) && z in s.zones && s.zones[z].index < NZONES && r == ChunkGiven(s, z, c)
    ensures |r.lists| == NZONES && (forall j :: 0 <= j < NZONES ==> Distinct(r.lists[j]))
    ensures forall j: nat, y: nat :: j < NZONES ==> Listed(r, j, y)
  {
    var (i, list) := (s.zones[z].index, s.lists[s.zones[z].index]);
    assert Listed(s, i, z);
    if s.zones[z].nfree == 0 {
      assert Distinct([z] + list);
    }
    forall j: nat, y: nat | j < NZONES
      ensures Listed(r, j, y)
    {
      assert Listed(s, j, y) && Listed(s, j, z);
      assert y in [z] + list <==> y == z || y in list;
    }
  }

  /** A zone without live chunks leaves its list. */
  function Unlisted(s: State, z: nat): State
    requires z in s.zones && s.zones[z].index < |s.lists| && z in s.lists[s.zones[z].index]
  {
    var i := s.zones[z].index;
    s.(lists := s.lists[i := Without(s.lists[i], IndexOf(s.lists[i], z))])
  }

  lemma UnlistedFacts(s: State, z: nat)
    requires Inv(s) && z in s.zones && s.zones[z].index < NZONES && z in s.lists[s.zones[z].index]
    ensures var r := Unlisted(s, z);
            && |r.lists| == NZONES && (forall j :: 0 <= j < NZONES ==> Distinct(r.lists[j]) && z !in r.lists[j])
            && (forall j: nat, y: nat :: j < NZONES && y != z ==> (y in r.lists[j] <==> y in s.lists[j]))
  {
    var i := s.zones[z].index;
    WithoutDistinct(s.lists[i], IndexOf(s.lists[i], z));
    forall j | 0 <= j < NZONES
      ensures z !in Unlisted(s, z).lists[j]
    {
      assert Listed(s, j, z);
    }
  }

  lemma SparedKeeps(s: State, z: nat, q: Ptr)
    requires Inv(s) && z in s.zones && s.zones[z].index < NZONES && z in s.lists[s.zones[z].index]
    requires s.zones[z].nfree == s.zones[z].nmax && |s.spare| < RELEASE_THRESH
    ensures var r := Unlisted(s, z).(spare := [z] + s.spare); Inv(r) && (Live(r, q) <==> Live(s, q))
  {
    var r := Unlisted(s, z).(spare := [z] + s.spare);
    UnlistedFacts(s, z);
    assert Listed(s, s.zones[z].index, z) && ZoneOk(s, z);
    assert Distinct([z] + s.spare);
    assert forall y :: y in r.spare <==> y == z || y in s.spare;
    forall j: nat, y: nat | j < NZONES
      ensures Listed(r, j, y)
    {
      assert Listed(s, j, y);
    }
    forall y | y in r.zones
      ensures ZoneOk(r, y)
    {
      assert ZoneOk(s, y);
    }
    if q.Chunk? && q.zone == z && q.number <= s.zones[z].uindex {
      AllFree(s.zones[z], q.number);
    }
  }

  lemma DroppedKeeps(s: State, z: nat, q: Ptr)
    requires Inv(s) && z in s.zones && s.zones[z].index < NZONES && z in s.lists[s.zones[z].index] && z in s.taken
    requires s.zones[z].nfree == s.zones[z].nmax
    ensures var r := Unlisted(s, z).(zones := s.zones - {z}, taken := s.taken - {z}, pages := P.Freed(s.pages, z, s.taken[z]));
            Inv(r) && (Live(r, q) <==> Live(s, q))
  {
    var r := Unlisted(s, z).(zones := s.zones - {z}, taken := s.taken - {z}, pages := P.Freed(s.pages, z, s.taken[z]));
    UnlistedFacts(s, z);
    ApartFreed(s.npages, s.pages, s.taken, z);
    assert Listed(s, s.zones[z].index, z) && ZoneOk(s, z);
    forall j: nat, y: nat | j < NZONES
      ensures Listed(r, j, y)
    {
      assert Listed(s, j, y);
    }
    forall y | y in r.zones
      ensures ZoneOk(r, y)
    {
      assert ZoneOk(s, y);
    }
    if q.Chunk? && q.zone == z && q.number <= s.zones[z].uindex {
      AllFree(s.zones[z], q.number);
    }
  }

  lemma RetiredKeeps(s: State, z: nat, q: Ptr)
    requires Inv(s) && z in s.zones && s.zones[z].index < NZONES && z in s.lists[s.zones[z].index] && z in s.taken
    ensures Inv(Retired(s, z)) && (Live(Retired(s, z), q) <==> Live(s, q))
  {
    if s.zones[z].nfree == s.zones[z].nmax && |s.lists[s.zones[z].index]| > 1 {
      if |s.spare| + 1 > RELEASE_THRESH {
        DroppedKeeps(s, z, q);
      } else {
        SparedKeeps(s, z, q);
      }
    }
  }

  lemma LargeFreedKeeps(s: State, p: nat, q: Ptr)
    requires Inv(s) && Live(s, Large(p))
    ensures Inv(Freed(s, Large(p))) && (Live(Freed(s, Large(p)), q) <==> Live(s, q) && q != Large(p))
  {
    var r := Freed(s, Large(p));
    ApartFreed(s.npages, s.pages, s.taken, p);
    forall j: nat, y: nat | j < NZONES
      ensures Listed(r, j, y)
    {
      assert Listed(s, j, y);
    }
    forall y | y in r.zones
      ensures ZoneOk(r, y)
    {
      assert ZoneOk(s, y);
    }
  }

  /** A free ends exactly one live block. */
  lemma FreedTakesOne(s: State, p: Ptr, q: Ptr)
    requires Inv(s) && (p.Null? || Live(s, p))
    ensures var r := Freed(s, p); Inv(r) && r.zoneSize == s.zoneSize && r.npages == s.npages && (Live(r, q) <==> Live(s, q) && q != p)
  {
    match p
    case Null =>
    case Large(page) => LargeFreedKeeps(s, page, q);
    case Chunk(z, c) =>
      assert ZoneOk(s, z);
      ChunkGivenKeeps(s, z, c, q);
      ChunkGivenLists(s, z, c);
      RetiredKeeps(ChunkGiven(s, z, c), z, q);
  }

  // ----- what a free gives back ---------------------------------------------------------------

  /** The zone of chunk (z, c) loses its last live chunk, and another one offers chunks of the same size. */
  ghost predicate Retires(s: State, p: Ptr) {
    && p.Chunk? && p.zone in s.zones && s.zones[p.zone].nfree + 1 == s.zones[p.zone].nmax
    && exists y :: y in s.zones && y != p.zone && y !in s.spare && s.zones[y].index == s.zones[p.zone].index && s.zones[y].nfree > 0
  }

  /** Pages go back exactly for a large block, and for a zone that retires while two zones are spare already. */
  ghost predicate GivesBack(s: State, p: Ptr) {
    p.Large? || (Retires(s, p) && |s.spare| == 2)
  }

  lemma {:induction false} TwoMembers(list: seq<nat>, x: nat)
    requires Distinct(list) && x in list
    ensures |list| > 1 <==> exists y :: y in list && y != x
  {
    if |list| > 1 {
      assert list[0] != list[1] && list[0] in list && list[1] in list;
    }
  }

  lemma RetiresListed(s: State, z: nat, c: nat)
    requires Inv(s) && Live(s, Chunk(z, c))
    ensures z in s.zones && s.zones[z].index < NZONES
    ensures var t := ChunkGiven(s, z, c);
            Retires(s, Chunk(z, c)) <==> t.zones[z].nfree == t.zones[z].nmax && |t.lists[t.zones[z].index]| > 1
  {
    assert ZoneOk(s, z);
    var (t, i) := (ChunkGiven(s, z, c), s.zones[z].index);
    ChunkGivenKeeps(s, z, c, Null);
    ChunkGivenLists(s, z, c);
    TwoMembers(t.lists[i], z);
    forall y | y in t.lists[i] && y != z
      ensures y in s.zones && y !in s.spare && s.zones[y].index == i && s.zones[y].nfree > 0
    {
      assert Listed(t, i, y);
    }
    forall y | y in s.zones && y != z && y !in s.spare && s.zones[y].index == i && s.zones[y].nfree > 0
      ensures y in t.lists[i]
    {
      assert Listed(t, i, y);
    }
  }

  /** Which pages become free, which zones become spare, and that the chunk given back is first on its zone's list. */
  lemma FreeGivesBackExactly(s: State, p: Ptr, x: int)
    requires Inv(s) && Live(s, p)
    ensures Home(p) in s.taken
    ensures var r := Freed(s, p);
            && (P.Free(r.pages, x) <==> P.Free(s.pages, x) || (GivesBack(s, p) && Home(p) <= x < Home(p) + s.taken[Home(p)]))
            && r.taken == (if GivesBack(s, p) then s.taken - {Home(p)} else s.taken)
            && r.spare == (if Retires(s, p) && |s.spare| < 2 then [p.zone] + s.spare else s.spare)
            && (p.Chunk? && !GivesBack(s, p) ==> p.zone in r.zones && r.zones[p.zone].free == [p.number] + s.zones[p.zone].free)
  {
    LiveInsideRun(s, p);
    PagesClear(s, Home(p));
    P.FreedAdds(s.pages, Home(p), s.taken[Home(p)], x);
    if p.Chunk? {
      RetiresListed(s, p.zone, p.number);
      ChunkGivenLists(s, p.zone, p.number);
    }
  }

  lemma PagesClear(s: State, p: nat)
    requires Inv(s) && p in s.taken
    ensures s.taken[p] > 0 && P.Canonical(s.pages) && P.Clear(s.pages, p, s.taken[p])
  {
    assert P.NoneFree(s.pages, p, s.taken[p]);
    P.ClearExactly(s.pages, p, s.taken[p]);
  }

  // ----- addresses ----------------------------------------------------------------------------

  function ChunkAddress(page: nat, z: Zone, number: nat): nat {
    page * PAGE + z.base + number * ChunkSize(z.index)
  }

  /** Where a live block starts, counted in bytes from heap_start. */
  ghost function Address(s: State, p: Ptr): nat
    requires Inv(s) && Live(s, p)
  {
    if p.Large? then p.page * PAGE else ChunkAddress(p.zone, s.zones[p.zone], p.number)
  }

  /** The first page of the run a live block lies in. */
  function Home(p: Ptr): nat {
    if p.Large? then p.page else if p.Chunk? then p.zone else 0
  }

  lemma ScaledUp(a: nat, b: nat, c: nat)
    ensures a <= b ==> a * c <= b * c
  {
    assert b * c - a * c == (b - a) * c;
  }

  /** A live block lies inside its run of pages, behind the zone header if there is one. */
  lemma LiveInsideRun(s: State, p: Ptr)
    requires Inv(s) && Live(s, p)
    ensures Home(p) in s.taken
    ensures Home(p) + s.taken[Home(p)] <= s.npages
    ensures Home(p) * PAGE <= Address(s, p) && Address(s, p) + Capacity(s, p) <= (Home(p) + s.taken[Home(p)]) * PAGE
    ensures p.Chunk? ==> Home(p) * PAGE + ZONE_HEADER <= Address(s, p)
  {
    if p.Large? {
      assert Address(s, p) == p.page * PAGE && Capacity(s, p) == s.taken[p.page] * PAGE;
    } else {
      var z := s.zones[p.zone];
      assert ZoneOk(s, p.zone);
      WholePages(s.zoneSize);
      SlotInside(p.number, z.nmax, ChunkSize(z.index), z.base, s.zoneSize);
    }
  }

  lemma SlotInside(number: nat, nmax: nat, c: nat, base: nat, zoneSize: nat)
    requires number < nmax && base + nmax * c <= zoneSize
    ensures number * c >= 0 && base + number * c + c <= zoneSize
  {
    SlotsApart(number, nmax, c);
  }

  lemma WholePages(zoneSize: nat)
    requires ZoneSize(zoneSize)
    ensures zoneSize == zoneSize / PAGE * PAGE
  {
  }

  /** No two live blocks overlap, be they chunks of one zone, of different zones, or large. */
  lemma LiveBlocksApart(s: State, p: Ptr, q: Ptr)
    requires Inv(s) && Live(s, p) && Live(s, q) && p != q
    ensures Address(s, p) + Capacity(s, p) <= Address(s, q) || Address(s, q) + Capacity(s, q) <= Address(s, p)
  {
    LiveInsideRun(s, p);
    LiveInsideRun(s, q);
    if Home(p) < Home(q) {
      ScaledUp(Home(p) + s.taken[Home(p)], Home(q), PAGE);
    } else if Home(q) < Home(p) {
      ScaledUp(Home(q) + s.taken[Home(q)], Home(p), PAGE);
    } else {
      SlotsApart(p.number, q.number, ChunkSize(s.zones[p.zone].index));
    }
  }

  lemma SlotsApart(a: nat, b: nat, c: nat)
    ensures a < b ==> a * c + c <= b * c
    ensures b < a ==> b * c + c <= a * c
  {
    ScaledUp(a + 1, b, c);
    ScaledUp(b + 1, a, c);
    assert (a + 1) * c == a * c + c && (b + 1) * c == b * c + c;
  }

  // ----- whole runs ---------------------------------------------------------------------------

  datatype Op = MallocOp(size: nat) | FreeOp(p: Ptr)

  ghost predicate Enabled(s: State, op: Op) {
    op.FreeOp? ==> op.p.Null? || Live(s, op.p)
  }

  ghost function Apply(s: State, op: Op): State
    requires Inv(s) && Enabled(s, op)
  {
    match op
    case MallocOp(size) => Malloc(s, size).0
    case FreeOp(p) => Freed(s, p)
  }

  ghost predicate Leads(s: State, ops: seq<Op>, r: State)
    decreases |ops|
  {
    if ops == [] then s == r else Inv(s) && Enabled(s, ops[0]) && Leads(Apply(s, ops[0]), ops[1..], r)
  }

  /** rt_system_heap_init, before the memusage array is taken. */
  function Fresh(zoneSize: nat, npages: nat): State {
    State(zoneSize, npages, P.Freed([], 0, npages), map[], map[], seq(NZONES, _ => []), [])
  }

  lemma FreshInv(zoneSize: nat, npages: nat)
    requires ZoneSize(zoneSize) && npages > 0
    ensures Inv(Fresh(zoneSize, npages))
  {
    var all := [P.Run(0, npages)];
    assert all[1..] == [] && P.Canonical(all);
    assert forall x: nat :: x < npages ==> P.Free(all, x);
  }

  lemma {:induction false} RunKeepsInv(s: State, ops: seq<Op>, r: State)
    requires Inv(s) && Leads(s, ops, r)
    ensures Inv(r) && r.npages == s.npages
    decreases |ops|
  {
    if ops != [] {
      match ops[0] {
        case MallocOp(size) => MallocAddsOne(s, size, Null);
        case FreeOp(p) => FreedTakesOne(s, p, Null);
      }
      RunKeepsInv(Apply(s, ops[0]), ops[1..], r);
    }
  }

  /**
   After any history on live blocks: every zone's free count is right, the list of each index holds exactly the
   zones of that index with a free chunk that are not spare, live blocks lie in the heap and do not overlap, and
   every page is free or in one of the runs handed out.
   */
  lemma ReachableSlab(zoneSize: nat, npages: nat, ops: seq<Op>, r: State, p: Ptr, q: Ptr)
    requires ZoneSize(zoneSize) && npages > 0 && Leads(Fresh(zoneSize, npages), ops, r)
    ensures Inv(r)
    ensures forall x: nat :: x < npages ==> P.Free(r.pages, x) || Covered(r.taken, x)
    ensures Live(r, p) ==> Address(r, p) + Capacity(r, p) <= npages * PAGE
    ensures forall z :: z in r.zones ==> Counted(r.zones[z])
    ensures forall i: nat, z: nat :: i < NZONES ==> Listed(r, i, z)
    ensures Live(r, p) && Live(r, q) && p != q ==>
              Address(r, p) + Capacity(r, p) <= Address(r, q) || Address(r, q) + Capacity(r, q) <= Address(r, p)
  {
    FreshInv(zoneSize, npages);
    RunKeepsInv(Fresh(zoneSize, npages), ops, r);
    forall z | z in r.zones
      ensures Counted(r.zones[z])
    {
      assert ZoneOk(r, z);
    }
    if Live(r, p) {
      LiveInsideRun(r, p);
      ScaledUp(Home(p) + r.taken[Home(p)], npages, PAGE);
      if Live(r, q) && p != q {
        LiveBlocksApart(r, p, q);
      }
    }
  }
}
