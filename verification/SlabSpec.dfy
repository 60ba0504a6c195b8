/**
 The slab allocator (src/slab.c, zoneindex, rt_malloc and rt_free): zones of equal chunks on top of the page
 allocator. A zone is known by its first page, a chunk by its number in the zone.
 */
module SlabSpec {
  import opened Kernel
  import P = SlabPages

  const PAGE := 4096
  const NZONES := 72
  const RELEASE_THRESH := 2

  // ----- zoneindex ----------------------------------------------------------------------------

  /** n rounded up to a multiple of the unit, and the index counted from there. */
  function Indexed(n: nat, unit: nat, base: int): (int, nat)
    requires unit > 0
  {
    var c := (n + unit - 1) / unit * unit;
    (c / unit + base, c)
  }

  /** The zone index for a request, and the chunk size it is rounded to. */
  function ZoneIndex(n: nat): (int, nat) {
    if n < 128 then Indexed(n, 8, -1)
    else if n < 256 then Indexed(n, 16, 7)
    else if n < 512 then Indexed(n, 32, 15)
    else if n < 1024 then Indexed(n, 64, 23)
    else if n < 2048 then Indexed(n, 128, 31)
    else if n < 4096 then Indexed(n, 256, 39)
    else if n < 8192 then Indexed(n, 512, 47)
    else if n < 16384 then Indexed(n, 1024, 55)
    else (0, n)
  }

  /** The chunk size of the zones with this index. */
  function ChunkSize(i: nat): nat {
    if i < 16 then 8 * (i + 1)
    else if i < 24 then 16 * (i - 7)
    else if i < 32 then 32 * (i - 15)
    else if i < 40 then 64 * (i - 23)
    else if i < 48 then 128 * (i - 31)
    else if i < 56 then 256 * (i - 39)
    else if i < 64 then 512 * (i - 47)
    else if i < 72 then 1024 * (i - 55)
    else 0
  }

  lemma IndexedUnit(n: nat, unit: nat, base: int, k: nat)
    requires unit > 0 && n > 0 && (k - 1) * unit < n <= k * unit
    ensures Indexed(n, unit, base) == (k + base, k * unit)
  {
    var c := (n + unit - 1) / unit;
    assert c == k by {
      assert n + unit - 1 < k * unit + unit && n + unit - 1 >= k * unit;
      QuotientIs(n + unit - 1, unit, k);
    }
    QuotientIs(k * unit, unit, k);
  }

  lemma QuotientIs(a: nat, d: nat, q: nat)
    requires d > 0 && q * d <= a < q * d + d
    ensures a / d == q
  {
    assert a == a / d * d + a % d;
    Times(q + 1, a / d, d);
    Times(a / d + 1, q, d);
  }

  lemma Times(a: nat, b: nat, d: nat)
    ensures a <= b ==> a * d <= b * d
  {
    assert b * d - a * d == (b - a) * d;
  }

  /** The rounding is that of the index, it fits the request, and it wastes less than an eighth of it, or less than 8 bytes. */
  lemma ZoneIndexFits(n: nat)
    requires 0 < n < 16384
    ensures var (i, c) := ZoneIndex(n); 0 <= i < NZONES && c == ChunkSize(i) && n <= c && (8 * (c - n) < n || c - n < 8)
  {
    var unit := if n < 128 then 8 else if n < 256 then 16 else if n < 512 then 32 else if n < 1024 then 64
                else if n < 2048 then 128 else if n < 4096 then 256 else if n < 8192 then 512 else 1024;
    var k := (n + unit - 1) / unit;
    RoundUp(n, unit, k);
    IndexedUnit(n, unit, if n < 128 then -1 else if n < 256 then 7 else if n < 512 then 15 else if n < 1024 then 23
                         else if n < 2048 then 31 else if n < 4096 then 39 else if n < 8192 then 47 else 55, k);
  }

  lemma RoundUp(n: nat, unit: nat, k: nat)
    requires unit > 0 && k == (n + unit - 1) / unit
    ensures (k - 1) * unit < n <= k * unit
  {
    assert n + unit - 1 == k * unit + (n + unit - 1) % unit;
    assert (k - 1) * unit == k * unit - unit;
  }

  // ----- the layout of a zone -----------------------------------------------------------------

  /** sizeof(slab_zone), and the header rounded up to MIN_CHUNK_SIZE. */
  const ZONE_HEADER := 36
  const HEADER_ROUNDED := 40

  predicate PowerOfTwo(n: nat) {
    n == 1 || (n > 0 && n % 2 == 0 && PowerOfTwo(n / 2))
  }

  /** Offset of the first chunk: chunks whose size is a power of two are aligned to it. */
  function ChunkOffset(c: nat): nat
    requires c > 0
  {
    if PowerOfTwo(c) then (ZONE_HEADER + c - 1) / c * c else HEADER_ROUNDED
  }

  /** z_nmax */
  function ChunksIn(zoneSize: nat, c: nat): int
    requires c > 0
  {
    (zoneSize - ChunkOffset(c)) / c
  }

  /** zone_size as rt_system_heap_init chooses it, and zone_limit. */
  predicate ZoneSize(z: nat) {
    z == 0x8000 || z == 0x1_0000 || z == 0x2_0000
  }

  function ZoneLimit(zoneSize: nat): nat {
    if zoneSize / 4 > 0x4000 then 0x4000 else zoneSize / 4
  }

  /** A quarter of a zone, but at most 16 KB; every request below that has an index. */
  lemma LimitIsQuarter(zoneSize: nat)
    requires ZoneSize(zoneSize)
    ensures ZoneLimit(zoneSize) == 0x4000 || (zoneSize == 0x8000 && ZoneLimit(zoneSize) == 0x2000)
    ensures 4 * ZoneLimit(zoneSize) <= zoneSize && (zoneSize <= 0x1_0000 ==> 4 * ZoneLimit(zoneSize) == zoneSize)
  {
  }

  /** A zone has room for at least two chunks, behind its header. */
  lemma ZoneHolds(zoneSize: nat, n: nat)
    requires ZoneSize(zoneSize) && 0 < n < ZoneLimit(zoneSize)
    ensures var (i, c) := ZoneIndex(n);
            0 <= i < NZONES && c == ChunkSize(i) && n <= c && c > 0 && ZONE_HEADER <= ChunkOffset(c)
            && 2 <= ChunksIn(zoneSize, c) && ChunkOffset(c) + ChunksIn(zoneSize, c) * c <= zoneSize
  {
    var (i, c) := ZoneIndex(n);
    ZoneIndexFits(n);
    assert c <= ZoneLimit(zoneSize) by { ChunkBelowLimit(n, zoneSize); }
    OffsetBounds(c);
    var room := zoneSize - ChunkOffset(c);
    assert room >= 2 * c;
    Fits(room, c);
  }

  lemma ChunkBelowLimit(n: nat, zoneSize: nat)
    requires ZoneSize(zoneSize) && 0 < n < ZoneLimit(zoneSize)
    ensures ZoneIndex(n).1 <= ZoneLimit(zoneSize)
  {
    var (i, c) := ZoneIndex(n);
    ZoneIndexFits(n);
  }

  lemma OffsetBounds(c: nat)
    requires c > 0
    ensures ZONE_HEADER <= ChunkOffset(c) <= c + HEADER_ROUNDED
  {
    RoundUp(ZONE_HEADER, c, (ZONE_HEADER + c - 1) / c);
  }

  /** Chunks of c bytes fill a zone: powers of two aligned to themselves, the others 8 bytes on from the header; no room for one more. */
  ghost predicate Filled(zoneSize: nat, c: nat, base: nat, nmax: nat)
    requires c > 0
  {
    && base + nmax * c <= zoneSize < base + nmax * c + c
    && if PowerOfTwo(c) then Multiple(base, c) && ZONE_HEADER <= base < ZONE_HEADER + c else base == HEADER_ROUNDED
  }

  ghost predicate Multiple(n: nat, c: nat) {
    exists k: nat :: Scaled(k, c) == n
  }

  function Scaled(k: nat, c: nat): nat {
    k * c
  }

  lemma ZoneIsFilled(zoneSize: nat, n: nat)
    requires ZoneSize(zoneSize) && 0 < n < ZoneLimit(zoneSize)
    ensures var c := ZoneIndex(n).1; c > 0 && ChunksIn(zoneSize, c) >= 2 && Filled(zoneSize, c, ChunkOffset(c), ChunksIn(zoneSize, c))
  {
    var c := ZoneIndex(n).1;
    ZoneHolds(zoneSize, n);
    if PowerOfTwo(c) {
      OffsetAligned(c);
    }
    Remainder(zoneSize - ChunkOffset(c), c);
  }

  lemma OffsetAligned(c: nat)
    requires c > 0 && PowerOfTwo(c)
    ensures Multiple(ChunkOffset(c), c) && ZONE_HEADER <= ChunkOffset(c) < ZONE_HEADER + c
  {
    Remainder(ZONE_HEADER + c - 1, c);
    assert Scaled((ZONE_HEADER + c - 1) / c, c) == ChunkOffset(c);
  }

  lemma Remainder(n: nat, c: nat)
    requires c > 0
    ensures n / c * c <= n < n / c * c + c
  {
    assert n == n / c * c + n % c;
  }

  lemma Fits(room: nat, c: nat)
    requires c > 0 && room >= 2 * c
    ensures 2 <= room / c && room / c * c <= room
  {
    assert room == room / c * c + room % c;
    Times(room / c, 1, c);
  }

  // ----- zones and pages ----------------------------------------------------------------------

  /**
   base is the offset of the first chunk in the zone (z_baseptr); free lists the numbers of the chunks given back;
   the chunks above uindex have never been used.
   */
  datatype Zone = Zone(index: nat, base: nat, nmax: nat, nfree: nat, uindex: nat, free: seq<nat>)

  /**
   taken gives every run of pages that has been allocated, for a zone or as a large block; the zones among them
   are in zones. lists is zone_array, spare is zone_free.
   */
  datatype State = State(zoneSize: nat, npages: nat, pages: seq<P.Run>, taken: map<nat, nat>, zones: map<nat, Zone>,
                         lists: seq<seq<nat>>, spare: seq<nat>)

  datatype Ptr = Null | Large(page: nat) | Chunk(zone: nat, number: nat)

  function ZonePages(s: State): nat {
    s.zoneSize / PAGE
  }

  function PagesFor(size: nat): nat {
    (size + PAGE - 1) / PAGE
  }

  /** Take a chunk out of a zone that has one: one that was never used if there is any. */
  function ChunkTaken(z: Zone): (Zone, nat)
    requires z.nfree > 0
  {
    if z.uindex + 1 != z.nmax then (z.(nfree := z.nfree - 1, uindex := z.uindex + 1), z.uindex + 1)
    else if z.free != [] then (z.(nfree := z.nfree - 1, free := z.free[1..]), z.free[0])
    else (z, 0)
  }

  /** A zone with its first chunk handed out. */
  function NewZone(i: nat, base: nat, nmax: nat): Zone
    requires nmax > 0
  {
    Zone(i, base, nmax, nmax - 1, 0, [])
  }

  /** A chunk from the first zone of the list, which leaves the list when it has no more. */
  function FromZone(s: State, i: nat): (State, Ptr)
    requires i < |s.lists| && s.lists[i] != [] && s.lists[i][0] in s.zones && s.zones[s.lists[i][0]].nfree > 0
  {
    var z := s.lists[i][0];
    var (zone, c) := ChunkTaken(s.zones[z]);
    (s.(zones := s.zones[z := zone], lists := if zone.nfree == 0 then s.lists[i := s.lists[i][1..]] else s.lists), Chunk(z, c))
  }

  function Started(s: State, z: nat, i: nat, base: nat, nmax: nat): (State, Ptr)
    requires i < |s.lists| && nmax > 0
  {
    (s.(zones := s.zones[z := NewZone(i, base, nmax)], lists := s.lists[i := [z] + s.lists[i]]), Chunk(z, 0))
  }

  /** A chunk from a zone off the spare list, or from new pages. */
  function FromNewZone(s: State, i: nat, base: nat, nmax: nat): (State, Ptr)
    requires i < |s.lists| && nmax > 0
  {
    if s.spare != [] then Started(s.(spare := s.spare[1..]), s.spare[0], i, base, nmax)
    else
      match P.Alloc(s.pages, ZonePages(s))
      case (_, None) => (s, Null)
      case (pages, Some(p)) => Started(s.(pages := pages, taken := s.taken[p := ZonePages(s)]), p, i, base, nmax)
  }

  function FromPages(s: State, n: nat): (State, Ptr) {
    match P.Alloc(s.pages, n)
    case (_, None) => (s, Null)
    case (pages, Some(p)) => (s.(pages := pages, taken := s.taken[p := n]), Large(p))
  }

  /** rt_malloc */
  ghost function Malloc(s: State, size: nat): (State, Ptr)
    requires Inv(s)
  {
    if size == 0 then (s, Null)
    else if size >= ZoneLimit(s.zoneSize) then FromPages(s, PagesFor(size))
    else
      var (i, c) := ZoneIndex(size);
      ZoneHolds(s.zoneSize, size);
      if s.lists[i] != [] then
        assert Listed(s, i, s.lists[i][0]) by { assert s.lists[i][0] in s.lists[i]; }
        FromZone(s, i)
      else FromNewZone(s, i, ChunkOffset(c), ChunksIn(s.zoneSize, c))
  }

  /** A chunk given back: it goes first on the zone's free list, and the zone back on its list if it had no chunk. */
  function ChunkGiven(s: State, z: nat, c: nat): State
    requires z in s.zones && s.zones[z].index < |s.lists|
  {
    var zone := s.zones[z];
    var i := zone.index;
    s.(zones := s.zones[z := zone.(nfree := zone.nfree + 1, free := [c] + zone.free)],
       lists := if zone.nfree == 0 then s.lists[i := [z] + s.lists[i]] else s.lists)
  }

  /** A zone without live chunks is retired unless it is the only one of its list; the third spare zone gives its pages back. */
  function Retired(s: State, z: nat): State
    requires z in s.zones && s.zones[z].index < |s.lists| && z in s.lists[s.zones[z].index] && z in s.taken
  {
    var zone := s.zones[z];
    var i := zone.index;
    if zone.nfree == zone.nmax && |s.lists[i]| > 1 then
      var r := s.(lists := s.lists[i := Without(s.lists[i], IndexOf(s.lists[i], z))]);
      if |s.spare| + 1 > RELEASE_THRESH then
        r.(zones := s.zones - {z}, taken := s.taken - {z}, pages := P.Freed(s.pages, z, s.taken[z]))
      else r.(spare := [z] + s.spare)
    else s
  }

  /** rt_free */
  ghost function Freed(s: State, p: Ptr): State
    requires Inv(s) && (p.Null? || Live(s, p))
  {
    match p
    case Null => s
    case Large(page) => s.(taken := s.taken - {page}, pages := P.Freed(s.pages, page, s.taken[page]))
    case Chunk(z, c) =>
      assert ZoneOk(s, z);
      ChunkGivenLists(s, z, c);
      Retired(ChunkGiven(s, z, c), z)
  }

  // ----- the invariant ------------------------------------------------------------------------

  /** What a malloc returned and no free has taken back. */
  ghost predicate Live(s: State, p: Ptr) {
    match p
    case Null => false
    case Large(page) => page in s.taken && page !in s.zones
    case Chunk(z, c) => z in s.zones && z !in s.spare && c <= s.zones[z].uindex && c !in s.zones[z].free
  }

  /** Page x lies in a run that has been handed out. */
  ghost predicate Covered(taken: map<nat, nat>, x: nat) {
    exists p :: p in taken && p <= x < p + taken[p]
  }

  /** The runs handed out lie in the heap, hold no free page, and do not overlap; every other page is free. */
  ghost predicate Apart(npages: nat, pages: seq<P.Run>, taken: map<nat, nat>) {
    && P.Canonical(pages) && P.Within(pages, npages)
    && (forall p :: p in taken ==> taken[p] > 0 && p + taken[p] <= npages && P.NoneFree(pages, p, taken[p]))
    && (forall p, q :: p in taken && q in taken && p < q ==> p + taken[p] <= q)
    && (forall x: nat :: x < npages ==> P.Free(pages, x) || Covered(taken, x))
  }

  /** nfree counts the chunks never used and those given back; each of those once. */
  ghost predicate Counted(z: Zone) {
    && z.uindex < z.nmax && z.nfree == z.nmax - 1 - z.uindex + |z.free|
    && Distinct(z.free) && forall c :: c in z.free ==> c <= z.uindex
  }

  ghost predicate ZoneOk(s: State, z: nat)
    requires z in s.zones
  {
    var zone := s.zones[z];
    && z in s.taken && s.taken[z] == ZonePages(s) && zone.index < NZONES && ChunkSize(zone.index) > 0
    && zone.nmax >= 2 && LaidOut(s.zoneSize, zone.index, zone.base, zone.nmax) && Counted(zone)
  }

  /** The chunks lie behind the header and inside the zone. */
  ghost predicate LaidOut(zoneSize: nat, i: nat, base: nat, nmax: nat) {
    ZONE_HEADER <= base && base + nmax * ChunkSize(i) <= zoneSize
  }

  /** On the list of index i are the zones of that index with a free chunk that are not spare. */
  ghost predicate Listed(s: State, i: nat, z: nat)
    requires i < |s.lists|
  {
    z in s.lists[i] <==> z in s.zones && z !in s.spare && s.zones[z].index == i && s.zones[z].nfree > 0
  }

  ghost predicate Inv(s: State) {
    && ZoneSize(s.zoneSize) && Apart(s.npages, s.pages, s.taken)
    && (forall z :: z in s.zones ==> ZoneOk(s, z))
    && |s.lists| == NZONES && (forall i :: 0 <= i < NZONES ==> Distinct(s.lists[i]))
    && (forall i: nat, z: nat :: i < NZONES ==> Listed(s, i, z))
    && Distinct(s.spare) && |s.spare| <= RELEASE_THRESH && (forall z :: z in s.spare ==> z in s.zones)
  }

  lemma ChunkGivenLists(s: State, z: nat, c: nat)
    requires Inv(s) && Live(s, Chunk(z, c))
    ensures z in s.zones && s.zones[z].index < |s.lists|
    ensures var r := ChunkGiven(s, z, c);
            z in r.zones && r.zones[z].index < |r.lists| && z in r.lists[r.zones[z].index] && z in r.taken
  {
    assert ZoneOk(s, z);
    assert Listed(s, s.zones[z].index, z);
  }
}
