/**
 The slab allocator itself (src/slab.c): addresses, the memusage array that tells what a page is used for, zone
 headers, zone_array and zone_free, over the page list. Addresses count from heap_start.
 */
module Slab {
  import opened Kernel
  import P = SlabPages
  import L = SlabPageList
  import opened SlabSpec
  import opened SlabRuns

  /** struct memusage: the size of a large block is kept at its first page, every page of a zone has its offset. */
  datatype Usage = FreePage | SmallPage(offset: nat) | LargeRun(count: nat)

  /** memusage is right for every page of a zone, and for the first page of a large block. */
  ghost predicate UsedBy(usage: seq<Usage>, zonePages: nat, taken: map<nat, nat>, zones: map<nat, Zone>) {
    && (forall z :: z in zones ==> InZone(usage, zonePages, z))
    && (forall p :: p in taken && p !in zones ==> p < |usage| && usage[p] == LargeRun(taken[p]))
  }

  /** Every page of the zone at z has its offset. */
  ghost predicate InZone(usage: seq<Usage>, zonePages: nat, z: nat) {
    z + zonePages <= |usage| && forall x :: z <= x < z + zonePages ==> usage[x] == SmallPage(x - z)
  }

  /** The pages [p, p + n) belong to no run and no zone. */
  ghost predicate Beside(p: nat, n: nat, taken: map<nat, nat>, zones: map<nat, Zone>, zonePages: nat) {
    && (forall q :: q in taken ==> q + taken[q] <= p || p + n <= q)
    && forall z :: z in zones ==> z + zonePages <= p || p + n <= z
  }

  /** A large block is put down, in pages that belong to nobody. */
  lemma LargePut(usage: seq<Usage>, zonePages: nat, taken: map<nat, nat>, zones: map<nat, Zone>, p: nat, n: nat)
    requires UsedBy(usage, zonePages, taken, zones) && p < |usage| && p !in taken && n > 0 && Beside(p, n, taken, zones, zonePages)
    ensures UsedBy(usage[p := LargeRun(n)], zonePages, taken[p := n], zones)
  {
    forall z | z in zones
      ensures InZone(usage[p := LargeRun(n)], zonePages, z)
    {
      assert InZone(usage, zonePages, z);
    }
  }

  /** A zone is put down, in pages that belong to nobody. */
  lemma ZonePut(usage: seq<Usage>, zonePages: nat, taken: map<nat, nat>, zones: map<nat, Zone>, z: nat, zone: Zone, now: seq<Usage>)
    requires UsedBy(usage, zonePages, taken, zones) && z !in taken && z !in zones && Beside(z, zonePages, taken, zones, zonePages)
    requires |now| == |usage| && z + zonePages <= |usage| && InZone(now, zonePages, z)
    requires forall x :: 0 <= x < |usage| && !(z <= x < z + zonePages) ==> now[x] == usage[x]
    ensures UsedBy(now, zonePages, taken[z := zonePages], zones[z := zone])
  {
    forall y | y in zones[z := zone]
      ensures InZone(now, zonePages, y)
    {
      assert y != z ==> InZone(usage, zonePages, y);
    }
  }

  /** The header of a zone changes, nothing else. */
  lemma HeaderPut(usage: seq<Usage>, zonePages: nat, taken: map<nat, nat>, zones: map<nat, Zone>, z: nat, zone: Zone)
    requires UsedBy(usage, zonePages, taken, zones) && z in zones
    ensures UsedBy(usage, zonePages, taken, zones[z := zone])
  {
    forall y | y in zones[z := zone]
      ensures InZone(usage, zonePages, y)
    {
      assert InZone(usage, zonePages, y);
    }
  }

  /** A run that is no zone goes away. */
  lemma LargeGone(usage: seq<Usage>, zonePages: nat, taken: map<nat, nat>, zones: map<nat, Zone>, p: nat, u: Usage)
    requires UsedBy(usage, zonePages, taken, zones) && p in taken && p !in zones && p < |usage|
    requires forall z :: z in zones ==> z + zonePages <= p || p < z
    ensures UsedBy(usage[p := u], zonePages, taken - {p}, zones)
  {
    forall z | z in zones
      ensures InZone(usage[p := u], zonePages, z)
    {
      assert InZone(usage, zonePages, z);
    }
  }

  /** A zone goes away, and its pages are marked as unused. */
  lemma ZoneGone(usage: seq<Usage>, zonePages: nat, taken: map<nat, nat>, zones: map<nat, Zone>, z: nat, now: seq<Usage>)
    requires UsedBy(usage, zonePages, taken, zones) && z in zones && z in taken && |now| == |usage|
    requires Beside(z, zonePages, taken - {z}, zones - {z}, zonePages) && zonePages > 0
    requires forall q :: q in taken ==> taken[q] > 0
    requires forall x :: 0 <= x < |usage| && !(z <= x < z + zonePages) ==> now[x] == usage[x]
    ensures UsedBy(now, zonePages, taken - {z}, zones - {z})
  {
    forall y | y in zones - {z}
      ensures InZone(now, zonePages, y)
    {
      assert InZone(usage, zonePages, y);
    }
    forall q | q in taken - {z} && q !in zones - {z}
      ensures q < |now| && now[q] == LargeRun(taken[q])
    {
      assert q in taken && q !in zones;
    }
  }

  class Slab {
    const zoneSize: nat
    const pageList: L.PageList
    const memusage: array<Usage>
    /** The headers of the zones, by first page. */
    var zones: map<nat, Zone>
    const zoneArray: array<seq<nat>>
    var zoneFree: seq<nat>
    ghost var taken: map<nat, nat>

    ghost function State(): State
      reads this, pageList, zoneArray
    {
      SlabSpec.State.State(zoneSize, memusage.Length, pageList.list, taken, zones, zoneArray[..], zoneFree)
    }

    ghost predicate Framed()
      reads this, pageList, pageList.next, pageList.count
    {
      && pageList.Valid() && pageList.next.Length == memusage.Length && zoneArray.Length == NZONES
      && zoneArray as object != pageList.next && zoneArray as object != pageList.count
      && memusage as object != pageList.next && memusage as object != pageList.count && memusage as object != zoneArray
    }

    ghost predicate Used()
      reads this, memusage
    {
      UsedBy(memusage[..], zoneSize / PAGE, taken, zones)
    }

    ghost predicate Valid()
      reads this, pageList, pageList.next, pageList.count, zoneArray, memusage
    {
      Framed() && Used() && Inv(State())
    }

    /** rt_system_heap_init; the pages of the memusage array itself are not taken from the heap here. */
    constructor (zoneSize: nat, npages: nat)
      requires ZoneSize(zoneSize) && npages > 0
      ensures Valid() && State() == Fresh(zoneSize, npages)
      ensures fresh(pageList) && fresh(pageList.next) && fresh(pageList.count) && fresh(memusage) && fresh(zoneArray)
    {
      this.zoneSize := zoneSize;
      pageList := new L.PageList(npages);
      memusage := new Usage[npages](_ => FreePage);
      zoneArray := new seq<nat>[NZONES](_ => []);
      zones, zoneFree, taken := map[], [], map[];
      new;
      FreshInv(zoneSize, npages);
      assert zoneArray[..] == seq(NZONES, _ => []);
    }

    /** A run of pages that the state will know as taken. */
    method GetPages(n: nat) returns (r: Option<nat>)
      requires Framed()
      modifies pageList, pageList.next, pageList.count
      ensures Framed() && (pageList.list, r) == P.Alloc(old(pageList.list), n)
      ensures r.None? ==> pageList.list == old(pageList.list)
      ensures zoneArray[..] == old(zoneArray[..])
    {
      if P.Alloc(pageList.list, n).1.None? {
        P.NothingAllocated(pageList.list, n);
      }
      r := pageList.AllocPages(n);
    }

    /** rt_malloc, for a request that goes to the page allocator. */
    method MallocLarge(n: nat) returns (p: Ptr)
      requires Valid()
      modifies this`taken, pageList, pageList.next, pageList.count, memusage
      ensures Valid() && (State(), p) == FromPages(old(State()), n)
    {
      FromPagesKeeps(State(), n, Null);
      if P.Alloc(pageList.list, n).1.Some? {
        NewRun(State(), n);
      }
      var chunk := GetPages(n);
      if chunk.None? {
        return Null;
      }
      LargePut(memusage[..], zoneSize / PAGE, taken, zones, chunk.value, n);
      SetUsage(chunk.value, LargeRun(n));
      taken := taken[chunk.value := n];
      return Large(chunk.value);
    }

    method SetUsage(page: nat, usage: Usage)
      requires page < memusage.Length
      modifies memusage
      ensures memusage[..] == old(memusage[..])[page := usage]
    {
      memusage[page] := usage;
    }

    /** A new run lies beside all zones and runs. */
    static lemma NewRun(s: SlabSpec.State, n: nat)
      requires Inv(s) && P.Alloc(s.pages, n).1.Some?
      ensures var p := P.Alloc(s.pages, n).1.value;
              n > 0 && p !in s.taken && p !in s.zones && p + n <= s.npages && Beside(p, n, s.taken, s.zones, ZonePages(s))
    {
      var p := P.Alloc(s.pages, n).1.value;
      var now := s.taken[p := n];
      ApartAlloc(s.npages, s.pages, s.taken, n);
      assert p in s.zones ==> ZoneOk(s, p);
      assert p in now && now[p] == n;
      forall q | q in s.taken
        ensures q + s.taken[q] <= p || p + n <= q
      {
        assert q in now && now[q] == s.taken[q];
      }
      forall z | z in s.zones
        ensures z + ZonePages(s) <= p || p + n <= z
      {
        assert ZoneOk(s, z);
      }
    }

    /** A chunk from the first zone of a list. */
    method TakeChunk(i: nat) returns (p: Ptr)
      requires Valid() && i < NZONES && zoneArray[i] != []
      requires zoneArray[i][0] in zones && zones[zoneArray[i][0]].nfree > 0
      modifies this`zones, zoneArray
      ensures Valid() && (State(), p) == FromZone(old(State()), i)
    {
      FromZoneKeeps(State(), i, Null);
      var z := zoneArray[i][0];
      var (header, c) := ChunkTaken(zones[z]);
      HeaderPut(memusage[..], zoneSize / PAGE, taken, zones, z, header);
      zones := zones[z := header];
      if header.nfree == 0 {
        zoneArray[i] := zoneArray[i][1..];
      }
      return Chunk(z, c);
    }

    /** The first chunk of a zone that is new or comes off zone_free. */
    method StartZone(z: nat, i: nat, base: nat, nmax: nat) returns (p: Ptr)
      requires zoneArray.Length == NZONES && i < NZONES && nmax > 0
      modifies this`zones, zoneArray
      ensures (State(), p) == Started(old(State()), z, i, base, nmax)
      ensures zones == old(zones)[z := NewZone(i, base, nmax)]
    {
      zones := zones[z := Zone(i, base, nmax, nmax - 1, 0, [])];
      zoneArray[i] := [z] + zoneArray[i];
      return Chunk(z, 0);
    }

    /** All zones of this chunk size are exhausted. */
    method NewChunk(i: nat, base: nat, nmax: nat) returns (p: Ptr)
      requires Valid() && i < NZONES && zoneArray[i] == [] && ChunkSize(i) > 0 && LaidOut(zoneSize, i, base, nmax) && nmax >= 2
      modifies this, pageList, pageList.next, pageList.count, memusage, zoneArray
      ensures Valid() && (State(), p) == FromNewZone(old(State()), i, base, nmax)
    {
      if zoneFree != [] {
        p := ReuseZone(i, base, nmax);
      } else {
        p := GetZone(i, base, nmax);
      }
    }

    method ReuseZone(i: nat, base: nat, nmax: nat) returns (p: Ptr)
      requires Valid() && i < NZONES && zoneArray[i] == [] && ChunkSize(i) > 0 && LaidOut(zoneSize, i, base, nmax) && nmax >= 2
      requires zoneFree != []
      modifies this`zones, this`zoneFree, zoneArray
      ensures Valid() && (State(), p) == FromNewZone(old(State()), i, base, nmax)
    {
      FromSpareKeeps(State(), i, base, nmax, Null);
      var z := zoneFree[0];
      assert z in zoneFree;
      HeaderPut(memusage[..], zoneSize / PAGE, taken, zones, z, NewZone(i, base, nmax));
      zoneFree := zoneFree[1..];
      p := StartZone(z, i, base, nmax);
    }

    method GetZone(i: nat, base: nat, nmax: nat) returns (p: Ptr)
      requires Valid() && i < NZONES && zoneArray[i] == [] && ChunkSize(i) > 0 && LaidOut(zoneSize, i, base, nmax) && nmax >= 2
      requires zoneFree == []
      modifies this`zones, this`taken, pageList, pageList.next, pageList.count, memusage, zoneArray
      ensures Valid() && (State(), p) == FromNewZone(old(State()), i, base, nmax)
    {
      var n := zoneSize / PAGE;
      FromFreshKeeps(State(), i, base, nmax, Null);
      if P.Alloc(pageList.list, n).1.Some? {
        NewRun(State(), n);
      }
      ghost var (usage, runs, headers) := (memusage[..], taken, zones);
      var z := GetPages(n);
      if z.None? {
        return Null;
      }
      MarkZone(z.value, n);
      ZonePut(usage, n, runs, headers, z.value, NewZone(i, base, nmax), memusage[..]);
      taken := taken[z.value := n];
      p := StartZone(z.value, i, base, nmax);
    }

    /** set message usage */
    method MarkZone(z: nat, n: nat)
      requires z + n <= memusage.Length
      modifies memusage
      ensures InZone(memusage[..], n, z)
      ensures forall x :: 0 <= x < memusage.Length && !(z <= x < z + n) ==> memusage[x] == old(memusage[x])
    {
      for off := 0 to n
        invariant forall x :: z <= x < z + off ==> memusage[x] == SmallPage(x - z)
        invariant forall x :: 0 <= x < memusage.Length && !(z <= x < z + off) ==> memusage[x] == old(memusage[x])
      {
        memusage[z + off] := SmallPage(off);
      }
    }

    /** rt_malloc, and the address it returns. */
    method Malloc(size: nat) returns (p: Ptr, addr: nat)
      requires Valid()
      modifies this, pageList, pageList.next, pageList.count, memusage, zoneArray
      ensures Valid() && (State(), p) == SlabSpec.Malloc(old(State()), size)
      ensures p != Null ==> Live(State(), p) && addr == Address(State(), p)
    {
      ghost var s := State();
      MallocAddsOne(s, size, Null);
      if size == 0 {
        return Null, 0;
      }
      if size >= ZoneLimit(zoneSize) {
        p := MallocLarge(PagesFor(size));
      } else {
        p := MallocSmall(size);
      }
      addr := AddressOf(p);
    }

    method AddressOf(p: Ptr) returns (addr: nat)
      requires Valid() && (p == Null || Live(State(), p))
      ensures p != Null ==> addr == Address(State(), p)
    {
      if p.Large? {
        addr := p.page * PAGE;
      } else if p.Chunk? {
        addr := ChunkAddress(p.zone, zones[p.zone], p.number);
      } else {
        addr := 0;
      }
    }

    method MallocSmall(size: nat) returns (p: Ptr)
      requires Valid() && 0 < size < ZoneLimit(zoneSize)
      modifies this, pageList, pageList.next, pageList.count, memusage, zoneArray
      ensures Valid() && (State(), p) == SlabSpec.Malloc(old(State()), size)
    {
      var (zi, chunk) := ZoneIndex(size);
      ZoneHolds(zoneSize, size);
      if zoneArray[zi] != [] {
        FromZoneKeeps(State(), zi, Null);
        p := TakeChunk(zi);
      } else {
        p := NewChunk(zi, ChunkOffset(chunk), ChunksIn(zoneSize, chunk));
      }
    }

    /** rt_free, for a large block. */
    method FreeLarge(page: nat, n: nat)
      requires Valid() && Live(State(), Large(page)) && n == taken[page]
      modifies this`taken, pageList, pageList.next, pageList.count, memusage
      ensures Valid() && State() == Freed(old(State()), Large(page))
    {
      LargeFreedKeeps(State(), page, Null);
      RunBeside(State(), page);
      LargeGone(memusage[..], zoneSize / PAGE, taken, zones, page, LargeRun(0));
      SetUsage(page, LargeRun(0));
      taken := taken - {page};
      GivePages(page, n);
    }

    method GivePages(page: nat, n: nat)
      requires Framed() && n > 0 && page + n <= memusage.Length && P.NoneFree(pageList.list, page, n)
      modifies pageList, pageList.next, pageList.count
      ensures Framed() && pageList.list == P.Freed(old(pageList.list), page, n)
      ensures zoneArray[..] == old(zoneArray[..]) && memusage[..] == old(memusage[..])
    {
      pageList.FreePages(page, n);
    }

    /** A run lies beside all others. */
    static lemma RunBeside(s: SlabSpec.State, p: nat)
      requires Inv(s) && p in s.taken
      ensures s.taken[p] > 0 && p + s.taken[p] <= s.npages && P.NoneFree(s.pages, p, s.taken[p])
      ensures Beside(p, s.taken[p], s.taken - {p}, s.zones - {p}, ZonePages(s))
      ensures forall q :: q in s.taken ==> s.taken[q] > 0
      ensures p in s.zones ==> s.taken[p] == ZonePages(s)
    {
      forall q | q in s.taken - {p}
        ensures q + s.taken[q] <= p || p + s.taken[p] <= q
      {
        assert q in s.taken;
      }
      forall z | z in s.zones
        ensures z in s.taken && s.taken[z] == ZonePages(s)
      {
        assert ZoneOk(s, z);
      }
    }

    /** rt_free, for a chunk of a zone: it goes first on the zone's free list. */
    method GiveChunk(z: nat, number: nat)
      requires Valid() && Live(State(), Chunk(z, number)) && z in zones && zones[z].index < NZONES
      modifies this`zones, zoneArray
      ensures Valid() && State() == ChunkGiven(old(State()), z, number)
    {
      ChunkGivenKeeps(State(), z, number, Null);
      LinkChunk(z, number);
    }

    method LinkChunk(z: nat, number: nat)
      requires Framed() && Used() && z in zones && zones[z].index < NZONES
      modifies this`zones, zoneArray
      ensures Framed() && Used() && State() == ChunkGiven(old(State()), z, number)
    {
      var zone := zones[z];
      var header := zone.(nfree := zone.nfree + 1, free := [number] + zone.free);
      HeaderPut(memusage[..], zoneSize / PAGE, taken, zones, z, header);
      zones := zones[z := header];
      if zone.nfree == 0 {
        PutFirst(z, zone.index);
      }
    }

    /** A zone goes first on its list. */
    method PutFirst(z: nat, i: nat)
      requires i < zoneArray.Length
      modifies zoneArray
      ensures zoneArray[..] == old(zoneArray[..])[i := [z] + old(zoneArray[..])[i]]
    {
      zoneArray[i] := [z] + zoneArray[i];
    }

    /** A zone without live chunks, one of several on its list, goes to zone_free; if that is full its pages go back. */
    method Retire(z: nat)
      requires Valid() && z in zones && zones[z].index < NZONES && z in zoneArray[zones[z].index] && z in taken
      modifies this`zones, this`zoneFree, this`taken, pageList, pageList.next, pageList.count, memusage, zoneArray
      ensures Valid() && State() == Retired(old(State()), z)
    {
      RetiredKeeps(State(), z, Null);
      var i := zones[z].index;
      if zones[z].nfree == zones[z].nmax && |zoneArray[i]| > 1 {
        RunBeside(State(), z);
        zoneArray[i] := Without(zoneArray[i], IndexOf(zoneArray[i], z));
        if |zoneFree| + 1 > RELEASE_THRESH {
          ReleaseZone(z);
        } else {
          zoneFree := [z] + zoneFree;
        }
      }
    }

    /** release zone to page allocator */
    method ReleaseZone(z: nat)
      requires Framed() && Used() && z in zones && z in taken && taken[z] == zoneSize / PAGE
      requires 0 < taken[z] && z + taken[z] <= memusage.Length && P.NoneFree(pageList.list, z, taken[z])
      requires Beside(z, taken[z], taken - {z}, zones - {z}, zoneSize / PAGE) && forall q :: q in taken ==> taken[q] > 0
      modifies this`zones, this`taken, pageList, pageList.next, pageList.count, memusage
      ensures Framed() && Used() && zoneArray[..] == old(zoneArray[..])
      ensures pageList.list == P.Freed(old(pageList.list), z, old(taken)[z])
      ensures zones == old(zones) - {z} && taken == old(taken) - {z}
    {
      var n := zoneSize / PAGE;
      ghost var usage := memusage[..];
      ClearUsage(z, n);
      ZoneGone(usage, n, taken, zones, z, memusage[..]);
      zones, taken := zones - {z}, taken - {z};
      GivePages(z, n);
    }

    method ClearUsage(z: nat, n: nat)
      requires z + n <= memusage.Length
      modifies memusage
      ensures forall x :: 0 <= x < memusage.Length && !(z <= x < z + n) ==> memusage[x] == old(memusage[x])
    {
      for off := 0 to n
        invariant forall x :: 0 <= x < memusage.Length && !(z <= x < z + n) ==> memusage[x] == old(memusage[x])
      {
        memusage[z + off] := FreePage;
      }
    }

    /** rt_free: what the block is, memusage and the zone header tell from its address alone. */
    method Free(addr: nat, ghost p: Ptr)
      requires Valid() && Live(State(), p) && addr == Address(State(), p)
      modifies this, pageList, pageList.next, pageList.count, memusage, zoneArray
      ensures Valid() && State() == Freed(old(State()), p)
    {
      FreedTakesOne(State(), p, Null);
      PageOf(addr, p);
      var page := addr / PAGE;
      match memusage[page] {
        case LargeRun(size) => FreeLarge(page, size);
        case SmallPage(offset) =>
          var z := page - offset;
          var number := NumberOf(addr, z, p);
          FreeChunk(z, number);
        case FreePage =>
      }
    }

    method FreeChunk(z: nat, number: nat)
      requires Valid() && Live(State(), Chunk(z, number))
      modifies this`zones, this`zoneFree, this`taken, pageList, pageList.next, pageList.count, memusage, zoneArray
      ensures Valid() && State() == Freed(old(State()), Chunk(z, number))
    {
      ghost var s := State();
      assert ZoneOk(s, z);
      ChunkGivenLists(s, z, number);
      GiveChunk(z, number);
      Retire(z);
    }

    /** The page a live block starts in is the first of a large run, or a page of its zone. */
    lemma PageOf(addr: nat, p: Ptr)
      requires Valid() && Live(State(), p) && addr == Address(State(), p)
      ensures addr / PAGE < memusage.Length
      ensures p.Large? ==> addr / PAGE == p.page && memusage[addr / PAGE] == LargeRun(taken[p.page])
      ensures p.Chunk? ==> p.zone <= addr / PAGE && memusage[addr / PAGE] == SmallPage(addr / PAGE - p.zone)
    {
      LiveInsideRun(State(), p);
      if p.Large? {
        assert addr / PAGE == p.page;
      } else {
        assert ZoneOk(State(), p.zone);
        PageBetween(addr, p.zone, p.zone + taken[p.zone], Capacity(State(), p));
        assert InZone(memusage[..], zoneSize / PAGE, p.zone);
        assert memusage[..][addr / PAGE] == SmallPage(addr / PAGE - p.zone);
      }
    }

    static lemma PageBetween(addr: nat, from: nat, to: nat, size: nat)
      requires from * PAGE <= addr && addr + size <= to * PAGE && size > 0
      ensures from <= addr / PAGE < to
    {
    }

    /** (ptr - z_baseptr) / z_chunksize */
    method NumberOf(addr: nat, z: nat, ghost p: Ptr) returns (number: nat)
      requires Valid() && p.Chunk? && Live(State(), p) && addr == Address(State(), p) && z == p.zone
      ensures number == p.number
    {
      var zone := zones[z];
      assert ZoneOk(State(), z);
      var c := ChunkSize(zone.index);
      SlotOf(addr, z * PAGE, zone.base, c, p.number);
      number := (addr - z * PAGE - zone.base) / c;
    }

    static lemma SlotOf(addr: nat, start: nat, base: nat, c: nat, number: nat)
      requires c > 0 && addr == start + base + number * c
      ensures addr - start - base >= 0 && (addr - start - base) / c == number
    {
      ScaledUp(0, number, c);
      QuotientIs(number * c, c, number);
    }
  }
}
