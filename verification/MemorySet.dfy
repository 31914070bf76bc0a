/** Address spaces: a page table, the mapped areas and the break
(os/src/mm/memory_set.rs). */
module MemorySet {
  import opened Addresses
  import opened Frames
  import opened Sv39
  import opened AddressSpace
  import opened Closed

  /** `MapArea`: a range of pages and, for a framed range, the frame behind each page. */
  datatype MapArea = MapArea(region: Region, dataFrames: map<nat, nat>) {
    predicate Has(v: nat) { region.Has(v) }

    function Target(v: nat): nat
      requires region.mapType.Framed? ==> v in dataFrames
    {
      if region.mapType.Framed? then dataFrames[v] else v
    }
  }

  function Regions(areas: seq<MapArea>): (rs: seq<Region>)
    ensures |rs| == |areas| && forall i :: 0 <= i < |rs| ==> rs[i] == areas[i].region
  {
    seq(|areas|, i requires 0 <= i < |areas| => areas[i].region)
  }

  /** The flat map sends each page of the area to its frame, and the labelling `dataAt`
      sends each of those frames back. */
  ghost predicate AreaOk(a: MapArea, flat: map<nat, nat>, dataAt: map<nat, nat>)
  {
    && a.dataFrames.Keys == (if a.region.mapType.Framed? then a.region.Pages() else {})
    && (forall v :: a.Has(v) ==> v in flat && flat[v] == LeafPte(a.Target(v), a.region.perm))
    && (forall v :: v in a.dataFrames ==> a.dataFrames[v] in dataAt && dataAt[a.dataFrames[v]] == v)
  }

  ghost predicate TrackedBy(areas: seq<MapArea>, f: nat, v: nat)
  {
    exists i :: 0 <= i < |areas| && v in areas[i].dataFrames && areas[i].dataFrames[v] == f
  }

  /** The flat map is exactly the pages of the areas plus the trampoline, and `dataAt` is
      exactly the frames that the areas hold. */
  ghost predicate Mirrors(areas: seq<MapArea>, flat: map<nat, nat>, dataAt: map<nat, nat>, tramp: nat)
  {
    forall k: Key :: OpenMirrors(k) ==> MirrorsFacts(areas, flat, dataAt, tramp)
  }

  predicate OpenMirrors(k: Key) { true }

  ghost predicate MirrorsFacts(areas: seq<MapArea>, flat: map<nat, nat>, dataAt: map<nat, nat>, tramp: nat)
  {
    && Orderly(Regions(areas))
    && flat.Keys == PagesOf(Regions(areas)) + {TRAMPOLINE_VPN}
    && flat[TRAMPOLINE_VPN] == LeafPte(tramp, PERM_R + PERM_X)
    && (forall i :: 0 <= i < |areas| ==> AreaOk(areas[i], flat, dataAt))
    && (forall f :: f in dataAt ==> TrackedBy(areas, f, dataAt[f]))
  }

  /** The entry of a page in an area: valid, with the bits of the area's permission. */
  lemma {:induction false} EntryOfPage(areas: seq<MapArea>, flat: map<nat, nat>, dataAt: map<nat, nat>, tramp: nat, i: nat, v: nat)
    requires Mirrors(areas, flat, dataAt, tramp) && i < |areas| && areas[i].region.mapType.Framed? && areas[i].Has(v)
    requires forall f :: f in dataAt ==> f < PPN_LIMIT
    ensures v in flat && PteFlags(flat[v]) == areas[i].region.perm + PTE_V && areas[i].region.perm % 2 == 0
  {
    assert OpenMirrors(Key);
    assert AreaOk(areas[i], flat, dataAt) && IsPerm(Regions(areas)[i].perm);
    LeafPteDecodes(areas[i].Target(v), areas[i].region.perm);
  }

  /** Every page that the areas have and `rs` has not is mapped readable, writable and for the
      user, and not executable. */
  ghost predicate NewAreHeap(rs: seq<Region>, areas: seq<MapArea>, flat: map<nat, nat>)
  {
    forall v :: v in PagesOf(Regions(areas)) && v !in PagesOf(rs) ==> v in flat && IsHeapEntry(flat[v])
  }

  predicate IsHeapEntry(pte: nat) { PteValid(pte) && IsHeapPerm(PteFlags(pte) - PTE_V) }

  /** Every such page is mapped as `prot` asks for. */
  ghost predicate NewAreAsked(rs: seq<Region>, areas: seq<MapArea>, flat: map<nat, nat>, prot: nat)
  {
    forall v :: v in PagesOf(Regions(areas)) && v !in PagesOf(rs) ==> v in flat && IsMmapEntry(flat[v], prot)
  }

  predicate IsMmapEntry(pte: nat, prot: nat) { PteValid(pte) && IsMmapPerm(PteFlags(pte) - PTE_V, prot) }

  /** A page that only the later areas have lies in one of them. */
  lemma {:induction false} InLaterArea(rs: seq<Region>, areas: seq<MapArea>, v: nat) returns (i: nat)
    requires rs <= Regions(areas) && v in PagesOf(Regions(areas)) && v !in PagesOf(rs)
    ensures |rs| <= i < |areas| && areas[i].Has(v)
  {
    PagesOfMember(Regions(areas), v);
    PagesOfMember(rs, v);
    assert forall j :: 0 <= j < |rs| ==> Regions(areas)[j] == rs[j] && !rs[j].Has(v);
    i :| 0 <= i < |areas| && Regions(areas)[i].Has(v);
  }

  lemma {:induction false} HeapEntries(rs: seq<Region>, areas: seq<MapArea>, flat: map<nat, nat>, dataAt: map<nat, nat>, tramp: nat)
    requires Mirrors(areas, flat, dataAt, tramp) && rs <= Regions(areas) && (forall f :: f in dataAt ==> f < PPN_LIMIT)
    requires forall i :: |rs| <= i < |areas| ==> areas[i].region.mapType.Framed? && IsHeapPerm(areas[i].region.perm)
    ensures NewAreHeap(rs, areas, flat)
  {
    forall v | v in PagesOf(Regions(areas)) && v !in PagesOf(rs) ensures v in flat && IsHeapEntry(flat[v]) {
      var i := LaterEntry(rs, areas, flat, dataAt, tramp, v);
      FlagsArePerm(flat[v], areas[i].region.perm, 0);
    }
  }

  lemma {:induction false} LaterEntry(rs: seq<Region>, areas: seq<MapArea>, flat: map<nat, nat>, dataAt: map<nat, nat>, tramp: nat, v: nat)
    returns (i: nat)
    requires Mirrors(areas, flat, dataAt, tramp) && rs <= Regions(areas) && (forall f :: f in dataAt ==> f < PPN_LIMIT)
    requires forall i :: |rs| <= i < |areas| ==> areas[i].region.mapType.Framed?
    requires v in PagesOf(Regions(areas)) && v !in PagesOf(rs)
    ensures |rs| <= i < |areas| && v in flat && PteFlags(flat[v]) == areas[i].region.perm + PTE_V && areas[i].region.perm % 2 == 0
  {
    i := InLaterArea(rs, areas, v);
    EntryOfPage(areas, flat, dataAt, tramp, i, v);
  }

  lemma {:induction false} MmapEntries(rs: seq<Region>, areas: seq<MapArea>, flat: map<nat, nat>, dataAt: map<nat, nat>, tramp: nat, prot: nat)
    requires Mirrors(areas, flat, dataAt, tramp) && rs <= Regions(areas) && (forall f :: f in dataAt ==> f < PPN_LIMIT)
    requires forall i :: |rs| <= i < |areas| ==> areas[i].region.mapType.Framed? && IsMmapPerm(areas[i].region.perm, prot)
    ensures NewAreAsked(rs, areas, flat, prot)
  {
    forall v | v in PagesOf(Regions(areas)) && v !in PagesOf(rs) ensures v in flat && IsMmapEntry(flat[v], prot) {
      var i := LaterEntry(rs, areas, flat, dataAt, tramp, v);
      FlagsArePerm(flat[v], areas[i].region.perm, prot);
    }
  }

  lemma {:induction false} FlagsArePerm(pte: nat, perm: nat, prot: nat)
    requires PteFlags(pte) == perm + PTE_V && perm % 2 == 0
    ensures IsHeapPerm(perm) ==> IsHeapEntry(pte)
    ensures IsMmapPerm(perm, prot) ==> IsMmapEntry(pte, prot)
  {
    assert PteFlags(pte) - PTE_V == perm;
  }

  /** What a searching or a fixed `mmap` adds. */
  lemma {:induction false} MmapAddsAsked(sp: Space, start: nat, len: nat, prot: nat, r: (Space, Outcome))
    requires InRange(sp.regions) && MmapStep(sp, start, len, prot, r) && !r.1.Panicked?
    ensures sp.regions <= r.0.regions
    ensures forall i :: |sp.regions| <= i < |r.0.regions| ==> r.0.regions[i].mapType.Framed? && IsMmapPerm(r.0.regions[i].perm, prot)
  {
    if len != 0 && start == 0 {
      var k: nat :| MmapSearched(sp, len, prot, k, r);
      var addr := SearchAt(sp.regions, sp.brk, k);
      MmapMapsExactly(sp.(brk := Wrap(addr + AlignUp(len))), VirtAddrFrom(addr), len, prot);
    } else if start != 0 {
      MmapFixed(sp, start, len, prot, r);
      if len != 0 && start % PAGE_SIZE == 0 {
        MmapMapsExactly(sp, VirtAddrFrom(start), len, prot);
      }
    }
  }

  // ---- one area ----------------------------------------------------------------------

  /** `area` was added to the flat map `flat0`, with its frames labelled by `lab`. */
  ghost predicate Laid(area: MapArea, flat0: map<nat, nat>, flat: map<nat, nat>, lab: map<nat, nat>)
  {
    forall k: Key :: OpenLaid(k) ==> LaidFacts(area, flat0, flat, lab)
  }

  predicate OpenLaid(k: Key) { true }

  ghost predicate LaidFacts(area: MapArea, flat0: map<nat, nat>, flat: map<nat, nat>, lab: map<nat, nat>)
  {
    && flat.Keys == flat0.Keys + area.region.Pages()
    && flat0.Keys !! area.region.Pages()
    && (forall v :: v in flat0 ==> flat[v] == flat0[v])
    && AreaOk(area, flat, lab)
    && (forall f :: f in lab ==> lab[f] in area.dataFrames && area.dataFrames[lab[f]] == f)
  }

  /** The area with one more page at its upper end. */
  function Extended(area: MapArea, ppn: nat): MapArea
  {
    var v := area.region.hi;
    MapArea(area.region.(hi := v + 1), if area.region.mapType.Framed? then area.dataFrames[v := ppn] else area.dataFrames)
  }

  /** The label of the frame that a page of `region` takes, if it takes one. */
  function Label(region: Region, ppn: nat, v: nat): map<nat, nat>
  {
    if region.mapType.Framed? then map[ppn := v] else map[]
  }

  lemma {:induction false} LaidBounds(area: MapArea, flat0: map<nat, nat>, flat: map<nat, nat>, lab: map<nat, nat>)
    requires Laid(area, flat0, flat, lab)
    ensures forall v :: v in flat <==> v in flat0 || area.Has(v)
    ensures forall v :: area.Has(v) ==> v !in flat0
    ensures forall v :: v in flat0 ==> flat[v] == flat0[v]
  {
    assert OpenLaid(Key);
    forall v ensures v in flat <==> v in flat0 || area.Has(v) {
      assert area.Has(v) <==> v in area.region.Pages();
    }
  }

  lemma {:induction false} LaidNothing(region: Region, flat: map<nat, nat>)
    requires region.lo == region.hi
    ensures Laid(MapArea(region, map[]), flat, flat, map[])
  {
  }

  lemma {:induction false} NoGrowth(pages: Pages, kind: map<nat, Path>, owned: set<nat>)
    requires kind.Keys <= owned
    ensures Growth(pages, pages, kind, kind, owned, owned, map[])
  {
  }

  lemma {:induction false} ExtendedOk(area: MapArea, flat: map<nat, nat>, lab: map<nat, nat>, ppn: nat)
    requires AreaOk(area, flat, lab) && area.region.lo <= area.region.hi && area.region.hi !in flat
    requires if area.region.mapType.Framed? then ppn !in lab else ppn == area.region.hi
    ensures var v := area.region.hi;
            AreaOk(Extended(area, ppn), flat[v := LeafPte(ppn, area.region.perm)], lab + Label(area.region, ppn, v))
  {
    var v, area' := area.region.hi, Extended(area, ppn);
    var flat' := flat[v := LeafPte(ppn, area.region.perm)];
    assert area'.region.Pages() == area.region.Pages() + {v};
    forall w | area'.Has(w) ensures w in flat' && flat'[w] == LeafPte(area'.Target(w), area'.region.perm) {
      assert w == v || area.Has(w);
    }
  }

  lemma {:induction false} PagesGrow(r: Region)
    requires r.lo <= r.hi
    ensures r.(hi := r.hi + 1).Pages() == r.Pages() + {r.hi}
  {
  }

  lemma {:induction false} ExtendedLabels(area: MapArea, lab: map<nat, nat>, ppn: nat)
    requires forall f :: f in lab ==> lab[f] in area.dataFrames && area.dataFrames[lab[f]] == f
    requires area.dataFrames.Keys <= area.region.Pages()
    ensures var area', lab' := Extended(area, ppn), lab + Label(area.region, ppn, area.region.hi);
            forall f :: f in lab' ==> lab'[f] in area'.dataFrames && area'.dataFrames[lab'[f]] == f
  {
  }

  lemma {:induction false} LaidExtends(area: MapArea, flat0: map<nat, nat>, flat: map<nat, nat>, lab: map<nat, nat>, ppn: nat)
    requires Laid(area, flat0, flat, lab) && area.region.lo <= area.region.hi
    requires area.region.hi !in flat
    requires if area.region.mapType.Framed? then ppn !in lab else ppn == area.region.hi
    ensures var v := area.region.hi;
            Laid(Extended(area, ppn), flat0, flat[v := LeafPte(ppn, area.region.perm)], lab + Label(area.region, ppn, v))
  {
    var v, area' := area.region.hi, Extended(area, ppn);
    var flat', lab' := flat[v := LeafPte(ppn, area.region.perm)], lab + Label(area.region, ppn, v);
    assert AreaOk(area', flat', lab') by {
      assert OpenLaid(Key);
      ExtendedOk(area, flat, lab, ppn);
    }
    assert forall f :: f in lab' ==> lab'[f] in area'.dataFrames && area'.dataFrames[lab'[f]] == f by {
      assert OpenLaid(Key);
      ExtendedLabels(area, lab, ppn);
    }
    PagesGrow(area.region);
    LaidMore(area, area', flat0, flat, flat', lab, lab', v);
  }

  lemma {:induction false} LaidMore(area: MapArea, area': MapArea, flat0: map<nat, nat>, flat: map<nat, nat>, flat': map<nat, nat>,
                                    lab: map<nat, nat>, lab': map<nat, nat>, v: nat)
    requires Laid(area, flat0, flat, lab) && AreaOk(area', flat', lab') && v !in flat
    requires flat'.Keys == flat.Keys + {v} && forall w :: w in flat ==> flat'[w] == flat[w]
    requires area'.region.Pages() == area.region.Pages() + {v}
    requires forall f :: f in lab' ==> lab'[f] in area'.dataFrames && area'.dataFrames[lab'[f]] == f
    ensures Laid(area', flat0, flat', lab')
  {
    assert OpenLaid(Key);
  }

  /** A new frame never disturbs a page table. */
  method FrameAllocBeside(pt: SV39PageTable, fa: StackFrameAllocator, ram: PhysMemory) returns (r: Option<nat>)
    requires pt.Valid(ram) && Installed(fa, ram) && pt.kind.Keys <= fa.owned
    modifies fa, ram
    ensures pt.Valid(ram) && Installed(fa, ram) && fa.base == old(fa.base) && fa.end == old(fa.end)
    ensures r.None? ==> fa.owned == old(fa.owned) && ram.pages == old(ram.pages) && fa.Available() == 0
    ensures r.Some? ==>
              && r.value < PPN_LIMIT && r.value !in old(fa.owned) && r.value in old(ram.pages)
              && fa.owned == old(fa.owned) + {r.value}
              && ram.pages == old(ram.pages)[r.value := ZeroPage()]
  {
    r := FrameAlloc(fa, ram);
    if r.Some? {
      TableFrame(old(ram.pages), ram.pages, pt.rootPpn, pt.frames, pt.kind, pt.flat);
    }
  }

  /** Between two states a table gained pages and some data frames `lab` were taken, all of
      them free before and the data frames clear; the rest of what was owned is as it was. */
  ghost predicate Growth(pages: Pages, pages': Pages, kind: map<nat, Path>, kind': map<nat, Path>,
                         owned: set<nat>, owned': set<nat>, lab: map<nat, nat>)
  {
    forall k: Key :: OpenGrowth(k) ==> GrowthFacts(pages, pages', kind, kind', owned, owned', lab)
  }

  predicate OpenGrowth(k: Key) { true }

  ghost predicate GrowthFacts(pages: Pages, pages': Pages, kind: map<nat, Path>, kind': map<nat, Path>,
                              owned: set<nat>, owned': set<nat>, lab: map<nat, nat>)
  {
    && kind.Keys <= kind'.Keys <= owned'
    && owned' == owned + (kind'.Keys - kind.Keys) + lab.Keys
    && (kind'.Keys - kind.Keys) !! owned && lab.Keys !! owned && lab.Keys !! kind'.Keys
    && pages'.Keys == pages.Keys && Undisturbed(pages, pages', kind'.Keys, owned)
    && (forall f :: f in lab ==> f in pages' && pages'[f] == ZeroPage())
  }

  lemma {:induction false} GrowthSets(pages: Pages, pages': Pages, kind: map<nat, Path>, kind': map<nat, Path>,
                   owned: set<nat>, owned': set<nat>, lab: map<nat, nat>)
    requires Growth(pages, pages', kind, kind', owned, owned', lab)
    ensures kind.Keys <= kind'.Keys <= owned' && owned <= owned'
    ensures lab.Keys <= owned' && lab.Keys !! owned && lab.Keys !! kind'.Keys
    ensures (kind'.Keys - kind.Keys) !! owned && pages'.Keys == pages.Keys
    ensures owned' == owned + (kind'.Keys - kind.Keys) + lab.Keys
  {
    assert OpenGrowth(Key);
  }

  lemma {:induction false} GrowthTrans(pages0: Pages, pages1: Pages, pages2: Pages,
                    kind0: map<nat, Path>, kind1: map<nat, Path>, kind2: map<nat, Path>,
                    owned0: set<nat>, owned1: set<nat>, owned2: set<nat>, lab1: map<nat, nat>, lab2: map<nat, nat>)
    requires Growth(pages0, pages1, kind0, kind1, owned0, owned1, lab1)
    requires Growth(pages1, pages2, kind1, kind2, owned1, owned2, lab2)
    ensures Growth(pages0, pages2, kind0, kind2, owned0, owned2, lab1 + lab2)
  {
    GrowthSets(pages0, pages1, kind0, kind1, owned0, owned1, lab1);
    GrowthSets(pages1, pages2, kind1, kind2, owned1, owned2, lab2);
    GrowthTransSets(kind0.Keys, kind1.Keys, kind2.Keys, owned0, owned1, owned2, lab1.Keys, lab2.Keys);
    assert (lab1 + lab2).Keys == lab1.Keys + lab2.Keys;
    assert OpenGrowth(Key);
    forall f | f in lab1 ensures pages2[f] == ZeroPage() {
      assert f in owned1 && f !in kind2;
    }
  }

  lemma {:induction false} GrowthTransSets(k0: set<nat>, k1: set<nat>, k2: set<nat>, o0: set<nat>, o1: set<nat>, o2: set<nat>,
                                           l1: set<nat>, l2: set<nat>)
    requires k0 <= k1 <= o1 && k1 <= k2 <= o2
    requires o1 == o0 + (k1 - k0) + l1 && o2 == o1 + (k2 - k1) + l2
    requires (k1 - k0) !! o0 && l1 !! o0 && l1 !! k1 && (k2 - k1) !! o1 && l2 !! o1 && l2 !! k2
    ensures k0 <= k2 <= o2 && o2 == o0 + (k2 - k0) + (l1 + l2)
    ensures (k2 - k0) !! o0 && (l1 + l2) !! o0 && (l1 + l2) !! k2
  {
  }

  lemma {:induction false} FreshThenGrew(pages0: Pages, pages2: Pages, kind: map<nat, Path>, kind': map<nat, Path>,
                      owned0: set<nat>, owned2: set<nat>, f: nat, v: nat)
    requires kind.Keys <= owned0 && f !in owned0 && f in pages0
    requires Grew(pages0[f := ZeroPage()], pages2, kind, kind', owned0 + {f}, owned2)
    ensures Growth(pages0, pages2, kind, kind', owned0, owned2, map[f := v])
  {
  }

  lemma {:induction false} GrewIsGrowth(pages: Pages, pages': Pages, kind: map<nat, Path>, kind': map<nat, Path>,
                     owned: set<nat>, owned': set<nat>)
    requires kind.Keys <= owned && Grew(pages, pages', kind, kind', owned, owned')
    ensures Growth(pages, pages', kind, kind', owned, owned', map[])
  {
  }

  /** `map_one`. */
  method MapOne(region: Region, vpn: nat, pt: SV39PageTable, fa: StackFrameAllocator, ram: PhysMemory)
    returns (r: MapResult, ppn: nat)
    requires pt.Valid(ram) && Installed(fa, ram) && pt.kind.Keys <= fa.owned
    requires vpn < VPN_LIMIT && IsPerm(region.perm)
    modifies pt, fa, ram
    ensures pt.Valid(ram) && Installed(fa, ram) && pt.rootPpn == old(pt.rootPpn)
    ensures fa.base == old(fa.base) && fa.end == old(fa.end)
    ensures r.AlreadyMapped? ==> vpn in old(pt.flat)
    ensures r.OutOfFrames? ==> fa.Available() == 0
    ensures r.MapDone? ==>
              && vpn !in old(pt.flat) && ppn < PPN_LIMIT && (region.mapType.Identical? ==> ppn == vpn)
              && pt.flat == old(pt.flat)[vpn := LeafPte(ppn, region.perm)]
              && Growth(old(ram.pages), ram.pages, old(pt.kind), pt.kind, old(fa.owned), fa.owned,
                        Label(region, ppn, vpn))
  {
    if region.mapType.Identical? {
      ppn := vpn;
      r := pt.Map(vpn, ppn, region.perm, fa, ram);
      GrewIsGrowth(old(ram.pages), ram.pages, old(pt.kind), pt.kind, old(fa.owned), fa.owned);
    } else {
      var frame := FrameAllocBeside(pt, fa, ram);
      if frame.None? {
        return OutOfFrames, 0;
      }
      ppn := frame.value;
      r := pt.Map(vpn, ppn, region.perm, fa, ram);
      FreshThenGrew(old(ram.pages), ram.pages, old(pt.kind), pt.kind, old(fa.owned), fa.owned, ppn, vpn);
    }
  }

  /** What held before an area was mapped. */
  datatype Before = Before(flat: map<nat, nat>, pages: Pages, kind: map<nat, Path>, owned: set<nat>)

  /** The pages of `area` have been mapped since `b`. */
  ghost predicate Underway(area: MapArea, lab: map<nat, nat>, b: Before,
                           pt: SV39PageTable, fa: StackFrameAllocator, ram: PhysMemory)
    reads pt, fa, ram
  {
    && pt.Valid(ram) && Installed(fa, ram)
    && Laid(area, b.flat, pt.flat, lab)
    && Growth(b.pages, ram.pages, b.kind, pt.kind, b.owned, fa.owned, lab)
  }

  /** One turn of the mapping loop. */
  method MapNext(area: MapArea, ghost lab: map<nat, nat>, ghost b: Before,
                 pt: SV39PageTable, fa: StackFrameAllocator, ram: PhysMemory)
    returns (r: MapResult, area': MapArea, ghost lab': map<nat, nat>)
    requires Underway(area, lab, b, pt, fa, ram)
    requires area.region.lo <= area.region.hi < VPN_LIMIT && IsPerm(area.region.perm)
    modifies pt, fa, ram
    ensures fa.base == old(fa.base) && fa.end == old(fa.end) && pt.rootPpn == old(pt.rootPpn)
    ensures r.AlreadyMapped? ==> area.region.hi in b.flat
    ensures r.OutOfFrames? ==> fa.Available() == 0
    ensures r.MapDone? ==> area'.region == area.region.(hi := area.region.hi + 1) && Underway(area', lab', b, pt, fa, ram)
  {
    ghost var pages1, kind1, owned1, flat1 := ram.pages, pt.kind, fa.owned, pt.flat;
    GrowthSets(b.pages, pages1, b.kind, kind1, b.owned, owned1, lab);
    LaidBounds(area, b.flat, flat1, lab);
    var vpn, ppn := area.region.hi, 0;
    r, ppn := MapOne(area.region, vpn, pt, fa, ram);
    area', lab' := Extended(area, ppn), lab + Label(area.region, ppn, vpn);
    if r.MapDone? {
      GrowthSets(pages1, ram.pages, kind1, pt.kind, owned1, fa.owned, Label(area.region, ppn, vpn));
      LaidExtends(area, b.flat, flat1, lab, ppn);
      GrowthTrans(b.pages, pages1, ram.pages, b.kind, kind1, pt.kind, b.owned, owned1, fa.owned,
                  lab, Label(area.region, ppn, vpn));
    }
  }

  /** `MapArea::map` on a new area. */
  method MapAll(region: Region, pt: SV39PageTable, fa: StackFrameAllocator, ram: PhysMemory)
    returns (r: MapResult, area: MapArea, ghost lab: map<nat, nat>)
    requires pt.Valid(ram) && Installed(fa, ram) && pt.kind.Keys <= fa.owned
    requires region.lo <= region.hi <= VPN_LIMIT && IsPerm(region.perm)
    modifies pt, fa, ram
    ensures fa.base == old(fa.base) && fa.end == old(fa.end) && pt.rootPpn == old(pt.rootPpn)
    ensures r.AlreadyMapped? ==> exists v: nat :: region.Has(v) && v in old(pt.flat)
    ensures r.OutOfFrames? ==> fa.Available() == 0
    ensures r.MapDone? ==>
              && area.region == region
              && Underway(area, lab, old(Before(pt.flat, ram.pages, pt.kind, fa.owned)), pt, fa, ram)
  {
    area, lab := MapArea(region.(hi := region.lo), map[]), map[];
    ghost var b := Before(pt.flat, ram.pages, pt.kind, fa.owned);
    LaidNothing(area.region, pt.flat);
    NoGrowth(ram.pages, pt.kind, fa.owned);
    var vpn := region.lo;
    while vpn != region.hi
      invariant region.lo <= vpn <= region.hi
      invariant fa.base == old(fa.base) && fa.end == old(fa.end) && pt.rootPpn == old(pt.rootPpn)
      invariant area.region == region.(hi := vpn) && Underway(area, lab, b, pt, fa, ram)
    {
      r, area, lab := MapNext(area, lab, b, pt, fa, ram);
      if !r.MapDone? {
        assert r.AlreadyMapped? ==> region.Has(vpn);
        return;
      }
      vpn := vpn + 1;
    }
    r := MapDone;
  }

  /** Frame `f` backs one of the pages `[lo, n)`. */
  ghost predicate Backs(dataAt: map<nat, nat>, f: nat, lo: nat, n: nat)
  {
    f in dataAt && lo <= dataAt[f] < n
  }

  /** `dataAt` knows the frames of `area` and no others for its pages. */
  ghost predicate LabelledBy(area: MapArea, dataAt: map<nat, nat>)
  {
    && area.dataFrames.Keys == (if area.region.mapType.Framed? then area.region.Pages() else {})
    && (forall v :: v in area.dataFrames ==> area.dataFrames[v] in dataAt && dataAt[area.dataFrames[v]] == v)
    && (forall f :: f in dataAt && area.Has(dataAt[f]) ==> dataAt[f] in area.dataFrames && area.dataFrames[dataAt[f]] == f)
  }

  /** `unmap_one`: give the frame back, then clear the entry. Neither can panic. */
  method UnmapOne(area: MapArea, vpn: nat, pt: SV39PageTable, fa: StackFrameAllocator, ram: PhysMemory)
    returns (ok: bool)
    requires pt.Valid(ram) && Installed(fa, ram)
    requires vpn < VPN_LIMIT && vpn in pt.flat
    requires area.region.mapType.Framed? ==>
               vpn in area.dataFrames && area.dataFrames[vpn] in fa.owned
    modifies pt`flat, fa, ram
    ensures ok
    ensures pt.Valid(ram) && Installed(fa, ram)
    ensures fa.base == old(fa.base) && fa.end == old(fa.end)
    ensures pt.flat == old(pt.flat) - {vpn}
    ensures fa.owned == old(fa.owned) - (if area.region.mapType.Framed? then {area.dataFrames[vpn]} else {})
    ensures OnlyTables(old(ram.pages), ram.pages, pt.kind.Keys)
  {
    ok := true;
    if area.region.mapType.Framed? {
      ok := fa.Dealloc(area.dataFrames[vpn]);
    }
    var r := pt.Unmap(vpn, ram);
    ok := ok && r.UnmapDone?;
  }

  /** Only table pages may have changed. */
  ghost predicate OnlyTables(pages: Pages, pages': Pages, tables: set<nat>)
  {
    pages'.Keys == pages.Keys && forall p :: p in pages && p !in tables ==> pages'[p] == pages[p]
  }

  ghost predicate Cleared(area: MapArea, n: nat, dataAt: map<nat, nat>, b: Before, flat: map<nat, nat>, owned: set<nat>)
  {
    && (forall v :: v in flat <==> v in b.flat && !(area.region.lo <= v < n))
    && (forall v :: v in flat ==> flat[v] == b.flat[v])
    && (forall f :: f in owned <==> f in b.owned && !Backs(dataAt, f, area.region.lo, n))
  }

  lemma {:induction false} ClearedStep(area: MapArea, n: nat, dataAt: map<nat, nat>, b: Before,
                    flat: map<nat, nat>, owned: set<nat>, owned': set<nat>)
    requires area.Has(n) && Clearable(area, dataAt, b) && Cleared(area, n, dataAt, b, flat, owned)
    requires n in area.region.Pages()
    requires owned' == owned - (if area.region.mapType.Framed? then {area.dataFrames[n]} else {})
    ensures Cleared(area, n + 1, dataAt, b, flat - {n}, owned')
  {
  }

  /** The pages of `area` below `n` have been unmapped since `b`. */
  ghost predicate Clearing(area: MapArea, n: nat, dataAt: map<nat, nat>, b: Before,
                           pt: SV39PageTable, fa: StackFrameAllocator, ram: PhysMemory)
    reads pt, fa, ram
  {
    match b
    case Before(flat, pages, kind, owned) =>
      && pt.Valid(ram) && Installed(fa, ram)
      && pt.kind == kind
      && Cleared(area, n, dataAt, b, pt.flat, fa.owned)
      && OnlyTables(pages, ram.pages, kind.Keys)
  }

  /** What must hold before an area can be unmapped. */
  ghost predicate Clearable(area: MapArea, dataAt: map<nat, nat>, b: Before)
  {
    && area.region.lo <= area.region.hi <= VPN_LIMIT && area.region.Pages() <= b.flat.Keys
    && LabelledBy(area, dataAt) && dataAt.Keys <= b.owned && dataAt.Keys !! b.kind.Keys
  }

  /** One turn of the unmapping loop. */
  method UnmapNext(area: MapArea, vpn: nat, ghost dataAt: map<nat, nat>, ghost b: Before,
                   pt: SV39PageTable, fa: StackFrameAllocator, ram: PhysMemory)
    returns (ok: bool)
    requires area.Has(vpn) && Clearable(area, dataAt, b) && Clearing(area, vpn, dataAt, b, pt, fa, ram)
    modifies pt`flat, fa, ram
    ensures ok && Clearing(area, vpn + 1, dataAt, b, pt, fa, ram)
    ensures fa.base == old(fa.base) && fa.end == old(fa.end)
  {
    assert vpn in area.region.Pages();
    ghost var flat1, owned1 := pt.flat, fa.owned;
    ok := UnmapOne(area, vpn, pt, fa, ram);
    ClearedStep(area, vpn, dataAt, b, flat1, owned1, fa.owned);
  }

  /** `MapArea::unmap`: the pages leave the flat map, the frames go back to the allocator, and
      no assertion of the page table or the allocator fires on the way. */
  method UnmapAll(area: MapArea, ghost dataAt: map<nat, nat>, pt: SV39PageTable, fa: StackFrameAllocator, ram: PhysMemory)
    returns (ok: bool)
    requires pt.Valid(ram) && Installed(fa, ram)
    requires Clearable(area, dataAt, Before(pt.flat, ram.pages, pt.kind, fa.owned))
    modifies pt`flat, fa, ram
    ensures ok && fa.base == old(fa.base) && fa.end == old(fa.end)
    ensures Clearing(area, area.region.hi, dataAt, old(Before(pt.flat, ram.pages, pt.kind, fa.owned)), pt, fa, ram)
  {
    ok := true;
    ghost var b := Before(pt.flat, ram.pages, pt.kind, fa.owned);
    var vpn := area.region.lo;
    while vpn != area.region.hi
      invariant area.region.lo <= vpn <= area.region.hi && ok
      invariant fa.base == old(fa.base) && fa.end == old(fa.end)
      invariant Clearing(area, vpn, dataAt, b, pt, fa, ram)
    {
      ok := UnmapNext(area, vpn, dataAt, b, pt, fa, ram);
      vpn := vpn + 1;
    }
  }

  // ---- the list of areas -------------------------------------------------------------

  lemma {:induction false} AreaOkGrows(a: MapArea, flat0: map<nat, nat>, flat: map<nat, nat>, dataAt: map<nat, nat>, dataAt': map<nat, nat>)
    requires AreaOk(a, flat0, dataAt)
    requires forall v :: v in flat0 ==> v in flat && flat[v] == flat0[v]
    requires forall f :: f in dataAt ==> f in dataAt' && dataAt'[f] == dataAt[f]
    ensures AreaOk(a, flat, dataAt')
  {
  }

  lemma {:induction false} PushOrder(areas: seq<MapArea>, flat0: map<nat, nat>, area: MapArea)
    requires Orderly(Regions(areas)) && flat0.Keys == PagesOf(Regions(areas)) + {TRAMPOLINE_VPN}
    requires flat0.Keys !! area.region.Pages() && area.region.lo <= area.region.hi <= VPN_LIMIT && IsPerm(area.region.perm)
    ensures Regions(areas + [area]) == Regions(areas) + [area.region]
    ensures Orderly(Regions(areas + [area]))
    ensures PagesOf(Regions(areas + [area])) == PagesOf(Regions(areas)) + area.region.Pages()
  {
    var rs, rs' := Regions(areas), Regions(areas + [area]);
    assert rs' == rs + [area.region];
    assert rs'[..|rs|] == rs;
    forall i, v | 0 <= i < |rs| && rs[i].Has(v) ensures !area.region.Has(v) {
      PagesOfMember(rs, v);
      assert v in flat0;
      assert v !in area.region.Pages();
    }
    assert TRAMPOLINE_VPN !in area.region.Pages();
    forall i, j, v | 0 <= i < |rs'| && 0 <= j < |rs'| && i != j && rs'[i].Has(v) ensures !rs'[j].Has(v) {
      assert i < |rs| ==> rs'[i] == rs[i];
      assert j < |rs| ==> rs'[j] == rs[j];
    }
  }

  lemma {:induction false} PushMirrors(areas: seq<MapArea>, flat0: map<nat, nat>, dataAt: map<nat, nat>, tramp: nat,
                    area: MapArea, flat: map<nat, nat>, lab: map<nat, nat>)
    requires Mirrors(areas, flat0, dataAt, tramp) && Laid(area, flat0, flat, lab) && lab.Keys !! dataAt.Keys
    requires area.region.lo <= area.region.hi <= VPN_LIMIT && IsPerm(area.region.perm)
    ensures Mirrors(areas + [area], flat, dataAt + lab, tramp)
    ensures Regions(areas + [area]) == Regions(areas) + [area.region]
  {
    var areas', dataAt' := areas + [area], dataAt + lab;
    PushKeys(areas, flat0, dataAt, tramp, area, flat, lab);
    forall i | 0 <= i < |areas'| ensures AreaOk(areas'[i], flat, dataAt') {
      if i < |areas| {
        assert AreaOk(areas[i], flat0, dataAt) by { assert OpenMirrors(Key); }
        LaidBounds(area, flat0, flat, lab);
        AreaOkGrows(areas[i], flat0, flat, dataAt, dataAt');
      } else {
        assert AreaOk(area, flat, lab) by { assert OpenLaid(Key); }
        AreaOkGrows(area, flat, flat, lab, dataAt');
      }
    }
    forall f | f in dataAt' ensures TrackedBy(areas', f, dataAt'[f]) {
      if f in lab {
        assert lab[f] in area.dataFrames && area.dataFrames[lab[f]] == f by { assert OpenLaid(Key); }
        assert areas'[|areas|] == area;
      } else {
        var i := Tracker(areas, flat0, dataAt, tramp, f);
        assert areas'[i] == areas[i];
      }
    }
  }

  /** The area that holds a data frame. */
  lemma {:induction false} Tracker(areas: seq<MapArea>, flat: map<nat, nat>, dataAt: map<nat, nat>, tramp: nat, f: nat) returns (i: nat)
    requires Mirrors(areas, flat, dataAt, tramp) && f in dataAt
    ensures i < |areas| && dataAt[f] in areas[i].dataFrames && areas[i].dataFrames[dataAt[f]] == f
  {
    assert OpenMirrors(Key);
    assert TrackedBy(areas, f, dataAt[f]);
    i :| 0 <= i < |areas| && dataAt[f] in areas[i].dataFrames && areas[i].dataFrames[dataAt[f]] == f;
  }

  /** An area holds frames for its own pages only. */
  lemma {:induction false} FramesInside(areas: seq<MapArea>, flat: map<nat, nat>, dataAt: map<nat, nat>, tramp: nat, i: nat, v: nat)
    requires Mirrors(areas, flat, dataAt, tramp) && i < |areas| && v in areas[i].dataFrames
    ensures areas[i].Has(v)
  {
    assert OpenMirrors(Key);
    assert AreaOk(areas[i], flat, dataAt);
  }

  /** No page is in two areas. */
  lemma {:induction false} OneArea(areas: seq<MapArea>, flat: map<nat, nat>, dataAt: map<nat, nat>, tramp: nat, i: nat, k: nat, v: nat)
    requires Mirrors(areas, flat, dataAt, tramp) && i < |areas| && k < |areas| && areas[i].Has(v) && areas[k].Has(v)
    ensures i == k
  {
    assert OpenMirrors(Key);
    var rs := Regions(areas);
    assert rs[i].Has(v) && rs[k].Has(v);
  }

  lemma {:induction false} PushKeys(areas: seq<MapArea>, flat0: map<nat, nat>, dataAt: map<nat, nat>, tramp: nat,
                    area: MapArea, flat: map<nat, nat>, lab: map<nat, nat>)
    requires Mirrors(areas, flat0, dataAt, tramp) && Laid(area, flat0, flat, lab)
    requires area.region.lo <= area.region.hi <= VPN_LIMIT && IsPerm(area.region.perm)
    ensures Orderly(Regions(areas + [area])) && Regions(areas + [area]) == Regions(areas) + [area.region]
    ensures flat.Keys == PagesOf(Regions(areas + [area])) + {TRAMPOLINE_VPN}
    ensures flat[TRAMPOLINE_VPN] == LeafPte(tramp, PERM_R + PERM_X)
  {
    assert OpenMirrors(Key);
    assert OpenLaid(Key);
    PushOrder(areas, flat0, area);
  }

  lemma {:induction false} MirrorsPages(areas: seq<MapArea>, flat: map<nat, nat>, dataAt: map<nat, nat>, tramp: nat)
    requires Mirrors(areas, flat, dataAt, tramp)
    ensures Orderly(Regions(areas))
    ensures forall v :: v in flat <==> Mapped(Regions(areas), v)
  {
    assert OpenMirrors(Key);
  }

  /** Inside a mirrored layout the labels of an area's pages are the area's own frames. */
  lemma {:induction false} MirrorsLabelled(areas: seq<MapArea>, flat: map<nat, nat>, dataAt: map<nat, nat>, tramp: nat, k: nat)
    requires Mirrors(areas, flat, dataAt, tramp) && k < |areas|
    ensures LabelledBy(areas[k], dataAt)
    ensures areas[k].region.Pages() <= flat.Keys
    ensures areas[k].region.lo <= areas[k].region.hi <= VPN_LIMIT
  {
    assert areas[k].region.Pages() <= flat.Keys && areas[k].region.lo <= areas[k].region.hi <= VPN_LIMIT && AreaOk(areas[k], flat, dataAt) by {
      assert OpenMirrors(Key);
      assert Regions(areas)[k] == areas[k].region;
      assert AreaOk(areas[k], flat, dataAt);
    }
    forall f | f in dataAt && areas[k].Has(dataAt[f])
      ensures dataAt[f] in areas[k].dataFrames && areas[k].dataFrames[dataAt[f]] == f
    {
      var i := Tracker(areas, flat, dataAt, tramp, f);
      FramesInside(areas, flat, dataAt, tramp, i, dataAt[f]);
      OneArea(areas, flat, dataAt, tramp, i, k, dataAt[f]);
    }
  }

  /** `flat'` and `dataAt'` are `flat` and `dataAt` without the pages of `area`. */
  ghost predicate Without(area: MapArea, flat: map<nat, nat>, flat': map<nat, nat>, dataAt: map<nat, nat>, dataAt': map<nat, nat>)
  {
    && flat'.Keys == flat.Keys - area.region.Pages()
    && (forall v :: v in flat' ==> flat'[v] == flat[v])
    && (forall f :: f in dataAt' <==> f in dataAt && !area.Has(dataAt[f]))
    && (forall f :: f in dataAt' ==> dataAt'[f] == dataAt[f])
  }

  /** The labels of frames that are not behind `area`. */
  ghost function Rest(dataAt: map<nat, nat>, area: MapArea): map<nat, nat>
  {
    map f | f in dataAt && !area.Has(dataAt[f]) :: dataAt[f]
  }

  /** Taking an area whose pages are cleared out of the list leaves the rest in order. */
  lemma {:induction false} RemoveDone(areas: seq<MapArea>, dataAt: map<nat, nat>, tramp: nat, k: nat, b: Before,
                                      flat: map<nat, nat>, owned: set<nat>)
    requires k < |areas| && Mirrors(areas, b.flat, dataAt, tramp) && dataAt.Keys <= b.owned
    requires Cleared(areas[k], areas[k].region.hi, dataAt, b, flat, owned)
    ensures var dataAt' := Rest(dataAt, areas[k]);
            && Mirrors(Removed(areas, k), flat, dataAt', tramp) && Regions(Removed(areas, k)) == Removed(Regions(areas), k)
            && owned == b.owned - (dataAt.Keys - dataAt'.Keys) && dataAt'.Keys <= owned && dataAt'.Keys <= dataAt.Keys
  {
    var dataAt' := Rest(dataAt, areas[k]);
    ClearedWithout(areas[k], dataAt, b, flat, owned, dataAt');
    RemoveMirrors(areas, b.flat, dataAt, tramp, k, flat, dataAt');
    RemoveRegions(areas, k);
  }

  lemma {:induction false} ClearedWithout(area: MapArea, dataAt: map<nat, nat>, b: Before, flat: map<nat, nat>, owned: set<nat>, dataAt': map<nat, nat>)
    requires Cleared(area, area.region.hi, dataAt, b, flat, owned)
    requires dataAt' == Rest(dataAt, area)
    requires dataAt.Keys <= b.owned
    ensures Without(area, b.flat, flat, dataAt, dataAt')
    ensures owned == b.owned - (dataAt.Keys - dataAt'.Keys) && dataAt'.Keys <= owned
  {
  }

  lemma {:induction false} RemoveRegions(areas: seq<MapArea>, k: nat)
    requires k < |areas|
    ensures Regions(Removed(areas, k)) == Removed(Regions(areas), k)
  {
  }

  lemma {:induction false} RemoveLayout(areas: seq<MapArea>, flat: map<nat, nat>, dataAt: map<nat, nat>, tramp: nat, k: nat,
                     flat': map<nat, nat>, dataAt': map<nat, nat>)
    requires Mirrors(areas, flat, dataAt, tramp) && k < |areas| && Without(areas[k], flat, flat', dataAt, dataAt')
    ensures Orderly(Regions(Removed(areas, k)))
    ensures flat'.Keys == PagesOf(Regions(Removed(areas, k))) + {TRAMPOLINE_VPN}
    ensures flat'[TRAMPOLINE_VPN] == LeafPte(tramp, PERM_R + PERM_X)
  {
    assert OpenMirrors(Key);
    var rs := Regions(areas);
    RemoveRegions(areas, k);
    RemoveKeepsOrder(rs, k);
    RemovePages(rs, k);
    assert rs[k] == areas[k].region && !rs[k].Has(TRAMPOLINE_VPN);
  }

  lemma {:induction false} RemoveMirrors(areas: seq<MapArea>, flat: map<nat, nat>, dataAt: map<nat, nat>, tramp: nat, k: nat,
                      flat': map<nat, nat>, dataAt': map<nat, nat>)
    requires Mirrors(areas, flat, dataAt, tramp) && k < |areas| && Without(areas[k], flat, flat', dataAt, dataAt')
    ensures Mirrors(Removed(areas, k), flat', dataAt', tramp)
  {
    var areas' := Removed(areas, k);
    RemoveLayout(areas, flat, dataAt, tramp, k, flat', dataAt');
    forall i | 0 <= i < |areas'| ensures AreaOk(areas'[i], flat', dataAt') {
      RemovedAt(areas, k, i);
      RemoveAreaOk(areas, flat, dataAt, tramp, k, if i < k then i else i + 1, flat', dataAt');
    }
    forall f | f in dataAt' ensures TrackedBy(areas', f, dataAt'[f]) {
      RemoveTracked(areas, flat, dataAt, tramp, k, f);
    }
  }

  lemma {:induction false} RemoveTracked(areas: seq<MapArea>, flat: map<nat, nat>, dataAt: map<nat, nat>, tramp: nat, k: nat, f: nat)
    requires Mirrors(areas, flat, dataAt, tramp) && k < |areas| && f in dataAt && !areas[k].Has(dataAt[f])
    ensures TrackedBy(Removed(areas, k), f, dataAt[f])
  {
    var v := dataAt[f];
    var i := Tracker(areas, flat, dataAt, tramp, f);
    FramesInside(areas, flat, dataAt, tramp, i, v);
    var j := if i < k then i else i - 1;
    RemovedAt(areas, k, j);
    assert v in Removed(areas, k)[j].dataFrames;
  }

  lemma {:induction false} RemoveAreaOk(areas: seq<MapArea>, flat: map<nat, nat>, dataAt: map<nat, nat>, tramp: nat, k: nat, i: nat,
                     flat': map<nat, nat>, dataAt': map<nat, nat>)
    requires Mirrors(areas, flat, dataAt, tramp) && k < |areas| && i < |areas| && i != k
    requires Without(areas[k], flat, flat', dataAt, dataAt')
    ensures AreaOk(areas[i], flat', dataAt')
  {
    assert OpenMirrors(Key);
    var rs := Regions(areas);
    assert rs[i] == areas[i].region && rs[k] == areas[k].region;
    assert AreaOk(areas[i], flat, dataAt);
    forall v | areas[i].Has(v) ensures v in flat' && !areas[k].Has(v) {
      assert rs[i].Has(v);
    }
  }

  /** What a system call comes back with, unless the frames ran out on the way. */
  datatype Reply = Reply(outcome: Outcome) | OutOfMemory {
    predicate Survives() { Reply? && !outcome.Panicked? }
  }

  // ---- the class ---------------------------------------------------------------------

  class MemorySet {
    const pageTable: SV39PageTable
    /** The physical page of the trampoline code, which no frame tracker owns. */
    const trampPpn: nat
    var areas: seq<MapArea>
    var brk: nat
    var heapStart: nat
    /** The page behind which each data frame sits. */
    ghost var dataAt: map<nat, nat>

    ghost function View(): Space
      reads this
    {
      Space(Regions(areas), brk)
    }

    /** Every frame that a tracker of this address space holds. */
    ghost function Frames(): set<nat>
      reads this, pageTable
    {
      pageTable.kind.Keys + dataAt.Keys
    }

    ghost predicate Valid(fa: StackFrameAllocator, ram: PhysMemory)
      reads this, pageTable, fa, ram
    {
      && pageTable.Valid(ram) && Installed(fa, ram)
      && Mirrors(areas, pageTable.flat, dataAt, trampPpn)
      && pageTable.kind.Keys <= fa.owned && dataAt.Keys <= fa.owned
      && dataAt.Keys !! pageTable.kind.Keys
    }

    /** An address space without areas around a page table that maps the trampoline. */
    constructor (pt: SV39PageTable, trampPpn: nat)
      requires pt.flat == map[TRAMPOLINE_VPN := LeafPte(trampPpn, PERM_R + PERM_X)]
      ensures pageTable == pt && this.trampPpn == trampPpn
      ensures areas == [] && dataAt == map[] && brk == 0 && heapStart == 0
      ensures Mirrors(areas, pt.flat, dataAt, trampPpn)
    {
      this.pageTable, this.trampPpn := pt, trampPpn;
      areas, brk, heapStart, dataAt := [], 0, 0, map[];
    }

    /** `push` of an area without data. It succeeds unless a page of the range is already
        mapped or the frames run out. */
    method Push(region: Region, fa: StackFrameAllocator, ram: PhysMemory)
      returns (r: MapResult, ghost lab: map<nat, nat>)
      requires Valid(fa, ram)
      requires region.lo <= region.hi <= VPN_LIMIT && IsPerm(region.perm)
      modifies this`areas, this`dataAt, pageTable, fa, ram
      ensures fa.base == old(fa.base) && fa.end == old(fa.end)
      ensures r.AlreadyMapped? ==> AnyMapped(old(View().regions), region.lo, region.hi)
      ensures r.OutOfFrames? ==> fa.Available() == 0
      ensures r.MapDone? ==>
                && !AnyMapped(old(View().regions), region.lo, region.hi)
                && Valid(fa, ram) && View().regions == old(View().regions) + [region]
                && dataAt == old(dataAt) + lab
                && (forall v :: v in old(pageTable.flat) ==> v in pageTable.flat && pageTable.flat[v] == old(pageTable.flat)[v])
                && Growth(old(ram.pages), ram.pages, old(pageTable.kind), pageTable.kind, old(fa.owned), fa.owned, lab)
    {
      ghost var flat0, kind0, owned0, pages0 := pageTable.flat, pageTable.kind, fa.owned, ram.pages;
      MirrorsPages(areas, flat0, dataAt, trampPpn);
      var area;
      r, area, lab := MapAll(region, pageTable, fa, ram);
      if r.MapDone? {
        GrowthSets(pages0, ram.pages, kind0, pageTable.kind, owned0, fa.owned, lab);
        LaidBounds(area, flat0, pageTable.flat, lab);
        PushMirrors(areas, flat0, dataAt, trampPpn, area, pageTable.flat, lab);
        areas := areas + [area];
        dataAt := dataAt + lab;
        forall v | region.lo <= v < region.hi ensures !Mapped(old(View().regions), v) {
          assert area.Has(v);
        }
      } else if r.AlreadyMapped? {
        ghost var v: nat :| region.Has(v) && v in flat0;
        assert Mapped(old(View().regions), v);
      }
    }

    /** Unmap and drop the area at `k`. */
    method RemoveAt(k: nat, fa: StackFrameAllocator, ram: PhysMemory) returns (ok: bool)
      requires Valid(fa, ram) && k < |areas|
      modifies this`areas, this`dataAt, pageTable, fa, ram
      ensures ok && Valid(fa, ram) && fa.base == old(fa.base) && fa.end == old(fa.end)
      ensures View().regions == Removed(old(View().regions), k)
      ensures pageTable.kind == old(pageTable.kind)
      ensures dataAt == Rest(old(dataAt), old(areas[k])) && dataAt.Keys <= old(dataAt).Keys
      ensures fa.owned == old(fa.owned) - (old(dataAt).Keys - dataAt.Keys)
      ensures OnlyTables(old(ram.pages), ram.pages, pageTable.kind.Keys)
    {
      var area := areas[k];
      ghost var b := Before(pageTable.flat, ram.pages, pageTable.kind, fa.owned);
      MirrorsLabelled(areas, pageTable.flat, dataAt, trampPpn, k);
      ok := UnmapAll(area, dataAt, pageTable, fa, ram);
      RemoveDone(areas, dataAt, trampPpn, k, b, pageTable.flat, fa.owned);
      areas, dataAt := Removed(areas, k), Rest(dataAt, area);
    }

    /** `insert_framed_area`. */
    method InsertFramedArea(startVa: nat, endVa: nat, perm: nat, fa: StackFrameAllocator, ram: PhysMemory)
      returns (r: Reply, ghost lab: map<nat, nat>)
      requires Valid(fa, ram) && endVa <= VA_LIMIT && IsPerm(perm)
      modifies this`areas, this`dataAt, pageTable, fa, ram
      ensures fa.base == old(fa.base) && fa.end == old(fa.end)
      ensures r.OutOfMemory? ==> fa.Available() == 0
      ensures r.Reply? ==> (r.outcome.Panicked? <==> InsertPanics(old(View().regions), startVa, endVa))
      ensures r.Survives() ==>
                && !InsertPanics(old(View().regions), startVa, endVa)
                && Valid(fa, ram) && View().regions == Inserted(old(View().regions), startVa, endVa, perm)
                && dataAt == old(dataAt) + lab
                && Growth(old(ram.pages), ram.pages, old(pageTable.kind), pageTable.kind, old(fa.owned), fa.owned, lab)
    {
      lab := map[];
      var lo, hi := Floor(startVa), Ceil(endVa);
      if lo > hi {
        return Reply(Panicked), map[];
      }
      var m;
      m, lab := Push(Region(lo, hi, Framed, perm), fa, ram);
      match m
      case MapDone => r := Reply(Returned(0));
      case AlreadyMapped => r := Reply(Panicked);
      case OutOfFrames => r := OutOfMemory;
    }

    /** `sys_brk` with `expand_heap`. */
    method SysBrk(addr: nat, fa: StackFrameAllocator, ram: PhysMemory) returns (r: Reply, ghost lab: map<nat, nat>)
      requires Valid(fa, ram)
      modifies this, pageTable, fa, ram
      ensures fa.base == old(fa.base) && fa.end == old(fa.end)
      ensures r.OutOfMemory? ==> fa.Available() == 0
      ensures r.Reply? ==> r.outcome == Brk(old(View()), addr).1
      ensures r.Survives() ==>
                && Valid(fa, ram) && View() == Brk(old(View()), addr).0
                && dataAt == old(dataAt) + lab
                && Growth(old(ram.pages), ram.pages, old(pageTable.kind), pageTable.kind, old(fa.owned), fa.owned, lab)
                && NewAreHeap(old(View()).regions, areas, pageTable.flat)
    {
      lab := map[];
      NoGrowth(ram.pages, pageTable.kind, fa.owned);
      ghost var sp0 := View();
      BrkMapsExactly(sp0, addr);
      if addr == 0 || addr < brk {
        return Reply(Returned(brk)), map[];
      }
      var oldPage, newPage := AlignUp(brk), AlignUp(addr);
      if newPage > oldPage {
        r, lab := InsertFramedArea(VirtAddrFrom(oldPage), VirtAddrFrom(newPage), PERM_R + PERM_W + PERM_U, fa, ram);
        if !r.Survives() {
          return;
        }
      }
      brk := addr;
      r := Reply(Returned(addr));
      HeapEntries(sp0.regions, areas, pageTable.flat, dataAt, trampPpn);
    }

    /** The inner loop that looks for a clash. */
    method ClashesWithArea(startVpn: nat, endVpn: nat) returns (b: bool)
      ensures b <==> AnyClash(Regions(areas), startVpn, endVpn)
    {
      var i := 0;
      while i < |areas|
        invariant 0 <= i <= |areas|
        invariant forall j :: 0 <= j < i ==> !Clashes(Regions(areas)[j], startVpn, endVpn)
      {
        if CheckOverlapping(areas[i].region, startVpn, endVpn).Some? {
          assert Clashes(Regions(areas)[i], startVpn, endVpn);
          return true;
        }
        i := i + 1;
      }
      return false;
    }

    method ConflictAt(addr: nat, rounded: nat) returns (b: bool)
      ensures b <==> Conflict(Regions(areas), addr, rounded)
    {
      b := ClashesWithArea(Floor(VirtAddrFrom(addr)), Ceil(VirtAddrFrom(Wrap(addr + rounded))));
    }

    /** The inner loop that picks the next address to try. */
    method NextCandidate(addr: nat) returns (next: nat)
      requires InRange(Regions(areas))
      ensures next == NextAddr(Regions(areas), addr)
    {
      ghost var rs := Regions(areas);
      next := Wrap(addr + PAGE_SIZE);
      var i := 0;
      assert rs[0..] == rs;
      while i < |areas|
        invariant 0 <= i <= |areas| && next == Wrap(addr + PAGE_SIZE)
        invariant NextAddr(rs, addr) == NextAddr(rs[i..], addr)
      {
        assert rs[i..][0] == areas[i].region && rs[i..][1..] == rs[i + 1..];
        var areaStart, areaEnd := AddrOfVpn(areas[i].region.lo), AddrOfVpn(areas[i].region.hi);
        if areaStart <= addr < areaEnd {
          return areaEnd;
        }
        i := i + 1;
      }
    }

    /** One candidate of the search: does it clash, and which is the next one? */
    method TryAddress(addr: nat, rounded: nat, ghost start: nat, ghost k: nat, ghost j: nat) returns (conflict: bool, next: nat)
      requires InRange(Regions(areas)) && SearchStops(Regions(areas), start, rounded, k)
      requires j <= k && addr == SearchAt(Regions(areas), start, j)
      ensures conflict <==> j < k
      ensures conflict ==> next == SearchAt(Regions(areas), start, j + 1)
    {
      SearchStopsAt(Regions(areas), start, rounded, k, j);
      conflict := ConflictAt(addr, rounded);
      next := addr;
      if conflict {
        next := NextCandidate(addr);
      }
    }

    /** `find_free_area`, called when its search stops after `k` conflicts. */
    method FindFreeArea(len: nat, ghost k: nat) returns (addr: nat)
      requires InRange(Regions(areas)) && SearchStops(Regions(areas), brk, AlignUp(len), k)
      modifies this`brk
      ensures addr == SearchAt(Regions(areas), old(brk), k) && brk == Wrap(addr + AlignUp(len))
    {
      var rounded := AlignUp(len);
      addr := SearchFrom(brk, rounded, k);
      brk := Wrap(addr + rounded);
    }

    /** The loop of `find_free_area`. */
    method SearchFrom(start: nat, rounded: nat, ghost k: nat) returns (addr: nat)
      requires InRange(Regions(areas)) && SearchStops(Regions(areas), start, rounded, k)
      ensures addr == SearchAt(Regions(areas), start, k)
    {
      addr := start;
      ghost var j := 0;
      while true
        invariant 0 <= j <= k && addr == SearchAt(Regions(areas), start, j)
        decreases k - j
      {
        var conflict, next := TryAddress(addr, rounded, start, k, j);
        if !conflict {
          return;
        }
        addr, j := next, j + 1;
      }
    }

    /** `mmap` once the start address is chosen. */
    method MmapFrom(startVa: nat, len: nat, prot: nat, fa: StackFrameAllocator, ram: PhysMemory)
      returns (r: Reply, ghost lab: map<nat, nat>)
      requires Valid(fa, ram) && startVa < VA_LIMIT
      modifies this`areas, this`dataAt, pageTable, fa, ram
      ensures fa.base == old(fa.base) && fa.end == old(fa.end)
      ensures r.OutOfMemory? ==> fa.Available() == 0
      ensures r.Reply? ==> r.outcome == MmapAt(old(View()), startVa, len, prot).1
      ensures r.Survives() ==>
                && Valid(fa, ram) && View() == MmapAt(old(View()), startVa, len, prot).0
                && dataAt == old(dataAt) + lab
                && Growth(old(ram.pages), ram.pages, old(pageTable.kind), pageTable.kind, old(fa.owned), fa.owned, lab)
    {
      lab := map[];
      NoGrowth(ram.pages, pageTable.kind, fa.owned);
      var end := UsizeFromVa(startVa) + len;
      if end >= USIZE_LIMIT {
        return Reply(Failed), map[];
      }
      var endVa := VirtAddrFrom(end);
      var clash := ClashesWithArea(Floor(startVa), Ceil(endVa));
      if clash {
        return Reply(Failed), map[];
      }
      r, lab := InsertFramedArea(startVa, endVa, PermOf(prot), fa, ram);
      if r.Survives() {
        r := Reply(Returned(UsizeFromVa(startVa)));
      }
    }

    /** `mmap` of anonymous memory. With `start == 0` it is called when the search stops. */
    method Mmap(start: nat, len: nat, prot: nat, ghost k: nat, fa: StackFrameAllocator, ram: PhysMemory)
      returns (r: Reply, ghost lab: map<nat, nat>)
      requires Valid(fa, ram) && InRange(Regions(areas))
      requires start == 0 && len > 0 ==> SearchStops(Regions(areas), brk, AlignUp(len), k)
      modifies this, pageTable, fa, ram
      ensures fa.base == old(fa.base) && fa.end == old(fa.end)
      ensures r.OutOfMemory? ==> fa.Available() == 0
      ensures r.Reply? ==> exists sp :: MmapStep(old(View()), start, len, prot, (sp, r.outcome))
      ensures r.Survives() ==>
                && Valid(fa, ram) && MmapStep(old(View()), start, len, prot, (View(), r.outcome))
                && dataAt == old(dataAt) + lab
                && Growth(old(ram.pages), ram.pages, old(pageTable.kind), pageTable.kind, old(fa.owned), fa.owned, lab)
                && NewAreAsked(old(View()).regions, areas, pageTable.flat, prot)
    {
      ghost var sp0 := View();
      lab := map[];
      if len == 0 {
        NoGrowth(ram.pages, pageTable.kind, fa.owned);
        assert MmapStep(sp0, start, len, prot, (sp0, Failed));
        return Reply(Failed), map[];
      }
      var startVa;
      if start == 0 {
        var addr := FindFreeArea(len, k);
        startVa := VirtAddrFrom(addr);
      } else {
        startVa := VirtAddrFrom(start);
        if PageOffset(startVa) != 0 {
          NoGrowth(ram.pages, pageTable.kind, fa.owned);
          assert MmapStep(sp0, start, len, prot, (sp0, Failed));
          return Reply(Failed), map[];
        }
      }
      ghost var sp1 := View();
      r, lab := MmapFrom(startVa, len, prot, fa, ram);
      ghost var t := MmapAt(sp1, startVa, len, prot);
      assert start == 0 ==> MmapSearched(sp0, len, prot, k, t);
      assert MmapStep(sp0, start, len, prot, (t.0, t.1));
      if r.Survives() {
        MmapAddsAsked(sp0, start, len, prot, t);
        MmapEntries(sp0.regions, areas, pageTable.flat, dataAt, trampPpn, prot);
      }
    }

    /** `munmap`: only a whole area can go. None of the assertions below it can fire. */
    method Munmap(start: nat, len: nat, fa: StackFrameAllocator, ram: PhysMemory) returns (out: Outcome)
      requires Valid(fa, ram)
      modifies this`areas, this`dataAt, pageTable, fa, ram
      ensures Valid(fa, ram) && fa.base == old(fa.base) && fa.end == old(fa.end)
      ensures (View(), out) == AddressSpace.Munmap(old(View()), start, len)
      ensures pageTable.kind == old(pageTable.kind) && dataAt.Keys <= old(dataAt).Keys
      ensures fa.owned == old(fa.owned) - (old(dataAt).Keys - dataAt.Keys)
      ensures OnlyTables(old(ram.pages), ram.pages, pageTable.kind.Keys)
    {
      if len == 0 || PageOffset(VirtAddrFrom(start)) != 0 || start + len >= USIZE_LIMIT {
        return Failed;
      }
      var startVpn, endVpn := Floor(VirtAddrFrom(start)), Ceil(VirtAddrFrom(start + len));
      if endVpn <= startVpn {
        return Failed;
      }
      var idx := FindExactArea(startVpn, endVpn);
      if idx.None? {
        return Failed;
      }
      var ok := RemoveAt(idx.value, fa, ram);
      return Returned(0);
    }

    /** The loop that looks for an exactly matching area. */
    method FindExactArea(lo: nat, hi: nat) returns (idx: Option<nat>)
      ensures idx == FindExact(Regions(areas), lo, hi)
    {
      ghost var rs := Regions(areas);
      var i := 0;
      while i < |areas|
        invariant 0 <= i <= |areas| && forall j :: 0 <= j < i ==> !(rs[j].lo == lo && rs[j].hi == hi)
      {
        if areas[i].region.lo == lo && areas[i].region.hi == hi {
          FirstExact(rs, lo, hi, i);
          return Some(i);
        }
        i := i + 1;
      }
      return None;
    }

    /** `remove_area_with_start_vpn`: drop the first area that starts there, if any. */
    method RemoveAreaWithStartVpn(startVpn: nat, fa: StackFrameAllocator, ram: PhysMemory)
      requires Valid(fa, ram)
      modifies this`areas, this`dataAt, pageTable, fa, ram
      ensures Valid(fa, ram) && fa.base == old(fa.base) && fa.end == old(fa.end)
      ensures (forall i :: 0 <= i < |old(areas)| ==> old(areas)[i].region.lo != startVpn) ==> View() == old(View())
      ensures forall i :: && 0 <= i < |old(areas)| && old(areas)[i].region.lo == startVpn
                          && (forall j :: 0 <= j < i ==> old(areas)[j].region.lo != startVpn) ==>
                            View().regions == Removed(old(View().regions), i)
      ensures pageTable.kind == old(pageTable.kind)
      ensures fa.owned == old(fa.owned) - (old(dataAt).Keys - dataAt.Keys)
      ensures OnlyTables(old(ram.pages), ram.pages, pageTable.kind.Keys)
    {
      var i := 0;
      while i < |areas|
        invariant 0 <= i <= |areas|
        invariant forall j :: 0 <= j < i ==> areas[j].region.lo != startVpn
      {
        if areas[i].region.lo == startVpn {
          var ok := RemoveAt(i, fa, ram);
          return;
        }
        i := i + 1;
      }
    }
  }

  /** `new_bare` and `map_trampoline`: a fresh address space, or nothing when frames ran out. */
  method NewSpace(trampPpn: nat, fa: StackFrameAllocator, ram: PhysMemory) returns (r: Option<MemorySet>)
    requires Installed(fa, ram) && trampPpn < PPN_LIMIT
    modifies fa, ram
    ensures fa.base == old(fa.base) && fa.end == old(fa.end)
    ensures r.None? ==> fa.Available() == 0
    ensures r.Some? ==>
              var ms := r.value;
              && fresh(ms) && fresh(ms.pageTable) && ms.Valid(fa, ram)
              && ms.View() == Space([], 0) && ms.heapStart == 0 && ms.trampPpn == trampPpn
              && ms.pageTable.flat.Keys == {TRAMPOLINE_VPN} && PtePpn(ms.pageTable.flat[TRAMPOLINE_VPN]) == trampPpn
              && PteFlags(ms.pageTable.flat[TRAMPOLINE_VPN]) == 11 // V, R and X; not W, and not for the user
              && fa.owned == old(fa.owned) + ms.Frames() && ms.Frames() !! old(fa.owned)
              && Undisturbed(old(ram.pages), ram.pages, ms.Frames(), old(fa.owned))
              && ram.pages.Keys == old(ram.pages).Keys
  {
    LeafPteDecodes(trampPpn, PERM_R + PERM_X);
    var frame := FrameAlloc(fa, ram);
    if frame.None? {
      return None;
    }
    var pt := new SV39PageTable(ram, frame.value);
    ghost var pages1, owned1 := ram.pages, fa.owned;
    var m := pt.Map(TRAMPOLINE_VPN, trampPpn, PERM_R + PERM_X, fa, ram);
    if !m.MapDone? {
      return None;
    }
    GrewFromRoot(old(ram.pages), ram.pages, frame.value, pt.kind, old(fa.owned), fa.owned);
    var ms := new MemorySet(pt, trampPpn);
    return Some(ms);
  }

  lemma {:induction false} GrewFromRoot(pages0: Pages, pages2: Pages, f: nat, kind: map<nat, Path>, owned0: set<nat>, owned2: set<nat>)
    requires f !in owned0 && f in pages0
    requires Grew(pages0[f := ZeroPage()], pages2, map[f := Root], kind, owned0 + {f}, owned2)
    ensures owned2 == owned0 + kind.Keys && kind.Keys !! owned0 && pages2.Keys == pages0.Keys
    ensures Undisturbed(pages0, pages2, kind.Keys, owned0)
  {
    forall x ensures x in owned2 <==> x in owned0 + kind.Keys {
      assert x in owned2 - (owned0 + {f}) <==> x in kind.Keys - {f};
    }
    forall x | x in kind.Keys ensures x !in owned0 {
      assert x in kind.Keys - {f} ==> x in owned2 - (owned0 + {f});
    }
  }
}
