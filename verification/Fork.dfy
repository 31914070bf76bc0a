/** Copying a user address space (`MemorySet::from_existed_user`, os/src/mm/memory_set.rs). */
module Fork {
  import opened Addresses
  import opened Frames
  import opened Sv39
  import opened AddressSpace
  import opened MemorySet
  import opened Closed

  /** A user address space: every area is framed. */
  ghost predicate AllFramed(rs: seq<Region>)
  {
    forall i :: 0 <= i < |rs| ==> rs[i].mapType.Framed?
  }

  ghost predicate Bounded(dataAt: map<nat, nat>) { forall f :: f in dataAt ==> f < PPN_LIMIT }

  /** The frame behind a user page, and its label. */
  lemma {:induction false} FrameBehind(areas: seq<MapArea>, flat: map<nat, nat>, dataAt: map<nat, nat>, tramp: nat, v: nat)
    requires Mirrors(areas, flat, dataAt, tramp) && AllFramed(Regions(areas)) && Bounded(dataAt)
    requires v in PagesOf(Regions(areas))
    ensures v in flat && PtePpn(flat[v]) in dataAt && dataAt[PtePpn(flat[v])] == v
  {
    assert OpenMirrors(Key);
    var rs := Regions(areas);
    PagesOfMember(rs, v);
    var i :| 0 <= i < |rs| && rs[i].Has(v);
    var a := areas[i];
    assert AreaOk(a, flat, dataAt) && a.Has(v) && v in a.region.Pages();
    LeafPteDecodes(a.dataFrames[v], a.region.perm);
  }

  /** The page contents that two translations give are the same on `vs`. */
  ghost predicate Same(vs: set<nat>, flatP: map<nat, nat>, flatC: map<nat, nat>, pages: Pages)
  {
    forall v :: v in vs ==>
                  && v in flatP && v in flatC && PtePpn(flatP[v]) in pages && PtePpn(flatC[v]) in pages
                  && pages[PtePpn(flatC[v])] == pages[PtePpn(flatP[v])]
  }

  /** Each page of `vs` has its own frame in `own`. */
  ghost predicate Behind(vs: set<nat>, flat: map<nat, nat>, own: map<nat, nat>)
  {
    forall v :: v in vs ==> v in flat && PtePpn(flat[v]) in own && own[PtePpn(flat[v])] == v
  }

  lemma {:induction false} CopyOne(vs: set<nat>, flatP: map<nat, nat>, flatC: map<nat, nat>, ownP: map<nat, nat>, ownC: map<nat, nat>,
                pages: Pages, v: nat)
    requires Same(vs, flatP, flatC, pages) && Behind(vs + {v}, flatP, ownP) && Behind(vs + {v}, flatC, ownC)
    requires ownP.Keys !! ownC.Keys && PtePpn(flatP[v]) in pages && PtePpn(flatC[v]) in pages
    ensures Same(vs + {v}, flatP, flatC, pages[PtePpn(flatC[v]) := pages[PtePpn(flatP[v])]])
  {
  }

  lemma {:induction false} SameAfterGrowth(vs: set<nat>, flatP: map<nat, nat>, flatC: map<nat, nat>, flatC': map<nat, nat>,
                        ownP: map<nat, nat>, ownC: map<nat, nat>, pages: Pages, pages': Pages,
                        kind: map<nat, Path>, kind': map<nat, Path>, owned: set<nat>, owned': set<nat>, lab: map<nat, nat>)
    requires Same(vs, flatP, flatC, pages) && Behind(vs, flatP, ownP) && Behind(vs, flatC, ownC)
    requires Growth(pages, pages', kind, kind', owned, owned', lab)
    requires ownP.Keys <= owned && ownC.Keys <= owned && ownP.Keys !! kind.Keys && ownC.Keys !! kind.Keys
    requires forall v :: v in flatC ==> v in flatC' && flatC'[v] == flatC[v]
    ensures Same(vs, flatP, flatC', pages')
  {
    assert OpenGrowth(Key);
    forall f | f in owned && f in pages && (f in ownP || f in ownC) ensures f in pages' && pages'[f] == pages[f] {
      assert f !in kind' by { assert f !in kind'.Keys - kind.Keys; }
    }
  }

  lemma {:induction false} AllBehind(areas: seq<MapArea>, flat: map<nat, nat>, dataAt: map<nat, nat>, tramp: nat, owned: set<nat>,
                  base: nat, current: nat, end: nat, recycled: seq<nat>)
    requires Mirrors(areas, flat, dataAt, tramp) && AllFramed(Regions(areas)) && dataAt.Keys <= owned
    requires AllocatorOk(base, current, end, recycled, owned)
    ensures Behind(PagesOf(Regions(areas)), flat, dataAt)
  {
    assert Bounded(dataAt) by {
      forall f | f in dataAt ensures f < PPN_LIMIT {
        assert f in owned;
      }
    }
    forall v | v in PagesOf(Regions(areas)) ensures v in flat && PtePpn(flat[v]) in dataAt && dataAt[PtePpn(flat[v])] == v {
      FrameBehind(areas, flat, dataAt, tramp, v);
    }
  }

  /** Two user address spaces without a common frame. */
  ghost predicate Separate(a: MemorySet, b: MemorySet, fa: StackFrameAllocator, ram: PhysMemory)
    reads a, a.pageTable, b, b.pageTable, fa, ram
  {
    && a != b && a.pageTable != b.pageTable
    && a.Valid(fa, ram) && b.Valid(fa, ram)
    && AllFramed(Regions(a.areas)) && AllFramed(Regions(b.areas))
    && a.Frames() !! b.Frames()
  }

  /** A frame that is only data behind `b` can be overwritten without harm to either. */
  lemma {:induction false} DataWriteHarmless(pages: Pages, pages': Pages, root: nat, frames: seq<nat>, kind: map<nat, Path>, flat: map<nat, nat>, f: nat, page: Page)
    requires TableOk(pages, root, frames, kind, flat) && f !in kind && f in pages
    requires pages' == pages[f := page]
    ensures TableOk(pages', root, frames, kind, flat)
  {
    TableFrame(pages, pages', root, frames, kind, flat);
  }

  /** Copy one page of `parent` to the same page of `child`. */
  method CopyPage(parent: MemorySet, child: MemorySet, v: nat, fa: StackFrameAllocator, ram: PhysMemory)
    requires Separate(parent, child, fa, ram)
    requires v in PagesOf(Regions(parent.areas)) && v in PagesOf(Regions(child.areas))
    modifies ram
    ensures Separate(parent, child, fa, ram)
    ensures v in parent.pageTable.flat && v in child.pageTable.flat
    ensures var src, dst := PtePpn(parent.pageTable.flat[v]), PtePpn(child.pageTable.flat[v]);
            && src in parent.dataAt && dst in child.dataAt && src in old(ram.pages) && dst in old(ram.pages)
            && ram.pages == old(ram.pages)[dst := old(ram.pages)[src]]
  {
    AllBehind(parent.areas, parent.pageTable.flat, parent.dataAt, parent.trampPpn, fa.owned, fa.base, fa.current, fa.end, fa.recycled);
    AllBehind(child.areas, child.pageTable.flat, child.dataAt, child.trampPpn, fa.owned, fa.base, fa.current, fa.end, fa.recycled);
    TablePages(ram.pages, parent.pageTable.rootPpn, parent.pageTable.frames, parent.pageTable.kind, parent.pageTable.flat);
    var srcPte := parent.pageTable.Translate(v, ram);
    var dstPte := child.pageTable.Translate(v, ram);
    var src, dst := PtePpn(srcPte.value), PtePpn(dstPte.value);
    assert src in fa.owned && dst in fa.owned;
    ghost var pages0 := ram.pages;
    ram.pages := ram.pages[dst := ram.pages[src]];
    DataWriteHarmless(pages0, ram.pages, parent.pageTable.rootPpn, parent.pageTable.frames, parent.pageTable.kind, parent.pageTable.flat, dst, pages0[src]);
    DataWriteHarmless(pages0, ram.pages, child.pageTable.rootPpn, child.pageTable.frames, child.pageTable.kind, child.pageTable.flat, dst, pages0[src]);
  }

  /** Only data frames of `child` may have changed. */
  ghost predicate OnlyData(pages: Pages, pages': Pages, data: set<nat>)
  {
    pages'.Keys == pages.Keys && forall p :: p in pages && p !in data ==> pages'[p] == pages[p]
  }

  /** One turn of the copying loop; `vs` are the pages copied before. */
  method CopyNext(parent: MemorySet, child: MemorySet, v: nat, ghost vs: set<nat>, fa: StackFrameAllocator, ram: PhysMemory)
    requires Separate(parent, child, fa, ram)
    requires vs + {v} <= PagesOf(Regions(parent.areas)) && vs + {v} <= PagesOf(Regions(child.areas))
    requires Same(vs, parent.pageTable.flat, child.pageTable.flat, ram.pages)
    modifies ram
    ensures Separate(parent, child, fa, ram)
    ensures Same(vs + {v}, parent.pageTable.flat, child.pageTable.flat, ram.pages)
    ensures OnlyData(old(ram.pages), ram.pages, child.dataAt.Keys)
  {
    AllBehind(parent.areas, parent.pageTable.flat, parent.dataAt, parent.trampPpn, fa.owned, fa.base, fa.current, fa.end, fa.recycled);
    AllBehind(child.areas, child.pageTable.flat, child.dataAt, child.trampPpn, fa.owned, fa.base, fa.current, fa.end, fa.recycled);
    BehindSubset(vs + {v}, PagesOf(Regions(parent.areas)), parent.pageTable.flat, parent.dataAt);
    BehindSubset(vs + {v}, PagesOf(Regions(child.areas)), child.pageTable.flat, child.dataAt);
    assert v in vs + {v};
    CopyPage(parent, child, v, fa, ram);
    CopyOne(vs, parent.pageTable.flat, child.pageTable.flat, parent.dataAt, child.dataAt, old(ram.pages), v);
  }

  /** The copying loop over one area; `done` are the pages copied before. */
  method CopyArea(parent: MemorySet, child: MemorySet, r: Region, ghost done: set<nat>, fa: StackFrameAllocator, ram: PhysMemory)
    requires Separate(parent, child, fa, ram) && r.lo <= r.hi
    requires done + r.Pages() <= PagesOf(Regions(parent.areas)) && done + r.Pages() <= PagesOf(Regions(child.areas))
    requires Same(done, parent.pageTable.flat, child.pageTable.flat, ram.pages)
    modifies ram
    ensures Separate(parent, child, fa, ram)
    ensures Same(done + r.Pages(), parent.pageTable.flat, child.pageTable.flat, ram.pages)
    ensures OnlyData(old(ram.pages), ram.pages, child.dataAt.Keys)
  {
    var v := r.lo;
    ghost var vs := done;
    assert DonePages(done, r, v) == done;
    while v != r.hi
      invariant r.lo <= v <= r.hi && vs == DonePages(done, r, v)
      invariant Separate(parent, child, fa, ram)
      invariant Same(vs, parent.pageTable.flat, child.pageTable.flat, ram.pages)
      invariant OnlyData(old(ram.pages), ram.pages, child.dataAt.Keys)
    {
      DoneStep(done, r, v);
      assert vs + {v} == DonePages(done, r, v + 1);
      CopyNext(parent, child, v, vs, fa, ram);
      v, vs := v + 1, vs + {v};
    }
    assert r.(hi := v) == r;
  }

  /** `done` and the pages of `r` below `v`. */
  ghost function DonePages(done: set<nat>, r: Region, v: nat): set<nat> { done + r.(hi := v).Pages() }

  lemma {:induction false} DoneStep(done: set<nat>, r: Region, v: nat)
    requires r.lo <= v < r.hi
    ensures DonePages(done, r, v + 1) == DonePages(done, r, v) + {v} <= done + r.Pages()
  {
  }

  lemma {:induction false} BehindSubset(vs: set<nat>, ws: set<nat>, flat: map<nat, nat>, own: map<nat, nat>)
    requires Behind(ws, flat, own) && vs <= ws
    ensures Behind(vs, flat, own)
  {
  }

  /** A range of an orderly layout is free in the layout before it. */
  lemma {:induction false} PrefixIsFree(rs: seq<Region>, n: nat)
    requires Orderly(rs) && n < |rs|
    ensures !AnyMapped(rs[..n], rs[n].lo, rs[n].hi)
  {
    forall v | rs[n].lo <= v < rs[n].hi ensures !Mapped(rs[..n], v) {
      assert rs[n].Has(v);
      PagesOfMember(rs[..n], v);
      forall i | 0 <= i < n ensures !rs[..n][i].Has(v) {
        assert rs[..n][i] == rs[i];
      }
    }
  }

  /** What held when the copy began. */
  datatype Start = Start(pages: Pages, owned: set<nat>)

  /** The first `n` areas have been copied since `b`. */
  ghost predicate Copied(parent: MemorySet, child: MemorySet, n: nat, b: Start, fa: StackFrameAllocator, ram: PhysMemory)
    requires n <= |parent.areas|
    reads parent, parent.pageTable, child, child.pageTable, fa, ram
  {
    && Separate(parent, child, fa, ram)
    && Regions(child.areas) == Regions(parent.areas)[..n]
    && Same(PagesOf(Regions(parent.areas)[..n]), parent.pageTable.flat, child.pageTable.flat, ram.pages)
    && fa.owned == b.owned + child.Frames() && child.Frames() !! b.owned
    && parent.Frames() <= b.owned
    && ram.pages.Keys == b.pages.Keys && Undisturbed(b.pages, ram.pages, child.Frames(), b.owned)
  }

  /** Map one more area in the child; its range is free there. */
  method PushCopy(parent: MemorySet, child: MemorySet, n: nat, ghost b: Start, fa: StackFrameAllocator, ram: PhysMemory)
    returns (ok: bool)
    requires n < |parent.areas| && Copied(parent, child, n, b, fa, ram)
    modifies child`areas, child`dataAt, child.pageTable, fa, ram
    ensures fa.base == old(fa.base) && fa.end == old(fa.end)
    ensures !ok ==> fa.Available() == 0
    ensures ok ==>
              && Separate(parent, child, fa, ram)
              && Regions(child.areas) == Regions(parent.areas)[..n + 1]
              && Same(PagesOf(Regions(parent.areas)[..n]), parent.pageTable.flat, child.pageTable.flat, ram.pages)
              && fa.owned == b.owned + child.Frames() && child.Frames() !! b.owned
              && ram.pages.Keys == b.pages.Keys && Undisturbed(b.pages, ram.pages, child.Frames(), b.owned)
  {
    ghost var rs := Regions(parent.areas);
    ghost var pages1, kind1, owned1, flat1, data1 := ram.pages, child.pageTable.kind, fa.owned, child.pageTable.flat, child.dataAt;
    AllBehind(parent.areas, parent.pageTable.flat, parent.dataAt, parent.trampPpn, fa.owned, fa.base, fa.current, fa.end, fa.recycled);
    AllBehind(child.areas, child.pageTable.flat, child.dataAt, child.trampPpn, fa.owned, fa.base, fa.current, fa.end, fa.recycled);
    MirrorsPages(parent.areas, parent.pageTable.flat, parent.dataAt, parent.trampPpn);
    PrefixIsFree(rs, n);
    PrefixPages(rs, n);
    BehindSubset(PagesOf(rs[..n]), PagesOf(rs), parent.pageTable.flat, parent.dataAt);
    assert rs[..n] + [rs[n]] == rs[..n + 1];
    var r;
    ghost var lab;
    r, lab := child.Push(parent.areas[n].region, fa, ram);
    ok := r.MapDone?;
    if ok {
      assert pages1.Keys == b.pages.Keys;
      PushedBeside(parent, child, PagesOf(rs[..n]), b, Snap(pages1, kind1, owned1, flat1, data1), lab, fa, ram);
    }
  }

  /** The child before an area was pushed. */
  datatype Snap = Snap(pages: Pages, kind: map<nat, Path>, owned: set<nat>, flat: map<nat, nat>, data: map<nat, nat>)

  /** Pushing an area in the child leaves the parent and what was copied as they were. */
  lemma {:induction false} PushedBeside(parent: MemorySet, child: MemorySet, ws: set<nat>, b: Start, c: Snap, lab: map<nat, nat>,
                                        fa: StackFrameAllocator, ram: PhysMemory)
    requires child.Valid(fa, ram) && child.dataAt == c.data + lab
    requires forall v :: v in c.flat ==> v in child.pageTable.flat && child.pageTable.flat[v] == c.flat[v]
    requires Growth(c.pages, ram.pages, c.kind, child.pageTable.kind, c.owned, fa.owned, lab)
    requires c.owned == b.owned + (c.kind.Keys + c.data.Keys) && (c.kind.Keys + c.data.Keys) !! b.owned
    requires c.data.Keys !! c.kind.Keys && c.pages.Keys == b.pages.Keys && Undisturbed(b.pages, c.pages, c.kind.Keys + c.data.Keys, b.owned)
    requires TableOk(c.pages, parent.pageTable.rootPpn, parent.pageTable.frames, parent.pageTable.kind, parent.pageTable.flat)
    requires Mirrors(parent.areas, parent.pageTable.flat, parent.dataAt, parent.trampPpn)
    requires parent.Frames() <= b.owned && parent.dataAt.Keys !! parent.pageTable.kind.Keys
    requires Same(ws, parent.pageTable.flat, c.flat, c.pages) && Behind(ws, parent.pageTable.flat, parent.dataAt) && Behind(ws, c.flat, c.data)
    ensures parent.Valid(fa, ram) && parent.Frames() !! child.Frames()
    ensures Same(ws, parent.pageTable.flat, child.pageTable.flat, ram.pages)
    ensures fa.owned == b.owned + child.Frames() && child.Frames() !! b.owned
    ensures ram.pages.Keys == b.pages.Keys && Undisturbed(b.pages, ram.pages, child.Frames(), b.owned)
  {
    var pt := parent.pageTable;
    GrowthBeside(b.pages, c.pages, ram.pages, c.kind, child.pageTable.kind, b.owned, c.owned, fa.owned, c.data, lab);
    TableFrame(c.pages, ram.pages, pt.rootPpn, pt.frames, pt.kind, pt.flat);
    assert parent.dataAt.Keys !! c.kind.Keys;
    SameAfterGrowth(ws, pt.flat, c.flat, child.pageTable.flat, parent.dataAt, c.data, c.pages, ram.pages,
                    c.kind, child.pageTable.kind, c.owned, fa.owned, lab);
  }

  lemma {:induction false} PrefixPages(rs: seq<Region>, n: nat)
    requires n < |rs|
    ensures PagesOf(rs[..n + 1]) == PagesOf(rs[..n]) + rs[n].Pages()
    ensures PagesOf(rs[..n + 1]) <= PagesOf(rs)
  {
    assert rs[..n + 1][..n] == rs[..n];
    forall v | v in PagesOf(rs[..n + 1]) ensures v in PagesOf(rs) {
      PagesOfMember(rs[..n + 1], v);
      var i :| 0 <= i < n + 1 && rs[..n + 1][i].Has(v);
      assert rs[i].Has(v);
      PagesOfMember(rs, v);
    }
  }

  /** Growth of the child leaves what was owned at the start alone. */
  lemma {:induction false} GrowthBeside(pages0: Pages, pages1: Pages, pages2: Pages, kind1: map<nat, Path>, kind2: map<nat, Path>,
                     owned0: set<nat>, owned1: set<nat>, owned2: set<nat>, data1: map<nat, nat>, lab: map<nat, nat>)
    requires Growth(pages1, pages2, kind1, kind2, owned1, owned2, lab)
    requires owned1 == owned0 + (kind1.Keys + data1.Keys) && (kind1.Keys + data1.Keys) !! owned0
    requires pages1.Keys == pages0.Keys && Undisturbed(pages0, pages1, kind1.Keys + data1.Keys, owned0)
    ensures owned2 == owned0 + (kind2.Keys + (data1 + lab).Keys) && (kind2.Keys + (data1 + lab).Keys) !! owned0
    ensures pages2.Keys == pages0.Keys && Undisturbed(pages0, pages2, kind2.Keys + (data1 + lab).Keys, owned0)
    ensures forall p :: p in owned0 && p in pages1 ==> p in pages2 && pages2[p] == pages1[p]
  {
    assert OpenGrowth(Key);
    forall x ensures x in owned2 <==> x in owned0 + (kind2.Keys + (data1 + lab).Keys) {
      assert x in owned2 <==> x in owned1 || x in kind2.Keys - kind1.Keys || x in lab;
    }
    forall x | x in owned0 ensures x !in kind2 && x !in lab {
      assert x in owned1;
      assert x !in kind2.Keys - kind1.Keys;
    }
  }

  /** One turn of the loop over the areas. */
  method ForkArea(parent: MemorySet, child: MemorySet, n: nat, ghost b: Start, fa: StackFrameAllocator, ram: PhysMemory)
    returns (ok: bool)
    requires n < |parent.areas| && Copied(parent, child, n, b, fa, ram)
    modifies child`areas, child`dataAt, child.pageTable, fa, ram
    ensures fa.base == old(fa.base) && fa.end == old(fa.end)
    ensures !ok ==> fa.Available() == 0
    ensures ok ==> Copied(parent, child, n + 1, b, fa, ram)
  {
    ok := PushCopy(parent, child, n, b, fa, ram);
    if !ok {
      return;
    }
    ghost var rs := Regions(parent.areas);
    PrefixPages(rs, n);
    MirrorsPages(parent.areas, parent.pageTable.flat, parent.dataAt, parent.trampPpn);
    ghost var pages1 := ram.pages;
    CopyArea(parent, child, parent.areas[n].region, PagesOf(rs[..n]), fa, ram);
    OnlyDataBeside(b.pages, pages1, ram.pages, child.Frames(), child.dataAt.Keys, b.owned);
  }

  lemma {:induction false} OnlyDataBeside(pages0: Pages, pages1: Pages, pages2: Pages, mine: set<nat>, data: set<nat>, owned: set<nat>)
    requires OnlyData(pages1, pages2, data) && data <= mine && Undisturbed(pages0, pages1, mine, owned)
    ensures Undisturbed(pages0, pages2, mine, owned)
  {
  }

  /** A bare address space to copy into. */
  method BeginCopy(parent: MemorySet, fa: StackFrameAllocator, ram: PhysMemory) returns (r: Option<MemorySet>)
    requires parent.Valid(fa, ram) && AllFramed(Regions(parent.areas)) && parent.trampPpn < PPN_LIMIT
    modifies fa, ram
    ensures fa.base == old(fa.base) && fa.end == old(fa.end)
    ensures r.None? ==> fa.Available() == 0
    ensures r.Some? ==> fresh(r.value) && fresh(r.value.pageTable) && r.value.brk == 0 && r.value.heapStart == 0
    ensures r.Some? ==> r.value.trampPpn == parent.trampPpn
    ensures r.Some? ==> Copied(parent, r.value, 0, old(Start(ram.pages, fa.owned)), fa, ram)
  {
    ghost var pages0 := ram.pages;
    r := NewSpace(parent.trampPpn, fa, ram);
    if r.Some? {
      TablePages(pages0, parent.pageTable.rootPpn, parent.pageTable.frames, parent.pageTable.kind, parent.pageTable.flat);
      TableFrame(pages0, ram.pages, parent.pageTable.rootPpn, parent.pageTable.frames, parent.pageTable.kind, parent.pageTable.flat);
      assert Regions(parent.areas)[..0] == [] == Regions(r.value.areas);
    }
  }

  /** `from_existed_user`: the copy has the same areas, the same bytes on every page and no
      frame in common with anything owned before; nothing owned before is changed. */
  method FromExistedUser(parent: MemorySet, fa: StackFrameAllocator, ram: PhysMemory) returns (r: Option<MemorySet>)
    requires parent.Valid(fa, ram) && AllFramed(Regions(parent.areas)) && parent.trampPpn < PPN_LIMIT
    modifies fa, ram
    ensures fa.base == old(fa.base) && fa.end == old(fa.end)
    ensures r.None? ==> fa.Available() == 0
    ensures r.Some? ==> fresh(r.value) && fresh(r.value.pageTable)
    ensures r.Some? ==> Copied(parent, r.value, |parent.areas|, old(Start(ram.pages, fa.owned)), fa, ram)
    ensures r.Some? ==> r.value.brk == 0 && r.value.heapStart == 0 && r.value.trampPpn == parent.trampPpn
  {
    ghost var b := Start(ram.pages, fa.owned);
    var bare := BeginCopy(parent, fa, ram);
    if bare.None? {
      return None;
    }
    var child := bare.value;
    var n := 0;
    while n < |parent.areas|
      invariant 0 <= n <= |parent.areas| && Copied(parent, child, n, b, fa, ram)
      invariant fa.base == old(fa.base) && fa.end == old(fa.end)
      invariant child.brk == 0 && child.heapStart == 0
    {
      var ok := ForkArea(parent, child, n, b, fa, ram);
      if !ok {
        return None;
      }
      n := n + 1;
    }
    return Some(child);
  }

  /** The address space of a new process: a copy with the parent's break. */
  method CloneSpace(parent: MemorySet, fa: StackFrameAllocator, ram: PhysMemory) returns (r: Option<MemorySet>)
    requires parent.Valid(fa, ram) && AllFramed(Regions(parent.areas)) && parent.trampPpn < PPN_LIMIT
    modifies fa, ram
    ensures fa.base == old(fa.base) && fa.end == old(fa.end)
    ensures r.None? ==> fa.Available() == 0
    ensures r.Some? ==> fresh(r.value) && fresh(r.value.pageTable) && r.value.trampPpn == parent.trampPpn
    ensures r.Some? ==> Copied(parent, r.value, |parent.areas|, old(Start(ram.pages, fa.owned)), fa, ram)
    ensures r.Some? ==> r.value.View() == parent.View() && r.value.heapStart == parent.heapStart
    ensures r.Some? ==> Same(PagesOf(Regions(parent.areas)), parent.pageTable.flat, r.value.pageTable.flat, ram.pages)
  {
    r := FromExistedUser(parent, fa, ram);
    if r.Some? {
      var child := r.value;
      child.heapStart, child.brk := parent.heapStart, parent.brk;
      assert Regions(parent.areas)[..|parent.areas|] == Regions(parent.areas);
    }
  }
}
