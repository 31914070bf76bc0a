/** Several address spaces over one frame allocator: who owns which frame
(os/src/mm/frame_allocator.rs, os/src/mm/memory_set.rs, os/src/task/mod.rs). */
module Machine {
  import opened Addresses
  import opened Frames
  import opened Sv39
  import opened AddressSpace
  import opened MemorySet
  import opened Fork
  import opened BufferLoop
  import opened PageBytes
  import opened UserCopy
  import opened Closed

  /** The holder of a frame: a live address space, the page table of a process that has exited
      but has not been reaped, or the kernel itself. */
  datatype Owner = Live(space: MemorySet) | Dead(table: SV39PageTable) | Kernel

  lemma {:induction false} StillValid(m: MemorySet, pages0: Pages, fa: StackFrameAllocator, ram: PhysMemory)
    requires TableOk(pages0, m.pageTable.rootPpn, m.pageTable.frames, m.pageTable.kind, m.pageTable.flat)
    requires Mirrors(m.areas, m.pageTable.flat, m.dataAt, m.trampPpn)
    requires m.pageTable.kind.Keys <= fa.owned && m.dataAt.Keys <= fa.owned && m.dataAt.Keys !! m.pageTable.kind.Keys
    requires Installed(fa, ram)
    requires forall p :: p in m.pageTable.kind && p in pages0 ==> p in ram.pages && ram.pages[p] == pages0[p]
    ensures m.Valid(fa, ram)
  {
    TableFrame(pages0, ram.pages, m.pageTable.rootPpn, m.pageTable.frames, m.pageTable.kind, m.pageTable.flat);
  }

  lemma {:induction false} StepFramed(sp: Space, call: Call, r: (Space, Outcome))
    requires AllFramed(sp.regions) && InRange(sp.regions) && Step(sp, call, r)
    ensures AllFramed(r.0.regions)
  {
  }

  /** `fs` is what `own` says that `who` holds. */
  ghost predicate HeldBy(fs: set<nat>, own: map<nat, Owner>, who: Owner)
  {
    forall f :: f in fs <==> f in own && own[f] == who
  }

  /** A zombie's page table still lists its frames. */
  ghost predicate Listed(t: SV39PageTable)
    reads t
  {
    NoDup(t.frames) && forall f :: f in t.frames <==> f in t.kind
  }

  /** `n` was in order when memory was `pages0`, and holds what `own0` says. */
  ghost predicate Stable(n: MemorySet, pages0: Pages, own0: map<nat, Owner>)
    reads n, n.pageTable
  {
    && TableOk(pages0, n.pageTable.rootPpn, n.pageTable.frames, n.pageTable.kind, n.pageTable.flat)
    && Mirrors(n.areas, n.pageTable.flat, n.dataAt, n.trampPpn)
    && n.dataAt.Keys !! n.pageTable.kind.Keys
    && AllFramed(Regions(n.areas)) && n.trampPpn < PPN_LIMIT
    && HeldBy(n.Frames(), own0, Live(n))
  }

  /** The spaces `rest` and the zombies `dead` were in order when memory was `pages0` and the
      owners were `own0`. */
  ghost predicate Others(rest: set<MemorySet>, dead: set<SV39PageTable>, kernel: set<nat>, pages0: Pages, own0: map<nat, Owner>)
    reads rest, set n | n in rest :: n.pageTable, dead
  {
    forall k: Key :: OpenOthers(k) ==> OthersFacts(rest, dead, kernel, pages0, own0)
  }

  predicate OpenOthers(k: Key) { true }

  ghost predicate OthersFacts(rest: set<MemorySet>, dead: set<SV39PageTable>, kernel: set<nat>, pages0: Pages, own0: map<nat, Owner>)
    reads rest, set n | n in rest :: n.pageTable, dead
  {
    && (forall n :: n in rest ==> n.pageTable !in dead && Stable(n, pages0, own0))
    && (forall n, n' :: n in rest && n' in rest && n != n' ==> n.pageTable != n'.pageTable)
    && (forall t :: t in dead ==> Listed(t))
    && (forall t :: t in dead ==> HeldBy(t.kind.Keys, own0, Dead(t)))
    && HeldBy(kernel, own0, Kernel)
  }

  ghost predicate Covered(own: map<nat, Owner>, spaces: set<MemorySet>, dead: set<SV39PageTable>)
  {
    forall f :: f in own ==>
      match own[f]
      case Live(m) => m in spaces
      case Dead(t) => t in dead
      case Kernel => true
  }

  /** `m` stands apart from `rest` and `dead`; `mine` is what `own` says of it. */
  ghost predicate Mine(m: MemorySet, mine: set<nat>, own: map<nat, Owner>, owned: set<nat>,
                       rest: set<MemorySet>, dead: set<SV39PageTable>)
  {
    && (forall f :: f in owned <==> f in own)
    && HeldBy(mine, own, Live(m))
    && m !in rest && m.pageTable !in dead && (forall n :: n in rest ==> n.pageTable != m.pageTable)
    && Covered(own, rest + {m}, dead)
  }

  /** The frames of one party went from `mine0` to `mine`; nothing else changed hands, and
      nothing else was written. */
  ghost predicate KeptToItself(mine0: set<nat>, mine: set<nat>, pages0: Pages, pages: Pages, owned0: set<nat>, owned: set<nat>)
  {
    && (forall f :: f in owned <==> (f in owned0 && f !in mine0) || f in mine)
    && (forall f :: f in owned0 && f !in mine0 ==> f !in mine)
    && (forall p :: p in owned0 && p !in mine0 && p in pages0 ==> p in pages && pages[p] == pages0[p])
  }

  ghost function Reassigned(owned: set<nat>, mine: set<nat>, who: Owner, own0: map<nat, Owner>): map<nat, Owner>
  {
    map f | f in owned && (f in mine || f in own0) :: if f in mine then who else own0[f]
  }

  /** Reassigning the frames of one party leaves what every other party holds. */
  lemma {:induction false} ReassignedOthers(mine0: set<nat>, mine: set<nat>, pages0: Pages, pages: Pages, owned0: set<nat>, owned: set<nat>,
                         who: Owner, who': Owner, own0: map<nat, Owner>)
    requires KeptToItself(mine0, mine, pages0, pages, owned0, owned) && HeldBy(mine0, own0, who)
    requires forall f :: f in owned0 <==> f in own0
    requires who' != who ==> forall f :: f in own0 ==> own0[f] != who'
    ensures var own := Reassigned(owned, mine, who', own0);
            && (forall f :: f in owned <==> f in own)
            && HeldBy(mine, own, who')
            && (forall fs, w: Owner :: HeldBy(fs, own0, w) && w != who && w != who' ==> HeldBy(fs, own, w))
            && (forall f :: f in own && own[f] != who' ==> f in own0 && own[f] == own0[f])
            && (forall f :: f in own && f !in mine ==> f in own0 && own[f] == own0[f] != who)
  {
  }

  lemma {:induction false} OthersStillValid(rest: set<MemorySet>, dead: set<SV39PageTable>, kernel: set<nat>, mine0: set<nat>, mine: set<nat>, pages0: Pages,
                         own0: map<nat, Owner>, owned0: set<nat>, fa: StackFrameAllocator, ram: PhysMemory)
    requires Others(rest, dead, kernel, pages0, own0) && Installed(fa, ram)
    requires forall f :: f in owned0 <==> f in own0
    requires forall n, f :: n in rest && f in mine0 && f in own0 ==> own0[f] != Live(n)
    requires KeptToItself(mine0, mine, pages0, ram.pages, owned0, fa.owned)
    ensures forall n :: n in rest ==> n.Valid(fa, ram) && AllFramed(Regions(n.areas)) && n.trampPpn < PPN_LIMIT
  {
    assert OpenOthers(Key);
    forall n | n in rest ensures n.Valid(fa, ram) && AllFramed(Regions(n.areas)) && n.trampPpn < PPN_LIMIT {
      assert Stable(n, pages0, own0);
      StillValid(n, pages0, fa, ram);
    }
  }

  /** What `m` and the rest of the machine were like before a call. */
  datatype Held = Held(pages: Pages, own: map<nat, Owner>, owned: set<nat>, kind: map<nat, Path>, data: map<nat, nat>,
                       rest: set<MemorySet>)

  ghost function Snapshot(m: MemorySet, fa: StackFrameAllocator, ram: PhysMemory, own: map<nat, Owner>, rest: set<MemorySet>): Held
    reads m, m.pageTable, fa, ram
  {
    Held(ram.pages, own, fa.owned, m.pageTable.kind, m.dataAt, rest)
  }

  lemma {:induction false} GrowthKeptToItself(m: MemorySet, pages0: Pages, kind0: map<nat, Path>, data0: map<nat, nat>, owned0: set<nat>,
                           lab: map<nat, nat>, fa: StackFrameAllocator, ram: PhysMemory)
    requires Growth(pages0, ram.pages, kind0, m.pageTable.kind, owned0, fa.owned, lab)
    requires m.dataAt == data0 + lab && kind0.Keys <= owned0 && data0.Keys <= owned0
    ensures KeptToItself(kind0.Keys + data0.Keys, m.Frames(), pages0, ram.pages, owned0, fa.owned)
  {
    assert OpenGrowth(Key);
    forall f | f in owned0 ensures f in m.pageTable.kind <==> f in kind0 {
      assert f !in m.pageTable.kind.Keys - kind0.Keys;
    }
    forall f ensures f in fa.owned <==> f in owned0 || f in m.Frames() {
      assert f in fa.owned <==> f in owned0 || f in m.pageTable.kind.Keys - kind0.Keys || f in lab;
    }
  }

  // ---- giving frames back --------------------------------------------------------------

  /** `area` is the one that holds `f`. */
  ghost predicate Holds(area: MapArea, dataAt: map<nat, nat>, f: nat)
  {
    f in dataAt && dataAt[f] in area.dataFrames && area.dataFrames[dataAt[f]] == f
  }

  /** Drop a vector of frame trackers. No `dealloc` panics. */
  method DropFrames(frames: seq<nat>, fa: StackFrameAllocator)
    requires fa.Valid() && NoDup(frames) && forall f :: f in frames ==> f in fa.owned
    modifies fa
    ensures fa.Valid() && fa.base == old(fa.base) && fa.end == old(fa.end)
    ensures forall f :: f in fa.owned <==> f in old(fa.owned) && f !in frames
  {
    for i := 0 to |frames|
      invariant fa.Valid() && fa.base == old(fa.base) && fa.end == old(fa.end)
      invariant forall f :: f in fa.owned <==> f in old(fa.owned) && f !in frames[..i]
    {
      assert frames[i] in frames && frames[i] !in frames[..i];
      var ok := fa.Dealloc(frames[i]);
      assert ok;
      assert frames[..i + 1] == frames[..i] + [frames[i]];
    }
    assert frames[..|frames|] == frames;
  }

  /** Drop the frame trackers of one area, in page order. No `dealloc` panics. */
  method DropArea(area: MapArea, ghost dataAt: map<nat, nat>, fa: StackFrameAllocator)
    requires fa.Valid() && area.dataFrames.Keys == area.region.Pages()
    requires forall v :: v in area.dataFrames ==>
               area.dataFrames[v] in dataAt && dataAt[area.dataFrames[v]] == v && area.dataFrames[v] in fa.owned
    modifies fa
    ensures fa.Valid() && fa.base == old(fa.base) && fa.end == old(fa.end)
    ensures forall f :: f in fa.owned <==> f in old(fa.owned) && !Holds(area, dataAt, f)
  {
    var v := area.region.lo;
    while v < area.region.hi
      invariant area.region.lo <= v && (area.region.lo <= area.region.hi ==> v <= area.region.hi)
      invariant fa.Valid() && fa.base == old(fa.base) && fa.end == old(fa.end)
      invariant forall f :: f in fa.owned <==> f in old(fa.owned) && !(Holds(area, dataAt, f) && dataAt[f] < v)
    {
      assert area.region.Has(v) && v in area.region.Pages();
      var ok := fa.Dealloc(area.dataFrames[v]);
      assert ok;
      v := v + 1;
    }
  }

  /** Drop the areas, front to back. */
  method DropAreas(areas: seq<MapArea>, ghost flat: map<nat, nat>, ghost dataAt: map<nat, nat>, ghost tramp: nat,
                   fa: StackFrameAllocator)
    requires fa.Valid() && Mirrors(areas, flat, dataAt, tramp) && AllFramed(Regions(areas)) && dataAt.Keys <= fa.owned
    modifies fa
    ensures fa.Valid() && fa.base == old(fa.base) && fa.end == old(fa.end)
    ensures fa.owned == old(fa.owned) - dataAt.Keys
  {
    var i := 0;
    while i < |areas|
      invariant 0 <= i <= |areas| && fa.Valid() && fa.base == old(fa.base) && fa.end == old(fa.end)
      invariant forall f :: f in fa.owned <==> f in old(fa.owned) && !HeldBefore(areas, dataAt, i, f)
    {
      StillHeld(areas, flat, dataAt, tramp, i);
      DropArea(areas[i], dataAt, fa);
      i := i + 1;
    }
    AllHeld(areas, flat, dataAt, tramp);
  }

  /** One of the first `n` areas holds `f`. */
  ghost predicate HeldBefore(areas: seq<MapArea>, dataAt: map<nat, nat>, n: nat, f: nat)
    requires n <= |areas|
  {
    exists j :: 0 <= j < n && Holds(areas[j], dataAt, f)
  }

  lemma {:induction false} AllHeld(areas: seq<MapArea>, flat: map<nat, nat>, dataAt: map<nat, nat>, tramp: nat)
    requires Mirrors(areas, flat, dataAt, tramp)
    ensures forall f :: f in dataAt <==> HeldBefore(areas, dataAt, |areas|, f)
  {
    assert OpenMirrors(Key);
    forall f | f in dataAt ensures HeldBefore(areas, dataAt, |areas|, f) {
      assert TrackedBy(areas, f, dataAt[f]);
      var j :| 0 <= j < |areas| && dataAt[f] in areas[j].dataFrames && areas[j].dataFrames[dataAt[f]] == f;
      assert Holds(areas[j], dataAt, f);
    }
  }

  /** Page `v` of area `i` holds `f`. */
  ghost predicate Tracks(areas: seq<MapArea>, i: int, v: nat, f: nat)
  {
    0 <= i < |areas| && v in areas[i].dataFrames && areas[i].dataFrames[v] == f
  }

  lemma {:induction false} TracksWhere(areas: seq<MapArea>, flat: map<nat, nat>, dataAt: map<nat, nat>, tramp: nat, i: int, v: nat, f: nat)
    requires Mirrors(areas, flat, dataAt, tramp) && AllFramed(Regions(areas)) && Tracks(areas, i, v, f)
    ensures f in dataAt && v == dataAt[f] && Regions(areas)[i].Has(v)
  {
    assert OpenMirrors(Key);
    assert AreaOk(areas[i], flat, dataAt) && Regions(areas)[i].mapType.Framed?;
  }

  lemma {:induction false} TracksSome(areas: seq<MapArea>, flat: map<nat, nat>, dataAt: map<nat, nat>, tramp: nat, f: nat) returns (i: int)
    requires Mirrors(areas, flat, dataAt, tramp) && f in dataAt
    ensures Tracks(areas, i, dataAt[f], f)
  {
    assert TrackedBy(areas, f, dataAt[f]) by { assert OpenMirrors(Key); }
    i :| 0 <= i < |areas| && dataAt[f] in areas[i].dataFrames && areas[i].dataFrames[dataAt[f]] == f;
  }

  /** The data frames are those of the areas, each of one page. */
  lemma {:induction false} TrackedOnce(areas: seq<MapArea>, flat: map<nat, nat>, dataAt: map<nat, nat>, tramp: nat, f: nat)
    requires Mirrors(areas, flat, dataAt, tramp) && AllFramed(Regions(areas))
    ensures f in dataAt <==> exists i, v :: Tracks(areas, i, v, f)
    ensures forall i, j, v, w :: Tracks(areas, i, v, f) && Tracks(areas, j, w, f) ==> i == j && v == w
  {
    if f in dataAt {
      var i := TracksSome(areas, flat, dataAt, tramp, f);
    }
    forall i, v | Tracks(areas, i, v, f) ensures f in dataAt {
      TracksWhere(areas, flat, dataAt, tramp, i, v, f);
    }
    forall i, j, v, w | Tracks(areas, i, v, f) && Tracks(areas, j, w, f) ensures i == j && v == w {
      TracksWhere(areas, flat, dataAt, tramp, i, v, f);
      TracksWhere(areas, flat, dataAt, tramp, j, w, f);
      assert Orderly(Regions(areas)) by { assert OpenMirrors(Key); }
    }
  }

  /** `recycle_data_pages`: every data frame goes back, the page table stays as it is. */
  method RecycleDataPages(m: MemorySet, fa: StackFrameAllocator, ram: PhysMemory)
    requires m.Valid(fa, ram) && AllFramed(Regions(m.areas))
    modifies m`areas, m`dataAt, fa
    ensures Installed(fa, ram) && fa.base == old(fa.base) && fa.end == old(fa.end)
    ensures m.areas == [] && m.dataAt == map[] && fa.owned == old(fa.owned) - old(m.dataAt.Keys)
  {
    DropAreas(m.areas, m.pageTable.flat, m.dataAt, m.trampPpn, fa);
    m.areas, m.dataAt := [], map[];
  }

  /** The frames of area `i` are held by no other area. */
  lemma {:induction false} StillHeld(areas: seq<MapArea>, flat: map<nat, nat>, dataAt: map<nat, nat>, tramp: nat, i: nat)
    requires Mirrors(areas, flat, dataAt, tramp) && AllFramed(Regions(areas)) && i < |areas|
    ensures areas[i].dataFrames.Keys == areas[i].region.Pages()
    ensures forall v :: v in areas[i].dataFrames ==> areas[i].dataFrames[v] in dataAt && dataAt[areas[i].dataFrames[v]] == v
    ensures forall v, j :: v in areas[i].dataFrames && 0 <= j < i ==> !Holds(areas[j], dataAt, areas[i].dataFrames[v])
  {
    assert OpenMirrors(Key);
    assert AreaOk(areas[i], flat, dataAt) && Regions(areas)[i].mapType.Framed?;
    forall v, j | v in areas[i].dataFrames && 0 <= j < i ensures !Holds(areas[j], dataAt, areas[i].dataFrames[v]) {
      assert AreaOk(areas[j], flat, dataAt) && Regions(areas)[j].mapType.Framed?;
      assert Regions(areas)[i].Has(v) && !Regions(areas)[j].Has(v);
    }
  }

  /** The byte that the process of `m` sees at `a`, when memory is `pages`. */
  ghost function Seen(m: MemorySet, pages: Pages, a: nat): Option<nat>
    reads m, m.pageTable
  {
    if PageOf(a) in PagesOf(Regions(m.areas)) && PageOf(a) in m.pageTable.flat && PtePpn(m.pageTable.flat[PageOf(a)]) in pages
    then Some(UserByte(pages, m.pageTable.flat, a)) else None
  }

  /** Between `pages0` and `pages`, the process of `m` sees `bytes` stored at `dst`, and nothing
      else of its memory changed. */
  ghost predicate SeenStored(m: MemorySet, pages0: Pages, pages: Pages, dst: nat, bytes: seq<nat>)
    reads m, m.pageTable
  {
    forall a: nat :: Canonical(a) && PageOf(a) in PagesOf(Regions(m.areas)) ==>
      Seen(m, pages, a) == if dst <= a < dst + |bytes| then Some(bytes[a - dst]) else Seen(m, pages0, a)
  }

  /** A range of user pages can be touched, through data frames only. */
  lemma {:induction false} Touchable(m: MemorySet, fa: StackFrameAllocator, ram: PhysMemory, ptr: nat, len: nat)
    requires m.Valid(fa, ram) && AllFramed(Regions(m.areas)) && 0 < len < VA_LIMIT && CanonicalRange(ptr, len)
    requires InPages(PagesOf(Regions(m.areas)), ptr, len)
    ensures Copyable(ptr, len) && Reachable(ram.pages, m.pageTable.rootPpn, ptr, len) && Sane(ram.pages, m.pageTable.rootPpn, ptr, len)
    ensures Behind(PagesOf(Regions(m.areas)), m.pageTable.flat, m.dataAt) && m.dataAt.Keys <= ram.pages.Keys
    ensures IsUserRange(m.pageTable.flat, m.dataAt, Range(ram.pages, m.pageTable.rootPpn, ptr, len), ptr)
  {
    var pt, vs := m.pageTable, PagesOf(Regions(m.areas));
    AllBehind(m.areas, pt.flat, m.dataAt, m.trampPpn, fa.owned, fa.base, fa.current, fa.end, fa.recycled);
    assert m.dataAt.Keys <= ram.pages.Keys;
    UserRange(ram.pages, pt.rootPpn, pt.frames, pt.kind, pt.flat, m.dataAt, vs, ptr, len);
    CanonicalIsSliceable(ptr, len);
  }

  lemma {:induction false} SameIsSeen(m: MemorySet, n: MemorySet, pages: Pages)
    requires Regions(m.areas) == Regions(n.areas)
    requires Same(PagesOf(Regions(m.areas)), m.pageTable.flat, n.pageTable.flat, pages)
    ensures forall a: nat :: Seen(n, pages, a) == Seen(m, pages, a)
  {
    forall a: nat ensures Seen(n, pages, a) == Seen(m, pages, a) {
      if PageOf(a) in PagesOf(Regions(m.areas)) {
        PeekByte(pages, UserLoc(m.pageTable.flat, a));
        PeekByte(pages, UserLoc(n.pageTable.flat, a));
      }
    }
  }

  /** What does not touch the frames of `n` does not change what its process sees. */
  lemma {:induction false} SeenTheSame(n: MemorySet, pages: Pages, pages': Pages, fa: StackFrameAllocator, ram: PhysMemory, a: nat)
    requires n.Valid(fa, ram) && AllFramed(Regions(n.areas)) && pages'.Keys == pages.Keys
    requires forall p :: p in n.dataAt && p in pages ==> p in pages' && pages'[p] == pages[p]
    ensures Seen(n, pages', a) == Seen(n, pages, a)
  {
    if PageOf(a) in PagesOf(Regions(n.areas)) && Seen(n, pages, a).Some? {
      AllBehind(n.areas, n.pageTable.flat, n.dataAt, n.trampPpn, fa.owned, fa.base, fa.current, fa.end, fa.recycled);
      PeekByte(pages, UserLoc(n.pageTable.flat, a));
      PeekByte(pages', UserLoc(n.pageTable.flat, a));
    }
  }

  class Machine {
    const fa: StackFrameAllocator
    const ram: PhysMemory
    /** The frames that the kernel keeps for itself. */
    ghost const kernel: set<nat>
    /** The address spaces of the processes that have not exited. */
    ghost var spaces: set<MemorySet>
    /** The page tables of zombies. */
    ghost var dead: set<SV39PageTable>
    ghost var ownerOf: map<nat, Owner>

    ghost predicate Apart()
      reads this, spaces
    {
      && (forall m, n :: m in spaces && n in spaces && m != n ==> m.pageTable != n.pageTable)
      && (forall m :: m in spaces ==> m.pageTable !in dead)
    }

    /** Every owned frame has one owner, and the owner really holds it. */
    ghost predicate Accounted()
      reads this, fa, spaces, set m | m in spaces :: m.pageTable, dead
    {
      && (forall f :: f in fa.owned <==> f in ownerOf)
      && (forall m :: m in spaces ==> HeldBy(m.Frames(), ownerOf, Live(m)))
      && (forall t :: t in dead ==> HeldBy(t.kind.Keys, ownerOf, Dead(t)))
      && HeldBy(kernel, ownerOf, Kernel)
      && Covered(ownerOf, spaces, dead)
    }

    predicate OpenMachine(k: Key) { true }

    ghost predicate Valid()
      reads this, fa, ram, spaces, set m | m in spaces :: m.pageTable, dead
    {
      forall k: Key :: OpenMachine(k) ==> Facts()
    }

    ghost predicate Facts()
      reads this, fa, ram, spaces, set m | m in spaces :: m.pageTable, dead
    {
      && Installed(fa, ram) && Apart() && Accounted()
      && (forall m :: m in spaces ==> m.Valid(fa, ram) && AllFramed(Regions(m.areas)) && m.trampPpn < PPN_LIMIT)
      && (forall t :: t in dead ==> Listed(t))
    }

    /** The frames that are in use by then are the kernel's. */
    constructor (fa: StackFrameAllocator, ram: PhysMemory)
      requires Installed(fa, ram)
      ensures Valid() && spaces == {} && dead == {} && kernel == fa.owned && this.fa == fa && this.ram == ram
    {
      this.fa, this.ram, this.kernel := fa, ram, fa.owned;
      spaces, dead, ownerOf := {}, {}, map f | f in fa.owned :: Kernel;
    }

    /** The state of a managed frame: never handed out, recycled once, or held by exactly one
        live address space, one zombie or the kernel. */
    lemma {:induction false} OneOwner(f: nat)
      requires Valid() && fa.base <= f < fa.end
      ensures fa.Untouched(f) || f in fa.recycled || f in fa.owned
      ensures fa.Untouched(f) ==> f !in fa.recycled && f !in fa.owned
      ensures f in fa.recycled ==> multiset(fa.recycled)[f] == 1 && f !in fa.owned
      ensures f in fa.owned <==> (exists m :: m in spaces && f in m.Frames()) || (exists t :: t in dead && f in t.kind) || f in kernel
      ensures forall m, n :: m in spaces && n in spaces && f in m.Frames() && f in n.Frames() ==> m == n
      ensures forall m, t :: m in spaces && t in dead && f in m.Frames() ==> f !in t.kind
      ensures forall t, u :: t in dead && u in dead && f in t.kind && f in u.kind ==> t == u
      ensures f in kernel ==> (forall m :: m in spaces ==> f !in m.Frames()) && forall t :: t in dead ==> f !in t.kind
    {
      assert Accounted() && fa.Valid() by { assert OpenMachine(Key); }
      fa.Partition(f);
      if f in fa.owned {
        assert f in ownerOf;
        match ownerOf[f] {
          case Live(m) => assert f in m.Frames();
          case Dead(t) => assert f in t.kind;
          case Kernel =>
        }
      }
    }

    /** Inside a live address space a frame has one tracker: it is one of the page table's, or that
        of one page of one area. */
    lemma {:induction false} OneTracker(m: MemorySet, f: nat)
      requires Valid() && m in spaces && f in m.Frames()
      ensures (exists i, v :: Tracks(m.areas, i, v, f)) <==> f !in m.pageTable.frames
      ensures f in m.pageTable.frames ==> multiset(m.pageTable.frames)[f] == 1
      ensures forall i, j, v, w :: Tracks(m.areas, i, v, f) && Tracks(m.areas, j, w, f) ==> i == j && v == w
    {
      assert m.Valid(fa, ram) && AllFramed(Regions(m.areas)) by { assert OpenMachine(Key); }
      assert Listed(m.pageTable) by { assert OpenTable(Key); }
      if f in m.pageTable.frames {
        NoDupOnce(m.pageTable.frames, f);
      }
      TrackedOnce(m.areas, m.pageTable.flat, m.dataAt, m.trampPpn, f);
    }

    /** A process sees something in every page of its areas. */
    lemma {:induction false} Visible(m: MemorySet, a: nat)
      requires Valid() && m in spaces && PageOf(a) in PagesOf(Regions(m.areas))
      ensures Seen(m, ram.pages, a).Some?
    {
      assert m.Valid(fa, ram) && AllFramed(Regions(m.areas)) by { assert OpenMachine(Key); }
      AllBehind(m.areas, m.pageTable.flat, m.dataAt, m.trampPpn, fa.owned, fa.base, fa.current, fa.end, fa.recycled);
      assert m.dataAt.Keys <= ram.pages.Keys;
    }

    // ---- one space changes, the others do not ------------------------------------------

    lemma {:induction false} SetAside(m: MemorySet)
      requires Valid() && m in spaces
      ensures Others(spaces - {m}, dead, kernel, ram.pages, ownerOf)
      ensures Mine(m, m.Frames(), ownerOf, fa.owned, spaces - {m}, dead)
      ensures m.Valid(fa, ram) && AllFramed(Regions(m.areas)) && m.trampPpn < PPN_LIMIT
    {
      assert OpenMachine(Key);
    }

    lemma {:induction false} SetAsideAll()
      requires Valid()
      ensures Others(spaces, dead, kernel, ram.pages, ownerOf) && Covered(ownerOf, spaces, dead) && Installed(fa, ram)
      ensures forall f :: f in fa.owned <==> f in ownerOf
    {
      assert OpenMachine(Key);
    }

    /** Put `m` back among the others after it changed hands of nothing but its own frames. */
    lemma {:induction false} TakeBack(m: MemorySet, mine0: set<nat>, rest: set<MemorySet>, pages0: Pages, own0: map<nat, Owner>, owned0: set<nat>)
      requires spaces == rest + {m} && Others(rest, dead, kernel, pages0, own0) && Mine(m, mine0, own0, owned0, rest, dead)
      requires m.Valid(fa, ram) && AllFramed(Regions(m.areas)) && m.trampPpn < PPN_LIMIT
      requires KeptToItself(mine0, m.Frames(), pages0, ram.pages, owned0, fa.owned)
      requires ownerOf == Reassigned(fa.owned, m.Frames(), Live(m), own0)
      ensures Valid()
    {
      OthersStillValid(rest, dead, kernel, mine0, m.Frames(), pages0, own0, owned0, fa, ram);
      Accounts(m, mine0, rest, pages0, own0, owned0);
    }

    lemma {:induction false} Accounts(m: MemorySet, mine0: set<nat>, rest: set<MemorySet>, pages0: Pages, own0: map<nat, Owner>, owned0: set<nat>)
      requires spaces == rest + {m} && Others(rest, dead, kernel, pages0, own0) && Mine(m, mine0, own0, owned0, rest, dead)
      requires KeptToItself(mine0, m.Frames(), pages0, ram.pages, owned0, fa.owned)
      requires ownerOf == Reassigned(fa.owned, m.Frames(), Live(m), own0)
      ensures Apart() && Accounted() && forall t :: t in dead ==> Listed(t)
    {
      assert OpenOthers(Key);
      assert forall n :: n in rest ==> Stable(n, pages0, own0);
      ReassignedOthers(mine0, m.Frames(), pages0, ram.pages, owned0, fa.owned, Live(m), Live(m), own0);
    }

    // ---- the calls ---------------------------------------------------------------------

    /** A new address space with nothing but the trampoline. */
    method Create(trampPpn: nat) returns (r: Option<MemorySet>)
      requires Valid() && trampPpn < PPN_LIMIT
      modifies this, fa, ram
      ensures r.None? ==> fa.Available() == 0
      ensures r.Some? ==> Valid() && fresh(r.value) && spaces == old(spaces) + {r.value} && dead == old(dead)
      ensures r.Some? ==> r.value.View() == Space([], 0)
    {
      SetAsideAll();
      ghost var pages0, own0, owned0, rest := ram.pages, ownerOf, fa.owned, spaces;
      r := NewSpace(trampPpn, fa, ram);
      if r.Some? {
        ghost var m := r.value;
        spaces := spaces + {m};
        ownerOf := Reassigned(fa.owned, m.Frames(), Live(m), own0);
        TakeBack(m, {}, rest, pages0, own0, owned0);
      }
    }

    /** `insert_framed_area`, as used for program segments, stacks and trap contexts. */
    method Insert(m: MemorySet, startVa: nat, endVa: nat, perm: nat) returns (r: Reply)
      requires Valid() && m in spaces && endVa <= VA_LIMIT && IsPerm(perm)
      modifies this`ownerOf, m, m.pageTable, fa, ram
      ensures r.OutOfMemory? ==> fa.Available() == 0
      ensures r.Reply? ==> (r.outcome.Panicked? <==> InsertPanics(old(m.View().regions), startVa, endVa))
      ensures r.Survives() ==> Valid() && m.View().regions == Inserted(old(m.View().regions), startVa, endVa, perm)
    {
      SetAside(m);
      ghost var b := Snapshot(m, fa, ram, ownerOf, spaces - {m});
      ghost var lab;
      r, lab := m.InsertFramedArea(startVa, endVa, perm, fa, ram);
      if r.Survives() {
        Settle(m, b, lab);
      }
    }

    /** `sys_brk` in the process that owns `m`. */
    method SysBrk(m: MemorySet, addr: nat) returns (r: Reply)
      requires Valid() && m in spaces
      modifies this`ownerOf, m, m.pageTable, fa, ram
      ensures r.OutOfMemory? ==> fa.Available() == 0
      ensures r.Reply? ==> r.outcome == Brk(old(m.View()), addr).1
      ensures r.Survives() ==> Valid() && m.View() == Brk(old(m.View()), addr).0
      ensures r.Survives() ==> NewAreHeap(old(m.View()).regions, m.areas, m.pageTable.flat)
    {
      SetAside(m);
      ghost var b := Snapshot(m, fa, ram, ownerOf, spaces - {m});
      ghost var sp0, lab := m.View(), map[];
      MirrorsPages(m.areas, m.pageTable.flat, m.dataAt, m.trampPpn);
      r, lab := m.SysBrk(addr, fa, ram);
      if r.Survives() {
        StepFramed(sp0, BrkCall(addr), Brk(sp0, addr));
        Settle(m, b, lab);
      }
    }

    /** `sys_mmap` of anonymous memory; a searching call is made when its search stops. */
    method SysMmap(m: MemorySet, start: nat, len: nat, prot: nat, ghost k: nat) returns (r: Reply)
      requires Valid() && m in spaces && InRange(m.View().regions)
      requires start == 0 && len > 0 ==> SearchStops(m.View().regions, m.brk, AlignUp(len), k)
      modifies this`ownerOf, m, m.pageTable, fa, ram
      ensures r.OutOfMemory? ==> fa.Available() == 0
      ensures r.Survives() ==> Valid() && MmapStep(old(m.View()), start, len, prot, (m.View(), r.outcome))
      ensures r.Survives() ==> NewAreAsked(old(m.View()).regions, m.areas, m.pageTable.flat, prot)
    {
      SetAside(m);
      ghost var b := Snapshot(m, fa, ram, ownerOf, spaces - {m});
      ghost var sp0, lab := m.View(), map[];
      MirrorsPages(m.areas, m.pageTable.flat, m.dataAt, m.trampPpn);
      r, lab := m.Mmap(start, len, prot, k, fa, ram);
      if r.Survives() {
        StepFramed(sp0, MmapCall(start, len, prot), (m.View(), r.outcome));
        Settle(m, b, lab);
      }
    }

    ghost method Settle(m: MemorySet, b: Held, lab: map<nat, nat>)
      requires m !in b.rest && spaces == b.rest + {m} && Others(b.rest, dead, kernel, b.pages, b.own)
      requires Mine(m, b.kind.Keys + b.data.Keys, b.own, b.owned, b.rest, dead)
      requires m.Valid(fa, ram) && AllFramed(Regions(m.areas)) && m.trampPpn < PPN_LIMIT
      requires Growth(b.pages, ram.pages, b.kind, m.pageTable.kind, b.owned, fa.owned, lab) && m.dataAt == b.data + lab
      requires b.kind.Keys <= b.owned && b.data.Keys <= b.owned
      modifies this`ownerOf
      ensures Valid()
    {
      GrowthKeptToItself(m, b.pages, b.kind, b.data, b.owned, lab, fa, ram);
      ownerOf := Reassigned(fa.owned, m.Frames(), Live(m), b.own);
      TakeBack(m, b.kind.Keys + b.data.Keys, b.rest, b.pages, b.own, b.owned);
    }

    /** `sys_munmap`; the frames of the removed area are recycled. */
    method SysMunmap(m: MemorySet, start: nat, len: nat) returns (out: Outcome)
      requires Valid() && m in spaces
      modifies this`ownerOf, m, m.pageTable, fa, ram
      ensures Valid() && (m.View(), out) == Munmap(old(m.View()), start, len)
    {
      SetAside(m);
      ghost var b := Snapshot(m, fa, ram, ownerOf, spaces - {m});
      ghost var sp0 := m.View();
      MirrorsPages(m.areas, m.pageTable.flat, m.dataAt, m.trampPpn);
      out := m.Munmap(start, len, fa, ram);
      StepFramed(sp0, MunmapCall(start, len), Munmap(sp0, start, len));
      ownerOf := Reassigned(fa.owned, m.Frames(), Live(m), b.own);
      TakeBack(m, b.kind.Keys + b.data.Keys, b.rest, b.pages, b.own, b.owned);
    }

    /** The memory side of `fork`: the copy joins the live address spaces. */
    method Fork(m: MemorySet) returns (r: Option<MemorySet>)
      requires Valid() && m in spaces
      modifies this, fa, ram
      ensures r.None? ==> fa.Available() == 0
      ensures r.Some? ==> Valid() && fresh(r.value) && spaces == old(spaces) + {r.value} && dead == old(dead)
      ensures r.Some? ==> r.value.View() == m.View() && r.value.heapStart == m.heapStart
      ensures r.Some? ==> forall a: nat :: Seen(r.value, ram.pages, a) == Seen(m, ram.pages, a)
    {
      SetAside(m);
      SetAsideAll();
      ghost var pages0, own0, owned0, rest := ram.pages, ownerOf, fa.owned, spaces;
      r := CloneSpace(m, fa, ram);
      if r.Some? {
        ghost var child := r.value;
        spaces := spaces + {child};
        ownerOf := Reassigned(fa.owned, child.Frames(), Live(child), own0);
        assert Others(rest, dead, kernel, pages0, own0);
        assert Mine(child, {}, own0, owned0, rest, dead);
        assert KeptToItself({}, child.Frames(), pages0, ram.pages, owned0, fa.owned);
        TakeBack(child, {}, rest, pages0, own0, owned0);
        SameIsSeen(m, child, ram.pages);
      }
    }

    /** `copy_to_user` into the process of `m`: it sees the bytes where they were stored, and no
        other process sees any change. */
    method Store(m: MemorySet, dst: nat, bytes: seq<nat>)
      requires Valid() && m in spaces && AreBytes(bytes) && 0 < |bytes| < VA_LIMIT && CanonicalRange(dst, |bytes|)
      requires InPages(PagesOf(Regions(m.areas)), dst, |bytes|)
      modifies ram
      ensures Valid()
      ensures SeenStored(m, old(ram.pages), ram.pages, dst, bytes)
      ensures forall n, a: nat :: n in spaces && n != m ==> Seen(n, ram.pages, a) == old(Seen(n, ram.pages, a))
    {
      SetAside(m);
      ghost var b := Snapshot(m, fa, ram, ownerOf, spaces - {m});
      ghost var vs := PagesOf(Regions(m.areas));
      Touchable(m, fa, ram, dst, |bytes|);
      ghost var ls := Range(ram.pages, m.pageTable.rootPpn, dst, |bytes|);
      var ok := CopyToUser(m.pageTable, ram, bytes, dst);
      WrittenToUser(b.pages, ram.pages, vs, m.pageTable.flat, m.dataAt, ls, dst, bytes);
      StoreKeeps(m, b);
      forall n, a: nat | n in spaces && n != m ensures Seen(n, ram.pages, a) == Seen(n, b.pages, a) {
        SeenByOthers(n, m, b, a);
      }
    }

    /** A store into data frames of `m` leaves the machine in order. */
    lemma {:induction false} StoreKeeps(m: MemorySet, b: Held)
      requires spaces == b.rest + {m} && Others(b.rest, dead, kernel, b.pages, b.own) && ownerOf == b.own && fa.owned == b.owned
      requires Mine(m, m.Frames(), b.own, b.owned, b.rest, dead) && Installed(fa, ram)
      requires TableOk(b.pages, m.pageTable.rootPpn, m.pageTable.frames, m.pageTable.kind, m.pageTable.flat)
      requires Mirrors(m.areas, m.pageTable.flat, m.dataAt, m.trampPpn) && AllFramed(Regions(m.areas)) && m.trampPpn < PPN_LIMIT
      requires m.Frames() <= fa.owned && m.dataAt.Keys !! m.pageTable.kind.Keys
      requires ram.pages.Keys == b.pages.Keys && forall p :: p in b.pages && p !in m.dataAt ==> ram.pages[p] == b.pages[p]
      ensures Valid()
    {
      TableFrame(b.pages, ram.pages, m.pageTable.rootPpn, m.pageTable.frames, m.pageTable.kind, m.pageTable.flat);
      assert ownerOf == Reassigned(fa.owned, m.Frames(), Live(m), b.own);
      TakeBack(m, m.Frames(), b.rest, b.pages, b.own, b.owned);
    }

    lemma {:induction false} SeenByOthers(n: MemorySet, m: MemorySet, b: Held, a: nat)
      requires Valid() && n in spaces && m in spaces && n != m
      requires ram.pages.Keys == b.pages.Keys && forall p :: p in b.pages && p !in m.dataAt ==> ram.pages[p] == b.pages[p]
      ensures Seen(n, ram.pages, a) == Seen(n, b.pages, a)
    {
      assert OpenMachine(Key);
      assert HeldBy(n.Frames(), ownerOf, Live(n)) && HeldBy(m.Frames(), ownerOf, Live(m));
      forall p | p in n.dataAt && p in b.pages ensures ram.pages[p] == b.pages[p] {
        assert p in n.Frames() && p !in m.Frames();
      }
      SeenTheSame(n, b.pages, ram.pages, fa, ram, a);
    }

    /** `copy_from_user` from the process of `m` reads what the process sees. */
    method Load(m: MemorySet, src: nat, dst: array<nat>)
      requires Valid() && m in spaces && 0 < dst.Length < VA_LIMIT && CanonicalRange(src, dst.Length)
      requires InPages(PagesOf(Regions(m.areas)), src, dst.Length)
      modifies dst
      ensures forall k :: 0 <= k < dst.Length ==> Seen(m, ram.pages, src + k) == Some(dst[k])
    {
      SetAside(m);
      Touchable(m, fa, ram, src, dst.Length);
      ghost var ls := Range(ram.pages, m.pageTable.rootPpn, src, dst.Length);
      var ok := CopyFromUser(m.pageTable, ram, src, dst);
      forall k | 0 <= k < dst.Length ensures Seen(m, ram.pages, src + k) == Some(dst[k]) {
        assert dst[k] == dst[..][k] == Peek(ram.pages, ls[0 + k]) && ls[k] == UserLoc(m.pageTable.flat, src + k);
      }
    }

    /** A live space is dropped, as when `exec` puts a new one in its place: the frames of its page
        table go first, then its areas, and nothing of it stays. */
    method Drop(m: MemorySet)
      requires Valid() && m in spaces
      modifies this, fa
      ensures Valid() && spaces == old(spaces) - {m} && dead == old(dead)
      ensures fa.owned == old(fa.owned) - m.Frames()
    {
      SetAside(m);
      ghost var b := Snapshot(m, fa, ram, ownerOf, spaces - {m});
      assert Listed(m.pageTable) by { assert OpenTable(Key); }
      DropFrames(m.pageTable.frames, fa);
      DropAreas(m.areas, m.pageTable.flat, m.dataAt, m.trampPpn, fa);
      spaces := b.rest;
      ownerOf := Reassigned(fa.owned, {}, Live(m), b.own);
      OthersStillValid(b.rest, dead, kernel, m.Frames(), {}, b.pages, b.own, b.owned, fa, ram);
      Vanish(m, b);
    }

    lemma {:induction false} Vanish(m: MemorySet, b: Held)
      requires spaces == b.rest && Others(b.rest, dead, kernel, b.pages, b.own) && Mine(m, m.Frames(), b.own, b.owned, b.rest, dead)
      requires fa.owned == b.owned - m.Frames() && ownerOf == Reassigned(fa.owned, {}, Live(m), b.own)
      ensures Apart() && Accounted() && forall t :: t in dead ==> Listed(t)
    {
      assert OpenOthers(Key);
      assert forall n :: n in spaces ==> Stable(n, b.pages, b.own);
      ReassignedOthers(m.Frames(), {}, b.pages, b.pages, b.owned, fa.owned, Live(m), Live(m), b.own);
    }

    /** The memory side of a process's exit: every data frame is recycled, and the page table
        waits for the parent. */
    method Exit(m: MemorySet)
      requires Valid() && m in spaces
      modifies this, m`areas, m`dataAt, fa
      ensures Valid() && spaces == old(spaces) - {m} && dead == old(dead) + {m.pageTable}
      ensures fa.owned == old(fa.owned) - old(m.dataAt.Keys)
    {
      SetAside(m);
      ghost var b := Snapshot(m, fa, ram, ownerOf, spaces - {m});
      ghost var dead0 := dead;
      assert Listed(m.pageTable) by { assert OpenTable(Key); }
      RecycleDataPages(m, fa, ram);
      ghost var t := m.pageTable;
      spaces, dead := b.rest, dead + {t};
      ownerOf := Reassigned(fa.owned, t.kind.Keys, Dead(t), b.own);
      OthersStillValid(b.rest, dead0, kernel, b.kind.Keys + b.data.Keys, t.kind.Keys, b.pages, b.own, b.owned, fa, ram);
      Bury(m, b, dead0);
    }

    lemma {:induction false} Bury(m: MemorySet, b: Held, dead0: set<SV39PageTable>)
      requires spaces == b.rest && dead == dead0 + {m.pageTable} && Others(b.rest, dead0, kernel, b.pages, b.own)
      requires Mine(m, b.kind.Keys + b.data.Keys, b.own, b.owned, b.rest, dead0)
      requires b.kind == m.pageTable.kind && b.kind.Keys !! b.data.Keys
      requires fa.owned == b.owned - b.data.Keys
      requires ownerOf == Reassigned(fa.owned, b.kind.Keys, Dead(m.pageTable), b.own)
      ensures Apart() && Accounted() && (Listed(m.pageTable) ==> forall t :: t in dead ==> Listed(t))
    {
      BuryApart(m, b, dead0);
      assert OpenOthers(Key);
      assert forall n :: n in spaces ==> HeldBy(n.Frames(), b.own, Live(n)) by { assert forall n :: n in spaces ==> Stable(n, b.pages, b.own); }
      ReassignedOthers(b.kind.Keys + b.data.Keys, b.kind.Keys, b.pages, b.pages, b.owned, fa.owned,
                       Live(m), Dead(m.pageTable), b.own);
    }

    lemma {:induction false} BuryApart(m: MemorySet, b: Held, dead0: set<SV39PageTable>)
      requires spaces == b.rest && dead == dead0 + {m.pageTable} && Others(b.rest, dead0, kernel, b.pages, b.own)
      requires forall n :: n in b.rest ==> n.pageTable != m.pageTable
      ensures Apart() && (Listed(m.pageTable) ==> forall t :: t in dead ==> Listed(t))
    {
      assert OpenOthers(Key);
    }

    lemma {:induction false} Forget(t: SV39PageTable, dead0: set<SV39PageTable>, own0: map<nat, Owner>, owned0: set<nat>)
      requires t in dead0 && dead == dead0 - {t} && Others(spaces, dead0, kernel, ram.pages, own0)
      requires Covered(own0, spaces, dead0) && (forall f :: f in owned0 <==> f in own0)
      requires forall f :: f in fa.owned <==> f in owned0 && f !in t.kind
      requires ownerOf == Reassigned(fa.owned, {}, Dead(t), own0)
      ensures Apart() && Accounted() && forall u :: u in dead ==> Listed(u)
    {
      assert OpenOthers(Key);
      assert forall n :: n in spaces ==> Stable(n, ram.pages, own0);
      ReassignedOthers(t.kind.Keys, {}, ram.pages, ram.pages, owned0, fa.owned, Dead(t), Dead(t), own0);
    }

    /** The parent reaps a zombie: the frames of its page table are recycled. */
    method Reap(t: SV39PageTable)
      requires Valid() && t in dead
      modifies this, fa
      ensures Valid() && spaces == old(spaces) && dead == old(dead) - {t}
      ensures fa.owned == old(fa.owned) - t.kind.Keys
    {
      SetAsideAll();
      assert Listed(t) && HeldBy(t.kind.Keys, ownerOf, Dead(t)) by { assert OpenOthers(Key); }
      ghost var own0, owned0, dead0 := ownerOf, fa.owned, dead;
      DropFrames(t.frames, fa);
      dead := dead0 - {t};
      ownerOf := Reassigned(fa.owned, {}, Dead(t), own0);
      OthersStillValid(spaces, dead0, kernel, t.kind.Keys, {}, ram.pages, own0, owned0, fa, ram);
      Forget(t, dead0, own0, owned0);
    }
  }
}
