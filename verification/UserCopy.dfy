/** Bytes of a physical page, whose words are little-endian. */
module PageBytes {
  import opened Addresses
  import opened Frames

  function ByteOf(w: nat, j: nat): (b: nat)
    ensures b < 256
  {
    if j == 0 then w % 256 else ByteOf(w / 256, j - 1)
  }

  function FromBytes(bs: seq<nat>): nat
  {
    if bs == [] then 0 else bs[0] + 256 * FromBytes(bs[1..])
  }

  predicate AreBytes(bs: seq<nat>) { forall i :: 0 <= i < |bs| ==> bs[i] < 256 }

  lemma {:induction false} LowByte(b: nat, r: nat)
    requires b < 256
    ensures (b + 256 * r) % 256 == b && (b + 256 * r) / 256 == r
  {
  }

  lemma {:induction false} ByteOfFromBytes(bs: seq<nat>, j: nat)
    requires AreBytes(bs) && j < |bs|
    ensures ByteOf(FromBytes(bs), j) == bs[j]
  {
    LowByte(bs[0], FromBytes(bs[1..]));
    if j > 0 {
      ByteOfFromBytes(bs[1..], j - 1);
    }
  }

  function ByteAt(p: Page, k: nat): (b: nat)
    requires k < PAGE_SIZE
    ensures b < 256
  {
    ByteOf(p[k / 8], k % 8)
  }

  /** Byte `k` of the page `p` after `bs` is stored at `at`. */
  function NewByte(p: Page, at: nat, bs: seq<nat>, k: nat): nat
    requires k < PAGE_SIZE
  {
    if at <= k < at + |bs| then bs[k - at] else ByteAt(p, k)
  }

  function NewBytes(p: Page, at: nat, bs: seq<nat>, i: nat): (r: seq<nat>)
    requires i < PTES_PER_PAGE
    ensures |r| == 8 && forall j :: 0 <= j < 8 ==> r[j] == NewByte(p, at, bs, 8 * i + j)
  {
    seq<nat>(8, j requires 0 <= j < 8 => NewByte(p, at, bs, 8 * i + j))
  }

  function WithBytes(p: Page, at: nat, bs: seq<nat>): Page
  {
    seq<nat>(PTES_PER_PAGE, i requires 0 <= i < PTES_PER_PAGE => FromBytes(NewBytes(p, at, bs, i)))
  }

  lemma {:induction false} WithBytesAt(p: Page, at: nat, bs: seq<nat>, k: nat)
    requires AreBytes(bs) && k < PAGE_SIZE
    ensures ByteAt(WithBytes(p, at, bs), k) == NewByte(p, at, bs, k)
  {
    var word := NewBytes(p, at, bs, k / 8);
    assert AreBytes(word);
    ByteOfFromBytes(word, k % 8);
  }
}

/** Access to user memory from the kernel (os/src/mm/pagetable.rs). */
module UserCopy {
  import opened Addresses
  import opened Frames
  import opened Sv39
  import opened Fork
  import opened PageBytes
  import opened BufferLoop
  import opened Closed

  /** A byte of physical memory. */
  datatype Loc = Loc(ppn: nat, off: nat)

  /** A byte slice inside one frame. */
  datatype Slice = Slice(ppn: nat, from: nat, to: nat)

  predicate Proper(s: Slice) { s.from < s.to <= PAGE_SIZE }

  function Locs(s: Slice): (ls: seq<Loc>)
    ensures |ls| == if s.from <= s.to then s.to - s.from else 0
    ensures forall i :: 0 <= i < |ls| ==> ls[i] == Loc(s.ppn, s.from + i)
  {
    if s.from <= s.to then seq(s.to - s.from, i requires 0 <= i => Loc(s.ppn, s.from + i)) else []
  }

  /** The bytes that a list of slices stands for. */
  function Flat(v: seq<Slice>): seq<Loc>
  {
    if v == [] then [] else Flat(v[..|v| - 1]) + Locs(v[|v| - 1])
  }

  lemma {:induction false} FlatSnoc(v: seq<Slice>, s: Slice)
    ensures Flat(v + [s]) == Flat(v) + Locs(s)
  {
  }

  // ---- translated_byte_buffer ----------------------------------------------------------

  /** Where the byte at virtual address `a` is. */
  ghost function At(pages: Pages, root: nat, a: nat): Loc
    requires Found(pages, root, PageOf(a)).Some?
  {
    Loc(PtePpn(Found(pages, root, PageOf(a)).value), PageOffset(VirtAddrFrom(a)))
  }

  ghost predicate Reachable(pages: Pages, root: nat, ptr: nat, len: nat)
  {
    forall a :: ptr <= a < ptr + len ==> Found(pages, root, PageOf(a)).Some?
  }

  ghost function Range(pages: Pages, root: nat, ptr: nat, len: nat): (ls: seq<Loc>)
    requires Reachable(pages, root, ptr, len)
  {
    seq(len, i requires 0 <= i < len => At(pages, root, ptr + i))
  }

  /** The pages of these addresses have a leaf table. */
  ghost predicate AllFound(pages: Pages, root: nat, addrs: seq<nat>)
  {
    forall i :: 0 <= i < |addrs| ==> Found(pages, root, PageOf(addrs[i])).Some?
  }

  ghost function AllAt(pages: Pages, root: nat, addrs: seq<nat>): (ls: seq<Loc>)
    requires AllFound(pages, root, addrs)
    ensures |ls| == |addrs| && forall i :: 0 <= i < |ls| ==> ls[i] == At(pages, root, addrs[i])
  {
    seq(|addrs|, i requires 0 <= i < |addrs| => At(pages, root, addrs[i]))
  }

  /** A range whose addresses are canonical and that does not wrap. */
  predicate CanonicalRange(ptr: nat, len: nat)
  {
    ptr + len < USIZE_LIMIT && (ptr + len <= VA_HALF || USIZE_LIMIT - VA_HALF <= ptr)
  }

  lemma {:induction false} CanonicalIsSliceable(ptr: nat, len: nat)
    requires CanonicalRange(ptr, len)
    ensures Sliceable(ptr, len)
  {
  }

  /** What masking takes off a canonical address. */
  function Half(a: nat): nat { if a < VA_HALF then 0 else USIZE_LIMIT - VA_LIMIT }

  lemma {:induction false} MaskedAddress(a: nat)
    requires Canonical(a)
    ensures VirtAddrFrom(a) == a - Half(a) && a - Half(a) == PageOf(a) * PAGE_SIZE + PageOffset(a - Half(a))
  {
  }

  /** The slice that one turn pushes. */
  function TurnSlice(start: nat, end: nat, ppn: nat): Slice
  {
    Slice(ppn, PageOffset(VirtAddrFrom(start)), SliceEnd(start, end))
  }

  /** The slice of a turn is the bytes that the turn covers. */
  lemma {:induction false} TurnLocs(pages: Pages, root: nat, start: nat, end: nat)
    requires Found(pages, root, PageOf(start)).Some? && !TurnPanics(start, end)
    ensures AllFound(pages, root, TurnBytes(start, end))
    ensures Locs(TurnSlice(start, end, At(pages, root, start).ppn)) == AllAt(pages, root, TurnBytes(start, end))
  {
    forall i | 0 <= i < |TurnBytes(start, end)|
      ensures PageOf(TurnBytes(start, end)[i]) == PageOf(start)
      ensures PageOffset(VirtAddrFrom(TurnBytes(start, end)[i])) == PageOffset(VirtAddrFrom(start)) + i
    {
      TurnByte(start, end, i);
    }
    PageLocs(pages, root, start, TurnBytes(start, end), TurnSlice(start, end, At(pages, root, start).ppn));
  }

  lemma {:induction false} PageLocs(pages: Pages, root: nat, start: nat, bytes: seq<nat>, s: Slice)
    requires Found(pages, root, PageOf(start)).Some? && s.ppn == At(pages, root, start).ppn
    requires s.from <= s.to && |bytes| == s.to - s.from
    requires forall i :: 0 <= i < |bytes| ==> PageOf(bytes[i]) == PageOf(start) && PageOffset(VirtAddrFrom(bytes[i])) == s.from + i
    ensures AllFound(pages, root, bytes) && Locs(s) == AllAt(pages, root, bytes)
  {
  }

  lemma {:induction false} TurnByte(start: nat, end: nat, i: nat)
    requires i < |TurnBytes(start, end)|
    ensures PageOf(TurnBytes(start, end)[i]) == PageOf(start)
    ensures PageOffset(VirtAddrFrom(TurnBytes(start, end)[i])) == PageOffset(VirtAddrFrom(start)) + i
  {
    WithinPage(VirtAddrFrom(start), i);
  }

  lemma {:induction false} WithinPage(va: nat, i: nat)
    requires va < VA_LIMIT && va % PAGE_SIZE + i < PAGE_SIZE
    ensures VirtAddrFrom(va + i) == va + i && (va + i) / PAGE_SIZE == va / PAGE_SIZE && (va + i) % PAGE_SIZE == va % PAGE_SIZE + i
  {
  }

  lemma {:induction false} AllAtJoin(pages: Pages, root: nat, a: seq<nat>, b: seq<nat>)
    requires AllFound(pages, root, a) && AllFound(pages, root, b)
    ensures AllFound(pages, root, a + b) && AllAt(pages, root, a + b) == AllAt(pages, root, a) + AllAt(pages, root, b)
  {
    forall i | 0 <= i < |a + b| ensures Found(pages, root, PageOf((a + b)[i])).Some? {
      assert (a + b)[i] == if i < |a| then a[i] else b[i - |a|];
    }
  }

  /** What `translated_byte_buffer` comes to: the slices, the panic on a page without a leaf
      table, or the panic on a slice that ends before it begins. */
  datatype Buffer = Slices(v: seq<Slice>) | NoTable | BadIndex

  /** `translated_byte_buffer`, on any range for which the loop halts, in turn `k`: it fails on
      the first page without a leaf table; otherwise the concatenation of its slices is what
      the turns cover. A sliceable range is covered as it is, by slices that are not empty. */
  method TranslatedByteBuffer(pt: SV39PageTable, ram: PhysMemory, ptr: nat, len: nat, ghost k: nat) returns (r: Buffer)
    requires pt.Valid(ram) && ptr < USIZE_LIMIT && len < USIZE_LIMIT && Halts(ptr, Wrap(ptr + len), k)
    ensures r.NoTable? <==> !AllFound(ram.pages, pt.rootPpn, Starts(ptr, Wrap(ptr + len), k))
    ensures !r.NoTable? ==> (r.Slices? <==> Stops(ptr, Wrap(ptr + len), k))
    ensures r.Slices? ==> StandsFor(ram.pages, pt.rootPpn, r.v, CoveredBy(ptr, Wrap(ptr + len), k))
    ensures Sliceable(ptr, len) ==> (r.Slices? <==> Reachable(ram.pages, pt.rootPpn, ptr, len))
    ensures Sliceable(ptr, len) && r.Slices? ==>
              Flat(r.v) == Range(ram.pages, pt.rootPpn, ptr, len) && forall i :: 0 <= i < |r.v| ==> Proper(r.v[i])
  {
    SliceableRange(ram.pages, pt.rootPpn, ptr, len, k);
    r := SliceLoop(pt, ram, ptr, Wrap(ptr + len), k);
  }

  /** The slices stand for the bytes at these masked addresses. */
  ghost predicate StandsFor(pages: Pages, root: nat, v: seq<Slice>, addrs: seq<nat>)
  {
    AllFound(pages, root, addrs) && Flat(v) == AllAt(pages, root, addrs)
  }

  method SliceLoop(pt: SV39PageTable, ram: PhysMemory, ptr: nat, end: nat, ghost k: nat) returns (r: Buffer)
    requires pt.Valid(ram) && Halts(ptr, end, k)
    ensures r.NoTable? <==> !AllFound(ram.pages, pt.rootPpn, Starts(ptr, end, k))
    ensures !r.NoTable? ==> (r.Slices? <==> Stops(ptr, end, k))
    ensures r.Slices? ==> StandsFor(ram.pages, pt.rootPpn, r.v, CoveredBy(ptr, end, k))
    ensures r.Slices? && (ptr >= end || Below(ptr, end, k)) ==> forall i :: 0 <= i < |r.v| ==> Proper(r.v[i])
  {
    var start := ptr;
    var v: seq<Slice> := [];
    ghost var g := Progress(start, k, [], []);
    while start < end
      invariant start == g.start && Going(ptr, end, k, g) && SoFar(ram.pages, pt.rootPpn, g, v)
      invariant ptr >= end || Below(ptr, end, k) ==> (start < end ==> Below(start, end, g.left)) && forall i :: 0 <= i < |v| ==> Proper(v[i])
      decreases g.left
    {
      var pte := pt.Translate(PageOf(start), ram);
      if pte.None? {
        StuckAt(ram.pages, pt.rootPpn, ptr, end, k, g);
        return NoTable;
      }
      if TurnPanics(start, end) {
        EndsBadly(ram.pages, pt.rootPpn, ptr, end, k, g);
        return BadIndex;
      }
      var s := TurnSlice(start, end, PtePpn(pte.value));
      ghost var g' := Pushed(ram.pages, pt.rootPpn, ptr, end, k, g, v, s);
      v, g, start := v + [s], g', Turn(start, end);
    }
    EndsWell(ram.pages, pt.rootPpn, ptr, end, k, g, v);
    return Slices(v);
  }

  /** The loop before a turn: how many turns are left, and what the others started at and
      covered. */
  datatype Progress = Progress(start: nat, left: nat, seen: seq<nat>, done: seq<nat>)

  ghost predicate Going(ptr: nat, end: nat, k: nat, g: Progress)
  {
    && Halts(g.start, end, g.left) && (Stops(ptr, end, k) <==> Stops(g.start, end, g.left))
    && Starts(ptr, end, k) == g.seen + Starts(g.start, end, g.left)
    && CoveredBy(ptr, end, k) == g.done + CoveredBy(g.start, end, g.left)
  }

  ghost predicate SoFar(pages: Pages, root: nat, g: Progress, v: seq<Slice>)
  {
    AllFound(pages, root, g.seen) && StandsFor(pages, root, v, g.done)
  }

  lemma {:induction false} StuckAt(pages: Pages, root: nat, ptr: nat, end: nat, k: nat, g: Progress)
    requires Going(ptr, end, k, g) && g.start < end && Found(pages, root, PageOf(g.start)).None?
    ensures !AllFound(pages, root, Starts(ptr, end, k))
  {
    assert Starts(ptr, end, k)[|g.seen|] == g.start;
  }

  lemma {:induction false} EndsBadly(pages: Pages, root: nat, ptr: nat, end: nat, k: nat, g: Progress)
    requires Going(ptr, end, k, g) && g.start < end && TurnPanics(g.start, end)
    requires AllFound(pages, root, g.seen) && Found(pages, root, PageOf(g.start)).Some?
    ensures AllFound(pages, root, Starts(ptr, end, k)) && !Stops(ptr, end, k)
  {
    assert Starts(g.start, end, 1) == [g.start] + Starts(Turn(g.start, end), end, 0);
  }

  lemma {:induction false} EndsWell(pages: Pages, root: nat, ptr: nat, end: nat, k: nat, g: Progress, v: seq<Slice>)
    requires Going(ptr, end, k, g) && SoFar(pages, root, g, v) && g.start >= end
    ensures Stops(ptr, end, k) && AllFound(pages, root, Starts(ptr, end, k)) && StandsFor(pages, root, v, CoveredBy(ptr, end, k))
  {
    assert g.left == 0 && g.seen + [] == g.seen && g.done + [] == g.done;
  }

  /** One turn that pushes a slice. */
  lemma {:induction false} Pushed(pages: Pages, root: nat, ptr: nat, end: nat, k: nat, g: Progress, v: seq<Slice>, s: Slice) returns (g': Progress)
    requires Going(ptr, end, k, g) && SoFar(pages, root, g, v) && g.start < end && !TurnPanics(g.start, end)
    requires Found(pages, root, PageOf(g.start)).Some? && s == TurnSlice(g.start, end, At(pages, root, g.start).ppn)
    ensures g'.start == Turn(g.start, end) && g'.left == g.left - 1 && Going(ptr, end, k, g') && SoFar(pages, root, g', v + [s])
    ensures Below(g.start, end, g.left) ==> Proper(s) && (g'.start < end ==> Below(g'.start, end, g'.left))
  {
    g' := GoesOn(ptr, end, k, g);
    SliceAdded(pages, root, end, g, v, s);
    if Below(g.start, end, g.left) {
      KeepsBelow(g.start, end, g.left);
      TurnBelow(g.start, end);
    }
  }

  lemma {:induction false} GoesOn(ptr: nat, end: nat, k: nat, g: Progress) returns (g': Progress)
    requires Going(ptr, end, k, g) && g.start < end && !TurnPanics(g.start, end)
    ensures g.left > 0 && g' == Progress(Turn(g.start, end), g.left - 1, g.seen + [g.start], g.done + TurnBytes(g.start, end))
    ensures Going(ptr, end, k, g')
  {
    var bytes, next := TurnBytes(g.start, end), Turn(g.start, end);
    g' := Progress(next, g.left - 1, g.seen + [g.start], g.done + bytes);
    assert g.seen + ([g.start] + Starts(next, end, g.left - 1)) == g.seen + [g.start] + Starts(next, end, g.left - 1);
    assert g.done + (bytes + CoveredBy(next, end, g.left - 1)) == g.done + bytes + CoveredBy(next, end, g.left - 1);
  }

  lemma {:induction false} SliceAdded(pages: Pages, root: nat, end: nat, g: Progress, v: seq<Slice>, s: Slice)
    requires SoFar(pages, root, g, v) && !TurnPanics(g.start, end)
    requires Found(pages, root, PageOf(g.start)).Some? && s == TurnSlice(g.start, end, At(pages, root, g.start).ppn)
    ensures AllFound(pages, root, g.seen + [g.start])
    ensures StandsFor(pages, root, v + [s], g.done + TurnBytes(g.start, end))
  {
    TurnLocs(pages, root, g.start, end);
    AllAtJoin(pages, root, g.done, TurnBytes(g.start, end));
    FlatSnoc(v, s);
  }

  /** A sliceable range: what the turns start at and cover is the range. */
  lemma {:induction false} SliceableRange(pages: Pages, root: nat, ptr: nat, len: nat, k: nat)
    requires ptr < USIZE_LIMIT && Halts(ptr, Wrap(ptr + len), k)
    ensures Sliceable(ptr, len) ==>
              && Stops(ptr, Wrap(ptr + len), k)
              && (AllFound(pages, root, Starts(ptr, Wrap(ptr + len), k)) <==> Reachable(pages, root, ptr, len))
              && (Reachable(pages, root, ptr, len) ==>
                    && AllFound(pages, root, CoveredBy(ptr, Wrap(ptr + len), k))
                    && AllAt(pages, root, CoveredBy(ptr, Wrap(ptr + len), k)) == Range(pages, root, ptr, len))
              && (ptr >= Wrap(ptr + len) || Below(ptr, Wrap(ptr + len), k))
  {
    if Sliceable(ptr, len) {
      SliceableRun(ptr, len, k);
      WantedRange(pages, root, ptr, len);
      if len > 0 {
        StartsFound(pages, root, ptr, Wrap(ptr + len), k);
      }
    }
  }

  lemma {:induction false} WantedRange(pages: Pages, root: nat, ptr: nat, len: nat)
    ensures AllFound(pages, root, Wanted(ptr, len)) <==> Reachable(pages, root, ptr, len)
    ensures Reachable(pages, root, ptr, len) ==> AllAt(pages, root, Wanted(ptr, len)) == Range(pages, root, ptr, len)
  {
    var w := Wanted(ptr, len);
    forall i | 0 <= i < len ensures PageOf(w[i]) == PageOf(ptr + i) && VirtAddrFrom(w[i]) == VirtAddrFrom(ptr + i) {
    }
    if AllFound(pages, root, w) {
      forall a | ptr <= a < ptr + len ensures Found(pages, root, PageOf(a)).Some? {
        assert PageOf(w[a - ptr]) == PageOf(a);
      }
    }
    if Reachable(pages, root, ptr, len) {
      forall i | 0 <= i < len ensures Found(pages, root, PageOf(w[i])).Some? && At(pages, root, w[i]) == At(pages, root, ptr + i) {
        var a := ptr + i;
        assert Found(pages, root, PageOf(a)).Some?;
      }
    }
  }

  /** A turn starts in the page that it covers. */
  lemma {:induction false} StartsFound(pages: Pages, root: nat, start: nat, end: nat, k: nat)
    requires Below(start, end, k)
    ensures AllFound(pages, root, Starts(start, end, k)) <==> AllFound(pages, root, CoveredBy(start, end, k))
    decreases k
  {
    var next := Turn(start, end);
    KeepsBelow(start, end, k);
    TurnFound(pages, root, start, end);
    if next < end {
      StartsFound(pages, root, next, end, k - 1);
    }
    FoundJoin(pages, root, [start], Starts(next, end, k - 1), TurnBytes(start, end), CoveredBy(next, end, k - 1));
  }

  lemma {:induction false} TurnFound(pages: Pages, root: nat, start: nat, end: nat)
    requires VirtAddrFrom(start) < VirtAddrFrom(end)
    ensures AllFound(pages, root, [start]) <==> AllFound(pages, root, TurnBytes(start, end))
  {
    TurnBelow(start, end);
    assert TurnBytes(start, end)[0] == VirtAddrFrom(start) && PageOf(VirtAddrFrom(start)) == PageOf(start);
    assert [start][0] == start;
    if Found(pages, root, PageOf(start)).Some? {
      TurnLocs(pages, root, start, end);
    }
  }

  lemma {:induction false} FoundJoin(pages: Pages, root: nat, a: seq<nat>, b: seq<nat>, c: seq<nat>, d: seq<nat>)
    requires AllFound(pages, root, a) <==> AllFound(pages, root, c)
    requires AllFound(pages, root, b) <==> AllFound(pages, root, d)
    ensures AllFound(pages, root, a + b) <==> AllFound(pages, root, c + d)
  {
    FoundBoth(pages, root, a, b);
    FoundBoth(pages, root, c, d);
  }

  lemma {:induction false} FoundBoth(pages: Pages, root: nat, a: seq<nat>, b: seq<nat>)
    ensures AllFound(pages, root, a + b) <==> AllFound(pages, root, a) && AllFound(pages, root, b)
  {
    assert forall i :: 0 <= i < |a| ==> (a + b)[i] == a[i];
    assert forall i :: 0 <= i < |b| ==> (a + b)[|a| + i] == b[i];
  }

  // ---- UserBuffer ----------------------------------------------------------------------

  ghost predicate Backing(pages: Pages, ls: seq<Loc>)
  {
    forall i :: 0 <= i < |ls| ==> ls[i].ppn in pages && ls[i].off < PAGE_SIZE
  }

  predicate OpenByte(k: Key) { true }

  ghost predicate IsByte(p: Page, k: nat, b: nat)
    requires k < PAGE_SIZE
  {
    forall key: Key :: OpenByte(key) ==> b == ByteAt(p, k)
  }

  /** The byte at `l`; `PeekByte` says how it lies in the page. */
  ghost function Peek(pages: Pages, l: Loc): nat
    requires l.ppn in pages && l.off < PAGE_SIZE
  {
    assert IsByte(pages[l.ppn], l.off, ByteAt(pages[l.ppn], l.off));
    var b: nat :| IsByte(pages[l.ppn], l.off, b);
    b
  }

  lemma {:induction false} PeekByte(pages: Pages, l: Loc)
    requires l.ppn in pages && l.off < PAGE_SIZE
    ensures Peek(pages, l) == ByteAt(pages[l.ppn], l.off)
  {
    assert OpenByte(Key);
  }

  /** The byte at `l` after `src` is stored at `ls[lo..hi]`, in order. */
  ghost function After(pages0: Pages, ls: seq<Loc>, lo: nat, hi: nat, src: seq<nat>, l: Loc): nat
    requires lo <= hi <= |ls| && hi - lo <= |src| && l.ppn in pages0 && l.off < PAGE_SIZE
    decreases hi
  {
    if hi == lo then Peek(pages0, l)
    else if ls[hi - 1] == l then src[hi - 1 - lo]
    else After(pages0, ls, lo, hi - 1, src, l)
  }

  /** `src` was stored at `ls[lo..hi]`, in order, and no frame without such a byte was touched. */
  ghost predicate Written(pages0: Pages, pages: Pages, ls: seq<Loc>, lo: nat, hi: nat, src: seq<nat>)
  {
    forall k: Key :: OpenWritten(k) ==> WrittenFacts(pages0, pages, ls, lo, hi, src)
  }

  predicate OpenWritten(k: Key) { true }

  ghost predicate WrittenFacts(pages0: Pages, pages: Pages, ls: seq<Loc>, lo: nat, hi: nat, src: seq<nat>)
  {
    && lo <= hi <= |ls| && hi - lo <= |src|
    && pages.Keys == pages0.Keys
    && (forall l: Loc :: l.ppn in pages0 && l.off < PAGE_SIZE ==> Peek(pages, l) == After(pages0, ls, lo, hi, src, l))
    && (forall p :: p in pages0 && (forall i :: lo <= i < hi ==> ls[i].ppn != p) ==> pages[p] == pages0[p])
  }

  lemma {:induction false} NothingWritten(pages: Pages, ls: seq<Loc>, lo: nat, src: seq<nat>)
    requires lo <= |ls|
    ensures Written(pages, pages, ls, lo, lo, src)
  {
  }

  /** `ls[mid..hi]` lies in one frame from offset `at` on. */
  ghost predicate Block(ls: seq<Loc>, mid: nat, hi: nat, ppn: nat, at: nat)
    requires mid <= hi <= |ls|
  {
    forall i :: mid <= i < hi ==> ls[i] == Loc(ppn, at + (i - mid))
  }

  lemma {:induction false} AfterBlock(pages0: Pages, ls: seq<Loc>, lo: nat, mid: nat, hi: nat, src: seq<nat>, l: Loc, ppn: nat, at: nat)
    requires lo <= mid <= hi <= |ls| && hi - lo <= |src| && l.ppn in pages0 && l.off < PAGE_SIZE && Block(ls, mid, hi, ppn, at)
    ensures After(pages0, ls, lo, hi, src, l) ==
            if l.ppn == ppn && at <= l.off < at + (hi - mid) then src[mid - lo + (l.off - at)] else After(pages0, ls, lo, mid, src, l)
    decreases hi
  {
    if mid < hi {
      AfterBlock(pages0, ls, lo, mid, hi - 1, src, l, ppn, at);
      assert ls[hi - 1] == Loc(ppn, at + (hi - 1 - mid));
    }
  }

  /** A byte that is stored once, or not at all. */
  lemma {:induction false} AfterOnce(pages0: Pages, ls: seq<Loc>, lo: nat, hi: nat, src: seq<nat>, l: Loc)
    requires lo <= hi <= |ls| && hi - lo <= |src| && l.ppn in pages0 && l.off < PAGE_SIZE
    requires forall i, j :: lo <= i < j < hi ==> ls[i] != ls[j]
    ensures forall i :: lo <= i < hi && ls[i] == l ==> After(pages0, ls, lo, hi, src, l) == src[i - lo]
    ensures (forall i :: lo <= i < hi ==> ls[i] != l) ==> After(pages0, ls, lo, hi, src, l) == Peek(pages0, l)
    decreases hi
  {
    if lo < hi {
      AfterOnce(pages0, ls, lo, hi - 1, src, l);
    }
  }

  /** Storing the bytes for `ls[mid..hi]`, which lie in one frame, after those for `ls[lo..mid]`. */
  lemma {:induction false} WrittenMore(pages0: Pages, pages1: Pages, ls: seq<Loc>, lo: nat, mid: nat, hi: nat, src: seq<nat>, ppn: nat, at: nat,
                    bs: seq<nat>)
    requires lo <= mid < hi <= |ls| && hi - lo <= |src| && AreBytes(src) && bs == src[mid - lo..hi - lo]
    requires Written(pages0, pages1, ls, lo, mid, src)
    requires ppn in pages1 && Block(ls, mid, hi, ppn, at)
    ensures Written(pages0, pages1[ppn := WithBytes(pages1[ppn], at, bs)], ls, lo, hi, src)
  {
    assert OpenWritten(Key);
    var pages := pages1[ppn := WithBytes(pages1[ppn], at, bs)];
    forall l: Loc | l.ppn in pages0 && l.off < PAGE_SIZE ensures Peek(pages, l) == After(pages0, ls, lo, hi, src, l) {
      AfterBlock(pages0, ls, lo, mid, hi, src, l, ppn, at);
      PeekByte(pages1, l);
      PeekByte(pages, l);
      if l.ppn == ppn {
        WithBytesAt(pages1[ppn], at, bs, l.off);
      }
    }
    assert ls[mid].ppn == ppn;
  }

  /** `UserBuffer::len`. */
  method BufferLen(v: seq<Slice>) returns (total: nat)
    requires forall i :: 0 <= i < |v| ==> Proper(v[i])
    ensures total == |Flat(v)|
  {
    total := 0;
    ghost var starts := LayOut(v);
    for i := 0 to |v|
      invariant total == starts[i]
    {
      total := total + (v[i].to - v[i].from);
    }
  }

  function OrZero(offset: Option<nat>): nat { if offset.Some? then offset.value else 0 }

  function Moved(total: nat, offset: nat, len: nat): nat
  {
    if offset >= total then 0 else if total - offset < len then total - offset else len
  }

  function Max(a: nat, b: nat): nat { if a < b then b else a }
  function Min(a: nat, b: nat): nat { if a < b then a else b }

  /** How far a copy of `len` bytes from `o` on has come when the first `d` bytes of the flat
      sequence have been passed. */
  function Done(d: nat, o: nat, len: nat): nat
  {
    if d <= o then 0 else Min(d - o, len)
  }

  /** Slice `i` stands at `starts[i]` in the flat sequence. */
  ghost predicate LaidOut(v: seq<Slice>, ls: seq<Loc>, starts: seq<nat>)
  {
    && |starts| == |v| + 1 && starts[0] == 0 && starts[|v|] == |ls|
    && (forall i :: 0 <= i < |v| ==> StandsAt(v[i], ls, starts[i]) && starts[i + 1] == starts[i] + (v[i].to - v[i].from))
  }

  ghost predicate StandsAt(s: Slice, ls: seq<Loc>, d: nat)
  {
    Proper(s) && d + (s.to - s.from) <= |ls| && Block(ls, d, d + (s.to - s.from), s.ppn, s.from)
  }

  lemma {:induction false} LayOut(v: seq<Slice>) returns (starts: seq<nat>)
    requires forall i :: 0 <= i < |v| ==> Proper(v[i])
    ensures LaidOut(v, Flat(v), starts)
  {
    if v == [] {
      starts := [0];
    } else {
      var n := |v| - 1;
      var u, ls := v[..n], Flat(v);
      starts := LayOut(u);
      forall i | 0 <= i < n ensures StandsAt(v[i], ls, starts[i]) {
        assert v[i] == u[i] && StandsAt(u[i], Flat(u), starts[i]);
      }
      starts := starts + [|ls|];
    }
  }

  /** One turn of the loop of `write_buffer`: slice `s` starts at `d` in the flat sequence, and
      `ls[o..mid]` is written. */
  method WriteSlice(s: Slice, ram: PhysMemory, d: nat, o: nat, src: seq<nat>,
                    ghost ls: seq<Loc>, ghost mid: nat, ghost pages0: Pages)
    returns (n: nat, ghost hi: nat)
    requires StandsAt(s, ls, d) && s.ppn in ram.pages && AreBytes(src)
    requires mid == o + Done(d, o, |src|) && Written(pages0, ram.pages, ls, o, mid, src)
    modifies ram
    ensures ram.pages.Keys == old(ram.pages.Keys)
    ensures hi == mid + n == o + Done(d + (s.to - s.from), o, |src|)
    ensures Written(pages0, ram.pages, ls, o, hi, src) && (n == 0 ==> ram.pages == old(ram.pages))
  {
    var dstEnd := d + (s.to - s.from);
    var copyStart, copyEnd := Max(d, o), Min(dstEnd, o + |src|);
    if copyStart >= copyEnd {
      return 0, mid;
    }
    var srcStart := copyStart - o;
    var srcEnd := srcStart + (copyEnd - copyStart);
    var at := s.from + (copyStart - d);
    assert mid == copyStart;
    assert Block(ls, copyStart, copyEnd, s.ppn, at);
    var bs := src[srcStart..srcEnd];
    WrittenMore(pages0, ram.pages, ls, o, copyStart, copyEnd, src, s.ppn, at, bs);
    ram.pages := ram.pages[s.ppn := WithBytes(ram.pages[s.ppn], at, bs)];
    n, hi := copyEnd - copyStart, copyEnd;
  }

  /** The loop of `write_buffer`. */
  method WriteSlices(v: seq<Slice>, ram: PhysMemory, o: nat, src: seq<nat>, ghost ls: seq<Loc>, ghost starts: seq<nat>)
    returns (n: nat, ghost hi: nat)
    requires LaidOut(v, ls, starts) && (forall i :: 0 <= i < |v| ==> v[i].ppn in ram.pages) && AreBytes(src) && o <= |ls|
    modifies ram
    ensures hi == o + n == o + Done(|ls|, o, |src|) && Written(old(ram.pages), ram.pages, ls, o, hi, src)
    ensures n == 0 ==> ram.pages == old(ram.pages)
  {
    var dstStart := 0;
    ghost var pages0 := ram.pages;
    n, hi := 0, o;
    NothingWritten(ram.pages, ls, o, src);
    for i := 0 to |v|
      invariant dstStart == starts[i] && hi == o + n == o + Done(dstStart, o, |src|)
      invariant Written(pages0, ram.pages, ls, o, hi, src)
      invariant ram.pages.Keys == pages0.Keys && (n == 0 ==> ram.pages == pages0)
    {
      var more;
      more, hi := WriteSlice(v[i], ram, dstStart, o, src, ls, hi, pages0);
      n := n + more;
      dstStart := dstStart + (v[i].to - v[i].from);
    }
  }

  method WriteFrom(v: seq<Slice>, ram: PhysMemory, o: nat, src: seq<nat>) returns (n: nat, ghost hi: nat)
    requires (forall i :: 0 <= i < |v| ==> Proper(v[i]) && v[i].ppn in ram.pages) && AreBytes(src) && o < |Flat(v)|
    modifies ram
    ensures n == Moved(|Flat(v)|, o, |src|) && hi == o + n && (n == 0 ==> ram.pages == old(ram.pages))
    ensures Written(old(ram.pages), ram.pages, Flat(v), o, hi, src)
  {
    ghost var starts := LayOut(v);
    MovedIsDone(|Flat(v)|, o, |src|);
    n, hi := WriteSlices(v, ram, o, src, Flat(v), starts);
  }

  /** `UserBuffer::write_buffer`: an update of the flat sequence. Slice lengths are bounded by
      the address space, so `offset + src.len()` does not wrap. */
  method WriteBuffer(v: seq<Slice>, ram: PhysMemory, offset: Option<nat>, src: seq<nat>)
    returns (n: nat, ghost hi: nat)
    requires (forall i :: 0 <= i < |v| ==> Proper(v[i]) && v[i].ppn in ram.pages) && AreBytes(src)
    requires |Flat(v)| + |src| < USIZE_LIMIT
    modifies ram
    ensures n == Moved(|Flat(v)|, OrZero(offset), |src|) && hi == OrZero(offset) + n
    ensures n == 0 ==> ram.pages == old(ram.pages)
    ensures OrZero(offset) < |Flat(v)| ==> Written(old(ram.pages), ram.pages, Flat(v), OrZero(offset), hi, src)
  {
    var total := BufferLen(v);
    if OrZero(offset) >= total {
      n, hi := 0, OrZero(offset);
    } else {
      n, hi := WriteFrom(v, ram, OrZero(offset), src);
    }
  }

  lemma {:induction false} MovedIsDone(total: nat, o: nat, len: nat)
    requires o < total
    ensures Done(total, o, len) == Moved(total, o, len)
  {
  }

  /** All of `bytes` into a buffer of that length. */
  method WriteAll(v: seq<Slice>, ram: PhysMemory, bytes: seq<nat>, ghost ls: seq<Loc>)
    requires (forall i :: 0 <= i < |v| ==> Proper(v[i]) && v[i].ppn in ram.pages) && AreBytes(bytes)
    requires ls == Flat(v) && 0 < |ls| == |bytes| < VA_LIMIT
    modifies ram
    ensures Written(old(ram.pages), ram.pages, ls, 0, |bytes|, bytes)
  {
    ghost var hi;
    var n;
    n, hi := WriteBuffer(v, ram, None, bytes);
    assert n == hi == |bytes|;
  }

  /** `dst` holds the `n` bytes from `ls[o]` on, followed by what it held before. */
  ghost predicate Fetched(pages: Pages, ls: seq<Loc>, o: nat, n: nat, dst0: seq<nat>, dst: seq<nat>)
    requires Backing(pages, ls)
  {
    && |dst| == |dst0| && n <= |dst| && o + n <= |ls|
    && (forall k :: 0 <= k < n ==> dst[k] == Peek(pages, ls[o + k]))
    && (forall k :: n <= k < |dst| ==> dst[k] == dst0[k])
  }

  /** One turn of the loop of `read`. */
  method ReadSlice(s: Slice, ram: PhysMemory, d: nat, o: nat, dst: array<nat>, ghost ls: seq<Loc>, ghost dst0: seq<nat>)
    returns (n: nat)
    requires StandsAt(s, ls, d) && s.ppn in ram.pages && Backing(ram.pages, ls)
    requires Fetched(ram.pages, ls, o, Done(d, o, dst.Length), dst0, dst[..])
    modifies dst
    ensures var d' := d + (s.to - s.from);
            && Done(d', o, dst.Length) == Done(d, o, dst.Length) + n
            && Fetched(ram.pages, ls, o, Done(d', o, dst.Length), dst0, dst[..])
  {
    var dstEnd := d + (s.to - s.from);
    var copyStart, copyEnd := Max(d, o), Min(dstEnd, o + dst.Length);
    if copyStart >= copyEnd {
      return 0;
    }
    var srcStart := copyStart - o;
    var at := s.from + (copyStart - d);
    assert forall k :: 0 <= k < srcStart ==> dst[k] == dst[..][k];
    forall k | srcStart <= k < srcStart + (copyEnd - copyStart) {
      dst[k] := ByteAt(ram.pages[s.ppn], at + (k - srcStart));
    }
    assert Done(d, o, dst.Length) == srcStart && Done(dstEnd, o, dst.Length) == srcStart + (copyEnd - copyStart);
    forall k | srcStart <= k < srcStart + (copyEnd - copyStart) ensures dst[k] == Peek(ram.pages, ls[o + k]) {
      assert ls[o + k] == Loc(s.ppn, s.from + (o + k - d));
      PeekByte(ram.pages, ls[o + k]);
    }
    return copyEnd - copyStart;
  }

  /** `UserBuffer::read`: a read of the flat sequence into the front of `dst`. */
  method ReadBuffer(v: seq<Slice>, ram: PhysMemory, offset: Option<nat>, dst: array<nat>) returns (n: nat)
    requires (forall i :: 0 <= i < |v| ==> Proper(v[i]) && v[i].ppn in ram.pages) && Backing(ram.pages, Flat(v))
    requires |Flat(v)| + dst.Length < USIZE_LIMIT
    modifies dst
    ensures n == Moved(|Flat(v)|, OrZero(offset), dst.Length)
    ensures n == 0 ==> dst[..] == old(dst[..])
    ensures n > 0 ==> Fetched(ram.pages, Flat(v), OrZero(offset), n, old(dst[..]), dst[..])
  {
    var o := OrZero(offset);
    var total := BufferLen(v);
    if o >= total {
      return 0;
    }
    n := 0;
    var dstStart := 0;
    var i := 0;
    ghost var ls, dst0 := Flat(v), dst[..];
    ghost var starts := LayOut(v);
    while i < |v|
      invariant 0 <= i <= |v| && dstStart == starts[i] && n == Done(dstStart, o, dst.Length)
      invariant Fetched(ram.pages, ls, o, n, dst0, dst[..])
    {
      var more := ReadSlice(v[i], ram, dstStart, o, dst, ls, dst0);
      n := n + more;
      dstStart, i := dstStart + (v[i].to - v[i].from), i + 1;
      if more > 0 && n == dst.Length {
        break;
      }
    }
    assert n < dst.Length ==> dstStart == total;
  }

  // ---- UserBufferIterator --------------------------------------------------------------

  /** The byte iterator over a user buffer. */
  class UserBufferIterator {
    const buffers: seq<Slice>
    var currentBuffer: nat
    var currentIdx: nat
    /** How many bytes have been handed out, and where each slice starts. */
    ghost var pos: nat
    ghost const starts: seq<nat>

    ghost predicate Valid()
      reads this
    {
      && LaidOut(buffers, Flat(buffers), starts) && currentBuffer <= |buffers|
      && (if currentBuffer < |buffers| then currentIdx < buffers[currentBuffer].to - buffers[currentBuffer].from
          else currentIdx == 0)
      && pos == starts[currentBuffer] + currentIdx
    }

    constructor (buffers: seq<Slice>)
      requires forall i :: 0 <= i < |buffers| ==> Proper(buffers[i])
      ensures Valid() && pos == 0 && this.buffers == buffers
    {
      this.buffers := buffers;
      currentBuffer, currentIdx, pos := 0, 0, 0;
      ghost var layout := LayOut(buffers);
      this.starts := layout;
    }

    /** The `pos`-th call yields byte `pos` of the flat sequence; after the last byte, nothing. */
    method Next() returns (r: Option<Loc>)
      requires Valid()
      modifies this
      ensures Valid() && old(pos) <= |Flat(buffers)|
      ensures r == if old(pos) < |Flat(buffers)| then Some(Flat(buffers)[old(pos)]) else None
      ensures pos == if old(pos) < |Flat(buffers)| then old(pos) + 1 else old(pos)
    {
      if currentBuffer >= |buffers| {
        return None;
      }
      var s := buffers[currentBuffer];
      assert StandsAt(s, Flat(buffers), starts[currentBuffer]);
      r := Some(Loc(s.ppn, s.from + currentIdx));
      if currentIdx + 1 == s.to - s.from {
        currentIdx := 0;
        currentBuffer := currentBuffer + 1;
      } else {
        currentIdx := currentIdx + 1;
      }
      pos := pos + 1;
    }
  }

  // ---- copy_to_user and copy_from_user -------------------------------------------------

  /** The range lies in one page. */
  predicate InOnePage(ptr: nat, len: nat) { PageOffset(VirtAddrFrom(ptr)) + len <= PAGE_SIZE }

  /** The ranges that the copies handle, one page or sliceable. */
  predicate Copyable(ptr: nat, len: nat)
  {
    0 < len && ptr < USIZE_LIMIT && (InOnePage(ptr, len) || Sliceable(ptr, len))
  }

  /** The test that the copies make is the right one. */
  lemma {:induction false} OnePageTest(ptr: nat, len: nat)
    requires Copyable(ptr, len)
    ensures PageOf(ptr) == PageOf(ptr + len - 1) <==> InOnePage(ptr, len)
  {
    var m := VirtAddrFrom(ptr);
    if InOnePage(ptr, len) {
      InPageAddress(ptr, len - 1);
    } else {
      MaskedEnd(ptr, len - 1);
      assert VirtAddrFrom(ptr + (len - 1)) == m + (len - 1);
      LaterPage(m, len - 1);
    }
  }

  lemma {:induction false} LaterPage(va: nat, d: nat)
    requires va % PAGE_SIZE + d >= PAGE_SIZE
    ensures (va + d) / PAGE_SIZE > va / PAGE_SIZE
  {
  }

  lemma {:induction false} InPageAddress(ptr: nat, d: nat)
    requires PageOffset(VirtAddrFrom(ptr)) + d < PAGE_SIZE
    ensures PageOf(ptr + d) == PageOf(ptr) && PageOffset(VirtAddrFrom(ptr + d)) == PageOffset(VirtAddrFrom(ptr)) + d
  {
    var m := VirtAddrFrom(ptr);
    WithinPage(m, d);
    assert m + d < VA_LIMIT;
    MaskedEnd(ptr, d);
  }

  /** Bytes in one page are one block. */
  lemma {:induction false} OnePageBlock(pages: Pages, root: nat, ptr: nat, len: nat)
    requires 0 < len && InOnePage(ptr, len)
    ensures Reachable(pages, root, ptr, len) <==> Found(pages, root, PageOf(ptr)).Some?
    ensures Reachable(pages, root, ptr, len) ==>
              Block(Range(pages, root, ptr, len), 0, len, At(pages, root, ptr).ppn, PageOffset(VirtAddrFrom(ptr)))
  {
    var off := PageOffset(VirtAddrFrom(ptr));
    forall a | ptr <= a < ptr + len ensures PageOf(a) == PageOf(ptr) && PageOffset(VirtAddrFrom(a)) == off + (a - ptr) {
      InPageAddress(ptr, a - ptr);
    }
    if Reachable(pages, root, ptr, len) {
      assert Found(pages, root, PageOf(ptr)).Some?;
      var ls := Range(pages, root, ptr, len);
      forall i | 0 <= i < len ensures ls[i] == Loc(At(pages, root, ptr).ppn, off + i) {
        var a := ptr + i;
        assert ls[i] == At(pages, root, a);
        assert PageOf(a) == PageOf(ptr) && PageOffset(VirtAddrFrom(a)) == off + (a - ptr);
      }
    }
  }

  /** What is translated is memory. */
  ghost predicate Sane(pages: Pages, root: nat, ptr: nat, len: nat)
  {
    Reachable(pages, root, ptr, len) ==> Backing(pages, Range(pages, root, ptr, len))
  }

  lemma {:induction false} SlicesBacked(v: seq<Slice>, pages: Pages)
    requires (forall i :: 0 <= i < |v| ==> Proper(v[i])) && Backing(pages, Flat(v))
    ensures forall i :: 0 <= i < |v| ==> v[i].ppn in pages
  {
    var starts := LayOut(v);
    forall i | 0 <= i < |v| ensures v[i].ppn in pages {
      assert StandsAt(v[i], Flat(v), starts[i]);
      assert Flat(v)[starts[i]].ppn == v[i].ppn;
    }
  }

  /** The slices of a sliceable range, or nothing where `translated_byte_buffer` panics. */
  method SlicesOf(pt: SV39PageTable, ram: PhysMemory, ptr: nat, len: nat) returns (r: Option<seq<Slice>>)
    requires pt.Valid(ram) && ptr < USIZE_LIMIT && 0 < len && Sliceable(ptr, len) && Sane(ram.pages, pt.rootPpn, ptr, len)
    ensures r.Some? <==> Reachable(ram.pages, pt.rootPpn, ptr, len)
    ensures r.Some? ==> && Flat(r.value) == Range(ram.pages, pt.rootPpn, ptr, len) && |Flat(r.value)| == len < VA_LIMIT
                        && forall i :: 0 <= i < |r.value| ==> Proper(r.value[i]) && r.value[i].ppn in ram.pages
  {
    ghost var k := SliceableStops(ptr, len);
    StopsHalts(ptr, Wrap(ptr + len), k);
    var b := TranslatedByteBuffer(pt, ram, ptr, len, k);
    if !b.Slices? {
      return None;
    }
    SlicesBacked(b.v, ram.pages);
    return Some(b.v);
  }

  /** `copy_to_user`: whichever way it goes, `bytes` are stored over the virtual range; where a
      page of it has no leaf table, the call panics and nothing is stored. */
  method CopyToUser(pt: SV39PageTable, ram: PhysMemory, bytes: seq<nat>, dst: nat) returns (ok: bool)
    requires pt.Valid(ram) && AreBytes(bytes) && Copyable(dst, |bytes|) && Sane(ram.pages, pt.rootPpn, dst, |bytes|)
    modifies ram
    ensures ok <==> old(Reachable(ram.pages, pt.rootPpn, dst, |bytes|))
    ensures !ok ==> ram.pages == old(ram.pages)
    ensures ok ==> Written(old(ram.pages), ram.pages, old(Range(ram.pages, pt.rootPpn, dst, |bytes|)), 0, |bytes|, bytes)
  {
    OnePageTest(dst, |bytes|);
    if PageOf(dst) == PageOf(dst + |bytes| - 1) {
      var pte := pt.Translate(PageOf(dst), ram);
      OnePageBlock(ram.pages, pt.rootPpn, dst, |bytes|);
      if pte.None? {
        return false;
      }
      var ppn, off := PtePpn(pte.value), PageOffset(VirtAddrFrom(dst));
      ghost var ls := Range(ram.pages, pt.rootPpn, dst, |bytes|);
      assert ls[0].ppn == ppn;
      CopyIn(ram, ppn, off, bytes, ls);
    } else {
      var v := SlicesOf(pt, ram, dst, |bytes|);
      if v.None? {
        return false;
      }
      WriteAll(v.value, ram, bytes, Range(ram.pages, pt.rootPpn, dst, |bytes|));
    }
    return true;
  }

  /** Copy bytes into one page. */
  method CopyIn(ram: PhysMemory, ppn: nat, off: nat, bytes: seq<nat>, ghost ls: seq<Loc>)
    requires ppn in ram.pages && 0 < |bytes| == |ls| && AreBytes(bytes) && Block(ls, 0, |bytes|, ppn, off)
    modifies ram
    ensures Written(old(ram.pages), ram.pages, ls, 0, |bytes|, bytes)
  {
    NothingWritten(ram.pages, ls, 0, bytes);
    WrittenMore(ram.pages, ram.pages, ls, 0, 0, |bytes|, bytes, ppn, off, bytes);
    ram.pages := ram.pages[ppn := WithBytes(ram.pages[ppn], off, bytes)];
  }

  /** Copy bytes of one page out. */
  method CopyOut(ram: PhysMemory, ppn: nat, off: nat, dst: array<nat>, ghost ls: seq<Loc>)
    requires ppn in ram.pages && off + dst.Length <= PAGE_SIZE && |ls| == dst.Length && Backing(ram.pages, ls)
    requires Block(ls, 0, dst.Length, ppn, off)
    modifies dst
    ensures Fetched(ram.pages, ls, 0, dst.Length, old(dst[..]), dst[..])
  {
    forall k | 0 <= k < dst.Length {
      dst[k] := ByteAt(ram.pages[ppn], off + k);
    }
    forall k | 0 <= k < dst.Length ensures dst[k] == Peek(ram.pages, ls[k]) {
      PeekByte(ram.pages, ls[k]);
    }
  }

  /** `copy_from_user`: whichever way it goes, the bytes of the virtual range are read; where a
      page of it has no leaf table, the call panics. */
  method CopyFromUser(pt: SV39PageTable, ram: PhysMemory, src: nat, dst: array<nat>) returns (ok: bool)
    requires pt.Valid(ram) && Copyable(src, dst.Length) && Sane(ram.pages, pt.rootPpn, src, dst.Length)
    modifies dst
    ensures ok <==> Reachable(ram.pages, pt.rootPpn, src, dst.Length)
    ensures !ok ==> dst[..] == old(dst[..])
    ensures ok ==> Fetched(ram.pages, Range(ram.pages, pt.rootPpn, src, dst.Length), 0, dst.Length, old(dst[..]), dst[..])
  {
    OnePageTest(src, dst.Length);
    if PageOf(src) == PageOf(src + dst.Length - 1) {
      var pte := pt.Translate(PageOf(src), ram);
      OnePageBlock(ram.pages, pt.rootPpn, src, dst.Length);
      if pte.None? {
        return false;
      }
      ghost var ls := Range(ram.pages, pt.rootPpn, src, dst.Length);
      var ppn, off := PtePpn(pte.value), PageOffset(VirtAddrFrom(src));
      assert ls[0].ppn == ppn;
      CopyOut(ram, ppn, off, dst, ls);
    } else {
      var v := SlicesOf(pt, ram, src, dst.Length);
      if v.None? {
        return false;
      }
      var n := ReadBuffer(v.value, ram, None, dst);
      assert n == dst.Length;
    }
    return true;
  }

  // ---- user memory as one flat store ---------------------------------------------------

  ghost function UserLoc(flat: map<nat, nat>, a: nat): Loc
    requires PageOf(a) in flat
  {
    Loc(PtePpn(flat[PageOf(a)]), PageOffset(VirtAddrFrom(a)))
  }

  /** The byte that a process sees at `a`. */
  ghost function UserByte(pages: Pages, flat: map<nat, nat>, a: nat): nat
    requires PageOf(a) in flat && PtePpn(flat[PageOf(a)]) in pages
  {
    Peek(pages, UserLoc(flat, a))
  }

  ghost predicate InPages(vs: set<nat>, ptr: nat, len: nat)
  {
    forall a :: ptr <= a < ptr + len ==> PageOf(a) in vs
  }

  /** Two addresses of user pages never share a byte. */
  lemma {:induction false} UserLocApart(vs: set<nat>, flat: map<nat, nat>, own: map<nat, nat>, a: nat, b: nat)
    requires Behind(vs, flat, own) && PageOf(a) in vs && PageOf(b) in vs && Canonical(a) && Canonical(b) && a != b
    ensures UserLoc(flat, a) != UserLoc(flat, b)
  {
    MaskedAddress(a);
    MaskedAddress(b);
  }

  /** For a range in user pages, the walk finds what the flat map says, in data frames. */
  lemma {:induction false} UserRange(pages: Pages, root: nat, frames: seq<nat>, kind: map<nat, Path>, flat: map<nat, nat>, own: map<nat, nat>,
                  vs: set<nat>, ptr: nat, len: nat)
    requires TableOk(pages, root, frames, kind, flat) && Behind(vs, flat, own) && own.Keys <= pages.Keys
    requires InPages(vs, ptr, len)
    ensures Reachable(pages, root, ptr, len) && Backing(pages, Range(pages, root, ptr, len))
    ensures IsUserRange(flat, own, Range(pages, root, ptr, len), ptr)
  {
    forall a | ptr <= a < ptr + len
      ensures PageOf(a) in flat && Found(pages, root, PageOf(a)) == Some(flat[PageOf(a)]) && PtePpn(flat[PageOf(a)]) in own
    {
      FoundIsFlat(pages, root, frames, kind, flat, PageOf(a));
    }
    assert Reachable(pages, root, ptr, len);
    var ls := Range(pages, root, ptr, len);
    forall i | 0 <= i < len ensures PageOf(ptr + i) in flat && ls[i] == UserLoc(flat, ptr + i) && ls[i].ppn in own {
      var a := ptr + i;
      assert ls[i] == At(pages, root, a) && PageOf(a) in flat;
    }
  }

  lemma {:induction false} FoundIsFlat(pages: Pages, root: nat, frames: seq<nat>, kind: map<nat, Path>, flat: map<nat, nat>, v: nat)
    requires TableOk(pages, root, frames, kind, flat) && v in flat
    ensures Found(pages, root, v) == Some(flat[v])
  {
    assert OpenTable(Key);
    assert Lookup(pages, root, v) == Some(flat[v]);
  }

  /** What a store to user memory does to the store as the process sees it. */
  ghost predicate UserWritten(pages0: Pages, pages: Pages, vs: set<nat>, flat: map<nat, nat>, own: map<nat, nat>,
                              ptr: nat, bytes: seq<nat>)
    requires Behind(vs, flat, own) && own.Keys <= pages0.Keys
  {
    && pages.Keys == pages0.Keys
    && (forall p :: p in pages0 && p !in own ==> pages[p] == pages0[p])
    && (forall a: nat :: Canonical(a) && PageOf(a) in vs ==>
                      UserByte(pages, flat, a) ==
                      if ptr <= a < ptr + |bytes| then bytes[a - ptr] else UserByte(pages0, flat, a))
  }

  /** `ls` is the range from `ptr` on, in data frames. */
  ghost predicate IsUserRange(flat: map<nat, nat>, own: map<nat, nat>, ls: seq<Loc>, ptr: nat)
  {
    forall i :: 0 <= i < |ls| ==> PageOf(ptr + i) in flat && ls[i] == UserLoc(flat, ptr + i) && ls[i].ppn in own
  }

  lemma {:induction false} UserRangeApart(vs: set<nat>, flat: map<nat, nat>, own: map<nat, nat>, ls: seq<Loc>, ptr: nat)
    requires Behind(vs, flat, own) && CanonicalRange(ptr, |ls|) && InPages(vs, ptr, |ls|) && IsUserRange(flat, own, ls, ptr)
    ensures NoDup(ls)
  {
    forall i, j | 0 <= i < j < |ls| ensures ls[i] != ls[j] {
      UserLocApart(vs, flat, own, ptr + i, ptr + j);
    }
  }

  lemma {:induction false} AfterAt(pages0: Pages, vs: set<nat>, flat: map<nat, nat>, own: map<nat, nat>, ls: seq<Loc>,
                                   ptr: nat, bytes: seq<nat>, a: nat)
    requires Behind(vs, flat, own) && own.Keys <= pages0.Keys && CanonicalRange(ptr, |bytes|) && InPages(vs, ptr, |bytes|)
    requires |ls| == |bytes| && IsUserRange(flat, own, ls, ptr) && NoDup(ls) && Canonical(a) && PageOf(a) in vs
    ensures After(pages0, ls, 0, |bytes|, bytes, UserLoc(flat, a)) ==
            if ptr <= a < ptr + |bytes| then bytes[a - ptr] else UserByte(pages0, flat, a)
  {
    var l := UserLoc(flat, a);
    AfterOnce(pages0, ls, 0, |ls|, bytes, l);
    if ptr <= a < ptr + |bytes| {
      assert ls[a - ptr] == l;
    } else {
      NotInRange(vs, flat, own, ls, ptr, a);
    }
  }

  lemma {:induction false} NotInRange(vs: set<nat>, flat: map<nat, nat>, own: map<nat, nat>, ls: seq<Loc>, ptr: nat, a: nat)
    requires Behind(vs, flat, own) && CanonicalRange(ptr, |ls|) && InPages(vs, ptr, |ls|)
    requires IsUserRange(flat, own, ls, ptr) && Canonical(a) && PageOf(a) in vs && !(ptr <= a < ptr + |ls|)
    ensures forall i :: 0 <= i < |ls| ==> ls[i] != UserLoc(flat, a)
  {
    forall i | 0 <= i < |ls| ensures ls[i] != UserLoc(flat, a) {
      UserLocApart(vs, flat, own, ptr + i, a);
    }
  }

  lemma {:induction false} WrittenToUser(pages0: Pages, pages: Pages, vs: set<nat>, flat: map<nat, nat>, own: map<nat, nat>, ls: seq<Loc>,
                      ptr: nat, bytes: seq<nat>)
    requires Behind(vs, flat, own) && own.Keys <= pages0.Keys && CanonicalRange(ptr, |bytes|) && InPages(vs, ptr, |bytes|)
    requires |ls| == |bytes| && Written(pages0, pages, ls, 0, |bytes|, bytes) && IsUserRange(flat, own, ls, ptr)
    ensures UserWritten(pages0, pages, vs, flat, own, ptr, bytes)
  {
    assert OpenWritten(Key);
    UserRangeApart(vs, flat, own, ls, ptr);
    forall a: nat | Canonical(a) && PageOf(a) in vs
      ensures UserByte(pages, flat, a) == if ptr <= a < ptr + |bytes| then bytes[a - ptr] else UserByte(pages0, flat, a)
    {
      AfterAt(pages0, vs, flat, own, ls, ptr, bytes, a);
      assert UserByte(pages, flat, a) == After(pages0, ls, 0, |bytes|, bytes, UserLoc(flat, a));
    }
  }
}
