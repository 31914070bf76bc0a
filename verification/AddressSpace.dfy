/** The layout of a user address space as the memory system calls see it: a list of
page ranges and the break (os/src/mm/memory_set.rs, os/src/syscall/process.rs).

A call that trips one of the kernel's assertions is `Panicked`; running out of frames is
a matter of the layer below. */
module AddressSpace {
  import opened Addresses
  import opened Sv39

  datatype MapType = Identical | Framed

  /** A range of pages `[lo, hi)` with its permission. */
  datatype Region = Region(lo: nat, hi: nat, mapType: MapType, perm: nat) {
    predicate Has(v: nat) { lo <= v < hi }
    function Pages(): set<nat> { set v: nat | lo <= v < hi && Has(v) }
  }

  datatype Space = Space(regions: seq<Region>, brk: nat)

  datatype Outcome = Returned(value: nat) | Failed | Panicked

  function PagesOf(rs: seq<Region>): set<nat>
  {
    if rs == [] then {} else PagesOf(rs[..|rs| - 1]) + rs[|rs| - 1].Pages()
  }

  lemma {:induction false} PagesOfMember(rs: seq<Region>, v: nat)
    ensures v in PagesOf(rs) <==> exists i :: 0 <= i < |rs| && rs[i].Has(v)
  {
    if rs != [] {
      var n := |rs| - 1;
      PagesOfMember(rs[..n], v);
      if i :| 0 <= i < |rs| && rs[i].Has(v) {
        assert i < n ==> rs[..n][i].Has(v);
      }
      if i :| 0 <= i < |rs[..n]| && rs[..n][i].Has(v) {
        assert rs[i].Has(v);
      }
    }
  }

  /** No page lies in two ranges. */
  ghost predicate Apart(rs: seq<Region>)
  {
    forall i, j, v :: 0 <= i < |rs| && 0 <= j < |rs| && i != j && rs[i].Has(v) ==> !rs[j].Has(v)
  }

  ghost predicate InRange(rs: seq<Region>)
  {
    forall i :: 0 <= i < |rs| ==> rs[i].lo <= rs[i].hi <= VPN_LIMIT && !rs[i].Has(TRAMPOLINE_VPN) && IsPerm(rs[i].perm)
  }

  /** What every layout keeps. */
  ghost predicate Orderly(rs: seq<Region>) { Apart(rs) && InRange(rs) }

  predicate Mapped(rs: seq<Region>, v: nat) { v == TRAMPOLINE_VPN || v in PagesOf(rs) }

  predicate AnyMapped(rs: seq<Region>, lo: nat, hi: nat)
  {
    exists v :: lo <= v < hi && Mapped(rs, v)
  }

  // ---- insert, remove ----------------------------------------------------------------

  /** `insert_framed_area`: the range constructor and the page table each assert something. */
  predicate InsertPanics(rs: seq<Region>, startVa: nat, endVa: nat)
  {
    Floor(startVa) > Ceil(endVa) || AnyMapped(rs, Floor(startVa), Ceil(endVa))
  }

  function Inserted(rs: seq<Region>, startVa: nat, endVa: nat, perm: nat): seq<Region>
  {
    rs + [Region(Floor(startVa), Ceil(endVa), Framed, perm)]
  }

  lemma {:induction false} InsertKeepsOrder(rs: seq<Region>, startVa: nat, endVa: nat, perm: nat)
    requires Orderly(rs) && !InsertPanics(rs, startVa, endVa) && endVa < VA_LIMIT && IsPerm(perm)
    ensures Orderly(Inserted(rs, startVa, endVa, perm))
  {
    var r := Region(Floor(startVa), Ceil(endVa), Framed, perm);
    forall i, v | 0 <= i < |rs| && rs[i].Has(v) ensures !r.Has(v) {
      PagesOfMember(rs, v);
      assert Mapped(rs, v);
    }
    if r.Has(TRAMPOLINE_VPN) {
      assert Mapped(rs, TRAMPOLINE_VPN);
    }
  }

  function Removed<T>(s: seq<T>, i: nat): seq<T>
    requires i < |s|
  {
    s[..i] + s[i + 1..]
  }

  lemma {:induction false} RemovedAt<T>(s: seq<T>, k: nat, i: nat)
    requires k < |s| && i < |s| - 1
    ensures Removed(s, k)[i] == s[if i < k then i else i + 1]
  {
  }

  lemma {:induction false} RemoveKeepsOrder(rs: seq<Region>, k: nat)
    requires Orderly(rs) && k < |rs|
    ensures Orderly(Removed(rs, k))
  {
  }

  lemma {:induction false} RemovePages(rs: seq<Region>, k: nat)
    requires Apart(rs) && k < |rs|
    ensures PagesOf(Removed(rs, k)) == PagesOf(rs) - rs[k].Pages()
  {
    forall v ensures v in PagesOf(Removed(rs, k)) <==> v in PagesOf(rs) - rs[k].Pages() {
      RemovePage(rs, k, v);
    }
  }

  lemma {:induction false} RemovePage(rs: seq<Region>, k: nat, v: nat)
    requires Apart(rs) && k < |rs|
    ensures v in PagesOf(Removed(rs, k)) <==> v in PagesOf(rs) && !rs[k].Has(v)
  {
    var rs' := Removed(rs, k);
    PagesOfMember(rs, v);
    PagesOfMember(rs', v);
    if i :| 0 <= i < |rs| && rs[i].Has(v) {
      if i < k {
        RemovedAt(rs, k, i);
        assert rs'[i].Has(v);
      } else if i > k {
        RemovedAt(rs, k, i - 1);
        assert rs'[i - 1].Has(v);
      }
    }
    if i :| 0 <= i < |rs'| && rs'[i].Has(v) {
      RemovedAt(rs, k, i);
      assert rs[if i < k then i else i + 1].Has(v);
    }
  }

  // ---- brk ---------------------------------------------------------------------------

  predicate BrkGrows(sp: Space, addr: nat)
  {
    addr != 0 && addr >= sp.brk
  }

  /** `sys_brk`. */
  function Brk(sp: Space, addr: nat): (r: (Space, Outcome))
  {
    if !BrkGrows(sp, addr) then (sp, Returned(sp.brk)) else
    var oldPage, newPage := AlignUp(sp.brk), AlignUp(addr);
    if newPage > oldPage then
      var startVa, endVa := VirtAddrFrom(oldPage), VirtAddrFrom(newPage);
      if InsertPanics(sp.regions, startVa, endVa) then (sp, Panicked)
      else (Space(Inserted(sp.regions, startVa, endVa, PERM_R + PERM_W + PERM_U), addr), Returned(addr))
    else
      (sp.(brk := addr), Returned(addr))
  }

  // ---- mmap --------------------------------------------------------------------------

  /** `check_overlapping` is `Some`: ranges that merely touch count as overlapping. */
  predicate Clashes(r: Region, startVpn: nat, endVpn: nat)
  {
    !(endVpn < r.lo || startVpn > r.hi)
  }

  /** `check_overlapping`: the common pages, as a possibly empty range. */
  function CheckOverlapping(r: Region, startVpn: nat, endVpn: nat): (o: Option<(nat, nat)>)
    ensures o.Some? <==> Clashes(r, startVpn, endVpn)
    ensures o.Some? ==> forall v: nat :: r.Has(v) && startVpn <= v < endVpn <==> o.value.0 <= v < o.value.1
  {
    if endVpn < r.lo || startVpn > r.hi then None
    else Some((if startVpn > r.lo then startVpn else r.lo, if endVpn < r.hi then endVpn else r.hi))
  }

  predicate AnyClash(rs: seq<Region>, startVpn: nat, endVpn: nat)
  {
    exists i :: 0 <= i < |rs| && Clashes(rs[i], startVpn, endVpn)
  }

  /** The conflict test that `find_free_area` makes at `addr`; `len` is already rounded. */
  predicate Conflict(rs: seq<Region>, addr: nat, len: nat)
  {
    AnyClash(rs, Floor(VirtAddrFrom(addr)), Ceil(VirtAddrFrom(Wrap(addr + len))))
  }

  /** Where `find_free_area` looks after a conflict at `addr`: behind the first range that
      holds `addr`, or one page further. */
  function NextAddr(rs: seq<Region>, addr: nat): nat
    requires InRange(rs)
  {
    if rs == [] then Wrap(addr + PAGE_SIZE)
    else if AddrOfVpn(rs[0].lo) <= addr < AddrOfVpn(rs[0].hi) then AddrOfVpn(rs[0].hi)
    else NextAddr(rs[1..], addr)
  }

  function SearchAt(rs: seq<Region>, from: nat, k: nat): nat
    requires InRange(rs)
  {
    if k == 0 then from else NextAddr(rs, SearchAt(rs, from, k - 1))
  }

  /** The search from `from` stops after exactly `k` conflicts. */
  ghost predicate SearchStops(rs: seq<Region>, from: nat, len: nat, k: nat)
    requires InRange(rs)
  {
    && (forall j :: 0 <= j < k ==> Conflict(rs, SearchAt(rs, from, j), len))
    && !Conflict(rs, SearchAt(rs, from, k), len)
  }

  /** `MapPermission::from_bits(prot as u8)`, or R | W | U when an unknown bit is set. */
  function PermOf(prot: nat): (perm: nat)
    ensures IsPerm(perm)
  {
    var b := prot % 256;
    if IsPerm(b) then b else PERM_R + PERM_W + PERM_U
  }

  /** `mmap` once the start address is chosen. */
  function MmapAt(sp: Space, startVa: nat, len: nat, prot: nat): (Space, Outcome)
    requires startVa < VA_LIMIT
  {
    var end := UsizeFromVa(startVa) + len;
    if end >= USIZE_LIMIT then (sp, Failed) else
    var endVa := VirtAddrFrom(end);
    if AnyClash(sp.regions, Floor(startVa), Ceil(endVa)) then (sp, Failed)
    else if InsertPanics(sp.regions, startVa, endVa) then (sp, Panicked)
    else (sp.(regions := Inserted(sp.regions, startVa, endVa, PermOf(prot))), Returned(UsizeFromVa(startVa)))
  }

  /** `mmap` without a file. With `start == 0` the address is searched for; the call returns
      only if the search stops. */
  ghost predicate MmapStep(sp: Space, start: nat, len: nat, prot: nat, r: (Space, Outcome))
    requires InRange(sp.regions)
  {
    if len == 0 then r == (sp, Failed)
    else if start == 0 then
      exists k: nat :: MmapSearched(sp, len, prot, k, r)
    else if PageOffset(VirtAddrFrom(start)) != 0 then r == (sp, Failed)
    else r == MmapAt(sp, VirtAddrFrom(start), len, prot)
  }

  ghost predicate MmapSearched(sp: Space, len: nat, prot: nat, k: nat, r: (Space, Outcome))
    requires InRange(sp.regions)
  {
    && SearchStops(sp.regions, sp.brk, AlignUp(len), k)
    && var addr := SearchAt(sp.regions, sp.brk, k);
    && r == MmapAt(sp.(brk := Wrap(addr + AlignUp(len))), VirtAddrFrom(addr), len, prot)
  }

  // ---- munmap ------------------------------------------------------------------------

  function FindExact(rs: seq<Region>, lo: nat, hi: nat): (r: Option<nat>)
    ensures r.Some? ==> r.value < |rs| && rs[r.value].lo == lo && rs[r.value].hi == hi
    ensures r.None? ==> forall i :: 0 <= i < |rs| ==> !(rs[i].lo == lo && rs[i].hi == hi)
  {
    if rs == [] then None
    else if rs[0].lo == lo && rs[0].hi == hi then Some(0)
    else
      match FindExact(rs[1..], lo, hi)
      case None => None
      case Some(i) => assert rs[1..][i] == rs[i + 1]; Some(i + 1)
  }

  /** `FindExact` gives the first match. */
  lemma {:induction false} FirstExact(rs: seq<Region>, lo: nat, hi: nat, i: nat)
    requires i < |rs| && rs[i].lo == lo && rs[i].hi == hi
    requires forall j :: 0 <= j < i ==> !(rs[j].lo == lo && rs[j].hi == hi)
    ensures FindExact(rs, lo, hi) == Some(i)
  {
    if i > 0 {
      FirstExact(rs[1..], lo, hi, i - 1);
    }
  }

  /** `munmap`: only a whole range can be removed. */
  function Munmap(sp: Space, start: nat, len: nat): (Space, Outcome)
  {
    if len == 0 || PageOffset(VirtAddrFrom(start)) != 0 || start + len >= USIZE_LIMIT then (sp, Failed) else
    var startVpn, endVpn := Floor(VirtAddrFrom(start)), Ceil(VirtAddrFrom(start + len));
    if endVpn <= startVpn then (sp, Failed) else
    match FindExact(sp.regions, startVpn, endVpn)
    case None => (sp, Failed)
    case Some(i) => (sp.(regions := Removed(sp.regions, i)), Returned(0))
  }

  // ---- runs --------------------------------------------------------------------------

  datatype Call = BrkCall(addr: nat) | MmapCall(start: nat, len: nat, prot: nat) | MunmapCall(start: nat, len: nat)

  ghost predicate Step(sp: Space, call: Call, r: (Space, Outcome))
    requires InRange(sp.regions)
  {
    match call
    case BrkCall(addr) => r == Brk(sp, addr)
    case MmapCall(start, len, prot) => MmapStep(sp, start, len, prot, r)
    case MunmapCall(start, len) => r == Munmap(sp, start, len)
  }

  lemma {:induction false} BrkKeepsOrder(sp: Space, addr: nat)
    requires Orderly(sp.regions)
    ensures Orderly(Brk(sp, addr).0.regions)
  {
    var oldPage, newPage := AlignUp(sp.brk), AlignUp(addr);
    if BrkGrows(sp, addr) && newPage > oldPage && !InsertPanics(sp.regions, VirtAddrFrom(oldPage), VirtAddrFrom(newPage)) {
      InsertKeepsOrder(sp.regions, VirtAddrFrom(oldPage), VirtAddrFrom(newPage), PERM_R + PERM_W + PERM_U);
    }
  }

  lemma {:induction false} MmapAtKeepsOrder(sp: Space, startVa: nat, len: nat, prot: nat)
    requires Orderly(sp.regions) && startVa < VA_LIMIT
    ensures Orderly(MmapAt(sp, startVa, len, prot).0.regions)
  {
    var end := UsizeFromVa(startVa) + len;
    if end < USIZE_LIMIT && !InsertPanics(sp.regions, startVa, VirtAddrFrom(end)) {
      InsertKeepsOrder(sp.regions, startVa, VirtAddrFrom(end), PermOf(prot));
    }
  }

  lemma {:induction false} MunmapKeepsOrder(sp: Space, start: nat, len: nat)
    requires Orderly(sp.regions)
    ensures Orderly(Munmap(sp, start, len).0.regions)
  {
  }

  /** No call disturbs the order of the layout: no page is ever in two ranges. */
  lemma {:induction false} StepKeepsOrder(sp: Space, call: Call, r: (Space, Outcome))
    requires Orderly(sp.regions) && Step(sp, call, r)
    ensures Orderly(r.0.regions)
  {
    match call
    case BrkCall(addr) => BrkKeepsOrder(sp, addr);
    case MmapCall(start, len, prot) =>
      if len != 0 && start == 0 {
        var k: nat :| MmapSearched(sp, len, prot, k, r);
        var addr := SearchAt(sp.regions, sp.brk, k);
        MmapAtKeepsOrder(sp.(brk := Wrap(addr + AlignUp(len))), VirtAddrFrom(addr), len, prot);
      } else {
        MmapAtKeepsOrder(sp, VirtAddrFrom(start), len, prot);
      }
    case MunmapCall(start, len) => MunmapKeepsOrder(sp, start, len);
  }

  /** A run: each state follows from the one before by its call. */
  ghost predicate Run(states: seq<Space>, calls: seq<Call>, outs: seq<Outcome>)
  {
    && |states| == |calls| + 1 && |outs| == |calls|
    && forall i :: 0 <= i < |calls| ==> InRange(states[i].regions) && Step(states[i], calls[i], (states[i + 1], outs[i]))
  }

  lemma {:induction false} RunKeepsOrder(states: seq<Space>, calls: seq<Call>, outs: seq<Outcome>, n: nat)
    requires Run(states, calls, outs) && Orderly(states[0].regions) && n < |states|
    ensures Orderly(states[n].regions)
  {
    if n > 0 {
      RunKeepsOrder(states, calls, outs, n - 1);
      StepKeepsOrder(states[n - 1], calls[n - 1], (states[n], outs[n - 1]));
    }
  }

  // ---- when calls panic --------------------------------------------------------------

  /** The layout of a process: the page below the trampoline holds the trap context. */
  ghost predicate HasTrapContext(rs: seq<Region>)
  {
    exists i :: 0 <= i < |rs| && HoldsTrapContext(rs[i])
  }

  predicate HoldsTrapContext(r: Region) { r.lo < TRAMPOLINE_VPN && r.hi == TRAMPOLINE_VPN }

  /** `mmap`'s own conflict check covers the page table's, except for the trampoline, which is
      in no area: the call panics exactly when no area is in the way and the range either ends
      below its start (the 39-bit mask cut its end off) or takes in the trampoline's page. A
      trap context rules the second out. */
  lemma {:induction false} MmapPanicsExactly(sp: Space, startVa: nat, len: nat, prot: nat)
    requires startVa < VA_LIMIT
    ensures MmapAt(sp, startVa, len, prot).1.Panicked? <==> MmapTrips(sp.regions, startVa, len)
    ensures var lo, hi := Floor(startVa), Ceil(VirtAddrFrom(startVa + len));
            HasTrapContext(sp.regions) && !AnyClash(sp.regions, lo, hi) ==> !(lo <= TRAMPOLINE_VPN < hi)
  {
    var lo, hi := Floor(startVa), Ceil(VirtAddrFrom(startVa + len));
    SameMask(startVa, len);
    if !AnyClash(sp.regions, lo, hi) {
      OnlyTrampolineLeft(sp.regions, lo, hi);
    }
  }

  /** The masked range is out of order or takes in the trampoline, and nothing else stops it. */
  predicate MmapTrips(rs: seq<Region>, startVa: nat, len: nat)
    requires startVa < VA_LIMIT
  {
    var lo, hi := Floor(startVa), Ceil(VirtAddrFrom(startVa + len));
    UsizeFromVa(startVa) + len < USIZE_LIMIT && !AnyClash(rs, lo, hi) && (lo > hi || lo <= TRAMPOLINE_VPN < hi)
  }

  /** Sign extension makes no difference once it is masked away again. */
  lemma {:induction false} SameMask(startVa: nat, len: nat)
    requires startVa < VA_LIMIT
    ensures VirtAddrFrom(UsizeFromVa(startVa) + len) == VirtAddrFrom(startVa + len)
  {
  }

  lemma {:induction false} OnlyTrampolineLeft(rs: seq<Region>, lo: nat, hi: nat)
    requires !AnyClash(rs, lo, hi) && hi <= VPN_LIMIT
    ensures AnyMapped(rs, lo, hi) <==> lo <= TRAMPOLINE_VPN < hi
    ensures HasTrapContext(rs) ==> !(lo <= TRAMPOLINE_VPN < hi)
  {
    forall v | lo <= v < hi ensures Mapped(rs, v) <==> v == TRAMPOLINE_VPN {
      PagesOfMember(rs, v);
      forall i | 0 <= i < |rs| ensures !rs[i].Has(v) {
        assert !Clashes(rs[i], lo, hi);
      }
    }
    if lo <= TRAMPOLINE_VPN < hi {
      assert Mapped(rs, TRAMPOLINE_VPN);
    }
    if t :| 0 <= t < |rs| && HoldsTrapContext(rs[t]) {
      assert !Clashes(rs[t], lo, hi);
    }
  }

  /** `brk` panics exactly when it grows and the pages between the masked ends are not all free
      or the masked ends are out of order; up to the trampoline these are the pages between the
      rounded breaks. */
  lemma {:induction false} BrkPanicsExactly(sp: Space, addr: nat)
    ensures Brk(sp, addr).1.Panicked? <==> BrkTrips(sp, addr)
    ensures sp.brk <= TRAMPOLINE_VA && addr <= TRAMPOLINE_VA ==>
              (Brk(sp, addr).1.Panicked? <==>
               BrkGrows(sp, addr) && exists v :: AlignUp(sp.brk) / PAGE_SIZE <= v < AlignUp(addr) / PAGE_SIZE && Mapped(sp.regions, v))
  {
  }

  predicate BrkTrips(sp: Space, addr: nat)
  {
    var lo, hi := Floor(VirtAddrFrom(AlignUp(sp.brk))), Ceil(VirtAddrFrom(AlignUp(addr)));
    && BrkGrows(sp, addr) && AlignUp(sp.brk) < AlignUp(addr)
    && (lo > hi || exists v :: lo <= v < hi && Mapped(sp.regions, v))
  }

  /** The trampoline's address as the mask leaves it. */
  const TRAMPOLINE_VA: nat := TRAMPOLINE_VPN * PAGE_SIZE

  /** Which calls trip one of the kernel's assertions. */
  ghost predicate Trips(sp: Space, call: Call)
    requires InRange(sp.regions)
  {
    match call
    case BrkCall(addr) => BrkTrips(sp, addr)
    case MmapCall(start, len, _) =>
      && len != 0
      && if start == 0 then exists k: nat :: SearchTrips(sp, len, k)
         else PageOffset(VirtAddrFrom(start)) == 0 && MmapTrips(sp.regions, VirtAddrFrom(start), len)
    case MunmapCall(_, _) => false
  }

  ghost predicate SearchTrips(sp: Space, len: nat, k: nat)
    requires InRange(sp.regions)
  {
    SearchStops(sp.regions, sp.brk, AlignUp(len), k) && MmapTrips(sp.regions, VirtAddrFrom(SearchAt(sp.regions, sp.brk, k)), len)
  }

  /** A call panics if and only if it is one of them. */
  lemma {:induction false} StepPanicsExactly(sp: Space, call: Call, r: (Space, Outcome))
    requires InRange(sp.regions) && Step(sp, call, r)
    ensures r.1.Panicked? <==> Trips(sp, call)
  {
    match call
    case BrkCall(addr) => BrkPanicsExactly(sp, addr);
    case MmapCall(start, len, prot) =>
      if len != 0 && start == 0 {
        SearchPanicsExactly(sp, len, prot, r);
      } else {
        MmapPanicsExactly(sp, VirtAddrFrom(start), len, prot);
      }
    case MunmapCall(_, _) =>
  }

  lemma {:induction false} SearchPanicsExactly(sp: Space, len: nat, prot: nat, r: (Space, Outcome))
    requires InRange(sp.regions) && 0 < len && MmapStep(sp, 0, len, prot, r)
    ensures r.1.Panicked? <==> exists k: nat :: SearchTrips(sp, len, k)
  {
    var k: nat :| MmapSearched(sp, len, prot, k, r);
    var addr := SearchAt(sp.regions, sp.brk, k);
    MmapPanicsExactly(sp.(brk := Wrap(addr + AlignUp(len))), VirtAddrFrom(addr), len, prot);
    assert r.1.Panicked? <==> SearchTrips(sp, len, k);
    if k': nat :| SearchTrips(sp, len, k') {
      SearchStopsOnce(sp.regions, sp.brk, AlignUp(len), k, k');
    }
  }

  // ---- first fit ---------------------------------------------------------------------

  /** `n` pages from page `a` on neither overlap nor touch any range. */
  predicate Fits(rs: seq<Region>, a: nat, n: nat) { !AnyClash(rs, a, a + n) }

  /** The page of an address once it is masked. */
  function PageNo(addr: nat): (v: nat)
    ensures v < VPN_LIMIT
  {
    Floor(VirtAddrFrom(addr))
  }

  /** The first page of the upper half. */
  const HALF_VPN: nat := VA_HALF / PAGE_SIZE

  predicate Inside(rs: seq<Region>, v: nat) { exists i :: 0 <= i < |rs| && rs[i].Has(v) }

  /** Where the search may start: at a canonical address, on a page boundary or inside a range;
      or on a page boundary between 2^38 and 2^39, unless a range takes in the last page of the
      lower half. */
  predicate GoodStart(rs: seq<Region>, addr: nat)
  {
    if Canonical(addr) then addr % PAGE_SIZE == 0 || Inside(rs, PageNo(addr))
    else addr < VA_LIMIT && addr % PAGE_SIZE == 0 && !Inside(rs, HALF_VPN - 1)
  }

  /** At or below the page `g`, at a place where the search may start. */
  predicate SearchOn(rs: seq<Region>, g: nat, addr: nat) { VirtAddrFrom(addr) <= g * PAGE_SIZE && GoodStart(rs, addr) }

  /** `a` is the least page at or above the masked address `va` where `n` pages fit. */
  ghost predicate FirstFit(rs: seq<Region>, va: nat, n: nat, a: nat)
  {
    && va <= a * PAGE_SIZE && Fits(rs, a, n)
    && forall b: nat :: va <= b * PAGE_SIZE && b < a ==> !Fits(rs, b, n)
  }

  /** `addr` is the beginning of page `a`, sign-extended or not. */
  predicate IsPage(addr: nat, a: nat) { a < VPN_LIMIT && (addr == a * PAGE_SIZE || addr == UsizeFromVa(a * PAGE_SIZE)) }

  /** The search for `n` pages stops after `k` conflicts, at the first fit `a`. */
  ghost predicate StopsAtFit(rs: seq<Region>, addr: nat, n: nat, k: nat, a: nat)
    requires InRange(rs)
  {
    && SearchStops(rs, addr, n * PAGE_SIZE, k) && IsPage(SearchAt(rs, addr, k), a)
    && FirstFit(rs, VirtAddrFrom(addr), n, a)
  }

  predicate Holds(r: Region, addr: nat)
    requires r.lo <= r.hi <= VPN_LIMIT
  {
    AddrOfVpn(r.lo) <= addr < AddrOfVpn(r.hi)
  }

  lemma {:induction false} NextAddrCases(rs: seq<Region>, addr: nat)
    requires InRange(rs)
    ensures (exists i :: 0 <= i < |rs| && Holds(rs[i], addr) && NextAddr(rs, addr) == AddrOfVpn(rs[i].hi))
            || ((forall i :: 0 <= i < |rs| ==> !Holds(rs[i], addr)) && NextAddr(rs, addr) == Wrap(addr + PAGE_SIZE))
  {
    if rs != [] && !Holds(rs[0], addr) {
      NextAddrCases(rs[1..], addr);
      if i :| 0 <= i < |rs[1..]| && Holds(rs[1..][i], addr) && NextAddr(rs[1..], addr) == AddrOfVpn(rs[1..][i].hi) {
        assert Holds(rs[i + 1], addr);
      }
    }
  }

  /** The mask of a sum that stays below 2^39. */
  lemma {:induction false} MaskSum(addr: nat, len: nat)
    requires addr < USIZE_LIMIT && VirtAddrFrom(addr) + len < VA_LIMIT
    ensures addr + len < USIZE_LIMIT && VirtAddrFrom(addr + len) == VirtAddrFrom(addr) + len
  {
    var q := addr / VA_LIMIT;
    assert addr == q * VA_LIMIT + VirtAddrFrom(addr) && q <= USIZE_LIMIT / VA_LIMIT - 1;
  }

  /** The conflict test at a page boundary asks whether the pages fit. */
  lemma {:induction false} ConflictIsMisfit(rs: seq<Region>, addr: nat, n: nat)
    requires addr < USIZE_LIMIT && VirtAddrFrom(addr) + n * PAGE_SIZE < VA_LIMIT
    ensures addr % PAGE_SIZE == 0 ==> (Conflict(rs, addr, n * PAGE_SIZE) <==> !Fits(rs, PageNo(addr), n))
    ensures Inside(rs, PageNo(addr)) ==> Conflict(rs, addr, n * PAGE_SIZE)
  {
    MaskSum(addr, n * PAGE_SIZE);
    MisfitAt(rs, VirtAddrFrom(addr), n);
    BoundaryMask(addr);
  }

  lemma {:induction false} MisfitAt(rs: seq<Region>, va: nat, n: nat)
    ensures va % PAGE_SIZE == 0 ==> (AnyClash(rs, Floor(va), Ceil(va + n * PAGE_SIZE)) <==> !Fits(rs, Floor(va), n))
    ensures Inside(rs, Floor(va)) ==> AnyClash(rs, Floor(va), Ceil(va + n * PAGE_SIZE))
  {
    CeilShift(va, n);
    if i :| 0 <= i < |rs| && rs[i].Has(Floor(va)) {
      assert Clashes(rs[i], Floor(va), Ceil(va + n * PAGE_SIZE));
    }
  }

  lemma {:induction false} BoundaryMask(addr: nat)
    ensures VirtAddrFrom(addr) % PAGE_SIZE == addr % PAGE_SIZE
  {
    var q := addr / VA_LIMIT;
    assert addr == q * VPN_LIMIT * PAGE_SIZE + VirtAddrFrom(addr);
  }

  lemma {:induction false} CeilShift(va: nat, n: nat)
    ensures Ceil(va + n * PAGE_SIZE) >= va / PAGE_SIZE + n && (va % PAGE_SIZE == 0 ==> Ceil(va + n * PAGE_SIZE) == va / PAGE_SIZE + n)
  {
  }

  /** A canonical address inside a range is held by it. */
  lemma {:induction false} InsideIsHeld(rs: seq<Region>, i: nat, addr: nat)
    requires InRange(rs) && i < |rs| && Canonical(addr) && rs[i].Has(PageNo(addr))
    ensures Holds(rs[i], addr)
  {
    var r, va := rs[i], VirtAddrFrom(addr);
    MaskSignExtendRoundTrip(addr);
    PageBounds(va);
    EndOfRange(r.lo);
    EndOfRange(r.hi);
  }

  lemma {:induction false} PageBounds(va: nat)
    ensures Floor(va) * PAGE_SIZE <= va < (Floor(va) + 1) * PAGE_SIZE
  {
  }

  /** And where the search may start, only such an address is. */
  lemma {:induction false} HeldIsInside(rs: seq<Region>, i: nat, addr: nat)
    requires InRange(rs) && i < |rs| && GoodStart(rs, addr) && Holds(rs[i], addr)
    ensures rs[i].Has(PageNo(addr)) && rs[i].hi < VPN_LIMIT
  {
    HeldWhere(rs[i], addr);
  }

  lemma {:induction false} HeldWhere(r: Region, addr: nat)
    requires r.lo <= r.hi <= VPN_LIMIT && !r.Has(TRAMPOLINE_VPN) && Holds(r, addr) && (Canonical(addr) || addr < VA_LIMIT)
    ensures r.hi < VPN_LIMIT && r.Has(if Canonical(addr) then PageNo(addr) else HALF_VPN - 1)
  {
    assert r.hi < VPN_LIMIT && r.lo < VPN_LIMIT;
    EndOfRange(r.lo);
    EndOfRange(r.hi);
    if Canonical(addr) {
      MaskSignExtendRoundTrip(addr);
      PageBounds(VirtAddrFrom(addr));
    }
  }

  /** The end of a range is a canonical page boundary. */
  lemma {:induction false} EndOfRange(v: nat)
    requires v < VPN_LIMIT
    ensures var addr := AddrOfVpn(v);
            Canonical(addr) && addr % PAGE_SIZE == 0 && VirtAddrFrom(addr) == v * PAGE_SIZE && addr == UsizeFromVa(v * PAGE_SIZE)
  {
  }

  ghost predicate NoFitBetween(rs: seq<Region>, va: nat, next: nat, n: nat)
  {
    forall b: nat :: va <= b * PAGE_SIZE < next ==> !Fits(rs, b, n)
  }

  /** A range with the page of `va` ends at or below every fitting page above `va`, and no page
      between fits. */
  lemma {:induction false} RangeIsSkipped(rs: seq<Region>, i: nat, va: nat, n: nat, g: nat)
    requires i < |rs| && rs[i].Has(Floor(va)) && va <= g * PAGE_SIZE && Fits(rs, g, n)
    ensures rs[i].hi <= g && va < rs[i].hi * PAGE_SIZE && NoFitBetween(rs, va, rs[i].hi * PAGE_SIZE, n)
  {
    assert !Clashes(rs[i], g, g + n);
    forall b: nat | va <= b * PAGE_SIZE < rs[i].hi * PAGE_SIZE ensures !Fits(rs, b, n) {
      assert Clashes(rs[i], b, b + n);
    }
  }

  /** One conflict: the search moves up to a page boundary and skips no fitting page. */
  lemma {:induction false} NextAddrSkipsNoFit(rs: seq<Region>, addr: nat, n: nat, g: nat)
    requires InRange(rs) && SearchOn(rs, g, addr) && g + n < VPN_LIMIT
    requires Fits(rs, g, n) && (addr % PAGE_SIZE == 0 ==> !Fits(rs, PageNo(addr), n))
    ensures var next := NextAddr(rs, addr);
            VirtAddrFrom(addr) < VirtAddrFrom(next) && SearchOn(rs, g, next) && NoFitBetween(rs, VirtAddrFrom(addr), VirtAddrFrom(next), n)
  {
    NextAddrCases(rs, addr);
    var next := NextAddr(rs, addr);
    if i :| 0 <= i < |rs| && Holds(rs[i], addr) && next == AddrOfVpn(rs[i].hi) {
      HeldIsInside(rs, i, addr);
      RangeIsSkipped(rs, i, VirtAddrFrom(addr), n, g);
      EndOfRange(rs[i].hi);
    } else {
      NextPageSkipsNoFit(rs, addr, n, g);
    }
  }

  /** An address that no range holds: the search moves by a page. */
  lemma {:induction false} NextPageSkipsNoFit(rs: seq<Region>, addr: nat, n: nat, g: nat)
    requires InRange(rs) && SearchOn(rs, g, addr) && g + n < VPN_LIMIT
    requires Fits(rs, g, n) && (addr % PAGE_SIZE == 0 ==> !Fits(rs, PageNo(addr), n))
    requires forall i :: 0 <= i < |rs| ==> !Holds(rs[i], addr)
    ensures var next := Wrap(addr + PAGE_SIZE);
            VirtAddrFrom(addr) < VirtAddrFrom(next) && SearchOn(rs, g, next) && NoFitBetween(rs, VirtAddrFrom(addr), VirtAddrFrom(next), n)
  {
    NotInside(rs, addr);
    OnePageOn(addr, g);
    OnlyThisPage(rs, VirtAddrFrom(addr), n);
  }

  lemma {:induction false} OnlyThisPage(rs: seq<Region>, va: nat, n: nat)
    requires va % PAGE_SIZE == 0 && !Fits(rs, Floor(va), n)
    ensures NoFitBetween(rs, va, va + PAGE_SIZE, n)
  {
    forall b: nat | va <= b * PAGE_SIZE < va + PAGE_SIZE ensures !Fits(rs, b, n) {
      assert b == Floor(va);
    }
  }

  lemma {:induction false} NotInside(rs: seq<Region>, addr: nat)
    requires InRange(rs) && GoodStart(rs, addr) && forall i :: 0 <= i < |rs| ==> !Holds(rs[i], addr)
    ensures addr % PAGE_SIZE == 0 && (Canonical(addr) ==> !Inside(rs, PageNo(addr)))
  {
    if Canonical(addr) {
      forall i | 0 <= i < |rs| ensures !rs[i].Has(PageNo(addr)) {
        if rs[i].Has(PageNo(addr)) {
          InsideIsHeld(rs, i, addr);
        }
      }
    }
  }

  lemma {:induction false} OnePageOn(addr: nat, g: nat)
    requires addr % PAGE_SIZE == 0 && (Canonical(addr) || addr < VA_LIMIT)
    requires VirtAddrFrom(addr) <= g * PAGE_SIZE && PageNo(addr) != g && g < VPN_LIMIT
    ensures var next := Wrap(addr + PAGE_SIZE);
            && next % PAGE_SIZE == 0 && VirtAddrFrom(addr) % PAGE_SIZE == 0
            && VirtAddrFrom(next) == VirtAddrFrom(addr) + PAGE_SIZE <= g * PAGE_SIZE
            && (Canonical(next) || (next < VA_LIMIT && (Canonical(addr) ==> PageNo(addr) == HALF_VPN - 1)))
  {
    BoundaryMask(addr);
    BoundaryFloor(VirtAddrFrom(addr));
    assert PageNo(addr) < g;
    MaskSum(addr, PAGE_SIZE);
  }

  lemma {:induction false} SearchShift(rs: seq<Region>, from: nat, k: nat)
    requires InRange(rs)
    ensures SearchAt(rs, NextAddr(rs, from), k) == SearchAt(rs, from, k + 1)
  {
    if k > 0 {
      SearchShift(rs, from, k - 1);
    }
  }

  /** A conflict, and then a search that stops, is a search that stops one step later. */
  lemma {:induction false} SearchStopsLater(rs: seq<Region>, addr: nat, len: nat, k: nat)
    requires InRange(rs) && Conflict(rs, addr, len) && SearchStops(rs, NextAddr(rs, addr), len, k)
    ensures SearchStops(rs, addr, len, k + 1) && SearchAt(rs, addr, k + 1) == SearchAt(rs, NextAddr(rs, addr), k)
  {
    SearchShift(rs, addr, k);
    forall j | 0 <= j < k + 1 ensures Conflict(rs, SearchAt(rs, addr, j), len) {
      if j > 0 {
        SearchShift(rs, addr, j - 1);
        assert Conflict(rs, SearchAt(rs, NextAddr(rs, addr), j - 1), len);
      }
    }
  }

  /** If some fitting page lies at or above the masked start, the search stops, and it stops at
      the first fitting page. */
  lemma {:induction false} SearchFindsFirstFit(rs: seq<Region>, addr: nat, n: nat, g: nat) returns (k: nat, a: nat)
    requires InRange(rs) && SearchOn(rs, g, addr) && g + n < VPN_LIMIT && Fits(rs, g, n)
    ensures StopsAtFit(rs, addr, n, k, a) && a <= g
    decreases g * PAGE_SIZE - VirtAddrFrom(addr)
  {
    if !Conflict(rs, addr, n * PAGE_SIZE) {
      SearchStopsHere(rs, addr, n);
      k, a := 0, PageNo(addr);
    } else {
      ConflictMovesOn(rs, addr, n, g);
      var k';
      k', a := SearchFindsFirstFit(rs, NextAddr(rs, addr), n, g);
      StopsAtFitLater(rs, addr, n, k', a);
      k := k' + 1;
    }
  }

  lemma {:induction false} StopsAtFitLater(rs: seq<Region>, addr: nat, n: nat, k: nat, a: nat)
    requires InRange(rs) && Conflict(rs, addr, n * PAGE_SIZE) && StopsAtFit(rs, NextAddr(rs, addr), n, k, a)
    requires VirtAddrFrom(addr) <= VirtAddrFrom(NextAddr(rs, addr))
    requires NoFitBetween(rs, VirtAddrFrom(addr), VirtAddrFrom(NextAddr(rs, addr)), n)
    ensures StopsAtFit(rs, addr, n, k + 1, a)
  {
    FirstFitLater(rs, VirtAddrFrom(addr), VirtAddrFrom(NextAddr(rs, addr)), n, a);
    SearchStopsLater(rs, addr, n * PAGE_SIZE, k);
  }

  lemma {:induction false} ConflictMovesOn(rs: seq<Region>, addr: nat, n: nat, g: nat)
    requires InRange(rs) && SearchOn(rs, g, addr) && g + n < VPN_LIMIT && Fits(rs, g, n)
    requires Conflict(rs, addr, n * PAGE_SIZE)
    ensures var next := NextAddr(rs, addr);
            VirtAddrFrom(addr) < VirtAddrFrom(next) && SearchOn(rs, g, next) && NoFitBetween(rs, VirtAddrFrom(addr), VirtAddrFrom(next), n)
  {
    ConflictIsMisfit(rs, addr, n);
    NextAddrSkipsNoFit(rs, addr, n, g);
  }

  lemma {:induction false} SearchStopsHere(rs: seq<Region>, addr: nat, n: nat)
    requires InRange(rs) && GoodStart(rs, addr) && VirtAddrFrom(addr) + n * PAGE_SIZE < VA_LIMIT && !Conflict(rs, addr, n * PAGE_SIZE)
    ensures StopsAtFit(rs, addr, n, 0, PageNo(addr))
  {
    ConflictIsMisfit(rs, addr, n);
    BoundaryIsPage(addr);
  }

  lemma {:induction false} BoundaryIsPage(addr: nat)
    requires addr % PAGE_SIZE == 0 && (Canonical(addr) || addr < VA_LIMIT)
    ensures IsPage(addr, PageNo(addr)) && VirtAddrFrom(addr) == PageNo(addr) * PAGE_SIZE
  {
    BoundaryMask(addr);
    BoundaryFloor(VirtAddrFrom(addr));
    if Canonical(addr) {
      MaskSignExtendRoundTrip(addr);
    }
  }

  lemma {:induction false} BoundaryFloor(va: nat)
    requires va % PAGE_SIZE == 0
    ensures va == Floor(va) * PAGE_SIZE
  {
  }

  lemma {:induction false} FirstFitLater(rs: seq<Region>, va: nat, next: nat, n: nat, a: nat)
    requires FirstFit(rs, next, n, a) && va <= next && NoFitBetween(rs, va, next, n)
    ensures FirstFit(rs, va, n, a)
  {
  }

  lemma {:induction false} SearchStopsAt(rs: seq<Region>, from: nat, len: nat, k: nat, j: nat)
    requires InRange(rs) && SearchStops(rs, from, len, k) && j <= k
    ensures Conflict(rs, SearchAt(rs, from, j), len) <==> j < k
  {
  }

  lemma {:induction false} SearchStopsOnce(rs: seq<Region>, from: nat, len: nat, k: nat, k': nat)
    requires InRange(rs) && SearchStops(rs, from, len, k) && SearchStops(rs, from, len, k')
    ensures k == k'
  {
  }

  /** `mmap(0, len)`: when some run of free pages lies between the masked break and the
      trampoline, the call always succeeds. It has one possible result: the first fit is mapped
      with the requested permission, and the break moves behind it. */
  lemma {:induction false} MmapAnywhere(sp: Space, len: nat, prot: nat, g: nat, r: (Space, Outcome))
    requires InRange(sp.regions) && 0 < len <= USIZE_LIMIT - PAGE_SIZE
    requires var n := AlignUp(len) / PAGE_SIZE;
             SearchOn(sp.regions, g, sp.brk) && g + n <= TRAMPOLINE_VPN && Fits(sp.regions, g, n)
    ensures MmapStep(sp, 0, len, prot, r) ==> exists a: nat, addr: nat :: MapsFirstFit(sp, len, prot, a, addr, r)
    ensures exists a: nat, addr: nat, r': (Space, Outcome) :: MapsFirstFit(sp, len, prot, a, addr, r') && MmapStep(sp, 0, len, prot, r')
  {
    var k, a, addr, r' := FirstFitFound(sp, len, prot, g);
    if MmapStep(sp, 0, len, prot, r) {
      var k': nat :| MmapSearched(sp, len, prot, k', r);
      SearchStopsOnce(sp.regions, sp.brk, AlignUp(len), k, k');
    }
  }

  lemma {:induction false} FirstFitFound(sp: Space, len: nat, prot: nat, g: nat)
    returns (k: nat, a: nat, addr: nat, r: (Space, Outcome))
    requires InRange(sp.regions) && 0 < len <= USIZE_LIMIT - PAGE_SIZE
    requires var n := AlignUp(len) / PAGE_SIZE;
             SearchOn(sp.regions, g, sp.brk) && g + n <= TRAMPOLINE_VPN && Fits(sp.regions, g, n)
    ensures MapsFirstFit(sp, len, prot, a, addr, r) && MmapSearched(sp, len, prot, k, r)
  {
    var n := AlignUp(len) / PAGE_SIZE;
    assert AlignUp(len) == n * PAGE_SIZE;
    k, a := SearchFindsFirstFit(sp.regions, sp.brk, n, g);
    addr := SearchAt(sp.regions, sp.brk, k);
    r := MmapAnywhereResult(sp, len, prot, a, addr);
    MmapFirstFit(sp, len, prot, a, addr);
  }

  /** `r` is what comes of mapping the first fit `a`, found at `addr`. */
  ghost predicate MapsFirstFit(sp: Space, len: nat, prot: nat, a: nat, addr: nat, r: (Space, Outcome))
  {
    && FirstFit(sp.regions, VirtAddrFrom(sp.brk), AlignUp(len) / PAGE_SIZE, a) && IsPage(addr, a)
    && r == MmapAnywhereResult(sp, len, prot, a, addr)
  }

  function MmapAnywhereResult(sp: Space, len: nat, prot: nat, a: nat, addr: nat): (Space, Outcome)
    requires IsPage(addr, a)
  {
    var n := AlignUp(len) / PAGE_SIZE;
    (Space(sp.regions + [Region(a, a + n, Framed, PermOf(prot))], addr + n * PAGE_SIZE), Returned(UsizeFromVa(a * PAGE_SIZE)))
  }

  lemma {:induction false} MmapFirstFit(sp: Space, len: nat, prot: nat, a: nat, addr: nat)
    requires 0 < len <= USIZE_LIMIT - PAGE_SIZE && a + AlignUp(len) / PAGE_SIZE <= TRAMPOLINE_VPN && IsPage(addr, a)
    requires Fits(sp.regions, a, AlignUp(len) / PAGE_SIZE)
    ensures MmapAt(sp.(brk := Wrap(addr + AlignUp(len))), VirtAddrFrom(addr), len, prot)
            == MmapAnywhereResult(sp, len, prot, a, addr)
  {
    RangeOfFit(len, a, addr);
    OnlyTrampolineLeft(sp.regions, a, a + AlignUp(len) / PAGE_SIZE);
  }

  lemma {:induction false} RangeOfFit(len: nat, a: nat, addr: nat)
    requires 0 < len <= USIZE_LIMIT - PAGE_SIZE && a + AlignUp(len) / PAGE_SIZE <= TRAMPOLINE_VPN && IsPage(addr, a)
    ensures var va, n := a * PAGE_SIZE, AlignUp(len) / PAGE_SIZE;
            && VirtAddrFrom(addr) == va && Floor(va) == a && Wrap(addr + AlignUp(len)) == addr + n * PAGE_SIZE
            && UsizeFromVa(va) + len < USIZE_LIMIT && Ceil(VirtAddrFrom(UsizeFromVa(va) + len)) == a + n
  {
    CeilOfRange(a, len);
    SameMask(a * PAGE_SIZE, len);
  }

  lemma {:induction false} CeilOfRange(a: nat, len: nat)
    requires 0 < len <= USIZE_LIMIT - PAGE_SIZE
    ensures Ceil(a * PAGE_SIZE + len) == a + AlignUp(len) / PAGE_SIZE && len <= AlignUp(len) == AlignUp(len) / PAGE_SIZE * PAGE_SIZE
  {
  }

  /** The 39-bit mask did not fold the end of the range back onto its start. */
  predicate EndSurvivesMask(startVa: nat, len: nat)
    requires startVa < VA_LIMIT
  {
    Floor(startVa) < Ceil(VirtAddrFrom(UsizeFromVa(startVa) + len))
  }

  /** `munmap` undoes a successful `mmap` exactly when the mask left the range an end. */
  lemma {:induction false} MunmapUndoesMmap(sp: Space, startVa: nat, len: nat, prot: nat)
    requires Orderly(sp.regions) && startVa < VA_LIMIT && startVa % PAGE_SIZE == 0 && 0 < len
    requires MmapAt(sp, startVa, len, prot).1.Returned?
    ensures var (sp', out) := MmapAt(sp, startVa, len, prot);
            Munmap(sp', out.value, len) == (sp, Returned(0)) <==> EndSurvivesMask(startVa, len)
  {
    var (sp', out) := MmapAt(sp, startVa, len, prot);
    assert VirtAddrFrom(UsizeFromVa(startVa)) == startVa;
    if EndSurvivesMask(startVa, len) {
      var lo, hi := Floor(startVa), Ceil(VirtAddrFrom(UsizeFromVa(startVa) + len));
      MmapAtKeepsOrder(sp, startVa, len, prot);
      var n := |sp.regions|;
      var r := FindExact(sp'.regions, lo, hi);
      assert r == Some(n) by {
        assert sp'.regions[n].Has(lo) && sp'.regions[r.value].Has(lo);
      }
      assert Removed(sp'.regions, n) == sp.regions;
    }
  }

  lemma {:induction false} OrdinaryLengthsSurviveMask(startVa: nat, len: nat)
    requires startVa % PAGE_SIZE == 0 && 0 < len && startVa + len < VA_LIMIT
    ensures EndSurvivesMask(startVa, len)
  {
  }

  /** A length of 2^39 bytes is accepted, maps nothing, and cannot be unmapped again. */
  lemma {:induction false} FoldedLength(sp: Space)
    requires Orderly(sp.regions) && !AnyClash(sp.regions, 1, 1)
    ensures var (sp', out) := MmapAt(sp, PAGE_SIZE, VA_LIMIT, 0);
            && out == Returned(PAGE_SIZE) && PagesOf(sp'.regions) == PagesOf(sp.regions)
            && Munmap(sp', PAGE_SIZE, VA_LIMIT) == (sp', Failed)
  {
  }

  // ---- what the calls map ------------------------------------------------------------

  /** A permission bit by bit: the low byte of `prot` if it is a union of R, W, X and U, and
      otherwise all of them but X. */
  lemma {:induction false} PermBits(prot: nat, f: nat)
    requires f == 2 || f == 4 || f == 8 || f == 16
    ensures PermOf(prot) / f % 2 == 1 <==> if prot % 256 >= 32 || prot % 2 == 1 then f != 8 else prot / f % 2 == 1
  {
    BitOfLow(prot, f);
    OddOfLow(prot);
    var low := prot % 256;
    assert PermOf(prot) == if low < 32 && low % 2 == 0 then low else 22;
  }

  lemma {:induction false} BitOfLow(prot: nat, f: nat)
    requires f == 2 || f == 4 || f == 8 || f == 16
    ensures prot / f % 2 == prot % 256 / f % 2
  {
    var low, rest := prot % 256, prot / 256;
    if f == 2 {
      Halved(rest, low);
    } else if f == 4 {
      Quartered(rest, low);
    } else if f == 8 {
      Eighth(rest, low);
    } else {
      Sixteenth(rest, low);
    }
  }

  lemma {:induction false} Halved(rest: nat, low: nat)
    ensures (256 * rest + low) / 2 % 2 == low / 2 % 2
  {
    assert 256 * rest + low == 2 * (2 * (64 * rest) + low / 2) + low % 2;
    assert (256 * rest + low) / 2 == 2 * (64 * rest) + low / 2;
  }

  lemma {:induction false} Quartered(rest: nat, low: nat)
    ensures (256 * rest + low) / 4 % 2 == low / 4 % 2
  {
    assert 256 * rest + low == 4 * (2 * (32 * rest) + low / 4) + low % 4;
    assert (256 * rest + low) / 4 == 2 * (32 * rest) + low / 4;
  }

  lemma {:induction false} Eighth(rest: nat, low: nat)
    ensures (256 * rest + low) / 8 % 2 == low / 8 % 2
  {
    assert 256 * rest + low == 8 * (2 * (16 * rest) + low / 8) + low % 8;
    assert (256 * rest + low) / 8 == 2 * (16 * rest) + low / 8;
  }

  lemma {:induction false} Sixteenth(rest: nat, low: nat)
    ensures (256 * rest + low) / 16 % 2 == low / 16 % 2
  {
    assert 256 * rest + low == 16 * (2 * (8 * rest) + low / 16) + low % 16;
    assert (256 * rest + low) / 16 == 2 * (8 * rest) + low / 16;
  }

  lemma {:induction false} OddOfLow(prot: nat)
    ensures prot % 256 % 2 == prot % 2
  {
  }

  /** The pages of the areas after one more. */
  lemma {:induction false} AppendedPages(rs: seq<Region>, r: Region)
    ensures forall v: nat :: v in PagesOf(rs + [r]) <==> v in PagesOf(rs) || r.lo <= v < r.hi
  {
    assert (rs + [r])[..|rs|] == rs;
  }

  /** R, W and U, and not X. */
  predicate IsHeapPerm(perm: nat)
  {
    perm < 32 && perm / 2 % 2 == 1 && perm / 4 % 2 == 1 && perm / 8 % 2 == 0 && perm / 16 % 2 == 1
  }

  /** `brk` that does not panic. Going up, it answers the new break and maps exactly the pages
      between the rounded breaks, as heap; these are taken from the masked ends, which make no
      difference up to the trampoline. Otherwise it answers the old break and changes nothing. */
  lemma {:induction false} BrkMapsExactly(sp: Space, addr: nat)
    ensures addr == 0 || addr < sp.brk ==> Brk(sp, addr) == (sp, Returned(sp.brk))
    ensures addr != 0 && addr >= sp.brk && !Brk(sp, addr).1.Panicked? ==>
              var (sp', out) := Brk(sp, addr);
              && out == Returned(addr) && sp'.brk == addr
              && (AlignUp(addr) <= AlignUp(sp.brk) ==> sp'.regions == sp.regions)
              && (AlignUp(addr) > AlignUp(sp.brk) ==>
                    MapsRange(sp.regions, sp'.regions, Floor(VirtAddrFrom(AlignUp(sp.brk))), Ceil(VirtAddrFrom(AlignUp(addr)))))
              && (forall i :: |sp.regions| <= i < |sp'.regions| ==> sp'.regions[i].mapType.Framed? && IsHeapPerm(sp'.regions[i].perm))
    ensures addr != 0 && sp.brk <= addr <= TRAMPOLINE_VA && !Brk(sp, addr).1.Panicked? ==>
              MapsRange(sp.regions, Brk(sp, addr).0.regions, AlignUp(sp.brk) / PAGE_SIZE, AlignUp(addr) / PAGE_SIZE)
  {
    var lo, hi := Floor(VirtAddrFrom(AlignUp(sp.brk))), Ceil(VirtAddrFrom(AlignUp(addr)));
    AppendedPages(sp.regions, Region(lo, hi, Framed, PERM_R + PERM_W + PERM_U));
    if sp.brk <= addr <= TRAMPOLINE_VA {
      BreaksUnmasked(sp.brk, addr);
    }
  }

  lemma {:induction false} BreaksUnmasked(brk: nat, addr: nat)
    requires brk <= addr <= TRAMPOLINE_VA
    ensures Floor(VirtAddrFrom(AlignUp(brk))) == AlignUp(brk) / PAGE_SIZE && Ceil(VirtAddrFrom(AlignUp(addr))) == AlignUp(addr) / PAGE_SIZE
    ensures AlignUp(addr) <= AlignUp(brk) ==> AlignUp(addr) / PAGE_SIZE <= AlignUp(brk) / PAGE_SIZE
  {
  }

  /** The areas stay, in front, and the pages are those of before and `lo..hi`. */
  ghost predicate MapsRange(rs: seq<Region>, rs': seq<Region>, lo: nat, hi: nat)
  {
    rs <= rs' && forall v: nat :: v in PagesOf(rs') <==> v in PagesOf(rs) || lo <= v < hi
  }

  /** The area grants what `prot` asks for. */
  predicate IsMmapPerm(perm: nat, prot: nat)
  {
    var asked := prot % 256 < 32 && prot % 2 == 0;
    && perm < 32 && perm % 2 == 0
    && (perm / 2 % 2 == 1 <==> !asked || prot / 2 % 2 == 1) && (perm / 4 % 2 == 1 <==> !asked || prot / 4 % 2 == 1)
    && (perm / 8 % 2 == 1 <==> asked && prot / 8 % 2 == 1) && (perm / 16 % 2 == 1 <==> !asked || prot / 16 % 2 == 1)
  }

  lemma {:induction false} PermOfIsAsked(prot: nat)
    ensures IsMmapPerm(PermOf(prot), prot)
  {
    PermBits(prot, 2);
    PermBits(prot, 4);
    PermBits(prot, 8);
    PermBits(prot, 16);
  }

  /** `mmap` at a chosen address that does not panic: it fails exactly when the range passes the
      end of the address space or an area overlaps or touches it, and changes nothing then.
      Otherwise it answers the address, leaves the break, and maps exactly the pages of the
      masked range in one area that grants what `prot` asks for. */
  lemma {:induction false} MmapMapsExactly(sp: Space, startVa: nat, len: nat, prot: nat)
    requires startVa < VA_LIMIT && !MmapAt(sp, startVa, len, prot).1.Panicked?
    ensures var (sp', out) := MmapAt(sp, startVa, len, prot);
            var lo, hi := Floor(startVa), Ceil(VirtAddrFrom(startVa + len));
            if UsizeFromVa(startVa) + len >= USIZE_LIMIT || exists i :: 0 <= i < |sp.regions| && lo <= sp.regions[i].hi && sp.regions[i].lo <= hi
            then (sp', out) == (sp, Failed)
            else && out == Returned(UsizeFromVa(startVa)) && sp'.brk == sp.brk
                 && MapsRange(sp.regions, sp'.regions, lo, hi) && |sp'.regions| == |sp.regions| + 1
                 && sp'.regions[|sp.regions|].mapType.Framed? && IsMmapPerm(sp'.regions[|sp.regions|].perm, prot)
  {
    var lo, hi := Floor(startVa), Ceil(VirtAddrFrom(startVa + len));
    SameMask(startVa, len);
    PermOfIsAsked(prot);
    AppendedPages(sp.regions, Region(lo, hi, Framed, PermOf(prot)));
    ClashIsTouch(sp.regions, lo, hi);
  }

  lemma {:induction false} ClashIsTouch(rs: seq<Region>, lo: nat, hi: nat)
    ensures AnyClash(rs, lo, hi) <==> exists i :: 0 <= i < |rs| && lo <= rs[i].hi && rs[i].lo <= hi
  {
    if i :| 0 <= i < |rs| && lo <= rs[i].hi && rs[i].lo <= hi {
      assert Clashes(rs[i], lo, hi);
    }
  }

  /** `mmap` at a fixed address refuses an empty length and an address inside a page, and is
      otherwise `mmap` at that address, masked. */
  lemma {:induction false} MmapFixed(sp: Space, start: nat, len: nat, prot: nat, r: (Space, Outcome))
    requires InRange(sp.regions) && start != 0 && MmapStep(sp, start, len, prot, r)
    ensures r == if len == 0 || start % PAGE_SIZE != 0 then (sp, Failed) else MmapAt(sp, VirtAddrFrom(start), len, prot)
  {
    BoundaryMask(start);
  }

  /** `munmap` succeeds exactly when some area has exactly the pages of the masked range, which
      is not empty; then these pages go and no others, and the break stays. Otherwise it fails
      and changes nothing. */
  lemma {:induction false} MunmapRemovesExactly(sp: Space, start: nat, len: nat)
    requires Orderly(sp.regions)
    ensures var (sp', out) := Munmap(sp, start, len);
            var lo, hi := Floor(VirtAddrFrom(start)), Ceil(VirtAddrFrom(start + len));
            if len > 0 && start % PAGE_SIZE == 0 && start + len < USIZE_LIMIT && lo < hi
               && exists i :: 0 <= i < |sp.regions| && sp.regions[i].lo == lo && sp.regions[i].hi == hi
            then && out == Returned(0) && sp'.brk == sp.brk && |sp'.regions| == |sp.regions| - 1
                 && forall v: nat :: v in PagesOf(sp'.regions) <==> v in PagesOf(sp.regions) && !(lo <= v < hi)
            else (sp', out) == (sp, Failed)
  {
    BoundaryMask(start);
    var r := FindExact(sp.regions, Floor(VirtAddrFrom(start)), Ceil(VirtAddrFrom(start + len)));
    if r.Some? {
      RemovePages(sp.regions, r.value);
    }
  }

  // ---- the heap stays below the break ------------------------------------------------

  /** Pages that a call added. */
  function Added(sp: Space, sp': Space): set<nat> { PagesOf(sp'.regions) - PagesOf(sp.regions) }

  predicate IsHeapCall(call: Call) { call.BrkCall? || (call.MmapCall? && call.start == 0) }

  /** Pages added by `brk` and `mmap(0)` during a run, without those unmapped again. */
  function HeapPages(states: seq<Space>, calls: seq<Call>, n: nat): set<nat>
    requires n <= |calls| && |states| == |calls| + 1
  {
    if n == 0 then {}
    else if IsHeapCall(calls[n - 1]) then HeapPages(states, calls, n - 1) + Added(states[n - 1], states[n])
    else HeapPages(states, calls, n - 1) * PagesOf(states[n].regions)
  }

  /** Every address that a search tries is at most `top`, and so is its end. */
  ghost predicate SearchBelow(rs: seq<Region>, from: nat, len: nat, top: nat)
    requires InRange(rs)
  {
    forall k: nat, j: nat :: SearchStops(rs, from, len, k) && j <= k ==> SearchAt(rs, from, j) + len <= top
  }

  /** A call of `brk` or `mmap(0)` does not go beyond `top`. */
  ghost predicate StaysUnder(sp: Space, call: Call, top: nat)
    requires InRange(sp.regions)
  {
    match call
    case BrkCall(addr) => addr <= top
    case MmapCall(start, len, _) => start == 0 ==> len <= top && SearchBelow(sp.regions, sp.brk, AlignUp(len), top)
    case MunmapCall(_, _) => true
  }

  /** From the last page of the address space on, rounding up wraps. */
  const LAST_PAGE: nat := USIZE_LIMIT - PAGE_SIZE

  /** The break does not wrap: neither the first one nor any call gets into the last page of the
      64-bit address space. */
  ghost predicate Unwrapped(states: seq<Space>, calls: seq<Call>)
    requires |states| == |calls| + 1
  {
    && states[0].brk <= LAST_PAGE
    && forall i :: 0 <= i < |calls| ==> InRange(states[i].regions) && StaysUnder(states[i], calls[i], LAST_PAGE)
  }

  /** A gap in the lower half, found from a good start there, keeps the search there. */
  lemma {:induction false} RoomIsEnough(sp: Space, len: nat, g: nat)
    requires InRange(sp.regions) && sp.brk < VA_HALF && SearchOn(sp.regions, g, sp.brk)
    requires var n := AlignUp(len) / PAGE_SIZE; g < HALF_VPN && g + n <= HALF_VPN && Fits(sp.regions, g, n)
    ensures SearchBelow(sp.regions, sp.brk, AlignUp(len), VA_HALF)
  {
    var rs, n, rounded := sp.regions, AlignUp(len) / PAGE_SIZE, AlignUp(len);
    assert rounded == n * PAGE_SIZE;
    forall k: nat, j: nat | SearchStops(rs, sp.brk, rounded, k) && j <= k ensures SearchAt(rs, sp.brk, j) + rounded <= VA_HALF {
      SearchStaysBelow(rs, sp.brk, n, g, k, j);
    }
  }

  /** The search is at or below page `g`, unmasked. */
  predicate LowOn(rs: seq<Region>, g: nat, addr: nat) { SearchOn(rs, g, addr) && addr <= g * PAGE_SIZE }

  lemma {:induction false} SearchStaysBelow(rs: seq<Region>, addr: nat, n: nat, g: nat, k: nat, j: nat)
    requires InRange(rs) && LowOn(rs, g, addr) && g < HALF_VPN && g + n <= HALF_VPN && Fits(rs, g, n)
    requires SearchStops(rs, addr, n * PAGE_SIZE, k) && j <= k
    ensures LowOn(rs, g, SearchAt(rs, addr, j))
  {
    if j > 0 {
      SearchStaysBelow(rs, addr, n, g, k, j - 1);
      SearchStopsAt(rs, addr, n * PAGE_SIZE, k, j - 1);
      LowConflict(rs, SearchAt(rs, addr, j - 1), n, g);
    }
  }

  lemma {:induction false} LowConflict(rs: seq<Region>, addr: nat, n: nat, g: nat)
    requires InRange(rs) && LowOn(rs, g, addr) && g < HALF_VPN && g + n <= HALF_VPN && Fits(rs, g, n)
    ensures Conflict(rs, addr, n * PAGE_SIZE) ==> LowOn(rs, g, NextAddr(rs, addr))
  {
    if Conflict(rs, addr, n * PAGE_SIZE) {
      ConflictMovesOn(rs, addr, n, g);
      NextStaysLow(rs, addr, g);
    }
  }

  lemma {:induction false} NextStaysLow(rs: seq<Region>, addr: nat, g: nat)
    requires InRange(rs) && addr <= g * PAGE_SIZE && g < HALF_VPN && VirtAddrFrom(NextAddr(rs, addr)) <= g * PAGE_SIZE
    ensures NextAddr(rs, addr) <= g * PAGE_SIZE
  {
    NextAddrCases(rs, addr);
    if i :| 0 <= i < |rs| && Holds(rs[i], addr) && NextAddr(rs, addr) == AddrOfVpn(rs[i].hi) {
      HeldWhere(rs[i], addr);
      EndOfRange(rs[i].hi);
    }
  }

  lemma {:induction false} NextIsHigher(rs: seq<Region>, addr: nat)
    requires InRange(rs)
    ensures addr + PAGE_SIZE < USIZE_LIMIT ==> addr < NextAddr(rs, addr)
  {
    NextAddrCases(rs, addr);
  }

  /** The search never goes down while it does not wrap. */
  lemma {:induction false} SearchClimbs(rs: seq<Region>, from: nat, k: nat)
    requires InRange(rs) && forall j: nat :: j < k ==> SearchAt(rs, from, j) + PAGE_SIZE < USIZE_LIMIT
    ensures from <= SearchAt(rs, from, k)
  {
    if k > 0 {
      SearchClimbs(rs, from, k - 1);
      NextIsHigher(rs, SearchAt(rs, from, k - 1));
    }
  }

  lemma {:induction false} AlignUpMonotone(a: nat, b: nat)
    requires a <= b <= LAST_PAGE
    ensures AlignUp(a) <= AlignUp(b) && b <= AlignUp(b)
  {
  }

  lemma {:induction false} AppendPage(rs: seq<Region>, r: Region, v: nat)
    ensures PagesOf(rs) <= PagesOf(rs + [r]) && (v in PagesOf(rs + [r]) - PagesOf(rs) ==> r.Has(v))
  {
    assert (rs + [r])[..|rs|] == rs;
  }

  /** A page that begins below the end of a range. */
  lemma {:induction false} PageBelow(end: nat, v: nat)
    requires v < Ceil(end)
    ensures v * PAGE_SIZE < end
  {
  }

  lemma {:induction false} MaskIsSmaller(x: nat)
    ensures VirtAddrFrom(x) <= x
  {
  }

  /** A page that an insertion adds begins below the masked end. */
  lemma {:induction false} InsertedPage(rs: seq<Region>, startVa: nat, endVa: nat, perm: nat, v: nat)
    ensures PagesOf(rs) <= PagesOf(Inserted(rs, startVa, endVa, perm))
    ensures v in PagesOf(Inserted(rs, startVa, endVa, perm)) - PagesOf(rs) ==> v * PAGE_SIZE < endVa
  {
    AppendPage(rs, Region(Floor(startVa), Ceil(endVa), Framed, perm), v);
    if v < Ceil(endVa) {
      PageBelow(endVa, v);
    }
  }

  lemma {:induction false} BrkAdds(sp: Space, addr: nat, v: nat)
    ensures var sp' := Brk(sp, addr).0;
            && PagesOf(sp.regions) <= PagesOf(sp'.regions)
            && (v in Added(sp, sp') ==> sp'.brk == addr && v * PAGE_SIZE < VirtAddrFrom(AlignUp(addr)))
  {
    InsertedPage(sp.regions, VirtAddrFrom(AlignUp(sp.brk)), VirtAddrFrom(AlignUp(addr)), PERM_R + PERM_W + PERM_U, v);
  }

  lemma {:induction false} BrkHeapStep(sp: Space, addr: nat, v: nat)
    requires sp.brk <= LAST_PAGE && addr <= LAST_PAGE
    ensures var sp' := Brk(sp, addr).0;
            && AlignUp(sp.brk) <= AlignUp(sp'.brk)
            && PagesOf(sp.regions) <= PagesOf(sp'.regions)
            && (v in Added(sp, sp') ==> v * PAGE_SIZE < AlignUp(sp'.brk))
  {
    BrkAdds(sp, addr, v);
    MaskIsSmaller(AlignUp(addr));
    if BrkGrows(sp, addr) {
      AlignUpMonotone(sp.brk, addr);
    }
  }

  /** `mmap(0)` that does not wrap: the break moves up, and the new pages lie below it. */
  lemma {:induction false} MmapHeapStep(sp: Space, len: nat, prot: nat, r: (Space, Outcome), top: nat, v: nat)
    requires InRange(sp.regions) && MmapStep(sp, 0, len, prot, r) && sp.brk <= top <= LAST_PAGE
    requires len <= top && SearchBelow(sp.regions, sp.brk, AlignUp(len), top)
    ensures sp.brk <= r.0.brk <= top && AlignUp(sp.brk) <= AlignUp(r.0.brk)
    ensures PagesOf(sp.regions) <= PagesOf(r.0.regions)
    ensures v in Added(sp, r.0) ==> v * PAGE_SIZE < AlignUp(r.0.brk)
  {
    if len > 0 {
      var k: nat :| MmapSearched(sp, len, prot, k, r);
      var a, brk := SearchedBelow(sp, len, prot, r, k, top);
      AlignUpMonotone(sp.brk, brk);
      MmapHeapAt(sp.(brk := brk), a, len, prot, v);
    }
  }

  lemma {:induction false} SearchedBelow(sp: Space, len: nat, prot: nat, r: (Space, Outcome), k: nat, top: nat) returns (a: nat, brk: nat)
    requires InRange(sp.regions) && MmapSearched(sp, len, prot, k, r) && 0 < len <= top <= LAST_PAGE
    requires SearchBelow(sp.regions, sp.brk, AlignUp(len), top)
    ensures sp.brk <= a && a + len <= brk == a + AlignUp(len) <= top
    ensures a == SearchAt(sp.regions, sp.brk, k) && r == MmapAt(sp.(brk := brk), VirtAddrFrom(a), len, prot)
  {
    a := SearchAt(sp.regions, sp.brk, k);
    brk := a + AlignUp(len);
    RoundedUp(len);
    SearchClimbs(sp.regions, sp.brk, k);
  }

  lemma {:induction false} RoundedUp(len: nat)
    requires 0 < len <= LAST_PAGE
    ensures PAGE_SIZE <= AlignUp(len) && len <= AlignUp(len)
  {
  }

  lemma {:induction false} MmapHeapAt(sp: Space, a: nat, len: nat, prot: nat, v: nat)
    requires a + len <= sp.brk
    ensures var sp' := MmapAt(sp, VirtAddrFrom(a), len, prot).0;
            && sp'.brk == sp.brk && PagesOf(sp.regions) <= PagesOf(sp'.regions)
            && (v in Added(sp, sp') ==> v * PAGE_SIZE < sp.brk)
  {
    var va := VirtAddrFrom(a);
    InsertedBelow(sp, MmapAt(sp, va, len, prot).0, va, VirtAddrFrom(UsizeFromVa(va) + len), PermOf(prot), v);
    EndBelow(a, len);
  }

  lemma {:induction false} EndBelow(a: nat, len: nat)
    ensures VirtAddrFrom(UsizeFromVa(VirtAddrFrom(a)) + len) <= a + len
  {
    SameMask(VirtAddrFrom(a), len);
    MaskIsSmaller(VirtAddrFrom(a) + len);
    MaskIsSmaller(a);
  }

  lemma {:induction false} InsertedBelow(sp: Space, sp': Space, startVa: nat, endVa: nat, perm: nat, v: nat)
    requires sp' == sp || sp' == sp.(regions := Inserted(sp.regions, startVa, endVa, perm))
    ensures PagesOf(sp.regions) <= PagesOf(sp'.regions) && (v in Added(sp, sp') ==> v * PAGE_SIZE < endVa)
  {
    InsertedPage(sp.regions, startVa, endVa, perm, v);
  }

  /** In every run whose break does not wrap, whatever `brk` and `mmap(0)` have mapped lies below
      the break. */
  lemma {:induction false} HeapStaysBelowBreak(states: seq<Space>, calls: seq<Call>, outs: seq<Outcome>, n: nat, v: nat)
    requires Run(states, calls, outs) && Unwrapped(states, calls) && n <= |calls|
    requires v in HeapPages(states, calls, n)
    ensures v in PagesOf(states[n].regions) && v * PAGE_SIZE < AlignUp(states[n].brk)
  {
    UnwrappedStep(states, calls, outs, n, v);
    if v in HeapPages(states, calls, n - 1) {
      HeapStaysBelowBreak(states, calls, outs, n - 1, v);
    }
  }

  lemma {:induction false} UnwrappedStep(states: seq<Space>, calls: seq<Call>, outs: seq<Outcome>, n: nat, v: nat)
    requires Run(states, calls, outs) && Unwrapped(states, calls) && 0 < n <= |calls|
    ensures AlignUp(states[n - 1].brk) <= AlignUp(states[n].brk)
    ensures IsHeapCall(calls[n - 1]) ==> PagesOf(states[n - 1].regions) <= PagesOf(states[n].regions)
    ensures IsHeapCall(calls[n - 1]) && v in Added(states[n - 1], states[n]) ==> v * PAGE_SIZE < AlignUp(states[n].brk)
  {
    UnwrappedBreak(states, calls, outs, n - 1);
    HeapStep(states[n - 1], calls[n - 1], (states[n], outs[n - 1]), LAST_PAGE, v);
  }

  lemma {:induction false} UnwrappedBreak(states: seq<Space>, calls: seq<Call>, outs: seq<Outcome>, n: nat)
    requires Run(states, calls, outs) && Unwrapped(states, calls) && n <= |calls|
    ensures states[n].brk <= LAST_PAGE
  {
    if n > 0 {
      UnwrappedBreak(states, calls, outs, n - 1);
      HeapStep(states[n - 1], calls[n - 1], (states[n], outs[n - 1]), LAST_PAGE, 0);
    }
  }

  lemma {:induction false} HeapStep(sp: Space, call: Call, r: (Space, Outcome), top: nat, v: nat)
    requires InRange(sp.regions) && Step(sp, call, r) && sp.brk <= top <= LAST_PAGE && StaysUnder(sp, call, top)
    ensures r.0.brk <= top && AlignUp(sp.brk) <= AlignUp(r.0.brk)
    ensures IsHeapCall(call) ==> PagesOf(sp.regions) <= PagesOf(r.0.regions)
    ensures IsHeapCall(call) && v in Added(sp, r.0) ==> v * PAGE_SIZE < AlignUp(r.0.brk)
  {
    if call.BrkCall? {
      BrkHeapStep(sp, call.addr, v);
    } else if IsHeapCall(call) {
      MmapHeapStep(sp, call.len, call.prot, r, top, v);
    }
  }

  // ---- runs that never panic -----------------------------------------------------------

  /** The masked range is in order and below the trampoline. */
  predicate InOrder(start: nat, len: nat)
  {
    Floor(VirtAddrFrom(start)) <= Ceil(VirtAddrFrom(start + len)) <= TRAMPOLINE_VPN
  }

  /** What a caller can do for no assertion to fire, whatever a search comes to: `brk` grows over
      free pages only, `mmap` names ranges below the trampoline, and `brk` and searches keep
      below it, too. */
  ghost predicate Polite(sp: Space, call: Call)
    requires InRange(sp.regions)
  {
    && StaysUnder(sp, call, TRAMPOLINE_VA)
    && match call
       case BrkCall(addr) =>
         BrkGrows(sp, addr) ==>
           forall v :: AlignUp(sp.brk) / PAGE_SIZE <= v < AlignUp(addr) / PAGE_SIZE ==> !Mapped(sp.regions, v)
       case MmapCall(start, len, _) => start == 0 || InOrder(start, len)
       case MunmapCall(_, _) => true
  }

  ghost predicate PoliteRun(states: seq<Space>, calls: seq<Call>, outs: seq<Outcome>)
  {
    && |states| == |calls| + 1 && |outs| == |calls| && states[0].brk <= TRAMPOLINE_VA
    && forall i :: 0 <= i < |calls| ==> PoliteCall(states[i], calls[i], states[i + 1], outs[i])
  }

  ghost predicate PoliteCall(sp: Space, call: Call, sp': Space, out: Outcome)
  {
    InRange(sp.regions) && Step(sp, call, (sp', out)) && Polite(sp, call)
  }

  /** In such a run no call panics. */
  lemma {:induction false} PoliteRunNeverPanics(states: seq<Space>, calls: seq<Call>, outs: seq<Outcome>, n: nat)
    requires PoliteRun(states, calls, outs) && n < |calls|
    ensures !outs[n].Panicked? && states[n + 1].brk <= TRAMPOLINE_VA
  {
    if n > 0 {
      PoliteRunNeverPanics(states, calls, outs, n - 1);
    }
    assert PoliteCall(states[n], calls[n], states[n + 1], outs[n]);
    PoliteStep(states[n], calls[n], (states[n + 1], outs[n]));
  }

  lemma {:induction false} PoliteStep(sp: Space, call: Call, r: (Space, Outcome))
    requires InRange(sp.regions) && Step(sp, call, r) && sp.brk <= TRAMPOLINE_VA && Polite(sp, call)
    ensures !r.1.Panicked? && r.0.brk <= TRAMPOLINE_VA
  {
    HeapStep(sp, call, r, TRAMPOLINE_VA, 0);
    match call
    case BrkCall(addr) => BrkPanicsExactly(sp, addr);
    case MmapCall(start, len, prot) =>
      if start == 0 {
        PoliteSearch(sp, len, prot, r);
      } else {
        InOrderNeverPanics(sp, start, len, prot);
      }
    case MunmapCall(_, _) =>
  }

  lemma {:induction false} InOrderNeverPanics(sp: Space, start: nat, len: nat, prot: nat)
    requires InOrder(start, len)
    ensures !MmapAt(sp, VirtAddrFrom(start), len, prot).1.Panicked?
  {
    MmapPanicsExactly(sp, VirtAddrFrom(start), len, prot);
    MaskTwice(start, len);
  }

  lemma {:induction false} MaskTwice(start: nat, len: nat)
    ensures VirtAddrFrom(VirtAddrFrom(start) + len) == VirtAddrFrom(start + len)
  {
    var q := start / VA_LIMIT;
    assert start + len == q * VA_LIMIT + (VirtAddrFrom(start) + len);
  }

  lemma {:induction false} PoliteSearch(sp: Space, len: nat, prot: nat, r: (Space, Outcome))
    requires InRange(sp.regions) && MmapStep(sp, 0, len, prot, r) && sp.brk <= TRAMPOLINE_VA
    requires StaysUnder(sp, MmapCall(0, len, prot), TRAMPOLINE_VA)
    ensures !r.1.Panicked?
  {
    if len > 0 {
      var k: nat :| MmapSearched(sp, len, prot, k, r);
      var a, brk := SearchedBelow(sp, len, prot, r, k, TRAMPOLINE_VA);
      assert InOrder(a, len) by { LowInOrder(a, len); }
      InOrderNeverPanics(sp.(brk := brk), a, len, prot);
    }
  }

  lemma {:induction false} LowInOrder(a: nat, len: nat)
    requires a + len <= TRAMPOLINE_VA
    ensures InOrder(a, len)
  {
  }

  // ---- the trap context ----------------------------------------------------------------

  /** The `munmap` names exactly the area that holds the trap context. */
  predicate HitsTrapContext(rs: seq<Region>, start: nat, len: nat)
  {
    var lo, hi := Floor(VirtAddrFrom(start)), Ceil(VirtAddrFrom(start + len));
    && len > 0 && PageOffset(VirtAddrFrom(start)) == 0 && start + len < USIZE_LIMIT && lo < hi == TRAMPOLINE_VPN
    && exists i :: 0 <= i < |rs| && rs[i].lo == lo && rs[i].hi == TRAMPOLINE_VPN
  }

  /** `munmap` leaves the trap context mapped if and only if it does not name its area. */
  lemma {:induction false} MunmapKeepsTrapContextExactly(sp: Space, start: nat, len: nat)
    requires Orderly(sp.regions) && HasTrapContext(sp.regions)
    ensures HasTrapContext(Munmap(sp, start, len).0.regions) <==> !HitsTrapContext(sp.regions, start, len)
  {
    var rs, rs' := sp.regions, Munmap(sp, start, len).0.regions;
    var t :| 0 <= t < |rs| && HoldsTrapContext(rs[t]);
    var found := FindExact(rs, Floor(VirtAddrFrom(start)), Ceil(VirtAddrFrom(start + len)));
    if found.Some? && rs' == Removed(rs, found.value) && |rs'| < |rs| {
      RemovedTrapContext(rs, t, found.value);
    }
  }

  /** Removing an area removes the trap context if and only if it is the one that holds it. */
  lemma {:induction false} RemovedTrapContext(rs: seq<Region>, t: nat, k: nat)
    requires Orderly(rs) && t < |rs| && k < |rs| && HoldsTrapContext(rs[t])
    ensures HasTrapContext(Removed(rs, k)) <==> k != t
    ensures HoldsTrapContext(rs[k]) <==> k == t
  {
    var rs', v := Removed(rs, k), TRAMPOLINE_VPN - 1;
    assert rs[t].Has(v);
    assert HoldsTrapContext(rs[k]) ==> rs[k].Has(v);
    if k != t {
      var j := if t < k then t else t - 1;
      RemovedAt(rs, k, j);
      assert HoldsTrapContext(rs'[j]);
    } else {
      forall j | 0 <= j < |rs'| ensures !HoldsTrapContext(rs'[j]) {
        RemovedAt(rs, k, j);
        assert HoldsTrapContext(rs'[j]) ==> rs'[j].Has(v);
      }
    }
  }

  ghost predicate Hits(sp: Space, call: Call)
  {
    call.MunmapCall? && HitsTrapContext(sp.regions, call.start, call.len)
  }

  lemma {:induction false} StepKeepsTrapContextExactly(sp: Space, call: Call, r: (Space, Outcome))
    requires Orderly(sp.regions) && HasTrapContext(sp.regions) && Step(sp, call, r)
    ensures HasTrapContext(r.0.regions) <==> !Hits(sp, call)
  {
    if call.MunmapCall? {
      MunmapKeepsTrapContextExactly(sp, call.start, call.len);
    } else {
      OnlyGrows(sp, call, r);
      var t :| 0 <= t < |sp.regions| && HoldsTrapContext(sp.regions[t]);
      assert r.0.regions[t] == sp.regions[t];
    }
  }

  lemma {:induction false} OnlyGrows(sp: Space, call: Call, r: (Space, Outcome))
    requires InRange(sp.regions) && Step(sp, call, r) && !call.MunmapCall?
    ensures sp.regions <= r.0.regions
  {
  }

  /** Over every run the trap context stays mapped if and only if no `munmap` names its area. */
  lemma {:induction false} TrapContextStaysExactly(states: seq<Space>, calls: seq<Call>, outs: seq<Outcome>, n: nat)
    requires Run(states, calls, outs) && Orderly(states[0].regions) && HasTrapContext(states[0].regions) && n <= |calls|
    ensures (forall i :: 0 <= i <= n ==> HasTrapContext(states[i].regions)) <==> (forall i :: 0 <= i < n ==> !Hits(states[i], calls[i]))
  {
    if n > 0 {
      TrapContextStaysExactly(states, calls, outs, n - 1);
      TrapContextAt(states, calls, outs, n - 1);
    }
  }

  lemma {:induction false} TrapContextAt(states: seq<Space>, calls: seq<Call>, outs: seq<Outcome>, n: nat)
    requires Run(states, calls, outs) && Orderly(states[0].regions) && n < |calls|
    ensures HasTrapContext(states[n].regions) ==> (HasTrapContext(states[n + 1].regions) <==> !Hits(states[n], calls[n]))
  {
    RunKeepsOrder(states, calls, outs, n);
    if HasTrapContext(states[n].regions) {
      StepKeepsTrapContextExactly(states[n], calls[n], (states[n + 1], outs[n]));
    }
  }

  /** An ordinary process can do that: unmapping the trap-context page succeeds. */
  lemma {:induction false} TrapContextCanBeUnmapped(sp: Space, t: nat)
    requires Orderly(sp.regions) && t < |sp.regions|
    requires sp.regions[t].lo == TRAMPOLINE_VPN - 1 && sp.regions[t].hi == TRAMPOLINE_VPN
    ensures var r := Munmap(sp, TRAP_CONTEXT_BASE, PAGE_SIZE);
            r.1 == Returned(0) && HasTrapContext(sp.regions) && !HasTrapContext(r.0.regions)
  {
    assert HoldsTrapContext(sp.regions[t]);
    MunmapKeepsTrapContextExactly(sp, TRAP_CONTEXT_BASE, PAGE_SIZE);
  }
}
