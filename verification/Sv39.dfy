/** The three-level SV39 page table (os/src/hal/arch/riscv/sv39.rs).

The table lives in raw physical pages. `Tree` says that those pages form a radix tree
in which every table page is reached by exactly one path; `Lookup` is the walk. */
module Sv39 {
  import opened Addresses
  import opened Frames
  import opened Closed

  const PTE_V: nat := 1
  const PERM_R: nat := 2
  const PERM_W: nat := 4
  const PERM_X: nat := 8
  const PERM_U: nat := 16

  /** A `MapPermission`: any union of R, W, X and U. */
  predicate IsPerm(perm: nat) { perm < 32 && perm % 2 == 0 }

  function PteNew(ppn: nat, flags: nat): nat { ppn * 1024 + flags }
  function PtePpn(bits: nat): nat { bits / 1024 % PPN_LIMIT }
  function PteFlags(bits: nat): nat { bits % 256 }
  predicate PteValid(bits: nat) { PteFlags(bits) % 2 == 1 }

  lemma {:induction false} PteRoundTrip(ppn: nat, flags: nat)
    requires ppn < PPN_LIMIT && flags < 256
    ensures PtePpn(PteNew(ppn, flags)) == ppn
    ensures PteFlags(PteNew(ppn, flags)) == flags
  {
    var bits := PteNew(ppn, flags);
    assert bits / 1024 == ppn;
    assert bits == 256 * (4 * ppn) + flags;
    assert bits % 256 == flags;
  }

  /** The leaf entry that `map` writes. */
  function LeafPte(ppn: nat, perm: nat): nat { PteNew(ppn, perm + PTE_V) }

  lemma {:induction false} LeafPteDecodes(ppn: nat, perm: nat)
    requires ppn < PPN_LIMIT && IsPerm(perm)
    ensures PteValid(LeafPte(ppn, perm))
    ensures PtePpn(LeafPte(ppn, perm)) == ppn
    ensures PteFlags(LeafPte(ppn, perm)) == perm + PTE_V
  {
    PteRoundTrip(ppn, perm + PTE_V);
  }

  type Pages = map<nat, Page>

  function Entry(pages: Pages, ppn: nat, i: nat): nat
  {
    if ppn in pages && i < PTES_PER_PAGE then pages[ppn][i] else 0
  }

  function SetEntry(pages: Pages, ppn: nat, i: nat, bits: nat): Pages
    requires ppn in pages && i < PTES_PER_PAGE
  {
    pages[ppn := pages[ppn][i := bits]]
  }

  datatype Slot = Slot(ppn: nat, idx: nat)

  /** The slot of the last-level entry for `vpn`, when both upper levels exist. */
  function FindSlot(pages: Pages, root: nat, vpn: nat): Option<Slot>
  {
    var e0 := Entry(pages, root, I0(vpn));
    if !PteValid(e0) then None else
    var e1 := Entry(pages, PtePpn(e0), I1(vpn));
    if !PteValid(e1) then None else
    Some(Slot(PtePpn(e1), I2(vpn)))
  }

  /** What `translate` finds: the leaf entry, valid or not, when its table exists. */
  function Found(pages: Pages, root: nat, vpn: nat): Option<nat>
  {
    match FindSlot(pages, root, vpn)
    case None => None
    case Some(s) => Some(Entry(pages, s.ppn, s.idx))
  }

  /** The valid translation of `vpn`, if there is one. */
  function Lookup(pages: Pages, root: nat, vpn: nat): Option<nat>
  {
    match FindSlot(pages, root, vpn)
    case None => None
    case Some(s) =>
      var bits := Entry(pages, s.ppn, s.idx);
      if PteValid(bits) then Some(bits) else None
  }

  /** Where a table page hangs in the tree. */
  datatype Path = Root | Mid(i0: nat) | Leaf(i0: nat, i1: nat)

  function Child(p: Path, i: nat): Path
    requires !p.Leaf?
  {
    if p.Root? then Mid(i) else Leaf(p.i0, i)
  }

  /** Valid upper-level entries lead to the page labelled with the extended path, and grant
      nothing: they are pointers. */
  ghost predicate Down(pages: Pages, kind: map<nat, Path>)
  {
    forall p, i :: p in kind && !kind[p].Leaf? && 0 <= i < PTES_PER_PAGE && PteValid(Entry(pages, p, i)) ==>
                     PtePpn(Entry(pages, p, i)) in kind && kind[PtePpn(Entry(pages, p, i))] == Child(kind[p], i)
                     && PteFlags(Entry(pages, p, i)) == PTE_V
  }

  ghost predicate Points(pages: Pages, p: nat, i: nat, q: nat) {
    i < PTES_PER_PAGE && PteValid(Entry(pages, p, i)) && PtePpn(Entry(pages, p, i)) == q
  }

  /** Every labelled page is really reached along its label. */
  ghost predicate Up(pages: Pages, root: nat, kind: map<nat, Path>)
  {
    && (forall q :: q in kind && kind[q].Root? ==> q == root)
    && (forall q :: q in kind && kind[q].Mid? ==> Points(pages, root, kind[q].i0, q))
    && (forall q :: q in kind && kind[q].Leaf? ==>
                      Points(pages, PtePpn(Entry(pages, root, kind[q].i0)), kind[q].i1, q)
                      && kind[q].i0 < PTES_PER_PAGE && PteValid(Entry(pages, root, kind[q].i0)))
  }

  ghost predicate Tree(pages: Pages, root: nat, kind: map<nat, Path>)
  {
    && root in kind && kind[root] == Root
    && (forall p :: p in kind ==> p in pages && p < PPN_LIMIT)
    && Down(pages, kind)
    && Up(pages, root, kind)
  }

  /** The walk follows the labels. */
  lemma {:induction false} SlotLabel(pages: Pages, root: nat, kind: map<nat, Path>, vpn: nat)
    requires Tree(pages, root, kind)
    ensures FindSlot(pages, root, vpn).Some? ==>
              var s := FindSlot(pages, root, vpn).value;
              s.ppn in kind && kind[s.ppn] == Leaf(I0(vpn), I1(vpn)) && s.idx == I2(vpn)
  {
  }

  /** Two page numbers with the same slot are equal. */
  lemma {:induction false} SlotInjective(pages: Pages, root: nat, kind: map<nat, Path>, v: nat, w: nat)
    requires Tree(pages, root, kind) && v < VPN_LIMIT && w < VPN_LIMIT
    requires FindSlot(pages, root, v).Some? && FindSlot(pages, root, v) == FindSlot(pages, root, w)
    ensures v == w
  {
    SlotLabel(pages, root, kind, v);
    SlotLabel(pages, root, kind, w);
    IndexesDetermineVpn(v, w);
  }

  /** `pages` after frame `f` is cleared and linked into entry `i` of table page `p`. */
  function Link(pages: Pages, p: nat, i: nat, f: nat): Pages
    requires p in pages && p != f && i < PTES_PER_PAGE
  {
    SetEntry(pages[f := ZeroPage()], p, i, PteNew(f, PTE_V))
  }

  ghost predicate Linkable(pages: Pages, root: nat, kind: map<nat, Path>, p: nat, i: nat, f: nat)
  {
    && Tree(pages, root, kind)
    && p in kind && !kind[p].Leaf? && i < PTES_PER_PAGE && !PteValid(Entry(pages, p, i))
    && f !in kind && f < PPN_LIMIT
  }

  /** Linking a fresh cleared frame into an invalid upper-level slot keeps the tree. */
  lemma {:induction false} LinkKeepsTree(pages: Pages, root: nat, kind: map<nat, Path>, p: nat, i: nat, f: nat)
    requires Linkable(pages, root, kind, p, i, f)
    ensures Tree(Link(pages, p, i, f), root, kind[f := Child(kind[p], i)])
  {
    LinkKeepsDown(pages, root, kind, p, i, f);
    LinkKeepsUp(pages, root, kind, p, i, f);
  }

  lemma {:induction false} LinkKeepsDown(pages: Pages, root: nat, kind: map<nat, Path>, p: nat, i: nat, f: nat)
    requires Linkable(pages, root, kind, p, i, f)
    ensures Down(Link(pages, p, i, f), kind[f := Child(kind[p], i)])
  {
    var pages', kind' := Link(pages, p, i, f), kind[f := Child(kind[p], i)];
    LinkEntries(pages, p, i, f);
    forall q, j | q in kind' && !kind'[q].Leaf? && 0 <= j < PTES_PER_PAGE && PteValid(Entry(pages', q, j))
      ensures PtePpn(Entry(pages', q, j)) in kind' && kind'[PtePpn(Entry(pages', q, j))] == Child(kind'[q], j)
      ensures PteFlags(Entry(pages', q, j)) == PTE_V
    {
      if q != f && (q != p || j != i) {
        assert Entry(pages', q, j) == Entry(pages, q, j);
      }
    }
  }

  lemma {:induction false} LinkKeepsUp(pages: Pages, root: nat, kind: map<nat, Path>, p: nat, i: nat, f: nat)
    requires Linkable(pages, root, kind, p, i, f)
    ensures Up(Link(pages, p, i, f), root, kind[f := Child(kind[p], i)])
  {
    var pages', kind' := Link(pages, p, i, f), kind[f := Child(kind[p], i)];
    LinkEntries(pages, p, i, f);
    forall q | q in kind' && kind'[q].Mid?
      ensures Points(pages', root, kind'[q].i0, q)
    {
      if q != f {
        assert Points(pages, root, kind[q].i0, q);
      }
    }
    forall q | q in kind' && kind'[q].Leaf?
      ensures kind'[q].i0 < PTES_PER_PAGE && PteValid(Entry(pages', root, kind'[q].i0))
      ensures Points(pages', PtePpn(Entry(pages', root, kind'[q].i0)), kind'[q].i1, q)
    {
      if q == f {
        assert Points(pages, root, kind[p].i0, p);
      } else {
        assert Points(pages, PtePpn(Entry(pages, root, kind[q].i0)), kind[q].i1, q);
        assert Entry(pages', root, kind[q].i0) == Entry(pages, root, kind[q].i0);
      }
    }
  }

  lemma {:induction false} LinkEntries(pages: Pages, p: nat, i: nat, f: nat)
    requires p in pages && p != f && i < PTES_PER_PAGE && f < PPN_LIMIT
    ensures
      var pages' := Link(pages, p, i, f);
      && PteValid(Entry(pages', p, i)) && PtePpn(Entry(pages', p, i)) == f
      && (forall q, j :: q != f && (q != p || j != i) ==> Entry(pages', q, j) == Entry(pages, q, j))
      && (forall j :: Entry(pages', f, j) == 0)
  {
  }

  /** ... and changes no translation. */
  lemma {:induction false} LinkKeepsLookup(pages: Pages, root: nat, kind: map<nat, Path>, p: nat, i: nat, f: nat, vpn: nat)
    requires Linkable(pages, root, kind, p, i, f)
    ensures Lookup(Link(pages, p, i, f), root, vpn) == Lookup(pages, root, vpn)
  {
    LinkEntries(pages, p, i, f);
    LinkKeepsSlot(pages, root, kind, p, i, f, vpn);
    SlotLabel(pages, root, kind, vpn);
  }

  /** A walk that got through still does; one that did not ends before, or on the cleared frame. */
  lemma {:induction false} LinkKeepsSlot(pages: Pages, root: nat, kind: map<nat, Path>, p: nat, i: nat, f: nat, vpn: nat)
    requires Linkable(pages, root, kind, p, i, f)
    ensures var before, now := FindSlot(pages, root, vpn), FindSlot(Link(pages, p, i, f), root, vpn);
            now == before || (before.None? && now.Some? && now.value.ppn == f)
  {
    LinkEntries(pages, p, i, f);
    var pages' := Link(pages, p, i, f);
    var e0 := Entry(pages, root, I0(vpn));
    if p == root && i == I0(vpn) {
      assert PtePpn(Entry(pages', root, I0(vpn))) == f;
    } else if PteValid(e0) {
      assert Entry(pages', root, I0(vpn)) == e0;
      var p1 := PtePpn(e0);
      assert p1 in kind && p1 != f;
    }
  }

  /** Writing a last-level entry keeps the tree and changes one translation. */
  lemma {:induction false} WriteLeaf(pages: Pages, root: nat, kind: map<nat, Path>, vpn: nat, bits: nat)
    requires Tree(pages, root, kind) && vpn < VPN_LIMIT && FindSlot(pages, root, vpn).Some?
    ensures
      var s := FindSlot(pages, root, vpn).value;
      && s.ppn in kind && kind[s.ppn].Leaf? && s.ppn in pages && s.idx < PTES_PER_PAGE
      && var pages' := SetEntry(pages, s.ppn, s.idx, bits);
      && Tree(pages', root, kind)
      && Lookup(pages', root, vpn) == (if PteValid(bits) then Some(bits) else None)
      && forall w :: 0 <= w < VPN_LIMIT && w != vpn ==> Lookup(pages', root, w) == Lookup(pages, root, w)
  {
    SlotLabel(pages, root, kind, vpn);
    var s := FindSlot(pages, root, vpn).value;
    var pages' := SetEntry(pages, s.ppn, s.idx, bits);
    assert forall q, j :: (q != s.ppn || j != s.idx) ==> Entry(pages', q, j) == Entry(pages, q, j);
    assert Tree(pages', root, kind);
    forall w | 0 <= w < VPN_LIMIT
      ensures FindSlot(pages', root, w) == FindSlot(pages, root, w)
      ensures w != vpn ==> Lookup(pages', root, w) == Lookup(pages, root, w)
    {
      SlotLabel(pages, root, kind, w);
      if w != vpn && FindSlot(pages, root, w) == FindSlot(pages, root, vpn) {
        SlotInjective(pages, root, kind, v := w, w := vpn);
        assert false;
      }
    }
  }

  /** The tree and its translations depend on the table pages only. */
  lemma {:induction false} TreeFrame(pages: Pages, pages': Pages, root: nat, kind: map<nat, Path>)
    requires Tree(pages, root, kind)
    requires forall p :: p in kind ==> p in pages' && pages'[p] == pages[p]
    ensures Tree(pages', root, kind)
    ensures forall w :: Lookup(pages', root, w) == Lookup(pages, root, w)
  {
    assert forall p, i :: p in kind ==> Entry(pages', p, i) == Entry(pages, p, i);
    forall w ensures Lookup(pages', root, w) == Lookup(pages, root, w) {
      SlotLabel(pages, root, kind, w);
    }
  }

  /** The walk agrees with the flat map `flat` on every page number. */
  ghost predicate Refines(pages: Pages, root: nat, flat: map<nat, nat>)
  {
    && (forall w :: w in flat ==> w < VPN_LIMIT)
    && (forall w :: 0 <= w < VPN_LIMIT ==>
                      Lookup(pages, root, w) == if w in flat then Some(flat[w]) else None)
  }

  predicate OpenTable(k: Key) { true }

  /** The invariant of a page table. */
  ghost predicate TableOk(pages: Pages, root: nat, frames: seq<nat>, kind: map<nat, Path>, flat: map<nat, nat>)
  {
    forall k: Key :: OpenTable(k) ==> TableFacts(pages, root, frames, kind, flat)
  }

  ghost predicate TableFacts(pages: Pages, root: nat, frames: seq<nat>, kind: map<nat, Path>, flat: map<nat, nat>)
  {
    && Tree(pages, root, kind)
    && Refines(pages, root, flat)
    && NoDup(frames)
    && (forall f :: f in frames <==> f in kind)
  }

  /** How many table pages the walk to `vpn` is short of. */
  function Missing(pages: Pages, root: nat, vpn: nat): nat
  {
    if FindSlot(pages, root, vpn).Some? then 0
    else if PteValid(Entry(pages, root, I0(vpn))) then 1 else 2
  }

  /** Pages outside `mine` that were there before are as they were, apart from frames that were free. */
  ghost predicate Undisturbed(pages: Pages, pages': Pages, mine: set<nat>, owned: set<nat>)
  {
    forall p :: p in owned && p !in mine && p in pages ==> p in pages' && pages'[p] == pages[p]
  }

  /** A table gained freshly allocated pages and nothing else of `owned` was touched. */
  ghost predicate Grew(pages: Pages, pages': Pages, kind: map<nat, Path>, kind': map<nat, Path>,
                       owned: set<nat>, owned': set<nat>)
  {
    && owned <= owned' && owned' - owned == kind'.Keys - kind.Keys
    && kind.Keys <= kind'.Keys <= owned'
    && Undisturbed(pages, pages', kind'.Keys, owned)
    && pages.Keys == pages'.Keys
  }

  lemma {:induction false} GrewTrans(pages0: Pages, pages1: Pages, pages2: Pages,
                  kind0: map<nat, Path>, kind1: map<nat, Path>, kind2: map<nat, Path>,
                  owned0: set<nat>, owned1: set<nat>, owned2: set<nat>)
    requires Grew(pages0, pages1, kind0, kind1, owned0, owned1)
    requires Grew(pages1, pages2, kind1, kind2, owned1, owned2)
    ensures Grew(pages0, pages2, kind0, kind2, owned0, owned2)
  {
    forall x ensures x in owned2 - owned0 <==> x in kind2.Keys - kind0.Keys {
      assert x in owned1 - owned0 <==> x in kind1.Keys - kind0.Keys;
      assert x in owned2 - owned1 <==> x in kind2.Keys - kind1.Keys;
    }
  }

  function PathTo(vpn: nat, level: nat): Path
    requires level <= 2
  {
    if level == 0 then Root else if level == 1 then Mid(I0(vpn)) else Leaf(I0(vpn), I1(vpn))
  }

  /** After `level` steps the walk to `vpn` stands on table page `ppn`. */
  ghost predicate Reached(pages: Pages, root: nat, vpn: nat, level: nat, ppn: nat)
    requires level <= 2
  {
    && (level == 0 ==> ppn == root)
    && (level >= 1 ==> PteValid(Entry(pages, root, I0(vpn))))
    && (level == 1 ==> ppn == PtePpn(Entry(pages, root, I0(vpn))))
    && (level == 2 ==> FindSlot(pages, root, vpn) == Some(Slot(ppn, I2(vpn))))
  }

  function IndexAt(vpn: nat, level: nat): nat
    requires level <= 2
  {
    if level == 0 then I0(vpn) else if level == 1 then I1(vpn) else I2(vpn)
  }

  /** One step down, through an existing entry or a freshly linked one. */
  lemma {:induction false} WalkOneLevel(pages: Pages, pages': Pages, root: nat, kind: map<nat, Path>, kind': map<nat, Path>,
                     vpn: nat, level: nat, ppn: nat, next: nat)
    requires level < 2 && Tree(pages, root, kind) && Tree(pages', root, kind')
    requires Reached(pages, root, vpn, level, ppn) && ppn in kind && kind[ppn] == PathTo(vpn, level)
    requires if PteValid(Entry(pages, ppn, IndexAt(vpn, level)))
             then next == PtePpn(Entry(pages, ppn, IndexAt(vpn, level))) && pages' == pages && kind.Keys <= kind'.Keys
             else next !in kind && next < PPN_LIMIT && ppn != next && pages' == Link(pages, ppn, IndexAt(vpn, level), next)
    ensures Reached(pages', root, vpn, level + 1, next)
    ensures next in kind' && kind'[next] == PathTo(vpn, level + 1)
    ensures Missing(pages', root, vpn) ==
            Missing(pages, root, vpn) - if PteValid(Entry(pages, ppn, IndexAt(vpn, level))) then 0 else 1
  {
    if !PteValid(Entry(pages, ppn, IndexAt(vpn, level))) {
      LinkEntries(pages, ppn, IndexAt(vpn, level), next);
    }
    assert level == 1 ==> PtePpn(Entry(pages', root, I0(vpn))) == ppn;
  }

  // ---- transitions of the table invariant --------------------------------------------

  lemma {:induction false} TableNew(pages: Pages, root: nat)
    requires root < PPN_LIMIT && root in pages && pages[root] == ZeroPage()
    ensures TableOk(pages, root, [root], map[root := Root], map[])
  {
  }

  lemma {:induction false} TablePages(pages: Pages, root: nat, frames: seq<nat>, kind: map<nat, Path>, flat: map<nat, nat>)
    requires TableOk(pages, root, frames, kind, flat)
    ensures root in kind && kind[root] == Root
    ensures forall p :: p in kind ==> p in pages && p < PPN_LIMIT
    ensures forall w :: w in flat ==> w < VPN_LIMIT
  {
    assert OpenTable(Key);
  }

  lemma {:induction false} TableLink(pages: Pages, root: nat, frames: seq<nat>, kind: map<nat, Path>, flat: map<nat, nat>, p: nat, i: nat, f: nat)
    requires TableOk(pages, root, frames, kind, flat)
    requires p in kind && !kind[p].Leaf? && i < PTES_PER_PAGE && !PteValid(Entry(pages, p, i))
    requires f !in kind && f < PPN_LIMIT && p in pages
    ensures TableOk(Link(pages, p, i, f), root, frames + [f], kind[f := Child(kind[p], i)], flat)
  {
    assert OpenTable(Key);
    LinkKeepsTree(pages, root, kind, p, i, f);
    forall w ensures Lookup(Link(pages, p, i, f), root, w) == Lookup(pages, root, w) {
      LinkKeepsLookup(pages, root, kind, p, i, f, w);
    }
  }

  lemma {:induction false} TableWrite(pages: Pages, root: nat, frames: seq<nat>, kind: map<nat, Path>, flat: map<nat, nat>,
                   vpn: nat, bits: nat, s: Slot)
    requires TableOk(pages, root, frames, kind, flat) && vpn < VPN_LIMIT && FindSlot(pages, root, vpn) == Some(s)
    ensures s.ppn in kind && s.ppn in pages && s.idx < PTES_PER_PAGE
    ensures TableOk(SetEntry(pages, s.ppn, s.idx, bits), root, frames, kind,
                    if PteValid(bits) then flat[vpn := bits] else flat - {vpn})
  {
    assert OpenTable(Key);
    WriteLeaf(pages, root, kind, vpn, bits);
    var pages' := SetEntry(pages, s.ppn, s.idx, bits);
    var flat' := if PteValid(bits) then flat[vpn := bits] else flat - {vpn};
    forall w | 0 <= w < VPN_LIMIT ensures Lookup(pages', root, w) == if w in flat' then Some(flat'[w]) else None {
      assert Lookup(pages, root, w) == if w in flat then Some(flat[w]) else None;
    }
  }

  /** One step down, seen from the invariant. */
  lemma {:induction false} TableWalk(pages: Pages, pages': Pages, root: nat, frames: seq<nat>, frames': seq<nat>,
                  kind: map<nat, Path>, kind': map<nat, Path>, flat: map<nat, nat>, vpn: nat, level: nat, ppn: nat, next: nat)
    requires level < 2 && TableOk(pages, root, frames, kind, flat) && TableOk(pages', root, frames', kind', flat)
    requires Reached(pages, root, vpn, level, ppn) && ppn in kind && kind[ppn] == PathTo(vpn, level)
    requires ppn in pages && kind.Keys <= kind'.Keys
    requires if PteValid(Entry(pages, ppn, IndexAt(vpn, level)))
             then next == PtePpn(Entry(pages, ppn, IndexAt(vpn, level))) && pages' == pages
             else next !in kind && next < PPN_LIMIT && ppn != next && pages' == Link(pages, ppn, IndexAt(vpn, level), next)
    ensures Reached(pages', root, vpn, level + 1, next)
    ensures next in kind' && kind'[next] == PathTo(vpn, level + 1)
    ensures Missing(pages', root, vpn) ==
            Missing(pages, root, vpn) - if PteValid(Entry(pages, ppn, IndexAt(vpn, level))) then 0 else 1
  {
    assert OpenTable(Key);
    WalkOneLevel(pages, pages', root, kind, kind', vpn, level, ppn, next);
  }

  // ---- the walk of the hardware --------------------------------------------------------

  /** What the hardware makes of an address: a fault, a page, or a large page. */
  datatype Hardware = Fault | Page(pte: nat) | LargePage(pte: nat)

  /** An entry that is not valid, or writable without being readable, faults. */
  predicate Faults(pte: nat) { PteFlags(pte) % 2 == 0 || (PteFlags(pte) / 4 % 2 == 1 && PteFlags(pte) / 2 % 2 == 0) }

  /** An entry that is readable or executable ends the walk. */
  predicate EndsWalk(pte: nat) { PteFlags(pte) / 2 % 2 == 1 || PteFlags(pte) / 8 % 2 == 1 }

  /** The translation process of section 4.3.2 of the RISC-V Privileged Architecture, from the
      table page `p`, with `level` more levels below. */
  function HardwareWalk(pages: Pages, p: nat, vpn: nat, level: nat): Hardware
    decreases level
  {
    var pte := Entry(pages, p, if level == 2 then I0(vpn) else if level == 1 then I1(vpn) else I2(vpn));
    if Faults(pte) then Fault
    else if EndsWalk(pte) then if level == 0 then Page(pte) else LargePage(pte)
    else if level == 0 then Fault
    else HardwareWalk(pages, PtePpn(pte), vpn, level - 1)
  }

  /** The hardware sees exactly the flat map: a mapped page that may be read or executed, and not
      written without being read, is found with its entry; everything else faults, and there
      are no large pages. */
  lemma {:induction false} HardwareAgrees(pages: Pages, root: nat, frames: seq<nat>, kind: map<nat, Path>, flat: map<nat, nat>, vpn: nat)
    requires TableOk(pages, root, frames, kind, flat) && vpn < VPN_LIMIT
    ensures HardwareWalk(pages, root, vpn, 2) ==
            if vpn in flat && EndsWalk(flat[vpn]) && !Faults(flat[vpn]) then Page(flat[vpn]) else Fault
  {
    TableSlot(pages, root, frames, kind, flat, vpn);
    assert OpenTable(Key);
    var e0 := Entry(pages, root, I0(vpn));
    if PteValid(e0) {
      assert PteFlags(e0) == PTE_V && PtePpn(e0) in kind && kind[PtePpn(e0)] == Mid(I0(vpn));
      var e1 := Entry(pages, PtePpn(e0), I1(vpn));
      assert PteValid(e1) ==> PteFlags(e1) == PTE_V;
      assert HardwareWalk(pages, root, vpn, 2) == HardwareWalk(pages, PtePpn(e0), vpn, 1);
    }
  }

  /** What the walk finds, in terms of the flat map. */
  lemma {:induction false} TableSlot(pages: Pages, root: nat, frames: seq<nat>, kind: map<nat, Path>, flat: map<nat, nat>, vpn: nat)
    requires TableOk(pages, root, frames, kind, flat) && vpn < VPN_LIMIT
    ensures match FindSlot(pages, root, vpn)
            case None => vpn !in flat
            case Some(s) =>
              && (vpn in flat <==> PteValid(Entry(pages, s.ppn, s.idx)))
              && (vpn in flat ==> flat[vpn] == Entry(pages, s.ppn, s.idx))
  {
    assert OpenTable(Key);
    assert vpn in flat ==> Lookup(pages, root, vpn) == Some(flat[vpn]);
  }

  lemma {:induction false} TableFrame(pages: Pages, pages': Pages, root: nat, frames: seq<nat>, kind: map<nat, Path>, flat: map<nat, nat>)
    requires TableOk(pages, root, frames, kind, flat)
    requires forall p :: p in kind && p in pages ==> p in pages' && pages'[p] == pages[p]
    ensures TableOk(pages', root, frames, kind, flat)
  {
    assert OpenTable(Key);
    TreeFrame(pages, pages', root, kind);
  }

  datatype MapResult = MapDone | AlreadyMapped | OutOfFrames
  datatype UnmapResult = UnmapDone | NotMapped

  class SV39PageTable {
    var rootPpn: nat
    var frames: seq<nat>
    /** The path of every table page. */
    ghost var kind: map<nat, Path>
    /** The flat map that the tree stands for: page number to entry bits. */
    ghost var flat: map<nat, nat>

    ghost predicate Valid(ram: PhysMemory)
      reads this, ram
    {
      TableOk(ram.pages, rootPpn, frames, kind, flat)
    }

    /** `new`: a root page without entries. */
    constructor (ram: PhysMemory, root: nat)
      requires root < PPN_LIMIT && root in ram.pages && ram.pages[root] == ZeroPage()
      ensures Valid(ram) && flat == map[] && frames == [root] && kind == map[root := Root]
    {
      rootPpn, frames := root, [root];
      kind, flat := map[root := Root], map[];
      TableNew(ram.pages, root);
    }

    /** The table page behind entry `i` of table page `p`, created when the entry is invalid. */
    method NextTable(p: nat, i: nat, fa: StackFrameAllocator, ram: PhysMemory) returns (next: Option<nat>)
      requires Valid(ram) && Installed(fa, ram) && kind.Keys <= fa.owned
      requires p in kind && !kind[p].Leaf? && i < PTES_PER_PAGE
      modifies this, fa, ram
      ensures Valid(ram) && Installed(fa, ram) && fa.base == old(fa.base) && fa.end == old(fa.end)
      ensures rootPpn == old(rootPpn) && flat == old(flat)
      ensures Grew(old(ram.pages), ram.pages, old(kind), kind, old(fa.owned), fa.owned)
      ensures next.None? ==> !old(PteValid(Entry(ram.pages, p, i))) && fa.Available() == old(fa.Available()) == 0
      ensures next.Some? ==>
                if old(PteValid(Entry(ram.pages, p, i))) then
                  next.value == old(PtePpn(Entry(ram.pages, p, i)))
                  && ram.pages == old(ram.pages) && fa.Available() == old(fa.Available())
                else
                  next.value !in old(kind) && next.value < PPN_LIMIT && p in old(ram.pages) && p != next.value
                  && ram.pages == Link(old(ram.pages), p, i, next.value)
                  && old(fa.Available()) > 0 && fa.Available() == old(fa.Available()) - 1
    {
      if PteValid(Entry(ram.pages, p, i)) {
        return Some(PtePpn(Entry(ram.pages, p, i)));
      }
      ghost var pages0, kind0 := ram.pages, kind;
      var frame := FrameAlloc(fa, ram);
      if frame.None? {
        return None;
      }
      var f := frame.value;
      TablePages(pages0, rootPpn, frames, kind0, flat);
      TableLink(pages0, rootPpn, frames, kind0, flat, p, i, f);
      ram.pages := SetEntry(ram.pages, p, i, PteNew(f, PTE_V));
      frames := frames + [f];
      kind := kind[f := Child(kind[p], i)];
      return Some(f);
    }

    /** The slot of `vpn`, creating missing table pages on the way; `None` when frames ran out. */
    method FindPteCreate(vpn: nat, fa: StackFrameAllocator, ram: PhysMemory) returns (r: Option<Slot>)
      requires Valid(ram) && Installed(fa, ram) && vpn < VPN_LIMIT
      requires kind.Keys <= fa.owned
      modifies this, fa, ram
      ensures Valid(ram) && Installed(fa, ram) && fa.base == old(fa.base) && fa.end == old(fa.end)
      ensures rootPpn == old(rootPpn) && flat == old(flat)
      ensures Grew(old(ram.pages), ram.pages, old(kind), kind, old(fa.owned), fa.owned)
      ensures r.None? <==> old(Missing(ram.pages, rootPpn, vpn)) > old(fa.Available())
      ensures r.None? ==> fa.Available() == 0
      ensures r.Some? ==> FindSlot(ram.pages, rootPpn, vpn) == r
      ensures r.Some? ==> fa.Available() == old(fa.Available()) - old(Missing(ram.pages, rootPpn, vpn))
    {
      var idxs := Indexes(vpn);
      var ppn := rootPpn;
      TablePages(ram.pages, rootPpn, frames, kind, flat);
      r := None;
      var i := 0;
      while i < 3
        invariant 0 <= i <= 2
        invariant Valid(ram) && Installed(fa, ram) && fa.base == old(fa.base) && fa.end == old(fa.end)
        invariant rootPpn == old(rootPpn) && flat == old(flat)
        invariant Grew(old(ram.pages), ram.pages, old(kind), kind, old(fa.owned), fa.owned)
        invariant Reached(ram.pages, rootPpn, vpn, i, ppn)
        invariant ppn in kind && kind[ppn] == PathTo(vpn, i)
        invariant fa.Available() - Missing(ram.pages, rootPpn, vpn)
                  == old(fa.Available()) - old(Missing(ram.pages, rootPpn, vpn))
        decreases 3 - i
      {
        if i == 2 {
          r := Some(Slot(ppn, idxs[i]));
          break;
        }
        ghost var pages0, kind0, owned0, frames0 := ram.pages, kind, fa.owned, frames;
        var next := NextTable(ppn, idxs[i], fa, ram);
        GrewTrans(old(ram.pages), pages0, ram.pages, old(kind), kind0, kind, old(fa.owned), owned0, fa.owned);
        if next.None? {
          return None;
        }
        TableWalk(pages0, ram.pages, rootPpn, frames0, frames, kind0, kind, flat, vpn, i, ppn, next.value);
        ppn := next.value;
        i := i + 1;
      }
    }

    /** `find_pte`: the walk without creation. */
    method FindPte(vpn: nat, ram: PhysMemory) returns (r: Option<Slot>)
      requires Valid(ram)
      ensures r == FindSlot(ram.pages, rootPpn, vpn)
      ensures vpn < VPN_LIMIT && vpn in flat ==> r.Some?
    {
      if vpn < VPN_LIMIT {
        TableSlot(ram.pages, rootPpn, frames, kind, flat, vpn);
      }
      var idxs := Indexes(vpn);
      var ppn := rootPpn;
      r := None;
      var i := 0;
      while i < 3
        invariant 0 <= i <= 2
        invariant Reached(ram.pages, rootPpn, vpn, i, ppn)
        decreases 3 - i
      {
        var pte := Entry(ram.pages, ppn, idxs[i]);
        if i == 2 {
          r := Some(Slot(ppn, idxs[i]));
          break;
        }
        if !PteValid(pte) {
          return None;
        }
        ppn := PtePpn(pte);
        i := i + 1;
      }
    }

    /** `translate` answers with an entry for every page number whose upper tables exist;
        that entry is valid exactly on the mapped page numbers. */
    method Translate(vpn: nat, ram: PhysMemory) returns (r: Option<nat>)
      requires Valid(ram) && vpn < VPN_LIMIT
      ensures r.Some? && PteValid(r.value) <==> vpn in flat
      ensures vpn in flat ==> r == Some(flat[vpn])
      ensures r == Found(ram.pages, rootPpn, vpn)
    {
      var slot := FindPte(vpn, ram);
      TableSlot(ram.pages, rootPpn, frames, kind, flat, vpn);
      if slot.None? {
        return None;
      }
      return Some(Entry(ram.pages, slot.value.ppn, slot.value.idx));
    }

    /** `map`: one more entry in the flat map, or the exact reason why not. */
    method Map(vpn: nat, ppn: nat, perm: nat, fa: StackFrameAllocator, ram: PhysMemory) returns (r: MapResult)
      requires Valid(ram) && Installed(fa, ram) && kind.Keys <= fa.owned
      requires vpn < VPN_LIMIT && ppn < PPN_LIMIT && IsPerm(perm)
      modifies this, fa, ram
      ensures Valid(ram) && Installed(fa, ram) && fa.base == old(fa.base) && fa.end == old(fa.end)
      ensures rootPpn == old(rootPpn)
      ensures Grew(old(ram.pages), ram.pages, old(kind), kind, old(fa.owned), fa.owned)
      ensures flat == if r.MapDone? then old(flat)[vpn := LeafPte(ppn, perm)] else old(flat)
      ensures r.AlreadyMapped? <==> vpn in old(flat)
      ensures r.OutOfFrames? <==> old(Missing(ram.pages, rootPpn, vpn)) > old(fa.Available())
      ensures r.OutOfFrames? ==> fa.Available() == 0
    {
      TableSlot(ram.pages, rootPpn, frames, kind, flat, vpn);
      var slot := FindPteCreate(vpn, fa, ram);
      TableSlot(ram.pages, rootPpn, frames, kind, flat, vpn);
      if slot.None? {
        return OutOfFrames;
      }
      if PteValid(Entry(ram.pages, slot.value.ppn, slot.value.idx)) {
        return AlreadyMapped;
      }
      LeafPteDecodes(ppn, perm);
      WriteEntry(vpn, LeafPte(ppn, perm), slot.value, ram);
      return MapDone;
    }

    /** Store into the last-level slot of `vpn`. */
    method WriteEntry(vpn: nat, bits: nat, slot: Slot, ram: PhysMemory)
      requires Valid(ram) && vpn < VPN_LIMIT && FindSlot(ram.pages, rootPpn, vpn) == Some(slot)
      modifies ram, this`flat
      ensures Valid(ram)
      ensures flat == if PteValid(bits) then old(flat)[vpn := bits] else old(flat) - {vpn}
      ensures slot.ppn in kind && slot.ppn in old(ram.pages) && slot.idx < PTES_PER_PAGE
      ensures ram.pages == SetEntry(old(ram.pages), slot.ppn, slot.idx, bits)
    {
      TableWrite(ram.pages, rootPpn, frames, kind, flat, vpn, bits, slot);
      ram.pages := SetEntry(ram.pages, slot.ppn, slot.idx, bits);
      flat := if PteValid(bits) then flat[vpn := bits] else flat - {vpn};
    }

    /** `unmap`: one entry fewer; it fails exactly on an unmapped page number. */
    method Unmap(vpn: nat, ram: PhysMemory) returns (r: UnmapResult)
      requires Valid(ram) && vpn < VPN_LIMIT
      modifies ram, this`flat
      ensures Valid(ram)
      ensures r.UnmapDone? <==> vpn in old(flat)
      ensures flat == old(flat) - {vpn}
      ensures ram.pages.Keys == old(ram.pages).Keys
      ensures forall p :: p in ram.pages && p !in kind ==> ram.pages[p] == old(ram.pages)[p]
    {
      var slot := FindPte(vpn, ram);
      TableSlot(ram.pages, rootPpn, frames, kind, flat, vpn);
      if slot.None? || !PteValid(Entry(ram.pages, slot.value.ppn, slot.value.idx)) {
        assert flat - {vpn} == flat;
        return NotMapped;
      }
      assert !PteValid(0);
      WriteEntry(vpn, 0, slot.value, ram);
      return UnmapDone;
    }
  }
}
