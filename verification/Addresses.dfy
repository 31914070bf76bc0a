/** Keys for closed definitions.

A predicate written `forall k: Key :: OpenX(k) ==> XFacts(...)` means `XFacts(...)`: `OpenX`
always holds. The verifier unfolds it only in proofs that mention `OpenX(Key)`, which keeps
large invariants out of proofs that just pass them on. */
module Closed {
  datatype Key = Key
}

/** Addresses, page numbers and their conversions (os/src/mm/address.rs).

A `usize` is a `nat` below `USIZE_LIMIT`; the kernel is built in release mode, so
unchecked additions wrap at that limit and the model writes the wrap out. */
module Addresses {

  const PAGE_SIZE: nat := 4096
  const PTES_PER_PAGE: nat := 512
  const VPN_LIMIT: nat := 0x800_0000            // 2^27
  const VA_HALF: nat := 0x40_0000_0000          // 2^38
  const VA_LIMIT: nat := 0x80_0000_0000         // 2^39
  const PPN_LIMIT: nat := 0x1000_0000_0000      // 2^44
  const USIZE_LIMIT: nat := 0x1_0000_0000_0000_0000

  const TRAMPOLINE: nat := 0xFFFF_FFFF_FFFF_F000
  const TRAP_CONTEXT_BASE: nat := 0xFFFF_FFFF_FFFF_E000
  const TRAMPOLINE_VPN: nat := 0x7FF_FFFF

  datatype Option<+T> = None | Some(value: T)

  function Wrap(n: nat): (r: nat)
    ensures r < USIZE_LIMIT
    ensures n < USIZE_LIMIT ==> r == n
  {
    n % USIZE_LIMIT
  }

  /** `VirtAddr::from(usize)`: keep the low 39 bits. */
  function VirtAddrFrom(v: nat): (va: nat)
    ensures va < VA_LIMIT
    ensures v < VA_LIMIT ==> va == v
  {
    v % VA_LIMIT
  }

  /** `usize::from(VirtAddr)`: sign-extend bit 38. */
  function UsizeFromVa(va: nat): (v: nat)
    requires va < VA_LIMIT
    ensures v < USIZE_LIMIT
  {
    if va >= VA_HALF then va + (USIZE_LIMIT - VA_LIMIT) else va
  }

  /** An address is canonical when bits 63..38 are all equal. */
  predicate Canonical(v: nat) {
    v < VA_HALF || USIZE_LIMIT - VA_HALF <= v < USIZE_LIMIT
  }

  /** Masking then sign-extending is the identity on canonical addresses and only there. */
  lemma {:induction false} MaskSignExtendRoundTrip(v: nat)
    requires v < USIZE_LIMIT
    ensures UsizeFromVa(VirtAddrFrom(v)) == v <==> Canonical(v)
  {
  }

  /** `usize::from(VirtAddr::from(vpn))`: shift, then sign-extend. */
  function AddrOfVpn(vpn: nat): (v: nat)
    requires vpn <= VPN_LIMIT
    ensures v < USIZE_LIMIT
  {
    var va := vpn * PAGE_SIZE;
    if va >= VA_HALF then USIZE_LIMIT - VA_LIMIT + va % VA_LIMIT else va
  }

  function Floor(va: nat): nat { va / PAGE_SIZE }

  function Ceil(va: nat): nat {
    if va == 0 then 0 else (va - 1 + PAGE_SIZE) / PAGE_SIZE
  }

  function PageOffset(va: nat): (o: nat)
    ensures o < PAGE_SIZE
  {
    va % PAGE_SIZE
  }

  function AlignUp(addr: nat): (r: nat)
    ensures r < USIZE_LIMIT && r % PAGE_SIZE == 0
    ensures addr + PAGE_SIZE - 1 < USIZE_LIMIT ==> addr <= r < addr + PAGE_SIZE
  {
    Wrap(addr + PAGE_SIZE - 1) / PAGE_SIZE * PAGE_SIZE
  }

  function I0(vpn: nat): (i: nat) ensures i < PTES_PER_PAGE { vpn / 0x4_0000 % PTES_PER_PAGE }
  function I1(vpn: nat): (i: nat) ensures i < PTES_PER_PAGE { vpn / 0x200 % PTES_PER_PAGE }
  function I2(vpn: nat): (i: nat) ensures i < PTES_PER_PAGE { vpn % PTES_PER_PAGE }

  /** `VirtPageNum::indexes`. */
  method Indexes(vpn: nat) returns (idx: seq<nat>)
    ensures idx == [I0(vpn), I1(vpn), I2(vpn)]
  {
    idx := [0, 0, 0];
    var rest := vpn;
    var i := 3;
    while i > 0
      invariant 0 <= i <= 3 && |idx| == 3
      invariant i == 3 ==> rest == vpn
      invariant i == 2 ==> rest == vpn / 0x200 && idx[2] == I2(vpn)
      invariant i == 1 ==> rest == vpn / 0x4_0000 && idx[2] == I2(vpn) && idx[1] == I1(vpn)
      invariant i == 0 ==> idx == [I0(vpn), I1(vpn), I2(vpn)]
    {
      i := i - 1;
      idx := idx[i := rest % PTES_PER_PAGE];
      rest := rest / PTES_PER_PAGE;
    }
  }

  /** The three indexes determine a 27-bit page number. */
  lemma {:induction false} IndexesDetermineVpn(v: nat, w: nat)
    requires v < VPN_LIMIT && w < VPN_LIMIT
    requires I0(v) == I0(w) && I1(v) == I1(w) && I2(v) == I2(w)
    ensures v == w
  {
    IndexesCompose(v);
    IndexesCompose(w);
  }

  lemma {:induction false} IndexesCompose(v: nat)
    requires v < VPN_LIMIT
    ensures v == I0(v) * 0x4_0000 + I1(v) * 0x200 + I2(v)
  {
  }
}
