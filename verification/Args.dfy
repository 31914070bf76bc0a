/** Program arguments on the user stack (os/src/task/process.rs, os/src/syscall/process.rs,
os/src/mm/pagetable.rs).

`exec` stores the argument strings below the top of the user stack; `sys_execve` reads such a
pointer array and its strings back. Every store and load goes through the page table of the
process (module `Machine`); what the process sees is one flat store of bytes. */
module Args {
  import opened Addresses
  import opened BufferLoop
  import opened Closed
  import opened PageBytes
  import AddressSpace
  import Machine
  import MemorySet
  import Sv39
  import UserCopy

  // ---- text ----------------------------------------------------------------------------

  /** A Rust string: Unicode scalar values. */
  type Text = t: seq<nat> | forall i :: 0 <= i < |t| ==> t[i] < 0x110000

  /** The UTF-8 encoding of one character. */
  function Encode(c: nat): (bs: seq<nat>)
    requires c < 0x110000
    ensures AreBytes(bs) && 1 <= |bs| <= 4 && (|bs| == 1 <==> c < 0x80) && (|bs| == 1 ==> bs[0] == c)
    ensures 0 in bs <==> c == 0
  {
    if c < 0x80 then [c]
    else if c < 0x800 then [0xC0 + c / 64, 0x80 + c % 64]
    else if c < 0x10000 then [0xE0 + c / 4096, 0x80 + c / 64 % 64, 0x80 + c % 64]
    else [0xF0 + c / 262144, 0x80 + c / 4096 % 64, 0x80 + c / 64 % 64, 0x80 + c % 64]
  }

  /** The character that the bytes of one stand for. */
  function Decode(bs: seq<nat>): int
    requires 1 <= |bs| <= 4
  {
    var b: seq<int> := bs;
    if |b| == 1 then b[0]
    else if |b| == 2 then (b[0] - 0xC0) * 64 + (b[1] - 0x80)
    else if |b| == 3 then (b[0] - 0xE0) * 4096 + (b[1] - 0x80) * 64 + (b[2] - 0x80)
    else (b[0] - 0xF0) * 262144 + (b[1] - 0x80) * 4096 + (b[2] - 0x80) * 64 + (b[3] - 0x80)
  }

  /** Encoding loses nothing, and the first byte tells the length. */
  lemma {:induction false} DecodeEncode(c: nat)
    requires c < 0x110000
    ensures Decode(Encode(c)) == c
    ensures var b := Encode(c)[0]; |Encode(c)| == if b < 0x80 then 1 else if b < 0xE0 then 2 else if b < 0xF0 then 3 else 4
  {
    Sextets(c);
  }

  lemma {:induction false} Sextets(c: nat)
    ensures c == c / 64 * 64 + c % 64
    ensures c / 64 == c / 4096 * 64 + c / 64 % 64
    ensures c / 4096 == c / 262144 * 64 + c / 4096 % 64
  {
    NextSextet(c, 64);
    NextSextet(c, 4096);
  }

  lemma {:induction false} NextSextet(c: nat, f: nat)
    requires f == 64 || f == 4096
    ensures c / f == c / (f * 64) * 64 + c / f % 64
  {
    var d := c / f;
    assert c == f * (d / 64 * 64 + d % 64) + c % f;
    if f == 64 {
      assert c == 4096 * (d / 64) + (64 * (d % 64) + c % 64);
    } else {
      assert c == 262144 * (d / 64) + (4096 * (d % 64) + c % 4096);
    }
  }

  /** `as_bytes`. */
  function Utf8(t: Text): (bs: seq<nat>)
    ensures AreBytes(bs) && |bs| >= |t|
  {
    if t == [] then [] else Encode(t[0]) + Utf8(t[1..])
  }

  predicate Ascii(t: Text) { forall i :: 0 <= i < |t| ==> 0 < t[i] < 0x80 }

  /** The bytes before the first NUL. */
  function Cut(bs: seq<nat>): (r: seq<nat>)
    ensures |r| <= |bs| && r == bs[..|r|] && 0 !in r && (|r| < |bs| ==> bs[|r|] == 0)
  {
    if bs == [] || bs[0] == 0 then [] else [bs[0]] + Cut(bs[1..])
  }

  lemma {:induction false} CutWhole(bs: seq<nat>)
    requires 0 !in bs
    ensures Cut(bs) == bs
  {
  }

  lemma {:induction false} AsciiEncodesItself(t: Text)
    requires Ascii(t)
    ensures Utf8(t) == t
  {
    if t != [] {
      AsciiEncodesItself(t[1..]);
    }
  }

  lemma {:induction false} NoNulNoZero(t: Text)
    requires 0 !in t
    ensures 0 !in Utf8(t)
  {
    if t != [] {
      assert t[0] in t;
      NoNulNoZero(t[1..]);
    }
  }

  lemma {:induction false} SameLengthIsAscii(t: Text)
    requires |Utf8(t)| == |t| && 0 !in t
    ensures Ascii(t)
  {
    if t != [] {
      assert t[0] in t;
      SameLengthIsAscii(t[1..]);
      assert t == [t[0]] + t[1..];
    }
  }

  /** A string survives being stored as UTF-8 and read byte by byte up to a NUL exactly when
      it is ASCII without NUL. */
  lemma {:induction false} SurvivesExactly(t: Text)
    ensures Cut(Utf8(t)) == t <==> Ascii(t)
  {
    if Ascii(t) {
      AsciiEncodesItself(t);
      CutWhole(t);
    }
    if Cut(Utf8(t)) == t {
      NoNulNoZero(t);
      CutWhole(Utf8(t));
      SameLengthIsAscii(t);
    }
  }

  // ---- words ---------------------------------------------------------------------------

  /** The low `n` bytes of `w`, little-endian. */
  function Digits(w: nat, n: nat): (bs: seq<nat>)
    ensures |bs| == n && AreBytes(bs)
  {
    if n == 0 then [] else [w % 256] + Digits(w / 256, n - 1)
  }

  function Pow256(n: nat): nat { if n == 0 then 1 else 256 * Pow256(n - 1) }

  lemma {:induction false} DigitsRoundTrip(w: nat, n: nat)
    requires w < Pow256(n)
    ensures FromBytes(Digits(w, n)) == w
  {
    if n > 0 {
      DigitsRoundTrip(w / 256, n - 1);
      assert Digits(w, n)[1..] == Digits(w / 256, n - 1);
    }
  }

  lemma {:induction false} WordRoundTrip(w: nat)
    requires w < USIZE_LIMIT
    ensures FromBytes(Digits(w, 8)) == w
  {
    assert Pow256(8) == USIZE_LIMIT;
    DigitsRoundTrip(w, 8);
  }

  // ---- memory --------------------------------------------------------------------------

  ghost predicate Has(mem: map<nat, nat>, lo: nat, hi: nat) { forall a :: lo <= a < hi ==> a in mem }

  function Bytes(mem: map<nat, nat>, a: nat, n: nat): (bs: seq<nat>)
    requires Has(mem, a, a + n)
  {
    seq<nat>(n, i requires 0 <= i < n => mem[a + i])
  }

  ghost function WordAt(mem: map<nat, nat>, a: nat): nat
    requires Has(mem, a, a + 8)
  {
    FromBytes(Bytes(mem, a, 8))
  }

  /** `mem` with `bs` stored at `a`. */
  ghost function Splice(mem: map<nat, nat>, a: nat, bs: seq<nat>): map<nat, nat>
  {
    map x | x in mem :: if a <= x < a + |bs| then bs[x - a] else mem[x]
  }

  predicate OpenUser(k: Key) { true }

  /** The addresses of a process: either half of the canonical space, without the trampoline. */
  predicate IsUser(a: nat) { a < VA_HALF || USIZE_LIMIT - VA_HALF <= a < TRAMPOLINE }

  /** A range of such addresses lies in one half. */
  lemma {:induction false} OneHalf(a: nat, n: nat)
    requires 0 < n && forall x :: a <= x < a + n ==> IsUser(x)
    ensures UserCopy.CanonicalRange(a, n) && n < VA_LIMIT
  {
    assert IsUser(a) && IsUser(a + n - 1);
    assert a <= VA_HALF < a + n ==> IsUser(VA_HALF);
  }

  /** The memory of one process of the machine. */
  class UserMemory {
    const machine: Machine.Machine
    const space: MemorySet.MemorySet
    /** What the process sees. */
    ghost var mem: map<nat, nat>

    ghost predicate Valid()
      reads this, machine, machine.fa, machine.ram, machine.spaces, set m | m in machine.spaces :: m.pageTable, machine.dead
    {
      forall k: Key :: OpenUser(k) ==> Facts()
    }

    ghost predicate Facts()
      reads this, machine, machine.fa, machine.ram, machine.spaces, set m | m in machine.spaces :: m.pageTable, machine.dead
    {
      machine.Valid() && space in machine.spaces && Shows(machine.ram.pages, mem)
    }

    /** The process sees `mem` when memory is `pages`. */
    ghost predicate Shows(pages: Sv39.Pages, mem: map<nat, nat>)
      reads space, space.pageTable
    {
      forall a :: a in mem ==> IsUser(a) && Machine.Seen(space, pages, a) == Some(mem[a])
    }

    /** Nothing that the process sees is left out. */
    ghost predicate Whole()
      reads this, machine, machine.ram, space, space.pageTable
    {
      forall a: nat :: IsUser(a) && Machine.Seen(space, machine.ram.pages, a).Some? ==> a in mem
    }

    constructor (machine: Machine.Machine, space: MemorySet.MemorySet)
      requires machine.Valid() && space in machine.spaces
      ensures Valid() && Whole() && this.machine == machine && this.space == space
    {
      this.machine, this.space := machine, space;
      new;
      mem := map a: nat | a < USIZE_LIMIT && IsUser(a) && Machine.Seen(space, machine.ram.pages, a).Some?
                        :: Machine.Seen(space, machine.ram.pages, a).value;
    }

    /** A range of the memory can be stored to and loaded from. */
    lemma {:induction false} InUse(a: nat, n: nat)
      requires Valid() && 0 < n && Has(mem, a, a + n)
      ensures machine.Valid() && space in machine.spaces && Shows(machine.ram.pages, mem) && n < VA_LIMIT && UserCopy.CanonicalRange(a, n)
      ensures UserCopy.InPages(AddressSpace.PagesOf(MemorySet.Regions(space.areas)), a, n)
    {
      assert OpenUser(Key);
      OneHalf(a, n);
      forall x | a <= x < a + n ensures PageOf(x) in AddressSpace.PagesOf(MemorySet.Regions(space.areas)) {
        assert x in mem && Machine.Seen(space, machine.ram.pages, x).Some?;
      }
    }

    /** Store some bytes. */
    method Store(a: nat, bs: seq<nat>)
      requires Valid() && AreBytes(bs) && 0 < |bs| && Has(mem, a, a + |bs|)
      modifies this`mem, machine.ram
      ensures Valid() && mem == Splice(old(mem), a, bs)
    {
      InUse(a, |bs|);
      ghost var pages0, mem0 := machine.ram.pages, mem;
      machine.Store(space, a, bs);
      mem := Splice(mem0, a, bs);
      Stored(pages0, mem0, a, bs);
    }

    lemma {:induction false} Stored(pages0: Sv39.Pages, mem0: map<nat, nat>, a: nat, bs: seq<nat>)
      requires machine.Valid() && space in machine.spaces && mem == Splice(mem0, a, bs)
      requires Shows(pages0, mem0) && Machine.SeenStored(space, pages0, machine.ram.pages, a, bs)
      ensures Valid()
    {
      forall x | x in mem ensures IsUser(x) && Machine.Seen(space, machine.ram.pages, x) == Some(mem[x]) {
        assert Machine.Seen(space, pages0, x) == Some(mem0[x]);
        assert Canonical(x) && PageOf(x) in AddressSpace.PagesOf(MemorySet.Regions(space.areas));
      }
      assert Facts();
    }

    /** Load some bytes. */
    method Load(a: nat, n: nat) returns (bs: seq<nat>)
      requires Valid() && 0 < n && Has(mem, a, a + n)
      ensures bs == Bytes(mem, a, n)
    {
      InUse(a, n);
      var buf := new nat[n];
      machine.Load(space, a, buf);
      bs := buf[..];
      forall k | 0 <= k < n ensures bs[k] == mem[a + k] {
        assert a + k in mem && Machine.Seen(space, machine.ram.pages, a + k) == Some(buf[k]);
      }
    }

    method Poke(a: nat, b: nat)
      requires Valid() && a in mem && b < 256
      modifies this`mem, machine.ram
      ensures Valid() && mem == old(mem)[a := b]
    {
      Store(a, [b]);
    }

    /** A store through a pointer to `usize`. */
    method PokeWord(a: nat, w: nat)
      requires Valid() && Has(mem, a, a + 8) && w < USIZE_LIMIT
      modifies this`mem, machine.ram
      ensures Valid() && mem.Keys == old(mem).Keys && Has(mem, a, a + 8) && WordAt(mem, a) == w
      ensures forall x :: x in mem && !(a <= x < a + 8) ==> mem[x] == old(mem)[x]
    {
      var bs := Digits(w, 8);
      Store(a, bs);
      assert Bytes(mem, a, 8) == bs;
      WordRoundTrip(w);
    }

    method PeekByte(a: nat) returns (b: nat)
      requires Valid() && a in mem
      ensures b == mem[a]
    {
      var bs := Load(a, 1);
      b := bs[0];
    }

    method PeekWord(a: nat) returns (w: nat)
      requires Valid() && Has(mem, a, a + 8)
      ensures w == WordAt(mem, a)
    {
      var bs := Load(a, 8);
      w := FromBytes(bs);
    }
  }

  // ---- the layout ----------------------------------------------------------------------

  /** The stack pointer after the first `k` strings. */
  function Sp(bs: seq<seq<nat>>, base: int, k: nat): int
    requires k <= |bs|
  {
    if k == 0 then base else Sp(bs, base, k - 1) - (|bs[k - 1]| + 1)
  }

  lemma {:induction false} SpFalls(bs: seq<seq<nat>>, base: int, j: nat, k: nat)
    requires j <= k <= |bs|
    ensures Sp(bs, base, k) + (k - j) <= Sp(bs, base, j)
  {
    if j < k {
      SpFalls(bs, base, j, k - 1);
    }
  }

  /** String `j` and its NUL stand at `Sp(j + 1)`, below string `j - 1`. */
  ghost predicate StringAt(mem: map<nat, nat>, p: nat, s: seq<nat>)
  {
    && Has(mem, p, p + |s| + 1)
    && (forall t :: 0 <= t < |s| ==> mem[p + t] == s[t])
    && mem[p + |s|] == 0
  }

  /** The first `k` arguments are in place, above `Sp(k)`. */
  ghost predicate Placed(mem: map<nat, nat>, bs: seq<seq<nat>>, base: nat, k: nat)
    requires k <= |bs|
  {
    && Has(mem, base, base + 8 * (|bs| + 1)) && Sp(bs, base, k) > 0
    && (forall j :: 0 <= j < k ==> PlacedOne(mem, bs, base, j))
    && WordAt(mem, base + 8 * |bs|) == 0
  }

  ghost predicate PlacedOne(mem: map<nat, nat>, bs: seq<seq<nat>>, base: nat, j: nat)
    requires j < |bs|
  {
    && Has(mem, base + 8 * j, base + 8 * j + 8) && Sp(bs, base, j + 1) > 0
    && WordAt(mem, base + 8 * j) == Sp(bs, base, j + 1)
    && StringAt(mem, Sp(bs, base, j + 1), bs[j])
  }

  /** Nothing outside `lo..hi` differs. */
  ghost predicate Outside(mem: map<nat, nat>, mem': map<nat, nat>, lo: nat, hi: nat)
  {
    forall x :: x in mem && x in mem' && !(lo <= x < hi) ==> mem'[x] == mem[x]
  }

  lemma {:induction false} PlacedOneKept(mem: map<nat, nat>, mem': map<nat, nat>, bs: seq<seq<nat>>, base: nat, j: nat, lo: nat, hole: nat)
    requires j < |bs| && PlacedOne(mem, bs, base, j) && j < hole <= |bs|
    requires lo <= Sp(bs, base, j + 1) && mem'.Keys == mem.Keys
    requires forall x :: lo <= x && x in mem && !(base + 8 * hole <= x < base + 8 * hole + 8) ==> mem'[x] == mem[x]
    ensures PlacedOne(mem', bs, base, j)
  {
    SpFalls(bs, base, 0, j);
    assert Bytes(mem', base + 8 * j, 8) == Bytes(mem, base + 8 * j, 8);
  }

  /** Store one string and its NUL. */
  method PutString(um: UserMemory, p: nat, s: seq<nat>)
    requires um.Valid() && AreBytes(s) && Has(um.mem, p, p + |s| + 1)
    modifies um`mem, um.machine.ram
    ensures um.Valid() && um.mem.Keys == old(um.mem).Keys && StringAt(um.mem, p, s)
    ensures forall x :: x in um.mem && !(p <= x < p + |s| + 1) ==> um.mem[x] == old(um.mem)[x]
  {
    var q := p;
    for i := 0 to |s|
      invariant um.Valid() && q == p + i && um.mem.Keys == old(um.mem).Keys
      invariant forall t :: 0 <= t < i ==> um.mem[p + t] == s[t]
      invariant forall x :: x in um.mem && !(p <= x < p + |s| + 1) ==> um.mem[x] == old(um.mem)[x]
    {
      um.Poke(q, s[i]);
      q := q + 1;
    }
    um.Poke(q, 0);
  }

  function Encoded(args: seq<Text>): (bs: seq<seq<nat>>)
    ensures |bs| == |args| && forall i :: 0 <= i < |bs| ==> bs[i] == Utf8(args[i])
  {
    seq<seq<nat>>(|args|, i requires 0 <= i < |args| => Utf8(args[i]))
  }

  /** The arguments fit: the stack holds every byte from the last string up to the top. */
  ghost predicate Fits(mem: map<nat, nat>, top: nat, args: seq<Text>)
  {
    && top % 8 == 0 && top < USIZE_LIMIT && top > 8 * (|args| + 1)
    && var low := Sp(Encoded(args), top - 8 * (|args| + 1), |args|);
       low >= 8 && Has(mem, low, top)
  }

  /** The user stack of the main thread. */
  const USER_STACK_SIZE: nat := 2 * PAGE_SIZE
  const STACK_BOTTOM: nat := TRAP_CONTEXT_BASE - 8 * (PAGE_SIZE + USER_STACK_SIZE)
  const STACK_TOP: nat := STACK_BOTTOM + USER_STACK_SIZE

  /** Where exec puts the arguments: on a mapped stack they fit if the lowest of them is still on
      it. */
  lemma {:induction false} StackFits(um: UserMemory, args: seq<Text>)
    requires um.Valid() && um.Whole()
    requires UserCopy.InPages(AddressSpace.PagesOf(MemorySet.Regions(um.space.areas)), STACK_BOTTOM, USER_STACK_SIZE)
    requires STACK_BOTTOM <= Sp(Encoded(args), STACK_TOP - 8 * (|args| + 1), |args|)
    ensures Fits(um.mem, STACK_TOP, args)
  {
    var base := STACK_TOP - 8 * (|args| + 1);
    SpFalls(Encoded(args), base, 0, |args|);
    forall a | STACK_BOTTOM <= a < STACK_TOP ensures a in um.mem {
      assert OpenUser(Key);
      assert IsUser(a) && PageOf(a) in AddressSpace.PagesOf(MemorySet.Regions(um.space.areas));
      um.machine.Visible(um.space, a);
    }
  }

  function AlignDown(sp: nat): (r: nat)
    ensures r % 8 == 0 && r <= sp < r + 8
  {
    sp - sp % 8
  }

  /** Push argument `k`. */
  method PutNext(um: UserMemory, bs: seq<seq<nat>>, base: nat, k: nat, sp: nat, ghost low: nat) returns (sp': nat)
    requires k < |bs| && sp == Sp(bs, base, k) && Sp(bs, base, k + 1) > 0 && base < USIZE_LIMIT
    requires um.Valid() && AreBytes(bs[k]) && Placed(um.mem, bs, base, k) && low <= Sp(bs, base, k + 1) && Has(um.mem, low, base)
    modifies um`mem, um.machine.ram
    ensures um.Valid() && sp' == Sp(bs, base, k + 1) && Placed(um.mem, bs, base, k + 1) && um.mem.Keys == old(um.mem).Keys
    ensures Outside(old(um.mem), um.mem, sp', base + 8 * (|bs| + 1))
  {
    SpFalls(bs, base, 0, k);
    sp' := sp - (|bs[k]| + 1);
    ghost var mem0 := um.mem;
    um.PokeWord(base + 8 * k, sp');
    ghost var mem1 := um.mem;
    PutString(um, sp', bs[k]);
    PlacedNext(mem0, mem1, um.mem, bs, base, k);
  }

  lemma {:induction false} PlacedNext(mem0: map<nat, nat>, mem1: map<nat, nat>, mem: map<nat, nat>, bs: seq<seq<nat>>, base: nat, k: nat)
    requires k < |bs| && Sp(bs, base, k + 1) > 0 && Placed(mem0, bs, base, k) && mem0.Keys == mem1.Keys == mem.Keys
    requires var w, sp := base + 8 * k, Sp(bs, base, k + 1);
             && Has(mem1, w, w + 8) && WordAt(mem1, w) == sp && StringAt(mem, sp, bs[k]) && sp + |bs[k]| + 1 <= base
             && (forall x :: x in mem0 && !(w <= x < w + 8) ==> mem1[x] == mem0[x])
             && (forall x :: x in mem1 && !(sp <= x < sp + |bs[k]| + 1) ==> mem[x] == mem1[x])
    ensures Placed(mem, bs, base, k + 1)
  {
    forall j | 0 <= j < k ensures PlacedOne(mem, bs, base, j) {
      SpFalls(bs, base, j + 1, k);
      PlacedOneKept(mem0, mem, bs, base, j, Sp(bs, base, k), k);
    }
    assert Bytes(mem, base + 8 * k, 8) == Bytes(mem1, base + 8 * k, 8);
    assert Bytes(mem, base + 8 * |bs|, 8) == Bytes(mem0, base + 8 * |bs|, 8);
    assert PlacedOne(mem, bs, base, k);
  }

  /** The argument part of `exec`. The pointer array and the strings are disjoint (each string
      ends where the one before it begins), they lie between the final stack pointer and the
      old top, and nothing outside that is written. */
  method PutArgs(um: UserMemory, top: nat, args: seq<Text>) returns (sp: nat, argv: nat)
    requires um.Valid() && Fits(um.mem, top, args)
    modifies um`mem, um.machine.ram
    ensures um.Valid() && argv == top - 8 * (|args| + 1) && Placed(um.mem, Encoded(args), argv, |args|)
    ensures sp % 8 == 0 && sp <= Sp(Encoded(args), argv, |args|) < sp + 8
    ensures um.mem.Keys == old(um.mem).Keys
    ensures Outside(old(um.mem), um.mem, sp, top)
  {
    var bs := Encoded(args);
    argv := top - 8 * (|args| + 1);
    ghost var low := Sp(bs, argv, |bs|);
    ghost var mem0 := um.mem;
    TerminateArgv(um, bs, argv, low);
    ghost var mem1 := um.mem;
    sp := PutStrings(um, bs, argv, low);
    sp := AlignDown(sp);
    SpFalls(bs, argv, 0, |bs|);
    OutsideBoth(mem0, mem1, um.mem, argv, low, sp, top);
  }

  lemma {:induction false} OutsideBoth(mem0: map<nat, nat>, mem1: map<nat, nat>, mem: map<nat, nat>, lo0: nat, lo1: nat, lo: nat, hi: nat)
    requires mem0.Keys == mem1.Keys == mem.Keys && lo <= lo1 <= lo0 && Outside(mem0, mem1, lo0, hi) && Outside(mem1, mem, lo1, hi)
    ensures Outside(mem0, mem, lo, hi)
  {
  }

  /** Store the strings and the pointers to them. */
  method PutStrings(um: UserMemory, bs: seq<seq<nat>>, argv: nat, ghost low: nat) returns (sp: nat)
    requires um.Valid() && Placed(um.mem, bs, argv, 0) && 0 < low == Sp(bs, argv, |bs|) && Has(um.mem, low, argv) && argv < USIZE_LIMIT
    requires forall i :: 0 <= i < |bs| ==> AreBytes(bs[i])
    modifies um`mem, um.machine.ram
    ensures um.Valid() && sp == low && Placed(um.mem, bs, argv, |bs|)
    ensures um.mem.Keys == old(um.mem).Keys && Outside(old(um.mem), um.mem, sp, argv + 8 * (|bs| + 1))
  {
    sp := argv;
    for k := 0 to |bs|
      invariant um.Valid() && sp == Sp(bs, argv, k) && Placed(um.mem, bs, argv, k)
      invariant um.mem.Keys == old(um.mem).Keys && Has(um.mem, low, argv)
      invariant Outside(old(um.mem), um.mem, sp, argv + 8 * (|bs| + 1))
    {
      SpFalls(bs, argv, k + 1, |bs|);
      sp := PutNext(um, bs, argv, k, sp, low);
    }
  }

  /** Store the null pointer that ends the array. */
  method TerminateArgv(um: UserMemory, bs: seq<seq<nat>>, argv: nat, ghost low: nat)
    requires um.Valid() && 0 < low == Sp(bs, argv, |bs|) && Has(um.mem, low, argv + 8 * (|bs| + 1))
    modifies um`mem, um.machine.ram
    ensures um.Valid() && Placed(um.mem, bs, argv, 0) && um.mem.Keys == old(um.mem).Keys && Has(um.mem, low, argv)
    ensures Outside(old(um.mem), um.mem, argv, argv + 8 * (|bs| + 1))
  {
    SpFalls(bs, argv, 0, |bs|);
    um.PokeWord(argv + 8 * |bs|, 0);
  }

  // ---- reading back --------------------------------------------------------------------

  /** `translated_str`, on memory that holds `s` and a NUL at `p`. */
  method ReadString(um: UserMemory, p: nat, ghost s: seq<nat>) returns (r: seq<nat>)
    requires um.Valid() && StringAt(um.mem, p, s)
    ensures r == Cut(s)
  {
    r := [];
    var va := p;
    while true
      invariant va == p + |r| && |r| <= |s| && r == s[..|r|] && 0 !in r
      decreases |s| - |r|
    {
      var ch := um.PeekByte(va);
      if ch == 0 {
        break;
      }
      assert ch == s[|r|];
      r := r + [ch];
      va := va + 1;
    }
    CutAt(s, |r|);
  }

  lemma {:induction false} CutAt(s: seq<nat>, n: nat)
    requires n <= |s| && 0 !in s[..n] && (n < |s| ==> s[n] == 0)
    ensures Cut(s) == s[..n]
  {
  }

  /** The reading loop of `sys_execve`, on an array laid out by `exec`. */
  method ReadArgs(um: UserMemory, argv: nat, ghost bs: seq<seq<nat>>) returns (r: seq<seq<nat>>)
    requires um.Valid() && argv > 0 && Placed(um.mem, bs, argv, |bs|)
    ensures |r| == |bs| && forall i :: 0 <= i < |r| ==> r[i] == Cut(bs[i])
  {
    r := [];
    var p := argv;
    while true
      invariant |r| <= |bs| && p == argv + 8 * |r|
      invariant forall i :: 0 <= i < |r| ==> r[i] == Cut(bs[i])
      decreases |bs| - |r|
    {
      ghost var k := |r|;
      assert k < |bs| ==> PlacedOne(um.mem, bs, argv, k);
      var w := um.PeekWord(p);
      if w == 0 {
        break;
      }
      var s := ReadString(um, w, bs[k]);
      r := r + [s];
      p := p + 8;
    }
  }

  /** What `sys_execve` would read from the memory that `exec` wrote: each argument as UTF-8
      bytes up to its first NUL. It is the original list exactly when every argument is ASCII
      without NUL. */
  method ExecThenRead(um: UserMemory, top: nat, args: seq<Text>) returns (sp: nat, back: seq<seq<nat>>)
    requires um.Valid() && Fits(um.mem, top, args)
    modifies um`mem, um.machine.ram
    ensures um.Valid() && |back| == |args| && forall i :: 0 <= i < |back| ==> back[i] == Cut(Utf8(args[i]))
    ensures back == args <==> forall i :: 0 <= i < |args| ==> Ascii(args[i])
  {
    var argv;
    sp, argv := PutArgs(um, top, args);
    back := ReadArgs(um, argv, Encoded(args));
    forall i | 0 <= i < |args| ensures back[i] == args[i] <==> Ascii(args[i]) {
      SurvivesExactly(args[i]);
    }
  }
}
