/** Physical memory and the frame allocator (os/src/mm/frame_allocator.rs). */
module Frames {
  import opened Addresses

  /** A physical page seen as 512 little-endian 64-bit words. */
  type Page = p: seq<nat> | |p| == PTES_PER_PAGE witness seq(PTES_PER_PAGE, i => 0)

  function ZeroPage(): (p: Page)
    ensures forall i :: 0 <= i < PTES_PER_PAGE ==> p[i] == 0
  {
    seq(PTES_PER_PAGE, i => 0)
  }

  /** All of physical memory, one page per frame number. */
  class PhysMemory {
    var pages: map<nat, Page>

    constructor (pages: map<nat, Page>)
      ensures this.pages == pages
    {
      this.pages := pages;
    }

    /** The zeroing loop of `FrameTracker::new`. */
    method ZeroFrame(ppn: nat)
      requires ppn in pages
      modifies this
      ensures pages == old(pages)[ppn := ZeroPage()]
    {
      var i := 0;
      ghost var before := pages;
      while i < PTES_PER_PAGE
        invariant 0 <= i <= PTES_PER_PAGE
        invariant ppn in pages && pages == before[ppn := pages[ppn]]
        invariant forall k :: 0 <= k < i ==> pages[ppn][k] == 0
      {
        pages := pages[ppn := pages[ppn][i := 0]];
        i := i + 1;
      }
      assert pages[ppn] == ZeroPage();
    }
  }

  predicate NoDup<T(==)>(s: seq<T>) {
    forall i, j :: 0 <= i < j < |s| ==> s[i] != s[j]
  }

  /** The recycled frames are distinct, and the owned ones are the rest of what was handed out. */
  ghost predicate AllocatorOk(base: nat, current: nat, end: nat, recycled: seq<nat>, owned: set<nat>)
  {
    && base <= current <= end <= PPN_LIMIT
    && NoDup(recycled)
    && (forall i :: 0 <= i < |recycled| ==> base <= recycled[i] < current)
    && (forall f :: f in owned <==> base <= f < current && f !in recycled)
  }

  /** `StackFrameAllocator`; `base` is the left end given to `init`. */
  class StackFrameAllocator {
    var current: nat
    var end: nat
    var recycled: seq<nat>
    ghost var base: nat

    /** Frames held by a live tracker. */
    ghost var owned: set<nat>

    ghost predicate Valid()
      reads this
    {
      AllocatorOk(base, current, end, recycled, owned)
    }

    /** Frames that have never been handed out. */
    ghost predicate Untouched(f: nat)
      reads this
    {
      current <= f < end
    }

    /** How many frames `alloc` can still hand out. */
    function Available(): int
      reads this
    {
      |recycled| + end - current
    }

    predicate Exhausted()
      reads this
    {
      recycled == [] && current == end
    }

    /** `new` followed by `init(l, r)`. */
    constructor (l: nat, r: nat)
      requires l <= r <= PPN_LIMIT
      ensures Valid() && owned == {} && base == l && end == r
    {
      current, end, recycled, base, owned := l, r, [], l, {};
    }

    method Alloc() returns (r: Option<nat>)
      requires Valid()
      modifies this
      ensures Valid() && base == old(base) && end == old(end)
      ensures r.None? <==> old(Exhausted())
      ensures r.None? ==> owned == old(owned) && Available() == old(Available()) == 0
      ensures r.Some? ==> Available() == old(Available()) - 1
      ensures r.Some? ==> base <= r.value < end && r.value !in old(owned) && owned == old(owned) + {r.value}
    {
      if recycled != [] {
        var ppn := recycled[|recycled| - 1];
        assert ppn in recycled;
        ghost var before := recycled;
        recycled := recycled[..|recycled| - 1];
        assert before == recycled + [ppn];
        owned := owned + {ppn};
        return Some(ppn);
      } else if current == end {
        return None;
      } else {
        current := current + 1;
        owned := owned + {current - 1};
        return Some(current - 1);
      }
    }

    /** A run of frames, highest first, so that the last element is the lowest frame.
        The run is refused already when it would use up the last untouched frame. */
    method AllocMore(pages: nat) returns (r: Option<seq<nat>>)
      requires Valid()
      modifies this
      ensures Valid() && base == old(base) && end == old(end)
      ensures r.None? <==> old(current) + pages >= end
      ensures r.None? ==> owned == old(owned)
      ensures r.Some? ==>
                && |r.value| == pages
                && (forall k :: 0 <= k < pages ==> r.value[k] == old(current) + pages - 1 - k)
                && owned == old(owned) + (set f | f in r.value)
                && (forall f :: f in r.value ==> old(Untouched(f)))
    {
      if current + pages >= end {
        return None;
      }
      current := current + pages;
      var v := [];
      var x := 1;
      while x < pages + 1
        invariant 1 <= x <= pages + 1
        invariant |v| == x - 1
        invariant forall k :: 0 <= k < |v| ==> v[k] == current - 1 - k
      {
        v := v + [current - x];
        x := x + 1;
      }
      forall f | old(current) <= f < current ensures f in v {
        assert v[current - 1 - f] == f;
      }
      owned := owned + (set f | f in v);
      return Some(v);
    }

    /** `dealloc` panics exactly on a managed frame that no live tracker holds. A frame below the
        managed ones is taken too, and exactly that spoils the allocator. */
    method Dealloc(ppn: nat) returns (ok: bool)
      requires Valid()
      modifies this
      ensures Valid() <==> base <= ppn
      ensures ok <==> ppn in old(owned) || ppn < base
      ensures base == old(base) && end == old(end) && owned == old(owned) - {ppn}
      ensures !ok ==> recycled == old(recycled)
      ensures current == old(current)
    {
      if ppn >= current || ppn in recycled {
        return false;
      }
      recycled := recycled + [ppn];
      owned := owned - {ppn};
      assert recycled[|recycled| - 1] == ppn;
      return true;
    }

    /** Every managed frame is in exactly one of the three states. */
    lemma {:induction false} Partition(f: nat)
      requires Valid() && base <= f < end
      ensures Untouched(f) <==> f !in owned && f !in recycled
      ensures f in owned ==> !Untouched(f) && f !in recycled
      ensures f in recycled ==> multiset(recycled)[f] == 1
    {
      if f in recycled {
        NoDupOnce(recycled, f);
      }
    }
  }

  lemma {:induction false} NoDupAppend<T>(a: seq<T>, b: seq<T>)
    requires NoDup(a) && NoDup(b) && forall i :: 0 <= i < |b| ==> b[i] !in a
    ensures NoDup(a + b)
  {
  }

  lemma {:induction false} NoDupOnce<T>(s: seq<T>, x: T)
    requires NoDup(s) && x in s
    ensures multiset(s)[x] == 1
  {
    var n := |s| - 1;
    assert s == s[..n] + [s[n]];
    if s[n] == x {
      assert x !in s[..n];
    } else {
      NoDupOnce(s[..n], x);
    }
  }

  ghost predicate Backed(base: nat, end: nat, pages: map<nat, Page>)
  {
    forall f :: base <= f < end ==> f in pages
  }

  /** The allocator manages frames that physical memory really has. */
  ghost predicate Installed(fa: StackFrameAllocator, ram: PhysMemory)
    reads fa, ram
  {
    fa.Valid() && Backed(fa.base, fa.end, ram.pages)
  }

  /** `frame_alloc`: take a frame and clear it. */
  method FrameAlloc(fa: StackFrameAllocator, ram: PhysMemory) returns (r: Option<nat>)
    requires Installed(fa, ram)
    modifies fa, ram
    ensures Installed(fa, ram) && fa.base == old(fa.base) && fa.end == old(fa.end)
    ensures r.None? <==> old(fa.Exhausted())
    ensures r.None? ==> fa.owned == old(fa.owned) && ram.pages == old(ram.pages)
    ensures r.None? ==> fa.Available() == old(fa.Available()) == 0
    ensures r.Some? ==> fa.Available() == old(fa.Available()) - 1
    ensures r.Some? ==>
              && fa.base <= r.value < fa.end && r.value !in old(fa.owned)
              && fa.owned == old(fa.owned) + {r.value}
              && ram.pages == old(ram.pages)[r.value := ZeroPage()]
  {
    r := fa.Alloc();
    if r.Some? {
      ram.ZeroFrame(r.value);
    }
  }
}
