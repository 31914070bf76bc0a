/** The loop of `translated_byte_buffer` as arithmetic on addresses (os/src/mm/pagetable.rs,
os/src/mm/address.rs): when it ends, and which bytes it covers.

Every turn masks the start and the end of the range to 39 bits, covers the rest of a page or of
the range, and sign-extends the address where it stopped to get the next start. */
module BufferLoop {
  import opened Addresses

  function PageOf(a: nat): (v: nat)
    ensures v < VPN_LIMIT
  {
    Floor(VirtAddrFrom(a))
  }

  function NextPage(va: nat): nat { (va / PAGE_SIZE + 1) * PAGE_SIZE }

  /** `end_va` of a turn. */
  function EndVa(start: nat, end: nat): (va: nat)
    ensures va < VA_LIMIT
  {
    var next := NextPage(VirtAddrFrom(start));
    if next <= VirtAddrFrom(end) then next else VirtAddrFrom(end)
  }

  /** The start of the next turn. */
  function Turn(start: nat, end: nat): nat { UsizeFromVa(EndVa(start, end)) }

  /** Where in its page the slice of a turn ends. */
  function SliceEnd(start: nat, end: nat): (to: nat)
    ensures to <= PAGE_SIZE
  {
    if PageOffset(EndVa(start, end)) == 0 then PAGE_SIZE else PageOffset(EndVa(start, end))
  }

  /** The slice would end before it begins: an index panic. */
  predicate TurnPanics(start: nat, end: nat) { SliceEnd(start, end) < PageOffset(VirtAddrFrom(start)) }

  function Span(a: nat, n: nat): (s: seq<nat>)
    ensures |s| == n && forall i :: 0 <= i < n ==> s[i] == a + i
  {
    seq<nat>(n, i requires 0 <= i < n => a + i)
  }

  /** The masked addresses that one turn covers. */
  function TurnBytes(start: nat, end: nat): seq<nat>
  {
    var va := VirtAddrFrom(start);
    if TurnPanics(start, end) then [] else Span(va, SliceEnd(start, end) - PageOffset(va))
  }

  /** The loop ends after exactly `k` turns, without a panic. */
  predicate Stops(start: nat, end: nat, k: nat)
    decreases k
  {
    if k == 0 then start >= end
    else start < end && !TurnPanics(start, end) && Stops(Turn(start, end), end, k - 1)
  }

  /** The loop ends in turn `k`, by a panic or because it is done. */
  predicate Halts(start: nat, end: nat, k: nat)
    decreases k
  {
    if k == 0 then start >= end
    else start < end && if TurnPanics(start, end) then k == 1 else Halts(Turn(start, end), end, k - 1)
  }

  lemma {:induction false} StopsHalts(start: nat, end: nat, k: nat)
    requires Stops(start, end, k)
    ensures Halts(start, end, k)
    decreases k
  {
    if k > 0 {
      StopsHalts(Turn(start, end), end, k - 1);
    }
  }

  lemma {:induction false} HaltsOnce(start: nat, end: nat, k: nat, k': nat)
    requires Halts(start, end, k) && Halts(start, end, k')
    ensures k == k'
    decreases k
  {
    if k > 0 && !TurnPanics(start, end) {
      HaltsOnce(Turn(start, end), end, k - 1, k' - 1);
    }
  }

  /** The starts of the first `k` turns. */
  function Starts(start: nat, end: nat, k: nat): seq<nat>
    decreases k
  {
    if k == 0 then [] else [start] + Starts(Turn(start, end), end, k - 1)
  }

  /** The masked addresses covered by `k` turns. */
  function CoveredBy(start: nat, end: nat, k: nat): seq<nat>
    decreases k
  {
    if k == 0 then [] else TurnBytes(start, end) + CoveredBy(Turn(start, end), end, k - 1)
  }

  /** The masked addresses of the range. */
  function Wanted(ptr: nat, len: nat): (s: seq<nat>)
    ensures |s| == len && forall i :: 0 <= i < len ==> s[i] == VirtAddrFrom(ptr + i)
  {
    seq<nat>(len, i requires 0 <= i < len => VirtAddrFrom(ptr + i))
  }

  /** What the loop is for: it ends and has covered the range, byte by byte. */
  ghost predicate StopsAndCovers(ptr: nat, len: nat)
  {
    exists k: nat :: CoversIn(ptr, len, k)
  }

  ghost predicate CoversIn(ptr: nat, len: nat, k: nat)
  {
    Stops(ptr, Wrap(ptr + len), k) && CoveredBy(ptr, Wrap(ptr + len), k) == Wanted(ptr, len)
  }

  /** The first page boundary above `va` whose sign extension lies in the upper half. */
  function UpperBoundary(va: nat): nat { if va < VA_HALF then VA_HALF else NextPage(va) }

  /** The ranges that the loop handles: neither the range nor its masked form may wrap; one that
      ends in the lower half must lie there before masking; and one that ends higher may go on
      past a boundary of the upper half only where addresses are canonical. */
  predicate Sliceable(ptr: nat, len: nat)
  {
    var m := VirtAddrFrom(ptr);
    var e := m + len;
    len == 0 ||
    (ptr + len < USIZE_LIMIT && e < VA_LIMIT
     && if e < VA_HALF then ptr < VA_LIMIT else ptr >= USIZE_LIMIT - VA_LIMIT || e <= UpperBoundary(m))
  }

  // ---- a turn --------------------------------------------------------------------------

  lemma {:induction false} MaskOfTurn(start: nat, end: nat)
    ensures VirtAddrFrom(Turn(start, end)) == EndVa(start, end)
  {
  }

  /** Below the masked end, a turn covers what lies before the next boundary or that end. */
  lemma {:induction false} TurnBelow(start: nat, end: nat)
    requires VirtAddrFrom(start) < VirtAddrFrom(end)
    ensures var va, e := VirtAddrFrom(start), EndVa(start, end);
            va < e && !TurnPanics(start, end) && TurnBytes(start, end) == Span(va, e - va)
  {
    var va, f := VirtAddrFrom(start), VirtAddrFrom(end);
    InPage(va, EndVa(start, end));
  }

  lemma {:induction false} InPage(va: nat, e: nat)
    requires va < e <= NextPage(va)
    ensures var to := if PageOffset(e) == 0 then PAGE_SIZE else PageOffset(e);
            to - PageOffset(va) == e - va
  {
    if e < NextPage(va) {
      assert e / PAGE_SIZE == va / PAGE_SIZE;
    } else {
      assert e % PAGE_SIZE == 0;
    }
  }

  /** At or above it, a turn goes back to the masked end. */
  lemma {:induction false} TurnBack(start: nat, end: nat)
    requires VirtAddrFrom(start) >= VirtAddrFrom(end)
    ensures EndVa(start, end) == VirtAddrFrom(end)
  {
  }

  /** Where the masked end is below the end, the loop stands still there. */
  lemma {:induction false} NeverStops(start: nat, end: nat, k: nat)
    requires start < end && VirtAddrFrom(start) >= VirtAddrFrom(end) && UsizeFromVa(VirtAddrFrom(end)) < end
    ensures !Stops(start, end, k)
    decreases k
  {
    TurnBack(start, end);
    if k > 0 {
      MaskOfTurn(start, end);
      NeverStops(Turn(start, end), end, k - 1);
    }
  }

  // ---- where the loop leaves off -------------------------------------------------------

  /** From the masked address `m` on: the first boundary whose sign extension is not below the
      end, or the masked end `f`. */
  function StopAt(m: nat, f: nat, end: nat): (c: nat)
    requires m < f < VA_LIMIT
    ensures m < c <= f
    decreases f - m
  {
    var next := NextPage(m);
    if next >= f then f else if UsizeFromVa(next) >= end then next else StopAt(next, f, end)
  }

  lemma {:induction false} SpanJoin(a: nat, b: nat, c: nat)
    requires a <= b <= c
    ensures Span(a, b - a) + Span(b, c - b) == Span(a, c - a)
  {
  }

  lemma {:induction false} StopAtTurn(start: nat, end: nat)
    requires VirtAddrFrom(start) < VirtAddrFrom(end)
    ensures var m, f, e := VirtAddrFrom(start), VirtAddrFrom(end), EndVa(start, end);
            && e <= f && (e < f ==> Turn(start, end) >= end || StopAt(m, f, end) == StopAt(e, f, end))
            && (e == f || Turn(start, end) >= end ==> StopAt(m, f, end) == e)
  {
  }

  /** If the loop stops, it has covered exactly what lies before that point. */
  lemma {:induction false} CoversToStop(start: nat, end: nat, k: nat)
    requires start < end && VirtAddrFrom(start) < VirtAddrFrom(end) && Stops(start, end, k)
    ensures var m, f := VirtAddrFrom(start), VirtAddrFrom(end);
            CoveredBy(start, end, k) == Span(m, StopAt(m, f, end) - m) && (StopAt(m, f, end) == f ==> UsizeFromVa(f) >= end)
    decreases k
  {
    var m, f, next := VirtAddrFrom(start), VirtAddrFrom(end), Turn(start, end);
    TurnBelow(start, end);
    MaskOfTurn(start, end);
    StopAtTurn(start, end);
    if next >= end {
      assert CoveredBy(next, end, k - 1) == [];
    } else if VirtAddrFrom(next) >= f {
      NeverStops(next, end, k - 1);
    } else {
      CoversToStop(next, end, k - 1);
      SpanJoin(m, EndVa(start, end), StopAt(m, f, end));
    }
  }

  /** And it does stop, unless it gets to a masked end below the end. */
  lemma {:induction false} StopsThere(start: nat, end: nat) returns (k: nat)
    requires start < end && VirtAddrFrom(start) < VirtAddrFrom(end)
    requires var m, f := VirtAddrFrom(start), VirtAddrFrom(end);
             StopAt(m, f, end) == f ==> UsizeFromVa(f) >= end
    ensures Stops(start, end, k)
    decreases VirtAddrFrom(end) - VirtAddrFrom(start)
  {
    var next := Turn(start, end);
    TurnBelow(start, end);
    MaskOfTurn(start, end);
    if next >= end {
      k := 1;
      assert Stops(next, end, 0);
    } else {
      k := StopsThere(next, end);
      k := k + 1;
    }
  }

  /** The loop reaches the masked end unless a boundary of the upper half is in the way and the
      end is not in the highest 2^39 bytes. */
  lemma {:induction false} ReachesEnd(m: nat, f: nat, end: nat)
    requires m < f && f == VirtAddrFrom(end) && end < USIZE_LIMIT
    ensures StopAt(m, f, end) == f <==> end >= USIZE_LIMIT - VA_LIMIT || f <= UpperBoundary(m)
    decreases f - m
  {
    var next := NextPage(m);
    if next < f {
      if next < VA_HALF {
        ReachesEnd(next, f, end);
      } else if end >= USIZE_LIMIT - VA_LIMIT {
        ReachesEnd(next, f, end);
      }
    }
  }

  /** The loop stops and has not yet reached the masked end. */
  predicate Below(start: nat, end: nat, k: nat)
  {
    start < end && VirtAddrFrom(start) < VirtAddrFrom(end) && Stops(start, end, k)
  }

  /** A loop that stops keeps below the masked end until it does. */
  lemma {:induction false} KeepsBelow(start: nat, end: nat, k: nat)
    requires Below(start, end, k)
    ensures k > 0 && if Turn(start, end) < end then Below(Turn(start, end), end, k - 1) else k == 1
  {
    MaskOfTurn(start, end);
    assert Stops(Turn(start, end), end, k - 1);
    if Turn(start, end) < end && VirtAddrFrom(Turn(start, end)) >= VirtAddrFrom(end) {
      NeverStops(Turn(start, end), end, k - 1);
    }
  }

  // ---- the theorem ---------------------------------------------------------------------

  /** The loop ends and covers its range if and only if the range is `Sliceable`. */
  lemma {:induction false} SliceableExactly(ptr: nat, len: nat)
    requires ptr < USIZE_LIMIT && len < USIZE_LIMIT
    ensures StopsAndCovers(ptr, len) <==> Sliceable(ptr, len)
  {
    if len == 0 {
      assert CoversIn(ptr, 0, 0);
    } else if Sliceable(ptr, len) {
      var k := SliceableStops(ptr, len);
    } else if StopsAndCovers(ptr, len) {
      var k: nat :| CoversIn(ptr, len, k);
      OnlySliceable(ptr, len, k);
    }
  }

  /** The end of a range that does not wrap, before and after masking. */
  lemma {:induction false} MaskedEnd(ptr: nat, len: nat)
    requires VirtAddrFrom(ptr) + len < VA_LIMIT
    ensures VirtAddrFrom(ptr + len) == VirtAddrFrom(ptr) + len
    ensures Wanted(ptr, len) == Span(VirtAddrFrom(ptr), len)
  {
  }

  /** For a range whose masked form does not wrap, the condition is the one on the loop. */
  lemma {:induction false} ConditionOnLoop(ptr: nat, len: nat)
    requires 0 < len && ptr + len < USIZE_LIMIT && VirtAddrFrom(ptr) + len < VA_LIMIT
    ensures var m, end := VirtAddrFrom(ptr), ptr + len;
            && VirtAddrFrom(end) == m + len
            && (Sliceable(ptr, len) <==> StopAt(m, m + len, end) == m + len && UsizeFromVa(m + len) >= end)
  {
    var m := VirtAddrFrom(ptr);
    SameBlock(ptr, m, len);
    ReachesEnd(m, m + len, ptr + len);
  }

  /** Start and end lie in the same 2^39 bytes. */
  lemma {:induction false} SameBlock(ptr: nat, m: nat, len: nat)
    requires m == VirtAddrFrom(ptr) && m + len < VA_LIMIT && ptr + len < USIZE_LIMIT
    ensures VirtAddrFrom(ptr + len) == m + len
    ensures (ptr + len < VA_LIMIT <==> ptr < VA_LIMIT) && (ptr < VA_LIMIT ==> m == ptr)
    ensures ptr + len >= USIZE_LIMIT - VA_LIMIT <==> ptr >= USIZE_LIMIT - VA_LIMIT
    ensures UsizeFromVa(m + len) >= ptr + len <==> m + len >= VA_HALF || ptr < VA_LIMIT
  {
    var q := ptr / VA_LIMIT;
    assert ptr == q * VA_LIMIT + m;
    assert q <= USIZE_LIMIT / VA_LIMIT - 1;
  }

  lemma {:induction false} SliceableStops(ptr: nat, len: nat) returns (k: nat)
    requires ptr < USIZE_LIMIT && Sliceable(ptr, len)
    ensures CoversIn(ptr, len, k)
  {
    if len == 0 {
      k := 0;
    } else {
      ConditionOnLoop(ptr, len);
      k := CoversTo(ptr, ptr + len, VirtAddrFrom(ptr), VirtAddrFrom(ptr) + len);
      CoversAll(ptr, len, k);
    }
  }

  lemma {:induction false} CoversAll(ptr: nat, len: nat, k: nat)
    requires ptr + len < USIZE_LIMIT && VirtAddrFrom(ptr) + len < VA_LIMIT
    requires Stops(ptr, ptr + len, k) && CoveredBy(ptr, ptr + len, k) == Span(VirtAddrFrom(ptr), len)
    ensures CoversIn(ptr, len, k)
  {
    MaskedEnd(ptr, len);
  }

  lemma {:induction false} CoversTo(ptr: nat, end: nat, m: nat, f: nat) returns (k: nat)
    requires ptr < end && m == VirtAddrFrom(ptr) && f == VirtAddrFrom(end) && m < f
    requires StopAt(m, f, end) == f && UsizeFromVa(f) >= end
    ensures Stops(ptr, end, k) && CoveredBy(ptr, end, k) == Span(m, f - m)
  {
    k := StopsThere(ptr, end);
    CoversToStop(ptr, end, k);
  }

  lemma {:induction false} OnlySliceable(ptr: nat, len: nat, k: nat)
    requires 0 < len < USIZE_LIMIT && ptr < USIZE_LIMIT
    requires CoversIn(ptr, len, k)
    ensures Sliceable(ptr, len)
  {
    NoWrap(ptr, len, k);
    if VirtAddrFrom(ptr) >= VirtAddrFrom(ptr + len) {
      OneTurnIsTooShort(ptr, len, k);
    } else {
      LengthTells(ptr, ptr + len, VirtAddrFrom(ptr), VirtAddrFrom(ptr + len), k);
      ConditionOnLoop(ptr, len);
    }
  }

  /** How much was covered tells where the loop stopped. */
  lemma {:induction false} LengthTells(ptr: nat, end: nat, m: nat, f: nat, k: nat)
    requires ptr < end && m == VirtAddrFrom(ptr) && f == VirtAddrFrom(end) && m < f
    requires Stops(ptr, end, k) && |CoveredBy(ptr, end, k)| == end - ptr
    ensures f == m + (end - ptr) && StopAt(m, f, end) == f && UsizeFromVa(f) >= end
  {
    CoversToStop(ptr, end, k);
    ShiftedMask(ptr, end, StopAt(m, f, end));
  }

  lemma {:induction false} ShiftedMask(ptr: nat, end: nat, c: nat)
    requires c < VA_LIMIT && c - VirtAddrFrom(ptr) == end - ptr
    ensures VirtAddrFrom(end) == c
  {
  }

  /** A range that wraps gets no turn at all. */
  lemma {:induction false} NoWrap(ptr: nat, len: nat, k: nat)
    requires 0 < len < USIZE_LIMIT && ptr < USIZE_LIMIT
    requires CoversIn(ptr, len, k)
    ensures ptr + len < USIZE_LIMIT
  {
  }

  /** One turn back to the masked end cannot cover a range that wraps when masked. */
  lemma {:induction false} OneTurnIsTooShort(ptr: nat, len: nat, k: nat)
    requires 0 < len && ptr + len < USIZE_LIMIT && VirtAddrFrom(ptr) >= VirtAddrFrom(ptr + len)
    requires Stops(ptr, ptr + len, k)
    ensures |CoveredBy(ptr, ptr + len, k)| != len
  {
    var end, m, f := ptr + len, VirtAddrFrom(ptr), VirtAddrFrom(ptr + len);
    TurnBack(ptr, end);
    MaskOfTurn(ptr, end);
    if Turn(ptr, end) < end {
      NeverStops(Turn(ptr, end), end, k - 1);
    } else {
      assert k == 1;
      assert |CoveredBy(ptr, end, k)| == |TurnBytes(ptr, end)| <= PAGE_SIZE - PageOffset(m);
      assert m + len >= VA_LIMIT + f;
    }
  }

  /** How the loop goes on a sliceable range. */
  lemma {:induction false} SliceableRun(ptr: nat, len: nat, k: nat)
    requires ptr < USIZE_LIMIT && Sliceable(ptr, len) && Halts(ptr, Wrap(ptr + len), k)
    ensures CoversIn(ptr, len, k) && if len == 0 then k == 0 else Below(ptr, Wrap(ptr + len), k)
  {
    var k' := SliceableStops(ptr, len);
    StopsHalts(ptr, Wrap(ptr + len), k');
    HaltsOnce(ptr, Wrap(ptr + len), k, k');
    if len > 0 {
      MaskedEnd(ptr, len);
    }
  }

  // ---- what goes wrong elsewhere -------------------------------------------------------

  /** A range longer than the masked space: the loop stands still, pushing empty slices. */
  lemma {:induction false} StandsStill(k: nat)
    ensures !Halts(100, 100 + VA_LIMIT, k) && Turn(100, 100 + VA_LIMIT) == 100 && TurnBytes(100, 100 + VA_LIMIT) == []
  {
    if k > 0 {
      StandsStill(k - 1);
    }
  }

  /** A range across the end of the lower half: the loop stops after ten bytes of twenty. */
  lemma {:induction false} StopsShort()
    ensures Stops(VA_HALF - 10, VA_HALF + 10, 1) && CoveredBy(VA_HALF - 10, VA_HALF + 10, 1) == Span(VA_HALF - 10, 10)
  {
    TurnBelow(VA_HALF - 10, VA_HALF + 10);
    assert EndVa(VA_HALF - 10, VA_HALF + 10) == VA_HALF;
    assert Stops(Turn(VA_HALF - 10, VA_HALF + 10), VA_HALF + 10, 0);
    assert CoveredBy(Turn(VA_HALF - 10, VA_HALF + 10), VA_HALF + 10, 0) == [];
  }

  /** A range whose masked end is lower in the same page: the slice index panics. */
  lemma {:induction false} PanicsOnIndex()
    ensures 100 < 50 + VA_LIMIT && TurnPanics(100, 50 + VA_LIMIT)
  {
  }

  /** A range past the end of the address space: no turn is made. */
  lemma {:induction false} WrapsToNothing()
    ensures Stops(USIZE_LIMIT - 5, Wrap(USIZE_LIMIT - 5 + 10), 0)
  {
  }
}
