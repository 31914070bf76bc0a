/** Whole runs of map and unmap calls on one page table (os/src/hal/arch/riscv/sv39.rs). */
module PageTableRuns {
  import opened Addresses
  import opened Frames
  import opened Sv39

  datatype Op = MapOp(vpn: nat, ppn: nat, perm: nat) | UnmapOp(vpn: nat)

  datatype End = Finished | Crashed | NoFrames

  predicate Fitting(op: Op)
  {
    op.vpn < VPN_LIMIT && (op.MapOp? ==> op.ppn < PPN_LIMIT && IsPerm(op.perm))
  }

  /** Mapping twice and unmapping what is not mapped trip an assertion. */
  predicate Crashes(flat: map<nat, nat>, op: Op)
  {
    match op
    case MapOp(v, _, _) => v in flat
    case UnmapOp(v) => v !in flat
  }

  function Apply(flat: map<nat, nat>, op: Op): map<nat, nat>
  {
    match op
    case MapOp(v, ppn, perm) => flat[v := LeafPte(ppn, perm)]
    case UnmapOp(v) => flat - {v}
  }

  /** The flat map after `ops`. */
  function After(flat: map<nat, nat>, ops: seq<Op>): map<nat, nat>
    decreases |ops|
  {
    if ops == [] then flat else After(Apply(flat, ops[0]), ops[1..])
  }

  /** None of the calls trips an assertion. */
  ghost predicate Smooth(flat: map<nat, nat>, ops: seq<Op>)
    decreases |ops|
  {
    ops == [] || (!Crashes(flat, ops[0]) && Smooth(Apply(flat, ops[0]), ops[1..]))
  }

  lemma {:induction false} SmoothCons(flat: map<nat, nat>, ops: seq<Op>, n: nat)
    requires n < |ops| && !Crashes(flat, ops[0]) && Smooth(Apply(flat, ops[0]), ops[1..][..n])
    ensures Smooth(flat, ops[..n + 1]) && After(flat, ops[..n + 1]) == After(Apply(flat, ops[0]), ops[1..][..n])
  {
    assert ops[..n + 1][0] == ops[0] && ops[..n + 1][1..] == ops[1..][..n];
  }

  /** One call on the real table; `NoFrames` when a table page could not be allocated. */
  method Perform(pt: SV39PageTable, op: Op, fa: StackFrameAllocator, ram: PhysMemory) returns (end: End)
    requires pt.Valid(ram) && Installed(fa, ram) && pt.kind.Keys <= fa.owned && Fitting(op)
    modifies pt, fa, ram
    ensures pt.Valid(ram) && Installed(fa, ram) && pt.kind.Keys <= fa.owned
    ensures end.Crashed? <==> Crashes(old(pt.flat), op)
    ensures pt.flat == if end.Finished? then Apply(old(pt.flat), op) else old(pt.flat)
    ensures end.NoFrames? ==> fa.Available() == 0
  {
    match op {
      case MapOp(v, ppn, perm) =>
        var r := pt.Map(v, ppn, perm, fa, ram);
        end := if r.MapDone? then Finished else if r.AlreadyMapped? then Crashed else NoFrames;
      case UnmapOp(v) =>
        var r := pt.Unmap(v, ram);
        end := if r.UnmapDone? then Finished else Crashed;
        assert end.Crashed? ==> pt.flat == old(pt.flat);
    }
  }

  /** For every sequence of calls the three-level table holds the flat map that the calls made
      so far describe, and it stops early exactly at a call that crashes on the flat map or for
      want of frames. */
  method Run(pt: SV39PageTable, ops: seq<Op>, fa: StackFrameAllocator, ram: PhysMemory) returns (n: nat, end: End)
    requires pt.Valid(ram) && Installed(fa, ram) && pt.kind.Keys <= fa.owned && forall i :: 0 <= i < |ops| ==> Fitting(ops[i])
    modifies pt, fa, ram
    ensures pt.Valid(ram) && Installed(fa, ram) && pt.kind.Keys <= fa.owned
    ensures n <= |ops| && Smooth(old(pt.flat), ops[..n]) && pt.flat == After(old(pt.flat), ops[..n])
    ensures end.Finished? <==> n == |ops|
    ensures end.Crashed? ==> Crashes(pt.flat, ops[n])
    ensures end.NoFrames? ==> fa.Available() == 0
    decreases |ops|
  {
    if ops == [] {
      return 0, Finished;
    }
    end := Perform(pt, ops[0], fa, ram);
    if !end.Finished? {
      return 0, end;
    }
    ghost var flat0 := old(pt.flat);
    n, end := Run(pt, ops[1..], fa, ram);
    SmoothCons(flat0, ops, n);
    n := n + 1;
  }

  /** So what the hardware walk finds for a page depends on the last call for that page only. */
  lemma {:induction false} LastCallDecides(flat: map<nat, nat>, ops: seq<Op>, v: nat)
    ensures (forall i :: 0 <= i < |ops| ==> ops[i].vpn != v) ==>
              (v in After(flat, ops) <==> v in flat) && (v in flat ==> After(flat, ops)[v] == flat[v])
    ensures forall i :: 0 <= i < |ops| && ops[i].vpn == v && (forall j :: i < j < |ops| ==> ops[j].vpn != v) ==>
              if ops[i].MapOp? then v in After(flat, ops) && After(flat, ops)[v] == LeafPte(ops[i].ppn, ops[i].perm)
              else v !in After(flat, ops)
    decreases |ops|
  {
    if ops != [] {
      LastCallDecides(Apply(flat, ops[0]), ops[1..], v);
      forall i | 0 <= i < |ops| && ops[i].vpn == v && (forall j :: i < j < |ops| ==> ops[j].vpn != v)
        ensures if ops[i].MapOp? then v in After(flat, ops) && After(flat, ops)[v] == LeafPte(ops[i].ppn, ops[i].perm)
                else v !in After(flat, ops)
      {
        if i > 0 {
          assert ops[1..][i - 1] == ops[i];
        } else {
          assert forall j :: 0 <= j < |ops[1..]| ==> ops[1..][j] == ops[j + 1];
        }
      }
    }
  }
}
