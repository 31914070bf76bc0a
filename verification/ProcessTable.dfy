/** The process tables as the kernel updates them in place, proved against module `Process`. */
module ProcessTable {
  import opened Addresses
  import opened Frames
  import opened Closed
  import opened Process

  datatype ExitResult = Shutdown | Exited
  datatype WaitResult = NoChild | Reaped(pid: nat, code: int) | NoneYet | Suspended

  /** Init has pid zero, and nobody else has. */
  lemma {:induction false} InitIsPidZero(s: State, p: Uid)
    requires Inv(s) && p in s.procs
    ensures s.init in s.procs && (s.procs[p].pid == IDLE_PID <==> p == s.init)
  {
    assert OpenForest(Key) && OpenPids(Key);
  }

  /** The first `n` children of `p` have gone to init. */
  function AdoptedSoFar(procs: Procs, init: Uid, p: Uid, n: nat): Procs
    requires p in procs && init in procs && n <= |procs[p].children|
  {
    map u | u in procs ::
      if u == init then procs[u].(children := procs[u].children + procs[p].children[..n])
      else if u in procs[p].children[..n] then procs[u].(parent := Some(init))
      else procs[u]
  }

  lemma {:induction false} AdoptOne(procs: Procs, init: Uid, p: Uid, n: nat)
    requires p in procs && init in procs && n < |procs[p].children| && procs[p].children[n] in procs
    requires procs[p].children[n] != init
    ensures var a, c := AdoptedSoFar(procs, init, p, n), procs[p].children[n];
            && c in a && init in a
            && a[c := a[c].(parent := Some(init))][init := a[init].(children := a[init].children + [c])]
               == AdoptedSoFar(procs, init, p, n + 1)
  {
    var cs := procs[p].children;
    assert cs[..n + 1] == cs[..n] + [cs[n]];
    assert procs[init].children + cs[..n] + [cs[n]] == procs[init].children + cs[..n + 1];
  }

  /** The children of `p` exist and are neither init nor `p`. */
  lemma {:induction false} ChildrenExist(s: State, p: Uid)
    requires Inv(s) && p in s.procs
    ensures forall i :: 0 <= i < |s.procs[p].children| ==>
                          s.procs[p].children[i] in s.procs && s.procs[p].children[i] != s.init && s.procs[p].children[i] != p
    ensures s.init in s.procs && NoDup(s.procs[p].children)
  {
    assert OpenForest(Key);
    forall i | 0 <= i < |s.procs[p].children|
      ensures s.procs[p].children[i] in s.procs && s.procs[p].children[i] != s.init && s.procs[p].children[i] != p
    {
      var c := s.procs[p].children[i];
      assert c in s.procs[p].children && HangsUnder(s.procs, s.init, c, p) && ParentOk(s.procs, c);
    }
  }

  class ProcessTable {
    const init: Uid
    var procs: Procs
    var pidMap: map<nat, Uid>
    var ids: Ids
    var nextUid: Uid
    ghost var exits: map<Uid, int>
    ghost var reports: seq<(Uid, nat, int)>

    ghost function View(): State
      reads this
    {
      State(procs, init, pidMap, ids, nextUid, exits, reports)
    }

    /** The table after the first process has been made. */
    constructor (uid: Uid)
      ensures View() == Boot(uid) && Inv(View())
    {
      init := uid;
      procs, pidMap := map[uid := Proc(0, 0, false, 0, None, [])], map[0 := uid];
      ids, nextUid, exits, reports := Ids(1, []), uid + 1, map[], [];
      new;
      BootInv(uid);
    }

    /** `RecycleAllocator::alloc`. */
    method PidAlloc() returns (pid: nat)
      modifies this`ids
      ensures (pid, ids) == Alloc(old(ids))
    {
      if ids.recycled != [] {
        var n := |ids.recycled| - 1;
        pid := ids.recycled[n];
        ids := Ids(ids.current, ids.recycled[..n]);
      } else {
        ids := Ids(ids.current + 1, ids.recycled);
        pid := ids.current - 1;
      }
    }

    /** `RecycleAllocator::dealloc`; it panics on an id that is not in use. */
    method PidDealloc(id: nat) returns (ok: bool)
      modifies this`ids
      ensures ok <==> CanDealloc(old(ids), id)
      ensures ids == if ok then Dealloc(old(ids), id) else old(ids)
    {
      if id >= ids.current || id in ids.recycled {
        return false;
      }
      ids := Ids(ids.current, ids.recycled + [id]);
      return true;
    }

    /** `sys_clone` by process `p`. */
    method SysClone(p: Uid, exitSignal: int) returns (pid: nat)
      requires Inv(View()) && Alive(View(), p)
      modifies this`procs, this`pidMap, this`ids, this`nextUid
      ensures View() == Clone(old(View()), p, exitSignal) && Inv(View())
      ensures forall u :: u in old(procs) ==> old(procs)[u].pid != pid
      ensures pid in pidMap && pidMap[pid] == old(nextUid)
      ensures old(nextUid) in procs && procs[old(nextUid)].pid == pid && procs[old(nextUid)].parent == Some(p)
    {
      CloneInv(View(), p, exitSignal);
      CloneDoes(View(), p, exitSignal);
      AllocOk(procs, ids);
      NextUidFresh(View());
      pid := PidAlloc();
      var c := nextUid;
      nextUid := nextUid + 1;
      procs := procs[c := Proc(pid, pid, false, exitSignal, Some(p), [])];
      procs := procs[p := procs[p].(children := procs[p].children + [c])];
      pidMap := pidMap[pid := c];
    }

    /** The main thread of `p` exits. Init's exit shuts the machine down; for any other process
        its pid is in the map, its children go to init and it stays as a zombie. */
    method ExitCurrent(p: Uid, code: int) returns (r: ExitResult)
      requires Inv(View()) && Alive(View(), p)
      modifies this`procs, this`pidMap, this`exits
      ensures r.Shutdown? <==> p == init
      ensures r.Shutdown? ==> View() == old(View())
      ensures r.Exited? ==> init in old(procs) && Inv(View()) && View() == Exit(old(View()), p, code)
      ensures r.Exited? ==> p in procs && procs[p].zombie && procs[p].exitCode == code
    {
      InitIsPidZero(View(), p);
      if procs[p].pid == IDLE_PID {
        return Shutdown;
      }
      ExitInv(View(), p, code);
      ChildrenExist(View(), p);
      pidMap := pidMap - {procs[p].pid};
      Reparent(p);
      procs := procs[p := procs[p].(zombie := true, exitCode := code)];
      exits := exits[p := code];
      return Exited;
    }

    /** Move the children of `p` to init and clear its list. */
    method Reparent(p: Uid)
      requires p in procs && p != init && init in procs
      requires forall i :: 0 <= i < |procs[p].children| ==>
                 procs[p].children[i] in procs && procs[p].children[i] != init && procs[p].children[i] != p
      modifies this`procs
      ensures procs == Adopted(old(procs), init, p)
    {
      ghost var procs0 := procs;
      var cs := procs[p].children;
      assert procs0[init].children + cs[..0] == procs0[init].children;
      assert procs == AdoptedSoFar(procs0, init, p, 0);
      for i := 0 to |cs|
        invariant procs == AdoptedSoFar(procs0, init, p, i)
      {
        AdoptOne(procs0, init, p, i);
        procs := procs[cs[i] := procs[cs[i]].(parent := Some(init))];
        procs := procs[init := procs[init].(children := procs[init].children + [cs[i]])];
      }
      assert cs[..|cs|] == cs;
      procs := procs[p := procs[p].(children := [])];
    }

    predicate IsWanted(c: Uid, pid: int): (b: bool)
      reads this
      ensures b <==> Wanted(View(), c, pid)
    {
      c in procs && (pid == -1 || (if pid < 0 then pid + USIZE_LIMIT else pid) == procs[c].pid)
    }

    method AnyWanted(p: Uid, pid: int) returns (b: bool)
      requires p in procs
      ensures b <==> exists i :: 0 <= i < |procs[p].children| && IsWanted(procs[p].children[i], pid)
    {
      for i := 0 to |procs[p].children|
        invariant forall j :: 0 <= j < i ==> !IsWanted(procs[p].children[j], pid)
      {
        if IsWanted(procs[p].children[i], pid) {
          return true;
        }
      }
      return false;
    }

    predicate IsWantedZombie(c: Uid, pid: int)
      reads this
    {
      IsWanted(c, pid) && procs[c].zombie
    }

    method FindZombie(p: Uid, pid: int) returns (r: Option<nat>)
      requires p in procs
      ensures r.None? <==> forall i :: 0 <= i < |procs[p].children| ==> !IsWantedZombie(procs[p].children[i], pid)
      ensures r.Some? ==> r.value < |procs[p].children| && IsWantedZombie(procs[p].children[r.value], pid)
      ensures r.Some? ==> forall i :: 0 <= i < r.value ==> !IsWantedZombie(procs[p].children[i], pid)
    {
      for i := 0 to |procs[p].children|
        invariant forall j :: 0 <= j < i ==> !IsWantedZombie(procs[p].children[j], pid)
      {
        if IsWantedZombie(procs[p].children[i], pid) {
          return Some(i);
        }
      }
      return None;
    }

    /** Free the control block of a child taken off the list; its pid is recycled. */
    method Collect(p: Uid, i: nat) returns (pid: nat, code: int)
      requires Inv(View()) && p in procs && i < |procs[p].children|
      requires procs[p].children[i] in procs && procs[procs[p].children[i]].zombie
      modifies this`procs, this`ids, this`reports
      ensures View() == Reap(old(View()), p, i) && Inv(View())
      ensures pid == old(procs)[old(procs)[p].children[i]].pid && code == old(procs)[old(procs)[p].children[i]].exitCode
    {
      ReapInv(View(), p, i);
      ChildrenExist(View(), p);
      var c := procs[p].children[i];
      procs := procs[p := procs[p].(children := procs[p].children[..i] + procs[p].children[i + 1..])];
      pid, code := procs[c].pid, procs[c].exitCode;
      reports := reports + [(c, pid, code)];
      procs := procs - {c};
      var ok := PidDealloc(pid);
      assert ok;
    }

    /** One turn of the loop of `sys_wait4`. The first zombie child that was asked for is
        collected; without one the caller gets nothing or waits, and without any such child
        an error. */
    method Wait4(p: Uid, pid: int, nohang: bool) returns (r: WaitResult)
      requires Inv(View()) && Alive(View(), p)
      modifies this`procs, this`ids, this`reports
      ensures Inv(View())
      ensures r.NoChild? <==> !(exists i :: 0 <= i < |old(procs)[p].children| && Wanted(old(View()), old(procs)[p].children[i], pid))
      ensures !r.Reaped? ==> View() == old(View())
      ensures r.NoneYet? || r.Suspended? ==> forall i :: 0 <= i < |procs[p].children| ==> !IsWantedZombie(procs[p].children[i], pid)
      ensures r.NoneYet? ==> nohang
      ensures r.Suspended? ==> !nohang
      ensures r.Reaped? ==> FirstReaped(old(View()), p, pid, View(), r)
    {
      var any := AnyWanted(p, pid);
      if !any {
        return NoChild;
      }
      var z := FindZombie(p, pid);
      if z.None? {
        return if nohang then NoneYet else Suspended;
      }
      ReapedIsSoleReference(View(), p, z.value);
      ReapInv(View(), p, z.value);
      var found, code := Collect(p, z.value);
      r := Reaped(found, code);
      assert ReapedAt(old(View()), p, pid, View(), r, z.value);
    }
  }

  ghost predicate WantedZombie(s: State, c: Uid, pid: int) { Wanted(s, c, pid) && s.procs[c].zombie }

  ghost predicate ReapedAt(s: State, p: Uid, pid: int, s': State, r: WaitResult, i: nat)
    requires p in s.procs
  {
    && i < |s.procs[p].children| && WantedZombie(s, s.procs[p].children[i], pid)
    && (forall j :: 0 <= j < i ==> !WantedZombie(s, s.procs[p].children[j], pid))
    && s' == Reap(s, p, i) && r.Reaped?
    && r.pid == s.procs[s.procs[p].children[i]].pid && r.code == s.procs[s.procs[p].children[i]].exitCode
  }

  /** The first wanted zombie was collected, and its pid and exit code reported. */
  ghost predicate FirstReaped(s: State, p: Uid, pid: int, s': State, r: WaitResult)
    requires p in s.procs
  {
    exists i: nat :: ReapedAt(s, p, pid, s', r, i)
  }
}
