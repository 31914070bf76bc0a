/** Process life cycle: clone, exit, wait4 and pid recycling (os/src/task/mod.rs,
os/src/task/process.rs, os/src/syscall/process.rs, os/src/task/pid.rs). */
module Process {
  import opened Addresses
  import opened Frames
  import opened Closed

  /** The identity of a process control block, never used again. */
  type Uid = nat

  const IDLE_PID: nat := 0

  datatype Proc = Proc(pid: nat, tgid: nat, zombie: bool, exitCode: int, parent: Option<Uid>, children: seq<Uid>)

  type Procs = map<Uid, Proc>

  /** The pid allocator: ids below `current` that are not in `recycled` are in use. */
  datatype Ids = Ids(current: nat, recycled: seq<nat>)

  /** `procs` are the control blocks that have not been freed; `exits` and `reports` are the
      history of exits and of the results of wait4. */
  datatype State = State(procs: Procs, init: Uid, pidMap: map<nat, Uid>, ids: Ids, nextUid: Uid,
                         exits: map<Uid, int>, reports: seq<(Uid, nat, int)>)

  // ---- pids ----------------------------------------------------------------------------

  function Alloc(ids: Ids): (nat, Ids)
  {
    if ids.recycled != [] then
      (ids.recycled[|ids.recycled| - 1], Ids(ids.current, ids.recycled[..|ids.recycled| - 1]))
    else (ids.current, Ids(ids.current + 1, []))
  }

  /** `dealloc` refuses an id that is not in use. */
  predicate CanDealloc(ids: Ids, id: nat) { id < ids.current && id !in ids.recycled }

  function Dealloc(ids: Ids, id: nat): Ids { Ids(ids.current, ids.recycled + [id]) }

  /** Every control block has a pid in use of its own. */
  ghost predicate PidsOk(procs: Procs, ids: Ids)
  {
    forall k: Key :: OpenPids(k) ==> PidsFacts(procs, ids)
  }

  predicate OpenPids(k: Key) { true }

  ghost predicate PidsFacts(procs: Procs, ids: Ids)
  {
    && NoDup(ids.recycled)
    && (forall i :: 0 <= i < |ids.recycled| ==> ids.recycled[i] < ids.current)
    && (forall u :: u in procs ==> CanDealloc(ids, procs[u].pid))
    && (forall u, v :: u in procs && v in procs && u != v ==> procs[u].pid != procs[v].pid)
    && (forall u :: u in procs ==> procs[u].tgid == procs[u].pid)
  }

  /** No id in use is lost: it is the pid of some control block. */
  ghost predicate NoLeak(procs: Procs, ids: Ids)
  {
    forall k: Key :: OpenLeak(k) ==> forall id: nat :: CanDealloc(ids, id) ==> PidHeld(procs, id)
  }

  predicate OpenLeak(k: Key) { true }

  ghost predicate PidHeld(procs: Procs, id: nat) { exists u :: u in procs && procs[u].pid == id }

  // ---- the forest ----------------------------------------------------------------------

  ghost predicate HangsUnder(procs: Procs, init: Uid, c: Uid, p: Uid)
  {
    c in procs && c != init && procs[c].parent == Some(p)
  }

  /** The parent is alive and older, so parents form no cycle. */
  ghost predicate ParentOk(procs: Procs, u: Uid)
    requires u in procs
  {
    procs[u].parent.Some? && procs[u].parent.value in procs && !procs[procs[u].parent.value].zombie
    && procs[u].parent.value < u
  }

  /** Children lists and parent links say the same, no list has a child twice, and the parent
      of everyone but init is alive. */
  ghost predicate ForestOk(procs: Procs, init: Uid)
  {
    forall k: Key :: OpenForest(k) ==> ForestFacts(procs, init)
  }

  predicate OpenForest(k: Key) { true }

  ghost predicate ForestFacts(procs: Procs, init: Uid)
  {
    && init in procs && !procs[init].zombie && procs[init].pid == IDLE_PID
    && (forall u :: u in procs && u != init ==> init < u && ParentOk(procs, u))
    && (forall p :: p in procs ==> NoDup(procs[p].children))
    && (forall p, c :: p in procs ==> (c in procs[p].children <==> HangsUnder(procs, init, c, p)))
  }

  /** The pid map holds exactly the processes that have not exited. */
  ghost predicate MapOk(procs: Procs, pidMap: map<nat, Uid>)
  {
    forall k: Key :: OpenMap(k) ==> MapFacts(procs, pidMap)
  }

  predicate OpenMap(k: Key) { true }

  ghost predicate MapFacts(procs: Procs, pidMap: map<nat, Uid>)
  {
    && (forall u :: u in procs && !procs[u].zombie ==> procs[u].pid in pidMap && pidMap[procs[u].pid] == u)
    && (forall k :: k in pidMap ==> pidMap[k] in procs && !procs[pidMap[k]].zombie && procs[pidMap[k]].pid == k)
  }

  /** Exits and reports: a zombie is one that exited and has not been reported; a report tells
      the code of the exit and comes once. */
  ghost predicate HistoryOk(procs: Procs, nextUid: Uid, exits: map<Uid, int>, reports: seq<(Uid, nat, int)>)
  {
    forall k: Key :: OpenHistory(k) ==> HistoryFacts(procs, nextUid, exits, reports)
  }

  predicate OpenHistory(k: Key) { true }

  ghost predicate HistoryFacts(procs: Procs, nextUid: Uid, exits: map<Uid, int>, reports: seq<(Uid, nat, int)>)
  {
    && (forall u :: u in procs ==> u < nextUid && (procs[u].zombie <==> u in exits))
    && (forall u :: u in procs && procs[u].zombie ==> procs[u].exitCode == exits[u])
    && (forall u :: u in exits ==> u < nextUid)
    && (forall i :: 0 <= i < |reports| ==> reports[i].0 in exits && exits[reports[i].0] == reports[i].2 && reports[i].0 !in procs)
    && (forall i, j :: 0 <= i < j < |reports| ==> reports[i].0 != reports[j].0)
  }

  ghost predicate Inv(s: State)
  {
    && ForestOk(s.procs, s.init) && PidsOk(s.procs, s.ids) && MapOk(s.procs, s.pidMap)
    && HistoryOk(s.procs, s.nextUid, s.exits, s.reports) && NoLeak(s.procs, s.ids)
  }

  // ---- the calls -----------------------------------------------------------------------

  /** The process that makes the calls is alive. */
  ghost predicate Alive(s: State, p: Uid) { p in s.procs && !s.procs[p].zombie }

  /** `sys_clone` by `p`: the child, with a fresh pid, is the last child of `p`. */
  function Clone(s: State, p: Uid, exitSignal: int): State
    requires p in s.procs
  {
    var (pid, ids) := Alloc(s.ids);
    var c := s.nextUid;
    var child := Proc(pid, pid, false, exitSignal, Some(p), []);
    s.(ids := ids, nextUid := c + 1, pidMap := s.pidMap[pid := c],
       procs := s.procs[c := child][p := s.procs[p].(children := s.procs[p].children + [c])])
  }

  /** The children of `p` go to init, in order. */
  function Adopted(procs: Procs, init: Uid, p: Uid): Procs
    requires p in procs && init in procs
  {
    map u | u in procs ::
      if u == p then procs[u].(children := [])
      else if u == init then procs[u].(children := procs[u].children + procs[p].children)
      else if u in procs[p].children then procs[u].(parent := Some(init))
      else procs[u]
  }

  /** Exit of the main thread of `p`, which is not init: init's exit shuts the machine down. */
  function Exit(s: State, p: Uid, code: int): State
    requires p in s.procs && s.init in s.procs
  {
    var procs := Adopted(s.procs, s.init, p);
    s.(procs := procs[p := procs[p].(zombie := true, exitCode := code)], pidMap := s.pidMap - {s.procs[p].pid},
       exits := s.exits[p := code])
  }

  function Without(cs: seq<Uid>, i: nat): seq<Uid>
    requires i < |cs|
  {
    cs[..i] + cs[i + 1..]
  }

  /** `p` collects its `i`-th child, whose control block is freed with its pid. */
  function Reap(s: State, p: Uid, i: nat): State
    requires p in s.procs && i < |s.procs[p].children| && s.procs[p].children[i] in s.procs
  {
    var c := s.procs[p].children[i];
    s.(procs := s.procs[p := s.procs[p].(children := Without(s.procs[p].children, i))] - {c},
       ids := Dealloc(s.ids, s.procs[c].pid),
       reports := s.reports + [(c, s.procs[c].pid, s.procs[c].exitCode)])
  }

  /** A child that wait4 was asked for. */
  predicate Wanted(s: State, c: Uid, pid: int)
  {
    c in s.procs && (pid == -1 || (if pid < 0 then pid + USIZE_LIMIT else pid) == s.procs[c].pid)
  }

  // ---- clone ---------------------------------------------------------------------------

  lemma {:induction false} AllocOk(procs: Procs, ids: Ids)
    requires PidsOk(procs, ids)
    ensures var (pid, ids') := Alloc(ids);
            && NoDup(ids'.recycled) && CanDealloc(ids', pid) && (forall u :: u in procs ==> procs[u].pid != pid)
            && (forall i :: 0 <= i < |ids'.recycled| ==> ids'.recycled[i] < ids'.current)
            && (forall k :: CanDealloc(ids, k) ==> CanDealloc(ids', k))
  {
    assert OpenPids(Key);
    if ids.recycled != [] {
      var n := |ids.recycled| - 1;
      assert ids.recycled == ids.recycled[..n] + [ids.recycled[n]];
      assert ids.recycled[n] in ids.recycled;
    }
  }

  lemma {:induction false} CloneForest(s: State, p: Uid, sig: int)
    requires ForestOk(s.procs, s.init) && Alive(s, p) && forall u :: u in s.procs ==> u < s.nextUid
    ensures ForestOk(Clone(s, p, sig).procs, s.init)
  {
    var c, procs, procs' := s.nextUid, s.procs, Clone(s, p, sig).procs;
    assert s.init in procs && !procs[s.init].zombie && s.init < c && procs[s.init].pid == IDLE_PID && NoDup(procs[p].children) by {
      assert OpenForest(Key);
    }
    forall q, x | q in procs' ensures x in procs'[q].children <==> HangsUnder(procs', s.init, x, q) {
      CloneLinks(procs, procs', s.init, p, c, q, x);
    }
    forall u | u in procs' && u != s.init ensures s.init < u && ParentOk(procs', u) {
      assert u != c ==> s.init < u && ParentOk(procs, u) by { assert OpenForest(Key); }
    }
    assert c !in procs[p].children by {
      assert OpenForest(Key);
      assert c in procs[p].children <==> HangsUnder(procs, s.init, c, p);
    }
    NoDupAppend(procs[p].children, [c]);
    forall q | q in procs' ensures NoDup(procs'[q].children) {
      assert q in procs ==> NoDup(procs[q].children) by { assert OpenForest(Key); }
    }
  }

  lemma {:induction false} CloneLinks(procs: Procs, procs': Procs, init: Uid, p: Uid, c: Uid, q: Uid, x: Uid)
    requires ForestOk(procs, init) && p in procs && c !in procs && c != init && q in procs'
    requires procs'.Keys == procs.Keys + {c} && procs'[p].children == procs[p].children + [c] && procs'[c].children == []
    requires procs'[c].parent == Some(p) && forall u :: u in procs ==> procs'[u].parent == procs[u].parent
    requires forall u :: u in procs && u != p ==> procs'[u].children == procs[u].children
    ensures x in procs'[q].children <==> HangsUnder(procs', init, x, q)
  {
    assert OpenForest(Key);
    if q == c {
      assert x in procs && x != init ==> ParentOk(procs, x);
    } else {
      assert x in procs[q].children <==> HangsUnder(procs, init, x, q);
    }
  }

  lemma {:induction false} ClonePids(procs: Procs, ids: Ids, ids': Ids, procs': Procs, c: Uid, p: Uid)
    requires PidsOk(procs, ids) && c !in procs && p in procs && c in procs' && p in procs'
    requires procs' == procs[c := procs'[c]][p := procs'[p]] && procs'[p].pid == procs[p].pid && procs'[p].tgid == procs[p].tgid
    requires procs'[c].tgid == procs'[c].pid && (procs'[c].pid, ids') == Alloc(ids)
    ensures PidsOk(procs', ids')
  {
  }

  lemma {:induction false} CloneNoLeak(procs: Procs, ids: Ids, ids': Ids, procs': Procs, c: Uid, p: Uid)
    requires NoLeak(procs, ids) && c !in procs && p in procs && c in procs' && p in procs'
    requires procs' == procs[c := procs'[c]][p := procs'[p]] && procs'[p].pid == procs[p].pid
    requires (procs'[c].pid, ids') == Alloc(ids)
    ensures NoLeak(procs', ids')
  {
    assert OpenLeak(Key);
    forall id: nat | CanDealloc(ids', id) ensures PidHeld(procs', id) {
      if id != procs'[c].pid {
        StillInUse(ids, id);
        var u :| u in procs && procs[u].pid == id;
        assert procs'[u].pid == id;
      }
    }
  }

  lemma {:induction false} StillInUse(ids: Ids, id: nat)
    requires var (pid, ids') := Alloc(ids); id != pid && CanDealloc(ids', id)
    ensures CanDealloc(ids, id)
  {
    var n := |ids.recycled| - 1;
    assert n >= 0 ==> ids.recycled == ids.recycled[..n] + [ids.recycled[n]];
  }

  lemma {:induction false} CloneMap(procs: Procs, pidMap: map<nat, Uid>, procs': Procs, c: Uid, p: Uid)
    requires MapOk(procs, pidMap) && c !in procs && p in procs && c in procs' && p in procs'
    requires procs' == procs[c := procs'[c]][p := procs'[p]] && procs'[p].pid == procs[p].pid && procs'[p].zombie == procs[p].zombie
    requires !procs'[c].zombie && forall u :: u in procs ==> procs[u].pid != procs'[c].pid
    ensures MapOk(procs', pidMap[procs'[c].pid := c])
  {
  }

  lemma {:induction false} CloneHistory(s: State, procs': Procs, c: Uid, p: Uid)
    requires HistoryOk(s.procs, s.nextUid, s.exits, s.reports) && c == s.nextUid && c !in s.procs && p in s.procs && c in procs' && p in procs'
    requires procs' == s.procs[c := procs'[c]][p := procs'[p]] && !procs'[c].zombie
    requires procs'[p].zombie == s.procs[p].zombie && procs'[p].exitCode == s.procs[p].exitCode
    ensures HistoryOk(procs', c + 1, s.exits, s.reports)
  {
  }

  lemma {:induction false} NextUidFresh(s: State)
    requires HistoryOk(s.procs, s.nextUid, s.exits, s.reports)
    ensures s.nextUid !in s.exits && forall u :: u in s.procs ==> u < s.nextUid
  {
    assert OpenHistory(Key);
  }

  lemma {:induction false} CloneInv(s: State, p: Uid, sig: int)
    requires Inv(s) && Alive(s, p)
    ensures Inv(Clone(s, p, sig))
  {
    var s', c := Clone(s, p, sig), s.nextUid;
    NextUidFresh(s);
    CloneForest(s, p, sig);
    ClonePids(s.procs, s.ids, s'.ids, s'.procs, c, p);
    CloneNoLeak(s.procs, s.ids, s'.ids, s'.procs, c, p);
    AllocOk(s.procs, s.ids);
    CloneMap(s.procs, s.pidMap, s'.procs, c, p);
    CloneHistory(s, s'.procs, c, p);
  }

  // ---- exit ----------------------------------------------------------------------------

  /** What exit does to lists and links. */
  ghost predicate Rehung(procs: Procs, procs': Procs, init: Uid, p: Uid)
    requires p in procs && init in procs
  {
    && procs'.Keys == procs.Keys && procs'[p].children == []
    && procs'[init].children == procs[init].children + procs[p].children
    && (forall u :: u in procs && u != p && u != init ==> procs'[u].children == procs[u].children)
    && (forall u :: u in procs ==>
          procs'[u].parent == if u in procs[p].children && u != init && u != p then Some(init) else procs[u].parent)
    && (forall u :: u in procs && u != p ==> procs'[u].zombie == procs[u].zombie)
    && procs'[init].pid == procs[init].pid
  }

  lemma {:induction false} ExitForest(s: State, p: Uid, code: int)
    requires ForestOk(s.procs, s.init) && p in s.procs && p != s.init && s.init in s.procs
    ensures ForestOk(Exit(s, p, code).procs, s.init)
  {
    assert Rehung(s.procs, Exit(s, p, code).procs, s.init, p);
    RehungForest(s.procs, Exit(s, p, code).procs, s.init, p);
  }

  lemma {:induction false} RehungForest(procs: Procs, procs': Procs, init: Uid, p: Uid)
    requires ForestOk(procs, init) && p in procs && p != init && init in procs && Rehung(procs, procs', init, p)
    ensures ForestOk(procs', init)
  {
    InitAdoptsOnce(procs, init, p);
    forall q, x | q in procs' ensures x in procs'[q].children <==> HangsUnder(procs', init, x, q) {
      AdoptedLinks(procs, procs', init, p, q, x);
    }
    forall u | u in procs' && u != init ensures init < u && ParentOk(procs', u) {
      assert init < u && ParentOk(procs, u) && (u in procs[p].children <==> HangsUnder(procs, init, u, p)) by {
        assert OpenForest(Key);
      }
    }
    forall q | q in procs' ensures NoDup(procs'[q].children) {
      assert NoDup(procs[q].children) by { assert OpenForest(Key); }
    }
  }

  /** The children of `p` are not init's yet, so init gets no child twice. */
  lemma {:induction false} InitAdoptsOnce(procs: Procs, init: Uid, p: Uid)
    requires ForestOk(procs, init) && p in procs && p != init
    ensures init in procs && !procs[init].zombie && procs[init].pid == IDLE_PID
    ensures NoDup(procs[init].children + procs[p].children) && p !in procs[p].children && init !in procs[p].children
  {
    assert OpenForest(Key);
    forall i | 0 <= i < |procs[p].children| ensures procs[p].children[i] !in procs[init].children {
      assert HangsUnder(procs, init, procs[p].children[i], p);
    }
    NoDupAppend(procs[init].children, procs[p].children);
    assert p in procs[p].children <==> HangsUnder(procs, init, p, p);
    assert ParentOk(procs, p);
  }

  lemma {:induction false} AdoptedLinks(procs: Procs, procs': Procs, init: Uid, p: Uid, q: Uid, x: Uid)
    requires ForestOk(procs, init) && p in procs && p != init && init in procs && q in procs && Rehung(procs, procs', init, p)
    ensures x in procs'[q].children <==> HangsUnder(procs', init, x, q)
  {
    assert OpenForest(Key);
    assert x in procs[q].children <==> HangsUnder(procs, init, x, q);
    assert x in procs[p].children <==> HangsUnder(procs, init, x, p);
    assert p in procs[p].children <==> HangsUnder(procs, init, p, p);
    assert x in procs[init].children <==> HangsUnder(procs, init, x, init);
  }

  lemma {:induction false} ExitInv(s: State, p: Uid, code: int)
    requires Inv(s) && Alive(s, p) && p != s.init
    ensures s.init in s.procs && s.procs[p].pid in s.pidMap && Inv(Exit(s, p, code))
  {
    assert s.init in s.procs by { assert OpenForest(Key); }
    ExitForest(s, p, code);
    ExitTables(s, p, code);
  }

  lemma {:induction false} ExitTables(s: State, p: Uid, code: int)
    requires Inv(s) && Alive(s, p) && p != s.init && s.init in s.procs
    ensures s.procs[p].pid in s.pidMap
    ensures var s' := Exit(s, p, code);
            && PidsOk(s'.procs, s'.ids) && MapOk(s'.procs, s'.pidMap) && HistoryOk(s'.procs, s'.nextUid, s'.exits, s'.reports)
            && NoLeak(s'.procs, s'.ids)
  {
    var s' := Exit(s, p, code);
    SameRecords(s, p, code);
    assert PidsOk(s'.procs, s'.ids) by { assert OpenPids(Key); }
    PidsStay(s.procs, s.ids, s'.procs);
    ExitMap(s.procs, s.pidMap, s.ids, p, s'.procs);
    ExitHistory(s, p, code, s'.procs);
  }

  lemma {:induction false} PidsStay(procs: Procs, ids: Ids, procs': Procs)
    requires NoLeak(procs, ids) && procs'.Keys == procs.Keys && forall u :: u in procs ==> procs'[u].pid == procs[u].pid
    ensures NoLeak(procs', ids)
  {
    assert OpenLeak(Key);
    forall id: nat | CanDealloc(ids, id) ensures PidHeld(procs', id) {
      var u :| u in procs && procs[u].pid == id;
      assert procs'[u].pid == id;
    }
  }

  lemma {:induction false} ExitMap(procs: Procs, pidMap: map<nat, Uid>, ids: Ids, p: Uid, procs': Procs)
    requires MapOk(procs, pidMap) && PidsOk(procs, ids) && p in procs && !procs[p].zombie
    requires procs'.Keys == procs.Keys && procs'[p].zombie
    requires forall u :: u in procs ==> procs'[u].pid == procs[u].pid
    requires forall u :: u in procs && u != p ==> procs'[u].zombie == procs[u].zombie
    ensures procs[p].pid in pidMap && MapOk(procs', pidMap - {procs[p].pid})
  {
    assert OpenMap(Key);
    assert forall u, v :: u in procs && v in procs && u != v ==> procs[u].pid != procs[v].pid by { assert OpenPids(Key); }
  }

  lemma {:induction false} ExitHistory(s: State, p: Uid, code: int, procs': Procs)
    requires HistoryOk(s.procs, s.nextUid, s.exits, s.reports) && p in s.procs && !s.procs[p].zombie
    requires procs'.Keys == s.procs.Keys && procs'[p].zombie && procs'[p].exitCode == code
    requires forall u :: u in s.procs && u != p ==> procs'[u].zombie == s.procs[u].zombie && procs'[u].exitCode == s.procs[u].exitCode
    ensures HistoryOk(procs', s.nextUid, s.exits[p := code], s.reports)
  {
  }

  lemma {:induction false} SameRecords(s: State, p: Uid, code: int)
    requires p in s.procs && p != s.init && s.init in s.procs
    ensures var s' := Exit(s, p, code);
            && s'.procs.Keys == s.procs.Keys
            && (forall u :: u in s.procs ==> s'.procs[u].pid == s.procs[u].pid && s'.procs[u].tgid == s.procs[u].tgid)
            && (forall u :: u in s.procs && u != p ==> s'.procs[u].zombie == s.procs[u].zombie && s'.procs[u].exitCode == s.procs[u].exitCode)
  {
  }

  // ---- wait4 ---------------------------------------------------------------------------

  lemma {:induction false} WithoutMembers(cs: seq<Uid>, i: nat)
    requires i < |cs| && NoDup(cs)
    ensures NoDup(Without(cs, i)) && forall u :: u in Without(cs, i) <==> u in cs && u != cs[i]
  {
  }

  lemma {:induction false} ReapForest(s: State, p: Uid, i: nat)
    requires ForestOk(s.procs, s.init) && p in s.procs && i < |s.procs[p].children|
    requires s.procs[p].children[i] in s.procs && s.procs[s.procs[p].children[i]].zombie
    ensures ForestOk(Reap(s, p, i).procs, s.init)
  {
    var procs, procs', init, c := s.procs, Reap(s, p, i).procs, s.init, s.procs[p].children[i];
    assert init in procs && !procs[init].zombie && procs[init].pid == IDLE_PID && NoDup(procs[p].children) && c != p && c != init by {
      assert OpenForest(Key);
      assert c in procs[p].children && HangsUnder(procs, init, c, p) && ParentOk(procs, c);
    }
    WithoutMembers(procs[p].children, i);
    forall q, x | q in procs' ensures x in procs'[q].children <==> HangsUnder(procs', init, x, q) {
      ReapLinks(procs, procs', init, p, c, q, x);
    }
    forall u | u in procs' && u != init ensures init < u && ParentOk(procs', u) {
      assert init < u && ParentOk(procs, u) by { assert OpenForest(Key); }
    }
    forall q | q in procs' ensures NoDup(procs'[q].children) {
      assert NoDup(procs[q].children) by { assert OpenForest(Key); }
    }
  }

  lemma {:induction false} ReapLinks(procs: Procs, procs': Procs, init: Uid, p: Uid, c: Uid, q: Uid, x: Uid)
    requires ForestOk(procs, init) && p in procs && c in procs[p].children && c != p && q in procs'
    requires procs'.Keys == procs.Keys - {c} && forall u :: u in procs' ==> procs'[u].parent == procs[u].parent
    requires forall u :: u in procs' && u != p ==> procs'[u].children == procs[u].children
    requires forall u :: u in procs'[p].children <==> u in procs[p].children && u != c
    ensures x in procs'[q].children <==> HangsUnder(procs', init, x, q)
  {
    assert OpenForest(Key);
    assert x in procs[q].children <==> HangsUnder(procs, init, x, q);
    assert x in procs[p].children <==> HangsUnder(procs, init, x, p);
    assert c in procs[p].children <==> HangsUnder(procs, init, c, p);
  }

  lemma {:induction false} ReapInv(s: State, p: Uid, i: nat)
    requires Inv(s) && p in s.procs && i < |s.procs[p].children|
    requires s.procs[p].children[i] in s.procs && s.procs[s.procs[p].children[i]].zombie
    ensures Inv(Reap(s, p, i))
    ensures CanDealloc(s.ids, s.procs[s.procs[p].children[i]].pid)
    ensures s.procs[s.procs[p].children[i]].tgid == s.procs[s.procs[p].children[i]].pid
  {
    var s', c := Reap(s, p, i), s.procs[p].children[i];
    ReapForest(s, p, i);
    assert PidsOk(s'.procs, s'.ids) && CanDealloc(s.ids, s.procs[c].pid) && s.procs[c].tgid == s.procs[c].pid by {
      assert OpenPids(Key);
    }
    ReapNoLeak(s.procs, s.ids, s'.procs, c);
    ReapMap(s.procs, s.pidMap, s'.procs, p, c);
    ReapHistory(s, s'.procs, p, c);
  }

  lemma {:induction false} ReapNoLeak(procs: Procs, ids: Ids, procs': Procs, c: Uid)
    requires NoLeak(procs, ids) && c in procs && procs'.Keys == procs.Keys - {c}
    requires forall u :: u in procs' ==> procs'[u].pid == procs[u].pid
    ensures NoLeak(procs', Dealloc(ids, procs[c].pid))
  {
    assert OpenLeak(Key);
    forall id: nat | CanDealloc(Dealloc(ids, procs[c].pid), id) ensures PidHeld(procs', id) {
      OthersInUse(ids, procs[c].pid, id);
      var u :| u in procs && procs[u].pid == id;
      assert procs'[u].pid == id;
    }
  }

  lemma {:induction false} OthersInUse(ids: Ids, pid: nat, id: nat)
    requires CanDealloc(Dealloc(ids, pid), id)
    ensures CanDealloc(ids, id) && id != pid
  {
    assert pid in ids.recycled + [pid] && forall x :: x in ids.recycled ==> x in ids.recycled + [pid];
  }

  lemma {:induction false} ReapMap(procs: Procs, pidMap: map<nat, Uid>, procs': Procs, p: Uid, c: Uid)
    requires MapOk(procs, pidMap) && c in procs && procs[c].zombie && p in procs && procs'.Keys == procs.Keys - {c}
    requires forall u :: u in procs' ==> procs'[u].pid == procs[u].pid && procs'[u].zombie == procs[u].zombie
    ensures MapOk(procs', pidMap)
  {
  }

  lemma {:induction false} ReapHistory(s: State, procs': Procs, p: Uid, c: Uid)
    requires HistoryOk(s.procs, s.nextUid, s.exits, s.reports) && c in s.procs && s.procs[c].zombie && procs'.Keys == s.procs.Keys - {c}
    requires forall u :: u in procs' ==> procs'[u].zombie == s.procs[u].zombie && procs'[u].exitCode == s.procs[u].exitCode
    ensures HistoryOk(procs', s.nextUid, s.exits, s.reports + [(c, s.procs[c].pid, s.procs[c].exitCode)])
  {
  }

  /** How many strong references there are to control block `u`: the pid map, the children
      lists, and the global reference to init. */
  ghost predicate HeldOnlyBy(s: State, u: Uid, p: Uid)
  {
    && (forall k :: k in s.pidMap ==> s.pidMap[k] != u)
    && (forall q :: q in s.procs && u in s.procs[q].children ==> q == p)
    && p in s.procs && multiset(s.procs[p].children)[u] == 1 && u != s.init
  }

  /** When wait4 takes a zombie out of its list, nobody else refers to it: the assertion that its
      reference count is one never fails, and neither does the one on its freed pid. */
  lemma {:induction false} ReapedIsSoleReference(s: State, p: Uid, i: nat)
    requires Inv(s) && p in s.procs && i < |s.procs[p].children|
    requires s.procs[p].children[i] in s.procs && s.procs[s.procs[p].children[i]].zombie
    ensures HeldOnlyBy(s, s.procs[p].children[i], p) && CanDealloc(s.ids, s.procs[s.procs[p].children[i]].pid)
  {
    var c := s.procs[p].children[i];
    assert OpenForest(Key) && OpenMap(Key) && OpenPids(Key);
    assert c in s.procs[p].children && HangsUnder(s.procs, s.init, c, p);
    NoDupOnce(s.procs[p].children, c);
    forall q | q in s.procs && c in s.procs[q].children ensures q == p {
      assert HangsUnder(s.procs, s.init, c, q);
    }
  }

  // ---- what each step does -------------------------------------------------------------

  /** Clone: a new process, alive and without children, with a pid that nobody has, under which
      it is found; the caller is its parent and lists it last. Nothing else changes. */
  lemma {:induction false} CloneDoes(s: State, p: Uid, sig: int)
    requires Inv(s) && Alive(s, p)
    ensures var s', c := Clone(s, p, sig), s.nextUid;
            && c !in s.procs && s'.procs.Keys == s.procs.Keys + {c}
            && s'.procs[c].parent == Some(p) && !s'.procs[c].zombie && s'.procs[c].children == []
            && (forall u :: u in s.procs ==> s.procs[u].pid != s'.procs[c].pid)
            && s'.pidMap == s.pidMap[s'.procs[c].pid := c]
            && s'.procs[p] == s.procs[p].(children := s.procs[p].children + [c])
            && (forall u :: u in s.procs && u != p ==> s'.procs[u] == s.procs[u])
  {
    NextUidFresh(s);
    AllocOk(s.procs, s.ids);
  }

  /** Exit: the process is a zombie with its code and no children; these go to init, behind its
      own; the pid can no longer be found. Nothing else changes. */
  lemma {:induction false} ExitDoes(s: State, p: Uid, code: int)
    requires Inv(s) && Alive(s, p) && p != s.init && s.init in s.procs
    ensures var s' := Exit(s, p, code);
            && s'.procs.Keys == s.procs.Keys && s'.pidMap == s.pidMap - {s.procs[p].pid}
            && s'.procs[p] == s.procs[p].(zombie := true, exitCode := code, children := [])
            && s'.procs[s.init].children == s.procs[s.init].children + s.procs[p].children
            && (forall u :: u in s.procs && u != p && u != s.init ==>
                  s'.procs[u] == s.procs[u].(parent := if u in s.procs[p].children then Some(s.init) else s.procs[u].parent))
  {
  }

  /** Collecting: the child is gone from the table and the caller's list, and its pid and code are
      reported. Nothing else changes. */
  lemma {:induction false} ReapDoes(s: State, p: Uid, i: nat)
    requires Inv(s) && p in s.procs && i < |s.procs[p].children|
    requires s.procs[p].children[i] in s.procs && s.procs[s.procs[p].children[i]].zombie
    ensures var s', c := Reap(s, p, i), s.procs[p].children[i];
            && c != p && s'.procs.Keys == s.procs.Keys - {c} && s'.pidMap == s.pidMap
            && s'.reports == s.reports + [(c, s.procs[c].pid, s.procs[c].exitCode)]
            && (forall u :: u in s'.procs[p].children <==> u in s.procs[p].children && u != c)
            && (forall u :: u in s'.procs && u != p ==> s'.procs[u] == s.procs[u])
  {
    assert OpenForest(Key);
    var c := s.procs[p].children[i];
    assert c in s.procs[p].children && HangsUnder(s.procs, s.init, c, p) && ParentOk(s.procs, c);
    WithoutMembers(s.procs[p].children, i);
  }

  /** Which children wait4 takes: with -1 every one, otherwise the one with that pid. */
  lemma {:induction false} WantedExactly(s: State, c: Uid, pid: int)
    requires c in s.procs
    ensures pid == -1 ==> Wanted(s, c, pid)
    ensures pid >= 0 ==> (Wanted(s, c, pid) <==> s.procs[c].pid == pid)
    ensures pid < -1 && s.procs[c].pid < USIZE_LIMIT / 2 && pid >= -(USIZE_LIMIT / 2) ==> !Wanted(s, c, pid)
  {
  }

  // ---- runs ----------------------------------------------------------------------------

  datatype Step = DoClone(p: Uid, sig: int) | DoExit(p: Uid, code: int) | DoReap(p: Uid, i: nat)

  ghost predicate Enabled(s: State, step: Step)
  {
    match step
    case DoClone(p, _) => Alive(s, p)
    case DoExit(p, _) => Alive(s, p) && p != s.init
    case DoReap(p, i) => Alive(s, p) && i < |s.procs[p].children| && s.procs[p].children[i] in s.procs
                         && s.procs[s.procs[p].children[i]].zombie
  }

  ghost function Next(s: State, step: Step): State
    requires Inv(s) && Enabled(s, step)
  {
    assert s.init in s.procs by { assert OpenForest(Key); }
    match step
    case DoClone(p, sig) => Clone(s, p, sig)
    case DoExit(p, code) => Exit(s, p, code)
    case DoReap(p, i) => Reap(s, p, i)
  }

  lemma {:induction false} NextInv(s: State, step: Step)
    requires Inv(s) && Enabled(s, step)
    ensures Inv(Next(s, step))
  {
    match step
    case DoClone(p, sig) => CloneInv(s, p, sig);
    case DoExit(p, code) => ExitInv(s, p, code);
    case DoReap(p, i) => ReapInv(s, p, i);
  }

  /** The machine with its first process, whose pid is zero. */
  function Boot(init: Uid): State
  {
    State(map[init := Proc(0, 0, false, 0, None, [])], init, map[0 := init], Ids(1, []), init + 1, map[], [])
  }

  lemma {:induction false} BootInv(init: Uid)
    ensures Inv(Boot(init))
  {
    assert Boot(init).procs[init].pid == 0;
  }

  ghost predicate Reaches(s: State, steps: seq<Step>, s': State)
    requires Inv(s)
    decreases |steps|
  {
    if steps == [] then s' == s
    else Enabled(s, steps[0]) && (NextInv(s, steps[0]); Reaches(Next(s, steps[0]), steps[1..], s'))
  }

  lemma {:induction false} RunInv(s: State, steps: seq<Step>, s': State)
    requires Inv(s) && Reaches(s, steps, s')
    ensures Inv(s')
    decreases |steps|
  {
    if steps != [] {
      NextInv(s, steps[0]);
      RunInv(Next(s, steps[0]), steps[1..], s');
    }
  }

  // ---- the histories are the steps -----------------------------------------------------

  /** The codes with which the run exits `u`. */
  function ExitCodes(steps: seq<Step>, u: Uid): seq<int>
  {
    if steps == [] then [] else
    (if steps[0].DoExit? && steps[0].p == u then [steps[0].code] else []) + ExitCodes(steps[1..], u)
  }

  ghost function ExitLog(s: State, u: Uid): seq<int> { if u in s.exits then [s.exits[u]] else [] }

  lemma {:induction false} ExitStep(s: State, step: Step, u: Uid)
    requires Inv(s) && Enabled(s, step)
    ensures ExitLog(Next(s, step), u) == ExitLog(s, u) + if step.DoExit? && step.p == u then [step.code] else []
  {
    assert OpenHistory(Key);
  }

  /** The exits of the state are the exits of the run. */
  lemma {:induction false} ExitsAreSteps(s: State, steps: seq<Step>, s': State, u: Uid)
    requires Inv(s) && Reaches(s, steps, s')
    ensures ExitLog(s', u) == ExitLog(s, u) + ExitCodes(steps, u)
    decreases |steps|
  {
    if steps != [] {
      NextInv(s, steps[0]);
      ExitStep(s, steps[0], u);
      ExitsAreSteps(Next(s, steps[0]), steps[1..], s', u);
    }
  }

  /** Some clone of the run made `u`, with pid `pid`. */
  ghost predicate ClonedAs(s: State, steps: seq<Step>, u: Uid, pid: nat)
    requires Inv(s)
    decreases |steps|
  {
    && steps != [] && Enabled(s, steps[0])
    && (NextInv(s, steps[0]);
        var s1 := Next(s, steps[0]);
        || (steps[0].DoClone? && u !in s.procs && u in s1.procs && s1.procs[u].pid == pid)
        || ClonedAs(s1, steps[1..], u, pid))
  }

  /** `u` had this pid already, or a clone of the run gave it to it. */
  ghost predicate PidKnown(s: State, steps: seq<Step>, u: Uid, pid: nat)
    requires Inv(s)
  {
    (u in s.procs && s.procs[u].pid == pid) || ClonedAs(s, steps, u, pid)
  }

  lemma {:induction false} PidKnownBefore(s: State, steps: seq<Step>, u: Uid, pid: nat)
    requires Inv(s) && steps != [] && Enabled(s, steps[0])
    requires Inv(Next(s, steps[0])) && PidKnown(Next(s, steps[0]), steps[1..], u, pid)
    ensures PidKnown(s, steps, u, pid)
  {
    var s1 := Next(s, steps[0]);
    match steps[0]
    case DoClone(p, sig) => CloneDoes(s, p, sig);
    case DoExit(p, code) => ExitKeepsPid(s, p, code, u);
    case DoReap(p, i) => ReapDoes(s, p, i);
  }

  lemma {:induction false} ExitKeepsPid(s: State, p: Uid, code: int, u: Uid)
    requires Inv(s) && Enabled(s, DoExit(p, code))
    ensures u in Next(s, DoExit(p, code)).procs ==> u in s.procs && Next(s, DoExit(p, code)).procs[u].pid == s.procs[u].pid
  {
    assert s.init in s.procs by { assert OpenForest(Key); }
    SameRecords(s, p, code);
  }

  /** Every process has the pid of its clone, and every new report the pid of a clone. */
  lemma {:induction false} PidsAreCloned(s: State, steps: seq<Step>, s': State, u: Uid)
    requires Inv(s) && Reaches(s, steps, s')
    ensures s.reports <= s'.reports
    ensures u in s'.procs ==> PidKnown(s, steps, u, s'.procs[u].pid)
    ensures forall i :: |s.reports| <= i < |s'.reports| && s'.reports[i].0 == u ==> PidKnown(s, steps, u, s'.reports[i].1)
    decreases |steps|
  {
    if steps != [] {
      var s1 := Next(s, steps[0]);
      NextInv(s, steps[0]);
      PidsAreCloned(s1, steps[1..], s', u);
      ReportStep(s, steps[0]);
      if u in s'.procs {
        PidKnownBefore(s, steps, u, s'.procs[u].pid);
      }
      forall i | |s.reports| <= i < |s'.reports| && s'.reports[i].0 == u ensures PidKnown(s, steps, u, s'.reports[i].1) {
        if i < |s1.reports| {
          assert s'.reports[i] == s1.reports[i];
        } else {
          PidKnownBefore(s, steps, u, s'.reports[i].1);
        }
      }
    }
  }

  lemma {:induction false} ReportStep(s: State, step: Step)
    requires Inv(s) && Enabled(s, step)
    ensures var s1 := Next(s, step);
            && s.reports <= s1.reports
            && (forall i :: |s.reports| <= i < |s1.reports| ==>
                  s1.reports[i].0 in s.procs && s1.reports[i].1 == s.procs[s1.reports[i].0].pid)
  {
    if step.DoReap? {
      ReapDoes(s, step.p, step.i);
    }
  }

  /** The number of children collected in the run. */
  function Reaps(steps: seq<Step>): nat
  {
    if steps == [] then 0 else (if steps[0].DoReap? then 1 else 0) + Reaps(steps[1..])
  }

  lemma {:induction false} ReportsAreReaps(s: State, steps: seq<Step>, s': State)
    requires Inv(s) && Reaches(s, steps, s')
    ensures |s'.reports| == |s.reports| + Reaps(steps)
    decreases |steps|
  {
    if steps != [] {
      NextInv(s, steps[0]);
      ReportsAreReaps(Next(s, steps[0]), steps[1..], s');
    }
  }

  /** In every run from the start, what wait4 reports is what happened: as many reports as
      children were collected; each of a process that exited exactly once in the run, with the
      code of that exit and the pid of its clone, and no process twice. */
  lemma {:induction false} ReportsAreTrue(init: Uid, steps: seq<Step>, s: State, i: nat)
    requires (BootInv(init); Reaches(Boot(init), steps, s)) && i < |s.reports|
    ensures |s.reports| == Reaps(steps)
    ensures var (u, pid, code) := s.reports[i];
            && ExitCodes(steps, u) == [code] && (BootInv(init); ClonedAs(Boot(init), steps, u, pid))
            && forall j :: 0 <= j < |s.reports| && j != i ==> s.reports[j].0 != u
  {
    BootInv(init);
    RunInv(Boot(init), steps, s);
    var u := s.reports[i].0;
    ReportsAreReaps(Boot(init), steps, s);
    ExitsAreSteps(Boot(init), steps, s, u);
    PidsAreCloned(Boot(init), steps, s, u);
    assert OpenHistory(Key);
    InitStays(Boot(init), steps, s);
  }

  lemma {:induction false} InitStays(s: State, steps: seq<Step>, s': State)
    requires Inv(s) && Reaches(s, steps, s')
    ensures s'.init == s.init && s'.init in s'.procs
    decreases |steps|
  {
    if steps == [] {
      assert OpenForest(Key);
    } else {
      NextInv(s, steps[0]);
      InitStays(Next(s, steps[0]), steps[1..], s');
    }
  }

  /** The `k`-th parent of `u` is init. */
  ghost predicate Descends(procs: Procs, init: Uid, u: Uid, k: nat)
    decreases k
  {
    if k == 0 then u == init
    else u in procs && procs[u].parent.Some? && Descends(procs, init, procs[u].parent.value, k - 1)
  }

  /** Parents form no cycle: every chain of them ends at init. */
  lemma {:induction false} ChainEnds(procs: Procs, init: Uid, u: Uid) returns (k: nat)
    requires ForestOk(procs, init) && u in procs
    ensures Descends(procs, init, u, k)
    decreases u
  {
    if u == init {
      k := 0;
    } else {
      assert ParentOk(procs, u) by { assert OpenForest(Key); }
      k := ChainEnds(procs, init, procs[u].parent.value);
      k := k + 1;
    }
  }

  ghost predicate ChainToInit(procs: Procs, init: Uid, u: Uid) { exists k: nat :: Descends(procs, init, u, k) }

  lemma {:induction false} AllDescend(procs: Procs, init: Uid)
    requires ForestOk(procs, init)
    ensures forall u :: u in procs ==> ChainToInit(procs, init, u)
  {
    forall u | u in procs ensures ChainToInit(procs, init, u) {
      var k := ChainEnds(procs, init, u);
    }
  }

  /** In every reachable state: every process but init is once among the children of one live
      process, its parent; the chain of parents ends at init; pids are distinct and are exactly
      the ids in use; the pid map is the live processes; and every exit is reported at most
      once, with its code. */
  lemma {:induction false} ForestLaw(init: Uid, steps: seq<Step>, s: State)
    requires (BootInv(init); Reaches(Boot(init), steps, s))
    ensures forall u :: u in s.procs && u != s.init ==>
                          && s.procs[u].parent.Some? && Alive(s, s.procs[u].parent.value)
                          && multiset(s.procs[s.procs[u].parent.value].children)[u] == 1
                          && (forall q :: q in s.procs && u in s.procs[q].children ==> Some(q) == s.procs[u].parent)
    ensures forall u :: u in s.procs ==> ChainToInit(s.procs, s.init, u)
    ensures forall u, v :: u in s.procs && v in s.procs && u != v ==> s.procs[u].pid != s.procs[v].pid
    ensures forall id: nat :: id < s.ids.current && id !in s.ids.recycled <==> PidHeld(s.procs, id)
    ensures forall k :: k in s.pidMap <==> exists u :: Alive(s, u) && s.procs[u].pid == k
    ensures forall i, j :: 0 <= i < j < |s.reports| ==> s.reports[i].0 != s.reports[j].0
    ensures forall i :: 0 <= i < |s.reports| ==> s.reports[i].0 in s.exits && s.exits[s.reports[i].0] == s.reports[i].2
  {
    BootInv(init);
    RunInv(Boot(init), steps, s);
    forall u | u in s.procs && u != s.init
      ensures && s.procs[u].parent.Some? && Alive(s, s.procs[u].parent.value)
              && multiset(s.procs[s.procs[u].parent.value].children)[u] == 1
              && (forall q :: q in s.procs && u in s.procs[q].children ==> Some(q) == s.procs[u].parent)
    {
      OneParent(s.procs, s.init, u);
    }
    AllDescend(s.procs, s.init);
    PidsExact(s.procs, s.ids);
    MapExact(s);
    assert OpenHistory(Key);
  }

  lemma {:induction false} MapExact(s: State)
    requires MapOk(s.procs, s.pidMap)
    ensures forall k :: k in s.pidMap <==> exists u :: Alive(s, u) && s.procs[u].pid == k
  {
    assert OpenMap(Key);
    forall k ensures k in s.pidMap <==> exists u :: Alive(s, u) && s.procs[u].pid == k {
      if k in s.pidMap {
        assert Alive(s, s.pidMap[k]);
      }
    }
  }

  lemma {:induction false} PidsExact(procs: Procs, ids: Ids)
    requires PidsOk(procs, ids) && NoLeak(procs, ids)
    ensures forall id: nat :: CanDealloc(ids, id) <==> PidHeld(procs, id)
    ensures forall u, v :: u in procs && v in procs && u != v ==> procs[u].pid != procs[v].pid
  {
    assert OpenPids(Key) && OpenLeak(Key);
  }

  lemma {:induction false} OneParent(procs: Procs, init: Uid, u: Uid)
    requires ForestOk(procs, init) && u in procs && u != init
    ensures procs[u].parent.Some? && procs[u].parent.value in procs && !procs[procs[u].parent.value].zombie
    ensures multiset(procs[procs[u].parent.value].children)[u] == 1
    ensures forall q :: q in procs && u in procs[q].children ==> Some(q) == procs[u].parent
  {
    assert OpenForest(Key);
    assert ParentOk(procs, u);
    var p := procs[u].parent.value;
    assert HangsUnder(procs, init, u, p);
    NoDupOnce(procs[p].children, u);
    forall q | q in procs && u in procs[q].children ensures Some(q) == procs[u].parent {
      assert HangsUnder(procs, init, u, q);
    }
  }
}
