/** Scheduler, mutexes, semaphores and condition variables as one transition system
(os/src/sync, os/src/task/mod.rs, os/src/task/manager.rs, os/src/task/processor.rs).

The kernel runs on one core and is not preempted inside a system call, so every stretch of
kernel code between two task switches is one step. A task that was switched away continues at
its program counter when it is dispatched again. */
module Sync {
  import opened Addresses
  import opened Frames
  import opened Closed

  type Tid = nat

  datatype Status = Ready | Running | Blocked

  /** Where a task continues: in user mode, or inside a call that switched away. */
  datatype Pc =
    | User
    | Spinning(m: nat)          // in the loop of a spin lock
    | InLock(m: nat)            // blocked in the lock call of a blocking mutex
    | InDown(i: nat)            // blocked in a semaphore's down
    | InWait(c: nat, m: nat)    // blocked in a condition wait; the mutex is locked again afterwards

  datatype Task = Task(status: Status, pc: Pc)

  /** A wait queue. */
  datatype Q = MutexQ(m: nat) | SemQ(i: nat) | CondQ(c: nat)

  function QOf(pc: Pc): Option<Q>
  {
    match pc
    case InLock(m) => Some(MutexQ(m))
    case InDown(i) => Some(SemQ(i))
    case InWait(c, _) => Some(CondQ(c))
    case _ => None
  }

  /** A mutex with its history: the order of the lock calls and of the grants, and the tasks
      that were granted the lock and have not called unlock since. */
  datatype Mutex = Mutex(spin: bool, locked: bool, queue: seq<Tid>, calls: seq<Tid>, grants: seq<Tid>, believers: multiset<Tid>)

  /** A semaphore with its history: the calls of down and which of them got through. */
  datatype Semaphore = Semaphore(init: nat, count: int, queue: seq<Tid>, ups: nat, calls: seq<Tid>, passed: seq<Tid>)

  /** A condition variable with its history. */
  datatype Condvar = Condvar(queue: seq<Tid>, waits: seq<Tid>, woken: seq<Tid>)

  datatype State = State(current: Option<Tid>, ready: seq<Tid>, tasks: map<Tid, Task>,
                         mutexes: map<nat, Mutex>, sems: map<nat, Semaphore>, conds: map<nat, Condvar>)

  function QueueAt(s: State, q: Q): seq<Tid>
  {
    match q
    case MutexQ(m) => if m in s.mutexes then s.mutexes[m].queue else []
    case SemQ(i) => if i in s.sems then s.sems[i].queue else []
    case CondQ(c) => if c in s.conds then s.conds[c].queue else []
  }

  // ---- the scheduler -------------------------------------------------------------------

  /** `wakeup_task`. */
  function Wake(s: State, t: Tid): State
    requires t in s.tasks
  {
    s.(tasks := s.tasks[t := s.tasks[t].(status := Ready)], ready := s.ready + [t])
  }

  /** `block_current_and_run_next`, up to the switch. */
  function Block(s: State, pc: Pc): State
    requires s.current.Some?
  {
    s.(tasks := s.tasks[s.current.value := Task(Blocked, pc)], current := None)
  }

  /** `suspend_current_and_run_next`, up to the switch. */
  function Suspend(s: State, pc: Pc): State
    requires s.current.Some?
  {
    s.(tasks := s.tasks[s.current.value := Task(Ready, pc)], ready := s.ready + [s.current.value], current := None)
  }

  /** One turn of `run_tasks`. */
  function Dispatch(s: State): State
    requires s.current.None? && forall i :: 0 <= i < |s.ready| ==> s.ready[i] in s.tasks
  {
    if s.ready == [] then s else
    var t := s.ready[0];
    s.(ready := s.ready[1..], tasks := s.tasks[t := s.tasks[t].(status := Running)], current := Some(t))
  }

  /** The running task goes on in user mode. */
  function Return(s: State): State
    requires s.current.Some?
  {
    s.(tasks := s.tasks[s.current.value := Task(Running, User)])
  }

  // ---- the primitives ------------------------------------------------------------------

  function Acquired(mu: Mutex, t: Tid): Mutex
  {
    mu.(locked := true, grants := mu.grants + [t], believers := mu.believers + multiset{t})
  }

  function Called(mu: Mutex, t: Tid): Mutex { mu.(calls := mu.calls + [t]) }

  /** `lock` by the current task. */
  function Lock(s: State, m: nat): State
    requires s.current.Some? && m in s.mutexes
  {
    var t, mu := s.current.value, s.mutexes[m];
    if mu.spin then
      if mu.locked then Suspend(s, Spinning(m))
      else Return(s.(mutexes := s.mutexes[m := Acquired(mu, t)]))
    else
      if mu.locked then Block(s.(mutexes := s.mutexes[m := Called(mu, t).(queue := mu.queue + [t])]), InLock(m))
      else Return(s.(mutexes := s.mutexes[m := Acquired(Called(mu, t), t)]))
  }

  /** The assertion of a blocking mutex: it must be locked. */
  predicate UnlockPanics(mu: Mutex) { !mu.spin && !mu.locked }

  /** What `unlock` by `t` does to the mutex. */
  function Released(mu: Mutex, t: Tid): Mutex
  {
    var mu' := mu.(believers := mu.believers - multiset{t});
    if mu.spin || mu.queue == [] then mu'.(locked := false)
    else mu'.(queue := mu.queue[1..], grants := mu.grants + [mu.queue[0]], believers := mu'.believers + multiset{mu.queue[0]})
  }

  /** `unlock` by the current task. */
  function Unlock(s: State, m: nat): State
    requires s.current.Some? && m in s.mutexes
    requires !s.mutexes[m].spin && s.mutexes[m].queue != [] ==> s.mutexes[m].queue[0] in s.tasks
  {
    var t, mu := s.current.value, s.mutexes[m];
    var s' := s.(mutexes := s.mutexes[m := Released(mu, t)]);
    if mu.spin || mu.queue == [] then s' else Wake(s', mu.queue[0])
  }

  /** `up`. */
  function Up(s: State, i: nat): State
    requires i in s.sems && (s.sems[i].queue != [] ==> s.sems[i].queue[0] in s.tasks)
  {
    var se := s.sems[i];
    var se' := se.(count := se.count + 1, ups := se.ups + 1);
    if se'.count <= 0 && se.queue != [] then
      Wake(s.(sems := s.sems[i := se'.(queue := se.queue[1..], passed := se.passed + [se.queue[0]])]), se.queue[0])
    else s.(sems := s.sems[i := se'])
  }

  /** `down` by the current task. */
  function Down(s: State, i: nat): State
    requires s.current.Some? && i in s.sems
  {
    var t, se := s.current.value, s.sems[i];
    var se' := se.(count := se.count - 1, calls := se.calls + [t]);
    if se'.count < 0 then Block(s.(sems := s.sems[i := se'.(queue := se.queue + [t])]), InDown(i))
    else s.(sems := s.sems[i := se'.(passed := se.passed + [t])])
  }

  /** `signal`. */
  function Signal(s: State, c: nat): State
    requires c in s.conds && (s.conds[c].queue != [] ==> s.conds[c].queue[0] in s.tasks)
  {
    var cv := s.conds[c];
    if cv.queue == [] then s else
    Wake(s.(conds := s.conds[c := cv.(queue := cv.queue[1..], woken := cv.woken + [cv.queue[0]])]), cv.queue[0])
  }

  /** The current task queues at a condition variable and blocks. */
  function Await(s: State, c: nat, m: nat): State
    requires s.current.Some? && c in s.conds
  {
    var t, cv := s.current.value, s.conds[c];
    Block(s.(conds := s.conds[c := cv.(queue := cv.queue + [t], waits := cv.waits + [t])]), InWait(c, m))
  }

  // ---- placement -----------------------------------------------------------------------

  /** Every live task is in exactly one place: running, ready, or in the one wait queue that
      its program counter names. */
  ghost predicate Placed(s: State)
  {
    forall k: Key :: OpenPlaced(k) ==> PlacedFacts(s)
  }

  predicate OpenPlaced(k: Key) { true }

  ghost predicate PlacedFacts(s: State)
  {
    && (s.current.Some? ==> s.current.value in s.tasks)
    && (forall t :: t in s.tasks ==> (s.tasks[t].status == Running <==> s.current == Some(t)))
    && (forall t :: t in s.ready <==> t in s.tasks && s.tasks[t].status == Ready)
    && NoDup(s.ready)
    && (forall t :: t in s.tasks && s.tasks[t].status == Blocked ==> QOf(s.tasks[t].pc).Some?)
    && (forall q :: NoDup(QueueAt(s, q)))
    && (forall q, t :: t in QueueAt(s, q) <==> ParkedAt(s, t, q))
  }

  ghost predicate ParkedAt(s: State, t: Tid, q: Q)
  {
    t in s.tasks && s.tasks[t].status == Blocked && QOf(s.tasks[t].pc) == Some(q)
  }

  /** The queues other than `q` are the same. */
  ghost predicate OnlyQueue(s: State, s': State, q: Q)
  {
    forall q' :: q' != q ==> QueueAt(s', q') == QueueAt(s, q')
  }

  lemma {:induction false} Popped(s: seq<Tid>)
    requires NoDup(s) && s != []
    ensures NoDup(s[1..]) && forall t :: t in s[1..] <==> t in s && t != s[0]
  {
  }

  /** The running task queues at `q` and blocks. */
  lemma {:induction false} ParkPlaced(s: State, s': State, q: Q, pc: Pc)
    requires Placed(s) && s.current.Some? && QOf(pc) == Some(q)
    requires s'.current == None && s'.ready == s.ready && s'.tasks == s.tasks[s.current.value := Task(Blocked, pc)]
    requires QueueAt(s', q) == QueueAt(s, q) + [s.current.value] && OnlyQueue(s, s', q)
    ensures Placed(s')
  {
    assert OpenPlaced(Key);
    var t := s.current.value;
    assert !ParkedAt(s, t, q);
    NoDupAppend(QueueAt(s, q), [t]);
    forall q', x ensures x in QueueAt(s', q') <==> ParkedAt(s', x, q') {
      assert x in QueueAt(s, q') <==> ParkedAt(s, x, q');
    }
    forall q' ensures NoDup(QueueAt(s', q')) {
      assert NoDup(QueueAt(s, q'));
    }
  }

  /** The first task in queue `q` is woken. */
  lemma {:induction false} UnparkPlaced(s: State, s': State, q: Q)
    requires Placed(s) && QueueAt(s, q) != []
    requires var t := QueueAt(s, q)[0];
             t in s.tasks && s'.current == s.current && s'.ready == s.ready + [t] && s'.tasks == s.tasks[t := s.tasks[t].(status := Ready)]
    requires QueueAt(s', q) == QueueAt(s, q)[1..] && OnlyQueue(s, s', q)
    ensures Placed(s')
  {
    assert OpenPlaced(Key);
    var t := QueueAt(s, q)[0];
    assert ParkedAt(s, t, q);
    Popped(QueueAt(s, q));
    NoDupAppend(s.ready, [t]);
    forall q', x ensures x in QueueAt(s', q') <==> ParkedAt(s', x, q') {
      assert x in QueueAt(s, q') <==> ParkedAt(s, x, q');
    }
    forall q' ensures NoDup(QueueAt(s', q')) {
      assert NoDup(QueueAt(s, q'));
    }
  }

  ghost predicate SameQueues(s: State, s': State)
  {
    forall q :: QueueAt(s', q) == QueueAt(s, q)
  }

  lemma {:induction false} SuspendPlaced(s: State, s': State, pc: Pc)
    requires Placed(s) && s.current.Some? && SameQueues(s, s')
    requires s'.current == None && s'.ready == s.ready + [s.current.value] && s'.tasks == s.tasks[s.current.value := Task(Ready, pc)]
    ensures Placed(s')
  {
  }

  /** Changing a task that is not blocked to one that is not leaves the queues right. */
  lemma {:induction false} QueuesStay(s: State, s': State, t: Tid)
    requires Placed(s) && SameQueues(s, s')
    requires t in s.tasks ==> s.tasks[t].status != Blocked
    requires t in s'.tasks ==> s'.tasks[t].status != Blocked
    requires forall x :: x != t ==> (x in s'.tasks <==> x in s.tasks) && (x in s.tasks ==> s'.tasks[x] == s.tasks[x])
    ensures forall q :: NoDup(QueueAt(s', q))
    ensures forall q, x :: x in QueueAt(s', q) <==> ParkedAt(s', x, q)
  {
    assert OpenPlaced(Key);
    forall q, x ensures x in QueueAt(s', q) <==> ParkedAt(s', x, q) {
      assert x in QueueAt(s, q) <==> ParkedAt(s, x, q);
    }
    forall q ensures NoDup(QueueAt(s', q)) {
      assert NoDup(QueueAt(s, q));
    }
  }

  lemma {:induction false} DispatchPlaced(s: State)
    requires Placed(s) && s.current.None? && forall i :: 0 <= i < |s.ready| ==> s.ready[i] in s.tasks
    ensures Placed(Dispatch(s))
  {
    assert OpenPlaced(Key);
    if s.ready != [] {
      var t := s.ready[0];
      assert t in s.ready;
      Popped(s.ready);
      var s' := Dispatch(s);
      assert SameQueues(s, s');
      QueuesStay(s, s', t);
    }
  }

  /** The running task stays running at another program counter. */
  lemma {:induction false} ReturnPlaced(s: State, s': State)
    requires Placed(s) && s.current.Some? && SameQueues(s, s')
    requires s'.current == s.current && s'.ready == s.ready && s'.tasks == s.tasks[s.current.value := Task(Running, User)]
    ensures Placed(s')
  {
  }

  lemma {:induction false} StillPlaced(s: State, s': State)
    requires Placed(s) && SameQueues(s, s') && s'.current == s.current && s'.ready == s.ready && s'.tasks == s.tasks
    ensures Placed(s')
  {
  }

  // ---- the objects ---------------------------------------------------------------------

  /** A blocking mutex grants in the order of the calls, and nobody waits for a free one. */
  ghost predicate MutexOk(mu: Mutex)
  {
    && (mu.spin ==> mu.queue == [])
    && (!mu.spin ==> mu.calls == mu.grants + mu.queue && (mu.locked || mu.queue == []))
  }

  /** At most one task believes that it holds the lock, and exactly when it is locked. */
  ghost predicate Sound(mu: Mutex)
  {
    |mu.believers| <= 1 && (mu.locked <==> mu.believers != multiset{})
  }

  ghost predicate SemOk(se: Semaphore)
  {
    && se.count == se.init + se.ups - |se.calls|
    && |se.queue| == (if se.count < 0 then -se.count else 0)
    && se.calls == se.passed + se.queue
  }

  ghost predicate CondOk(cv: Condvar)
  {
    cv.waits == cv.woken + cv.queue
  }

  /** A program counter inside a call names a mutex of the right kind, and a lock call that
      has been granted is one of a believer. */
  ghost predicate GrantOk(s: State, t: Tid)
    requires t in s.tasks
  {
    match s.tasks[t].pc
    case InLock(m) => m in s.mutexes && !s.mutexes[m].spin && (s.tasks[t].status != Blocked ==> t in s.mutexes[m].believers)
    case InWait(_, m) => m in s.mutexes
    case Spinning(m) => m in s.mutexes && s.mutexes[m].spin
    case _ => true
  }

  predicate OpenObjects(k: Key) { true }
  predicate OpenGrants(k: Key) { true }

  ghost predicate Objects(s: State)
  {
    forall k: Key :: OpenObjects(k) ==>
      && (forall m :: m in s.mutexes ==> MutexOk(s.mutexes[m]))
      && (forall i :: i in s.sems ==> SemOk(s.sems[i]))
      && (forall c :: c in s.conds ==> CondOk(s.conds[c]))
  }

  ghost predicate Grants(s: State)
  {
    forall k: Key :: OpenGrants(k) ==> forall t :: t in s.tasks ==> GrantOk(s, t)
  }

  ghost predicate Inv(s: State)
  {
    Placed(s) && Objects(s) && Grants(s)
  }

  lemma {:induction false} MutexIn(s: State, m: nat)
    requires Objects(s) && m in s.mutexes
    ensures MutexOk(s.mutexes[m])
  {
    assert OpenObjects(Key);
  }

  lemma {:induction false} SemIn(s: State, i: nat)
    requires Objects(s) && i in s.sems
    ensures SemOk(s.sems[i])
  {
    assert OpenObjects(Key);
  }

  lemma {:induction false} CondIn(s: State, c: nat)
    requires Objects(s) && c in s.conds
    ensures CondOk(s.conds[c])
  {
    assert OpenObjects(Key);
  }

  lemma {:induction false} GrantIn(s: State, t: Tid)
    requires Grants(s) && t in s.tasks
    ensures GrantOk(s, t)
  {
    assert OpenGrants(Key);
  }

  lemma {:induction false} CurrentRuns(s: State)
    requires Placed(s) && s.current.Some?
    ensures s.current.value in s.tasks && s.tasks[s.current.value].status == Running
  {
    assert OpenPlaced(Key);
  }

  lemma {:induction false} HeadParked(s: State, q: Q)
    requires Placed(s) && QueueAt(s, q) != []
    ensures ParkedAt(s, QueueAt(s, q)[0], q)
  {
    assert OpenPlaced(Key);
    assert QueueAt(s, q)[0] in QueueAt(s, q);
  }

  /** One mutex changed; the objects stay in order if it does. */
  lemma {:induction false} OneMutex(s: State, s': State, m: nat)
    requires Objects(s) && m in s'.mutexes && MutexOk(s'.mutexes[m])
    requires s'.mutexes == s.mutexes[m := s'.mutexes[m]] && s'.sems == s.sems && s'.conds == s.conds
    ensures Objects(s')
  {
  }

  lemma {:induction false} OneSem(s: State, s': State, i: nat)
    requires Objects(s) && i in s'.sems && SemOk(s'.sems[i])
    requires s'.mutexes == s.mutexes && s'.sems == s.sems[i := s'.sems[i]] && s'.conds == s.conds
    ensures Objects(s')
  {
  }

  lemma {:induction false} OneCond(s: State, s': State, c: nat)
    requires Objects(s) && c in s'.conds && CondOk(s'.conds[c])
    requires s'.mutexes == s.mutexes && s'.sems == s.sems && s'.conds == s.conds[c := s'.conds[c]]
    ensures Objects(s')
  {
  }

  lemma {:induction false} SameObjects(s: State, s': State)
    requires Objects(s) && s'.mutexes == s.mutexes && s'.sems == s.sems && s'.conds == s.conds
    ensures Objects(s')
  {
  }

  /** Whatever `x` was granted it still is. */
  ghost predicate KeepsGrants(s: State, s': State, x: Tid)
  {
    forall m :: m in s.mutexes && m in s'.mutexes && x in s.mutexes[m].believers ==> x in s'.mutexes[m].believers
  }

  ghost predicate SameKinds(s: State, s': State)
  {
    forall m :: m in s.mutexes ==> m in s'.mutexes && s'.mutexes[m].spin == s.mutexes[m].spin
  }

  /** Task `t` changed, and no other lost a grant that it needs. */
  lemma {:induction false} SameGrants(s: State, s': State, t: Tid)
    requires Grants(s) && SameKinds(s, s') && (t in s'.tasks ==> GrantOk(s', t))
    requires forall x :: x in s'.tasks && x != t ==> x in s.tasks && s'.tasks[x] == s.tasks[x]
    requires forall x :: x in s'.tasks && x != t && s'.tasks[x].pc != User ==> KeepsGrants(s, s', x)
    ensures Grants(s')
  {
  }

  lemma {:induction false} GrantsStay(s: State, s': State)
    requires Grants(s) && s'.tasks == s.tasks && s'.mutexes == s.mutexes
    ensures Grants(s')
  {
  }

  // ---- steps and runs ------------------------------------------------------------------

  datatype Step =
    | DoDispatch
    | DoYield                                // the timer or a yield in user mode
    | DoSpawn(t: Tid)
    | DoExit
    | NewMutex(m: nat, spin: bool)
    | NewSemaphore(i: nat, n: nat)
    | NewCondvar(c: nat)
    | DoLock(m: nat)
    | DoUnlock(m: nat)
    | DoUp(i: nat)
    | DoDown(i: nat)
    | DoSignal(c: nat)
    | DoWait(c: nat, m: nat)
    | DoResume                               // a call that switched away goes on

  /** The current task was granted `m` and has not called unlock since. */
  ghost predicate Holds(s: State, m: nat)
  {
    s.current.Some? && m in s.mutexes && s.current.value in s.mutexes[m].believers
  }

  /** The current task is in user mode. */
  ghost predicate InUser(s: State)
  {
    s.current.Some? && s.current.value in s.tasks && s.tasks[s.current.value].pc == User
  }

  /** Any task may make any call; only an unlock that panics is no step. */
  ghost predicate Enabled(s: State, step: Step)
  {
    match step
    case DoDispatch => s.current.None?
    case DoYield => InUser(s)
    case DoSpawn(t) => InUser(s) && t !in s.tasks
    case DoExit => InUser(s)
    case NewMutex(m, _) => InUser(s) && m !in s.mutexes
    case NewSemaphore(i, _) => InUser(s) && i !in s.sems
    case NewCondvar(c) => InUser(s) && c !in s.conds
    case DoLock(m) => InUser(s) && m in s.mutexes
    case DoUnlock(m) => InUser(s) && m in s.mutexes && !UnlockPanics(s.mutexes[m])
    case DoUp(i) => InUser(s) && i in s.sems
    case DoDown(i) => InUser(s) && i in s.sems
    case DoSignal(c) => InUser(s) && c in s.conds
    case DoWait(c, m) => InUser(s) && c in s.conds && m in s.mutexes && !UnlockPanics(s.mutexes[m])
    case DoResume => s.current.Some? && s.current.value in s.tasks && s.tasks[s.current.value].pc != User
  }

  /** `wait_with_mutex` up to the switch. */
  ghost function Wait(s: State, c: nat, m: nat): State
    requires Inv(s) && Enabled(s, DoWait(c, m))
  {
    QueueHeadsLive(s);
    Await(Unlock(s, m), c, m)
  }

  /** What a switched-away call does when its task runs again. */
  ghost function Resume(s: State): State
    requires Inv(s) && Enabled(s, DoResume)
  {
    var t := s.current.value;
    var pc := s.tasks[t].pc;
    GrantIn(s, t);
    if pc.Spinning? then Lock(s, pc.m) else if pc.InWait? then Lock(s, pc.m) else Return(s)
  }

  lemma {:induction false} QueueHeadsLive(s: State)
    requires Placed(s)
    ensures forall q :: QueueAt(s, q) != [] ==> QueueAt(s, q)[0] in s.tasks
    ensures forall m :: m in s.mutexes && s.mutexes[m].queue != [] ==> s.mutexes[m].queue[0] in s.tasks
    ensures forall i :: i in s.sems && s.sems[i].queue != [] ==> s.sems[i].queue[0] in s.tasks
    ensures forall c :: c in s.conds && s.conds[c].queue != [] ==> s.conds[c].queue[0] in s.tasks
    ensures forall i :: 0 <= i < |s.ready| ==> s.ready[i] in s.tasks
  {
    assert OpenPlaced(Key);
    forall q | QueueAt(s, q) != [] ensures QueueAt(s, q)[0] in s.tasks {
      assert QueueAt(s, q)[0] in QueueAt(s, q);
      assert ParkedAt(s, QueueAt(s, q)[0], q);
    }
    assert forall m :: m in s.mutexes ==> QueueAt(s, MutexQ(m)) == s.mutexes[m].queue;
    assert forall i :: i in s.sems ==> QueueAt(s, SemQ(i)) == s.sems[i].queue;
    assert forall c :: c in s.conds ==> QueueAt(s, CondQ(c)) == s.conds[c].queue;
    forall i | 0 <= i < |s.ready| ensures s.ready[i] in s.tasks {
      assert s.ready[i] in s.ready;
    }
  }

  ghost function Next(s: State, step: Step): State
    requires Inv(s) && Enabled(s, step)
  {
    QueueHeadsLive(s);
    match step
    case DoDispatch => Dispatch(s)
    case DoYield => Suspend(s, User)
    case DoSpawn(t) => s.(tasks := s.tasks[t := Task(Ready, User)], ready := s.ready + [t])
    case DoExit => s.(tasks := s.tasks - {s.current.value}, current := None)
    case NewMutex(m, spin) => s.(mutexes := s.mutexes[m := Mutex(spin, false, [], [], [], multiset{})])
    case NewSemaphore(i, n) => s.(sems := s.sems[i := Semaphore(n, n, [], 0, [], [])])
    case NewCondvar(c) => s.(conds := s.conds[c := Condvar([], [], [])])
    case DoLock(m) => Lock(s, m)
    case DoUnlock(m) => Unlock(s, m)
    case DoUp(i) => Up(s, i)
    case DoDown(i) => Down(s, i)
    case DoSignal(c) => Signal(s, c)
    case DoWait(c, m) => Wait(s, c, m)
    case DoResume => Resume(s)
  }

  // ---- every step keeps the invariant --------------------------------------------------

  lemma {:induction false} LockInv(s: State, m: nat)
    requires Inv(s) && s.current.Some? && m in s.mutexes && s.current.value in s.tasks
    ensures Inv(Lock(s, m))
  {
    if s.mutexes[m].locked {
      LockBusyInv(s, m);
    } else {
      LockFreeInv(s, m);
    }
  }

  lemma {:induction false} LockFreeInv(s: State, m: nat)
    requires Inv(s) && s.current.Some? && m in s.mutexes && s.current.value in s.tasks && !s.mutexes[m].locked
    ensures Inv(Lock(s, m))
  {
    var s' := Lock(s, m);
    MutexIn(s, m);
    ReturnPlaced(s, s');
    OneMutex(s, s', m);
    SameGrants(s, s', s.current.value);
  }

  lemma {:induction false} LockBusyInv(s: State, m: nat)
    requires Inv(s) && s.current.Some? && m in s.mutexes && s.current.value in s.tasks && s.mutexes[m].locked
    ensures Inv(Lock(s, m))
  {
    var t, mu, s' := s.current.value, s.mutexes[m], Lock(s, m);
    MutexIn(s, m);
    if mu.spin {
      SuspendPlaced(s, s', Spinning(m));
      SameObjects(s, s');
    } else {
      ParkPlaced(s, s', MutexQ(m), InLock(m));
      assert mu.grants + mu.queue + [t] == mu.grants + (mu.queue + [t]);
      OneMutex(s, s', m);
    }
    SameGrants(s, s', t);
  }

  lemma {:induction false} UnlockInv(s: State, m: nat)
    requires Inv(s) && InUser(s) && m in s.mutexes
    requires s.mutexes[m].queue != [] ==> s.mutexes[m].queue[0] in s.tasks
    ensures Inv(Unlock(s, m))
  {
    UnlockObjects(s, m);
    if s.mutexes[m].queue == [] {
      SetFreeInv(s, m);
    } else {
      MutexIn(s, m);
      HandOverInv(s, m);
    }
  }

  lemma {:induction false} UnlockObjects(s: State, m: nat)
    requires Objects(s) && s.current.Some? && m in s.mutexes
    requires s.mutexes[m].queue != [] ==> s.mutexes[m].queue[0] in s.tasks
    ensures Objects(Unlock(s, m))
  {
    MutexIn(s, m);
    ReleasedOk(s.mutexes[m], s.current.value);
    OneMutex(s, Unlock(s, m), m);
  }

  lemma {:induction false} SetFreeInv(s: State, m: nat)
    requires Placed(s) && Grants(s) && InUser(s) && m in s.mutexes && s.mutexes[m].queue == []
    ensures Placed(Unlock(s, m)) && Grants(Unlock(s, m))
  {
    var s' := Unlock(s, m);
    StillPlaced(s, s');
    KeptGrants(s, s', m, s.current.value);
    SameGrants(s, s', s.current.value);
  }

  /** An unlock by `t` takes no grant from anyone else. */
  lemma {:induction false} KeptGrants(s: State, s': State, m: nat, t: Tid)
    requires m in s.mutexes && s'.mutexes == s.mutexes[m := Released(s.mutexes[m], t)]
    ensures SameKinds(s, s') && forall x :: x != t ==> KeepsGrants(s, s', x)
  {
  }

  lemma {:induction false} ReleasedOk(mu: Mutex, t: Tid)
    requires MutexOk(mu)
    ensures MutexOk(Released(mu, t))
  {
    if mu.queue != [] {
      assert mu.grants + mu.queue == (mu.grants + [mu.queue[0]]) + mu.queue[1..];
    }
  }

  lemma {:induction false} HandOverInv(s: State, m: nat)
    requires Placed(s) && Grants(s) && InUser(s) && m in s.mutexes
    requires s.mutexes[m].queue != [] && !s.mutexes[m].spin && s.mutexes[m].queue[0] in s.tasks
    ensures Placed(Unlock(s, m)) && Grants(Unlock(s, m))
  {
    var mu, s' := s.mutexes[m], Unlock(s, m);
    assert QueueAt(s, MutexQ(m)) == mu.queue;
    HeadParked(s, MutexQ(m));
    UnparkPlaced(s, s', MutexQ(m));
    GrantIn(s, mu.queue[0]);
    SameGrants(s, s', mu.queue[0]);
  }

  lemma {:induction false} UpInv(s: State, i: nat)
    requires Inv(s) && i in s.sems && (s.sems[i].queue != [] ==> s.sems[i].queue[0] in s.tasks)
    ensures Inv(Up(s, i))
  {
    var se, s' := s.sems[i], Up(s, i);
    SemIn(s, i);
    assert QueueAt(s, SemQ(i)) == se.queue;
    if se.count + 1 <= 0 {
      HeadParked(s, SemQ(i));
      GrantIn(s, se.queue[0]);
      UnparkPlaced(s, s', SemQ(i));
      assert se.passed + se.queue == (se.passed + [se.queue[0]]) + se.queue[1..];
      SameGrants(s, s', se.queue[0]);
    } else {
      StillPlaced(s, s');
      GrantsStay(s, s');
    }
    OneSem(s, s', i);
  }

  lemma {:induction false} DownInv(s: State, i: nat)
    requires Inv(s) && InUser(s) && i in s.sems
    ensures Inv(Down(s, i))
  {
    var se, s' := s.sems[i], Down(s, i);
    SemIn(s, i);
    assert QueueAt(s, SemQ(i)) == se.queue;
    if se.count - 1 < 0 {
      ParkPlaced(s, s', SemQ(i), InDown(i));
    } else {
      StillPlaced(s, s');
    }
    SameGrants(s, s', s.current.value);
    OneSem(s, s', i);
  }

  lemma {:induction false} SignalInv(s: State, c: nat)
    requires Inv(s) && c in s.conds && (s.conds[c].queue != [] ==> s.conds[c].queue[0] in s.tasks)
    ensures Inv(Signal(s, c))
  {
    var cv, s' := s.conds[c], Signal(s, c);
    CondIn(s, c);
    assert QueueAt(s, CondQ(c)) == cv.queue;
    if cv.queue != [] {
      HeadParked(s, CondQ(c));
      GrantIn(s, cv.queue[0]);
      UnparkPlaced(s, s', CondQ(c));
      assert cv.woken + cv.queue == (cv.woken + [cv.queue[0]]) + cv.queue[1..];
      SameGrants(s, s', cv.queue[0]);
      OneCond(s, s', c);
    }
  }

  lemma {:induction false} AwaitInv(s: State, c: nat, m: nat)
    requires Inv(s) && InUser(s) && c in s.conds && m in s.mutexes
    ensures Inv(Await(s, c, m))
  {
    var s' := Await(s, c, m);
    CondIn(s, c);
    assert QueueAt(s, CondQ(c)) == s.conds[c].queue;
    ParkPlaced(s, s', CondQ(c), InWait(c, m));
    SameGrants(s, s', s.current.value);
    OneCond(s, s', c);
  }

  lemma {:induction false} SpawnPlaced(s: State, s': State, t: Tid)
    requires Placed(s) && t !in s.tasks && SameQueues(s, s')
    requires s'.current == s.current && s'.ready == s.ready + [t] && s'.tasks == s.tasks[t := Task(Ready, User)]
    ensures Placed(s')
  {
    QueuesStay(s, s', t);
    assert OpenPlaced(Key);
    NoDupAppend(s.ready, [t]);
  }

  lemma {:induction false} ExitPlaced(s: State, s': State)
    requires Placed(s) && s.current.Some? && SameQueues(s, s')
    requires s'.current == None && s'.ready == s.ready && s'.tasks == s.tasks - {s.current.value}
    ensures Placed(s')
  {
  }

  lemma {:induction false} DispatchInv(s: State)
    requires Inv(s) && s.current.None? && forall i :: 0 <= i < |s.ready| ==> s.ready[i] in s.tasks
    ensures Inv(Dispatch(s))
  {
    var s' := Dispatch(s);
    DispatchPlaced(s);
    SameObjects(s, s');
    if s.ready != [] {
      GrantIn(s, s.ready[0]);
      ReadyNotBlocked(s);
      SameGrants(s, s', s.ready[0]);
    }
  }

  lemma {:induction false} ReadyNotBlocked(s: State)
    requires Placed(s) && s.ready != []
    ensures s.ready[0] in s.tasks && s.tasks[s.ready[0]].status == Ready
  {
    assert OpenPlaced(Key);
    assert s.ready[0] in s.ready;
  }

  lemma {:induction false} TaskStepInv(s: State, step: Step)
    requires Inv(s) && Enabled(s, step) && (step.DoYield? || step.DoSpawn? || step.DoExit?)
    ensures Inv(Next(s, step))
  {
    var s' := Next(s, step);
    SameObjects(s, s');
    if step.DoYield? {
      SuspendPlaced(s, s', User);
      SameGrants(s, s', s.current.value);
    } else if step.DoSpawn? {
      SpawnPlaced(s, s', step.t);
      SameGrants(s, s', step.t);
    } else {
      ExitPlaced(s, s');
      SameGrants(s, s', s.current.value);
    }
  }

  lemma {:induction false} CreateInv(s: State, step: Step)
    requires Inv(s) && Enabled(s, step) && (step.NewMutex? || step.NewSemaphore? || step.NewCondvar?)
    ensures Inv(Next(s, step))
  {
    var s' := Next(s, step);
    StillPlaced(s, s');
    SameGrants(s, s', s.current.value);
    if step.NewMutex? {
      OneMutex(s, s', step.m);
    } else if step.NewSemaphore? {
      OneSem(s, s', step.i);
    } else {
      OneCond(s, s', step.c);
    }
  }

  lemma {:induction false} ResumeInv(s: State)
    requires Inv(s) && Enabled(s, DoResume)
    ensures Inv(Resume(s))
  {
    var t := s.current.value;
    var pc := s.tasks[t].pc;
    GrantIn(s, t);
    if pc.Spinning? {
      LockInv(s, pc.m);
    } else if pc.InWait? {
      LockInv(s, pc.m);
    } else {
      ReturnPlaced(s, Resume(s));
      SameObjects(s, Resume(s));
      SameGrants(s, Resume(s), t);
    }
  }

  /** Every step of every task keeps every task in one place and every object in order. */
  lemma {:induction false} NextInv(s: State, step: Step)
    requires Inv(s) && Enabled(s, step)
    ensures Inv(Next(s, step))
  {
    QueueHeadsLive(s);
    match step
    case DoLock(m) => LockInv(s, m);
    case DoUnlock(m) => UnlockInv(s, m);
    case DoUp(i) => UpInv(s, i);
    case DoDown(i) => DownInv(s, i);
    case DoSignal(c) => SignalInv(s, c);
    case DoWait(c, m) =>
      UnlockInv(s, m);
      AwaitInv(Unlock(s, m), c, m);
    case DoResume => ResumeInv(s);
    case NewMutex(_, _) => CreateInv(s, step);
    case NewSemaphore(_, _) => CreateInv(s, step);
    case NewCondvar(_) => CreateInv(s, step);
    case DoDispatch => DispatchInv(s);
    case DoYield => TaskStepInv(s, step);
    case DoSpawn(_) => TaskStepInv(s, step);
    case DoExit => TaskStepInv(s, step);
  }

  /** The machine as it boots: the initial task is ready. */
  function Boot(t: Tid): State
  {
    State(None, [t], map[t := Task(Ready, User)], map[], map[], map[])
  }

  lemma {:induction false} BootInv(t: Tid)
    ensures Inv(Boot(t))
  {
  }

  /** `s'` is reached from `s` by `steps`. */
  ghost predicate Reaches(s: State, steps: seq<Step>, s': State)
    requires Inv(s)
    decreases |steps|
  {
    if steps == [] then s' == s
    else Enabled(s, steps[0]) && (NextInv(s, steps[0]); Reaches(Next(s, steps[0]), steps[1..], s'))
  }

  lemma {:induction false} RunInv(s: State, steps: seq<Step>, s': State)
    requires Inv(s) && Reaches(s, steps, s')
    ensures Inv(s')
    decreases |steps|
  {
    if steps != [] {
      NextInv(s, steps[0]);
      RunInv(Next(s, steps[0]), steps[1..], s');
    }
  }

  // ---- what each step does -------------------------------------------------------------

  /** The step tries to take `m`: a lock call, a turn of a spin lock, or the end of a wait. */
  ghost predicate TriesLock(s: State, step: Step, m: nat)
  {
    || step == DoLock(m)
    || (step == DoResume && s.current.Some? && s.current.value in s.tasks
        && var pc := s.tasks[s.current.value].pc; pc == Spinning(m) || (pc.InWait? && pc.m == m))
  }

  /** A try returns in that step if and only if the mutex is free, whichever kind it is; then it
      is locked, and the caller has been granted it. Otherwise the caller spins, last in the
      ready queue, or blocks, last in the queue of the mutex. */
  lemma {:induction false} LockExactly(s: State, step: Step, m: nat)
    requires Inv(s) && Enabled(s, step) && TriesLock(s, step, m)
    ensures m in s.mutexes && m in Next(s, step).mutexes
    ensures var s', t, mu := Next(s, step), s.current.value, s.mutexes[m];
            var mu' := s'.mutexes[m];
            && (InUser(s') <==> !mu.locked) && mu'.locked && mu'.spin == mu.spin && t in s'.tasks
            && (!mu.locked ==> && s'.current == Some(t) && s'.ready == s.ready && mu'.queue == mu.queue
                               && mu'.grants == mu.grants + [t] && mu'.believers == mu.believers + multiset{t})
            && (mu.locked ==> s'.current == None && mu'.grants == mu.grants && mu'.believers == mu.believers)
            && (mu.locked && mu.spin ==> s'.ready == s.ready + [t] && s'.tasks[t] == Task(Ready, Spinning(m)))
            && (mu.locked && !mu.spin ==>
                  s'.ready == s.ready && mu'.queue == mu.queue + [t] && s'.tasks[t] == Task(Blocked, InLock(m)))
  {
    CurrentRuns(s);
    GrantIn(s, s.current.value);
    assert Next(s, step) == Lock(s, m);
  }

  /** A call that blocked on a mutex or a semaphore returns as soon as it is dispatched. */
  lemma {:induction false} BlockedReturns(s: State)
    requires Inv(s) && Enabled(s, DoResume)
    requires var pc := s.tasks[s.current.value].pc; pc.InLock? || pc.InDown?
    ensures InUser(Next(s, DoResume)) && Next(s, DoResume).current == s.current && Next(s, DoResume).ready == s.ready
    ensures Next(s, DoResume).mutexes == s.mutexes && Next(s, DoResume).sems == s.sems && Next(s, DoResume).conds == s.conds
  {
  }

  /** An unlock returns. Without waiters, or on a spin lock, the mutex is free; otherwise it goes,
      locked, to the oldest waiter, who becomes the last of the ready tasks. */
  lemma {:induction false} UnlockDoes(s: State, m: nat)
    requires Inv(s) && Enabled(s, DoUnlock(m))
    ensures m in Next(s, DoUnlock(m)).mutexes
    ensures var s', t, mu := Next(s, DoUnlock(m)), s.current.value, s.mutexes[m];
            var mu' := s'.mutexes[m];
            && InUser(s') && s'.current == s.current
            && (mu.queue == [] ==> !mu'.locked && mu'.queue == [] && s'.ready == s.ready && mu'.believers == mu.believers - multiset{t})
            && (mu.queue != [] ==>
                  && mu'.locked && mu'.queue == mu.queue[1..] && s'.ready == s.ready + [mu.queue[0]]
                  && mu'.believers == mu.believers - multiset{t} + multiset{mu.queue[0]})
  {
    MutexIn(s, m);
    QueueHeadsLive(s);
    HeadIsOther(s, MutexQ(m));
  }

  lemma {:induction false} HeadIsOther(s: State, q: Q)
    requires Placed(s) && s.current.Some?
    ensures QueueAt(s, q) != [] ==> QueueAt(s, q)[0] != s.current.value
  {
    if QueueAt(s, q) != [] {
      HeadParked(s, q);
      CurrentRuns(s);
    }
  }

  /** A down returns in its step if and only if the count was positive; otherwise the caller
      blocks, last in the queue. */
  lemma {:induction false} DownExactly(s: State, i: nat)
    requires Inv(s) && Enabled(s, DoDown(i))
    ensures i in Next(s, DoDown(i)).sems
    ensures var s', t, se := Next(s, DoDown(i)), s.current.value, s.sems[i];
            && (InUser(s') <==> se.count > 0) && s'.ready == s.ready && t in s'.tasks && s'.sems[i].count == se.count - 1
            && (se.count > 0 ==> s'.current == s.current && s'.sems[i].queue == se.queue)
            && (se.count <= 0 ==> s'.current == None && s'.sems[i].queue == se.queue + [t] && s'.tasks[t] == Task(Blocked, InDown(i)))
  {
    SemIn(s, i);
  }

  /** An up returns, raises the count, and makes the oldest waiter the last of the ready tasks. */
  lemma {:induction false} UpDoes(s: State, i: nat)
    requires Inv(s) && Enabled(s, DoUp(i))
    ensures i in Next(s, DoUp(i)).sems
    ensures var s', se := Next(s, DoUp(i)), s.sems[i];
            && InUser(s') && s'.current == s.current && s'.sems[i].count == se.count + 1
            && (se.queue == [] ==> s'.ready == s.ready && s'.sems[i].queue == [])
            && (se.queue != [] ==> s'.ready == s.ready + [se.queue[0]] && s'.sems[i].queue == se.queue[1..])
  {
    SemIn(s, i);
    QueueHeadsLive(s);
    HeadIsOther(s, SemQ(i));
  }

  /** A signal returns and makes the oldest waiter, if there is one, the last of the ready tasks. */
  lemma {:induction false} SignalDoes(s: State, c: nat)
    requires Inv(s) && Enabled(s, DoSignal(c))
    ensures c in Next(s, DoSignal(c)).conds
    ensures var s', cv := Next(s, DoSignal(c)), s.conds[c];
            && InUser(s') && s'.current == s.current
            && (cv.queue == [] ==> s'.ready == s.ready && s'.conds[c].queue == [])
            && (cv.queue != [] ==> s'.ready == s.ready + [cv.queue[0]] && s'.conds[c].queue == cv.queue[1..])
  {
    QueueHeadsLive(s);
    HeadIsOther(s, CondQ(c));
  }

  /** Yielding, spawning and exiting: who is there afterwards, and where. */
  lemma {:induction false} TaskStepsDo(s: State, step: Step)
    requires Inv(s) && Enabled(s, step)
    ensures step.DoYield? ==>
              var s', t := Next(s, step), s.current.value;
              s'.current == None && s'.ready == s.ready + [t] && s'.tasks == s.tasks[t := Task(Ready, User)]
    ensures step.DoSpawn? ==>
              var s' := Next(s, step);
              s'.current == s.current && s'.ready == s.ready + [step.t] && s'.tasks == s.tasks[step.t := Task(Ready, User)]
    ensures step.DoExit? ==>
              var s', t := Next(s, step), s.current.value;
              s'.current == None && s'.ready == s.ready && t !in s'.tasks && s'.tasks.Keys == s.tasks.Keys - {t}
  {
  }

  /** No step changes where another task goes on. */
  lemma {:induction false} OthersGoOn(s: State, step: Step, x: Tid)
    requires Inv(s) && Enabled(s, step) && x in s.tasks && s.current != Some(x)
    ensures x in Next(s, step).tasks && Next(s, step).tasks[x].pc == s.tasks[x].pc
  {
    QueueHeadsLive(s);
    if step.DoWait? {
      assert Next(s, step) == Await(Unlock(s, step.m), step.c, step.m);
    } else if step.DoResume? {
      GrantIn(s, s.current.value);
    }
  }

  // ---- the order of the ready tasks ----------------------------------------------------

  /** The tasks that the run dispatches, in order. */
  ghost function Dispatched(s: State, steps: seq<Step>): seq<Tid>
    requires Inv(s)
    decreases |steps|
  {
    if steps == [] || !Enabled(s, steps[0]) then [] else
    NextInv(s, steps[0]);
    (if steps[0].DoDispatch? && s.ready != [] then [s.ready[0]] else []) + Dispatched(Next(s, steps[0]), steps[1..])
  }

  /** Every step but a dispatch leaves the ready tasks where they are, in front; a dispatch runs
      the first. */
  lemma {:induction false} ReadyStep(s: State, step: Step)
    requires Inv(s) && Enabled(s, step)
    ensures !step.DoDispatch? ==> s.ready <= Next(s, step).ready
    ensures step.DoDispatch? && s.ready != [] ==> Next(s, step).ready == s.ready[1..] && Next(s, step).current == Some(s.ready[0])
    ensures step.DoDispatch? && s.ready == [] ==> Next(s, step) == s
  {
    QueueHeadsLive(s);
    if step.DoWait? {
      assert Next(s, step) == Await(Unlock(s, step.m), step.c, step.m);
    } else if step.DoResume? {
      GrantIn(s, s.current.value);
    }
  }

  /** Over every run tasks are dispatched in the order in which they became ready: the ready ones
      of now are the first to run, and those that have not are the first in the queue. */
  lemma {:induction false} DispatchedInOrder(s: State, steps: seq<Step>, s': State)
    requires Inv(s) && Reaches(s, steps, s')
    ensures s.ready <= Dispatched(s, steps) + s'.ready
    decreases |steps|
  {
    if steps != [] {
      var s1 := Next(s, steps[0]);
      NextInv(s, steps[0]);
      ReadyStep(s, steps[0]);
      DispatchedInOrder(s1, steps[1..], s');
      var later := Dispatched(s1, steps[1..]);
      if steps[0].DoDispatch? && s.ready != [] {
        FirstThen(s.ready, later, s'.ready);
      } else {
        assert Dispatched(s, steps) == later;
      }
    }
  }

  lemma {:induction false} FirstThen(ready: seq<Tid>, later: seq<Tid>, rest: seq<Tid>)
    requires ready != [] && ready[1..] <= later + rest
    ensures ready <= [ready[0]] + later + rest
  {
    assert ready == [ready[0]] + ready[1..];
    assert [ready[0]] + later + rest == [ready[0]] + (later + rest);
  }

  // ---- the histories are what was called -----------------------------------------------

  /** A history of calls: locks of a blocking mutex, downs of a semaphore, or waits. */
  datatype Log = Locks(m: nat) | Downs(i: nat) | Waits(c: nat)

  ghost function Logged(s: State, l: Log): seq<Tid>
  {
    match l
    case Locks(m) => if m in s.mutexes then s.mutexes[m].calls else []
    case Downs(i) => if i in s.sems then s.sems[i].calls else []
    case Waits(c) => if c in s.conds then s.conds[c].waits else []
  }

  /** The current task makes such a call. */
  ghost predicate Makes(s: State, step: Step, l: Log)
  {
    && s.current.Some?
    && match l
       case Locks(m) => m in s.mutexes && !s.mutexes[m].spin && TriesLock(s, step, m)
       case Downs(i) => step == DoDown(i)
       case Waits(c) => step.DoWait? && step.c == c
  }

  /** Who makes the calls in a run, in order. */
  ghost function CallsOf(s: State, steps: seq<Step>, l: Log): seq<Tid>
    requires Inv(s)
    decreases |steps|
  {
    if steps == [] || !Enabled(s, steps[0]) then [] else
    NextInv(s, steps[0]);
    (if Makes(s, steps[0], l) then [s.current.value] else []) + CallsOf(Next(s, steps[0]), steps[1..], l)
  }

  lemma {:induction false} LoggedStep(s: State, step: Step, l: Log)
    requires Inv(s) && Enabled(s, step)
    ensures Logged(Next(s, step), l) == Logged(s, l) + if Makes(s, step, l) then [s.current.value] else []
  {
    match l
    case Locks(m) => LoggedLocks(s, step, m);
    case Downs(i) => LoggedDowns(s, step, i);
    case Waits(c) => LoggedWaits(s, step, c);
  }

  lemma {:induction false} LoggedLocks(s: State, step: Step, m: nat)
    requires Inv(s) && Enabled(s, step)
    ensures Logged(Next(s, step), Locks(m)) == Logged(s, Locks(m)) + if Makes(s, step, Locks(m)) then [s.current.value] else []
  {
    QueueHeadsLive(s);
    match step
    case DoLock(n) => LockLogs(s, n, m);
    case DoUnlock(n) => UnlockLogs(s, n, m);
    case DoWait(c, n) =>
      UnlockLogs(s, n, m);
      assert Next(s, step).mutexes == Unlock(s, n).mutexes;
    case DoResume =>
      var pc := s.tasks[s.current.value].pc;
      GrantIn(s, s.current.value);
      if pc.Spinning? || pc.InWait? {
        LockLogs(s, pc.m, m);
      }
    case NewMutex(_, _) =>
    case _ => assert Next(s, step).mutexes == s.mutexes;
  }

  lemma {:induction false} LockLogs(s: State, n: nat, m: nat)
    requires s.current.Some? && n in s.mutexes
    ensures Logged(Lock(s, n), Locks(m)) == Logged(s, Locks(m)) + if m == n && !s.mutexes[n].spin then [s.current.value] else []
  {
  }

  lemma {:induction false} UnlockLogs(s: State, n: nat, m: nat)
    requires s.current.Some? && n in s.mutexes && (s.mutexes[n].queue != [] ==> s.mutexes[n].queue[0] in s.tasks)
    ensures Logged(Unlock(s, n), Locks(m)) == Logged(s, Locks(m))
  {
  }

  lemma {:induction false} LoggedDowns(s: State, step: Step, i: nat)
    requires Inv(s) && Enabled(s, step)
    ensures Logged(Next(s, step), Downs(i)) == Logged(s, Downs(i)) + if Makes(s, step, Downs(i)) then [s.current.value] else []
  {
    QueueHeadsLive(s);
    if step.DoWait? {
      assert Next(s, step).sems == s.sems;
    } else if step.DoResume? {
      GrantIn(s, s.current.value);
      assert Next(s, step).sems == s.sems;
    }
  }

  lemma {:induction false} LoggedWaits(s: State, step: Step, c: nat)
    requires Inv(s) && Enabled(s, step)
    ensures Logged(Next(s, step), Waits(c)) == Logged(s, Waits(c)) + if Makes(s, step, Waits(c)) then [s.current.value] else []
  {
    QueueHeadsLive(s);
    if step.DoWait? {
      assert Next(s, step) == Await(Unlock(s, step.m), step.c, step.m);
    } else if step.DoResume? {
      GrantIn(s, s.current.value);
      assert Next(s, step).conds == s.conds;
    }
  }

  /** The histories in the state are the calls of the run. */
  lemma {:induction false} LoggedIsCalled(s: State, steps: seq<Step>, s': State, l: Log)
    requires Inv(s) && Reaches(s, steps, s')
    ensures Logged(s', l) == Logged(s, l) + CallsOf(s, steps, l)
    decreases |steps|
  {
    if steps != [] {
      NextInv(s, steps[0]);
      LoggedStep(s, steps[0], l);
      LoggedIsCalled(Next(s, steps[0]), steps[1..], s', l);
    }
  }

  function UpsOf(steps: seq<Step>, i: nat): nat
  {
    if steps == [] then 0 else (if steps[0] == DoUp(i) then 1 else 0) + UpsOf(steps[1..], i)
  }

  ghost function UpsLogged(s: State, i: nat): nat { if i in s.sems then s.sems[i].ups else 0 }

  /** So is the number of ups, and the initial count is that of the creating call. */
  lemma {:induction false} UpsAreCalled(s: State, steps: seq<Step>, s': State, i: nat)
    requires Inv(s) && Reaches(s, steps, s')
    ensures UpsLogged(s', i) == UpsLogged(s, i) + UpsOf(steps, i)
    ensures i in s.sems ==> i in s'.sems && s'.sems[i].init == s.sems[i].init
    ensures i in s'.sems && i !in s.sems ==> NewSemaphore(i, s'.sems[i].init) in steps
    decreases |steps|
  {
    if steps != [] {
      NextInv(s, steps[0]);
      SemStep(s, steps[0], i);
      UpsAreCalled(Next(s, steps[0]), steps[1..], s', i);
    }
  }

  lemma {:induction false} SemStep(s: State, step: Step, i: nat)
    requires Inv(s) && Enabled(s, step)
    ensures UpsLogged(Next(s, step), i) == UpsLogged(s, i) + if step == DoUp(i) then 1 else 0
    ensures i in s.sems ==> i in Next(s, step).sems && Next(s, step).sems[i].init == s.sems[i].init
    ensures i in Next(s, step).sems && i !in s.sems ==> step == NewSemaphore(i, Next(s, step).sems[i].init)
  {
    QueueHeadsLive(s);
    if step.DoWait? {
      assert Next(s, step) == Await(Unlock(s, step.m), step.c, step.m);
    } else if step.DoResume? {
      GrantIn(s, s.current.value);
    }
  }

  // ---- what the calls promise ----------------------------------------------------------

  /** In every reachable state a live task is in exactly one place. */
  lemma {:induction false} OnePlace(t0: Tid, steps: seq<Step>, s: State, t: Tid)
    requires (BootInv(t0); Reaches(Boot(t0), steps, s)) && t in s.tasks
    ensures s.current == Some(t) ==> t !in s.ready && forall q :: t !in QueueAt(s, q)
    ensures t in s.ready ==> multiset(s.ready)[t] == 1 && forall q :: t !in QueueAt(s, q)
    ensures forall q, q' :: t in QueueAt(s, q) && t in QueueAt(s, q') ==> q == q'
    ensures s.current == Some(t) || t in s.ready || exists q :: t in QueueAt(s, q) && multiset(QueueAt(s, q))[t] == 1
  {
    BootInv(t0);
    RunInv(Boot(t0), steps, s);
    assert OpenPlaced(Key);
    forall q | t in QueueAt(s, q) ensures ParkedAt(s, t, q) {
    }
    if t in s.ready {
      NoDupOnce(s.ready, t);
    }
    if s.tasks[t].status == Blocked {
      var q := QOf(s.tasks[t].pc).value;
      assert ParkedAt(s, t, q);
      NoDupOnce(QueueAt(s, q), t);
    }
  }

  /** In every reachable state, whoever unlocks: a blocking mutex was granted in the order of
      the lock calls, to all but those that wait, and nobody waits for a free one. */
  lemma {:induction false} GrantedInCallOrder(t0: Tid, steps: seq<Step>, s: State, m: nat)
    requires (BootInv(t0); Reaches(Boot(t0), steps, s)) && m in s.mutexes && !s.mutexes[m].spin
    ensures var mu := s.mutexes[m];
            (BootInv(t0); CallsOf(Boot(t0), steps, Locks(m))) == mu.grants + mu.queue && (!mu.locked ==> mu.queue == [])
  {
    BootInv(t0);
    RunInv(Boot(t0), steps, s);
    MutexIn(s, m);
    LoggedIsCalled(Boot(t0), steps, s, Locks(m));
  }

  /** In every reachable state, the tasks that have waited on a condition variable have been
      woken in the order of their waits, but for those that still wait. */
  lemma {:induction false} WokenInCallOrder(t0: Tid, steps: seq<Step>, s: State, c: nat)
    requires (BootInv(t0); Reaches(Boot(t0), steps, s)) && c in s.conds
    ensures (BootInv(t0); CallsOf(Boot(t0), steps, Waits(c))) == s.conds[c].woken + s.conds[c].queue
  {
    BootInv(t0);
    RunInv(Boot(t0), steps, s);
    CondIn(s, c);
    LoggedIsCalled(Boot(t0), steps, s, Waits(c));
  }

  /** The semaphore's law in every reachable state. The resources are those of the creating call
      and one for each up of the run. The count is the resources less the calls of down, and
      those short of one, as many as it is negative, wait; calls get through in their order,
      never more than the resources, and none waits while there is one left. */
  lemma {:induction false} PassedWithinSupply(t0: Tid, steps: seq<Step>, s: State, i: nat)
    requires (BootInv(t0); Reaches(Boot(t0), steps, s)) && i in s.sems
    ensures NewSemaphore(i, s.sems[i].init) in steps
    ensures var se, supply := s.sems[i], s.sems[i].init + UpsOf(steps, i);
            var calls := (BootInv(t0); CallsOf(Boot(t0), steps, Downs(i)));
            && se.count == supply - |calls| && |se.queue| == (if se.count < 0 then -se.count else 0)
            && |se.passed| <= supply && (se.queue != [] ==> |se.passed| == supply) && calls == se.passed + se.queue
  {
    BootInv(t0);
    RunInv(Boot(t0), steps, s);
    LoggedIsCalled(Boot(t0), steps, s, Downs(i));
    UpsAreCalled(Boot(t0), steps, s, i);
    SemIn(s, i);
  }

  /** A lock call, or a condition wait, comes back only with the mutex in hand. */
  lemma {:induction false} ReturnsAsHolder(s: State, m: nat)
    requires Inv(s) && Enabled(s, DoResume)
    requires var pc := s.tasks[s.current.value].pc;
             pc == InLock(m) || pc == Spinning(m) || (pc.InWait? && pc.m == m)
    ensures InUser(Resume(s)) ==> Holds(Resume(s), m)
  {
    GrantIn(s, s.current.value);
    CurrentRuns(s);
    MutexIn(s, m);
  }

  lemma {:induction false} LockReturnsAsHolder(s: State, m: nat)
    requires Inv(s) && Enabled(s, DoLock(m))
    ensures InUser(Lock(s, m)) ==> Holds(Lock(s, m), m)
  {
    MutexIn(s, m);
  }

  /** The waiter is queued in the same step that gives the mutex up. */
  lemma {:induction false} WaitQueuesAndReleases(s: State, c: nat, m: nat)
    requires Inv(s) && Enabled(s, DoWait(c, m))
    ensures var s', mu := Wait(s, c, m), s.mutexes[m];
            && c in s'.conds && s'.conds[c].queue == s.conds[c].queue + [s.current.value]
            && s.current.value in s'.tasks && s'.tasks[s.current.value] == Task(Blocked, InWait(c, m)) && s'.current == None
            && m in s'.mutexes && (mu.spin || mu.queue == [] ==> !s'.mutexes[m].locked)
            && (!mu.spin && mu.queue != [] ==> s'.mutexes[m].grants == mu.grants + [mu.queue[0]])
  {
  }

  // ---- who may unlock ------------------------------------------------------------------

  /** The unlock, if the step makes one, is made by a task that was granted the lock; or it is
      one of a free spin lock, which does nothing. */
  ghost predicate ByHolder(s: State, step: Step)
  {
    match step
    case DoUnlock(m) => Holds(s, m) || (m in s.mutexes && !s.mutexes[m].locked)
    case DoWait(_, m) => Holds(s, m) || (m in s.mutexes && !s.mutexes[m].locked)
    case _ => true
  }

  ghost predicate AllSound(s: State)
  {
    forall m :: m in s.mutexes ==> Sound(s.mutexes[m])
  }

  /** On a sound mutex the guard is exact: an unlock neither panics nor leaves a second
      believer, or a believer in a free lock, if and only if the caller holds the lock or it
      is a free spin lock. */
  lemma {:induction false} UnlockExactly(mu: Mutex, t: Tid)
    requires MutexOk(mu) && Sound(mu)
    ensures !UnlockPanics(mu) && Sound(Released(mu, t)) <==> t in mu.believers || (mu.spin && !mu.locked)
  {
    if mu.believers != multiset{} {
      var h :| h in mu.believers;
      OneBeliever(mu.believers, h);
    }
  }

  lemma {:induction false} OneBeliever(b: multiset<Tid>, h: Tid)
    requires |b| <= 1 && h in b
    ensures b == multiset{h}
  {
    assert b == multiset{h} + (b - multiset{h});
  }

  /** A step keeps every mutex sound if and only if its unlock is made by the holder. */
  lemma {:induction false} SoundExactly(s: State, step: Step)
    requires Inv(s) && AllSound(s) && Enabled(s, step)
    ensures AllSound(Next(s, step)) <==> ByHolder(s, step)
  {
    QueueHeadsLive(s);
    match step
    case DoLock(m) => LockSound(s, m);
    case DoUnlock(m) => UnlockSound(s, m);
    case DoWait(_, m) => UnlockSound(s, m);
    case DoResume =>
      var t := s.current.value;
      GrantIn(s, t);
      var pc := s.tasks[t].pc;
      if pc.Spinning? || pc.InWait? {
        LockSound(s, pc.m);
      }
    case _ =>
  }

  lemma {:induction false} LockSound(s: State, m: nat)
    requires AllSound(s) && s.current.Some? && m in s.mutexes
    ensures AllSound(Lock(s, m))
  {
  }

  lemma {:induction false} UnlockSound(s: State, m: nat)
    requires Inv(s) && AllSound(s) && s.current.Some? && m in s.mutexes && !UnlockPanics(s.mutexes[m])
    requires s.mutexes[m].queue != [] ==> s.mutexes[m].queue[0] in s.tasks
    ensures AllSound(Unlock(s, m)) <==> Holds(s, m) || !s.mutexes[m].locked
  {
    MutexIn(s, m);
    UnlockExactly(s.mutexes[m], s.current.value);
    OneSound(s, Unlock(s, m), m, Released(s.mutexes[m], s.current.value));
  }

  lemma {:induction false} OneSound(s: State, s': State, m: nat, mu: Mutex)
    requires AllSound(s) && s'.mutexes == s.mutexes[m := mu]
    ensures AllSound(s') <==> Sound(mu)
  {
    assert s'.mutexes[m] == mu;
  }

  /** `s'` is reached from `s`, and only holders unlocked on the way. */
  ghost predicate ReachesByHolders(s: State, steps: seq<Step>, s': State)
    requires Inv(s)
    decreases |steps|
  {
    if steps == [] then s' == s
    else Enabled(s, steps[0]) && ByHolder(s, steps[0])
         && (NextInv(s, steps[0]); ReachesByHolders(Next(s, steps[0]), steps[1..], s'))
  }

  /** Mutual exclusion: as long as only holders unlock, never two tasks hold a mutex, and it is
      locked exactly while one does. */
  lemma {:induction false} OneHolder(t0: Tid, steps: seq<Step>, s: State, m: nat)
    requires (BootInv(t0); ReachesByHolders(Boot(t0), steps, s)) && m in s.mutexes
    ensures |s.mutexes[m].believers| <= 1 && (s.mutexes[m].locked <==> s.mutexes[m].believers != multiset{})
  {
    BootInv(t0);
    HoldersKeepSound(Boot(t0), steps, s);
  }

  lemma {:induction false} HoldersKeepSound(s: State, steps: seq<Step>, s': State)
    requires Inv(s) && AllSound(s) && ReachesByHolders(s, steps, s')
    ensures AllSound(s')
    decreases |steps|
  {
    if steps != [] {
      NextInv(s, steps[0]);
      SoundExactly(s, steps[0]);
      HoldersKeepSound(Next(s, steps[0]), steps[1..], s');
    }
  }

  /** A run with one more step. */
  lemma {:induction false} OneMore(s: State, steps: seq<Step>, mid: State, step: Step) returns (s': State)
    requires Inv(s) && Reaches(s, steps, mid) && Inv(mid) && Enabled(mid, step)
    ensures s' == Next(mid, step) && Inv(s') && Reaches(s, steps + [step], s')
    decreases |steps|
  {
    NextInv(mid, step);
    if steps == [] {
      s' := Next(mid, step);
    } else {
      NextInv(s, steps[0]);
      s' := OneMore(Next(s, steps[0]), steps[1..], mid, step);
      assert (steps + [step])[1..] == steps[1..] + [step];
    }
  }

  /** Without the guard mutual exclusion fails: task 1 takes a blocking mutex, task 2 unlocks it
      and takes it too. */
  lemma {:induction false} TwoHolders() returns (steps: seq<Step>, s: State)
    ensures (BootInv(1); Reaches(Boot(1), steps, s))
    ensures 0 in s.mutexes && s.mutexes[0].believers == multiset{1, 2}
  {
    steps, s := FirstLocks();
    steps, s := SecondRuns(steps, s);
    BootInv(1);
    var s1 := OneMore(Boot(1), steps, s, DoUnlock(0));
    steps := steps + [DoUnlock(0)];
    assert InUser(s1) && s1.mutexes[0] == Mutex(false, false, [], [1], [1], multiset{1});
    s := OneMore(Boot(1), steps, s1, DoLock(0));
    steps := steps + [DoLock(0)];
  }

  const FIRST_LOCK := Mutex(false, true, [], [1], [1], multiset{1})

  lemma {:induction false} FirstLocks() returns (steps: seq<Step>, s: State)
    ensures (BootInv(1); Reaches(Boot(1), steps, s)) && Inv(s)
    ensures s.current == Some(1) && s.ready == [2] && s.tasks == map[1 := Task(Running, User), 2 := Task(Ready, User)]
    ensures 0 in s.mutexes && s.mutexes[0] == FIRST_LOCK
  {
    BootInv(1);
    var s1 := OneMore(Boot(1), [], Boot(1), DoDispatch);
    steps := [] + [DoDispatch];
    var s2 := OneMore(Boot(1), steps, s1, NewMutex(0, false));
    steps := steps + [NewMutex(0, false)];
    var s3 := OneMore(Boot(1), steps, s2, DoSpawn(2));
    steps := steps + [DoSpawn(2)];
    s := OneMore(Boot(1), steps, s3, DoLock(0));
    steps := steps + [DoLock(0)];
  }

  lemma {:induction false} SecondRuns(steps: seq<Step>, s: State) returns (steps': seq<Step>, s': State)
    requires (BootInv(1); Reaches(Boot(1), steps, s)) && Inv(s)
    requires s.current == Some(1) && s.ready == [2] && s.tasks == map[1 := Task(Running, User), 2 := Task(Ready, User)]
    requires 0 in s.mutexes && s.mutexes[0] == FIRST_LOCK
    ensures (BootInv(1); Reaches(Boot(1), steps', s')) && Inv(s')
    ensures s'.current == Some(2) && 2 in s'.tasks && s'.tasks[2].pc == User
    ensures 0 in s'.mutexes && s'.mutexes[0] == FIRST_LOCK
  {
    BootInv(1);
    var s1 := OneMore(Boot(1), steps, s, DoYield);
    s' := OneMore(Boot(1), steps + [DoYield], s1, DoDispatch);
    steps' := steps + [DoYield] + [DoDispatch];
  }

  function Signals(steps: seq<Step>, c: nat): nat
  {
    if steps == [] then 0 else (if steps[0] == DoSignal(c) then 1 else 0) + Signals(steps[1..], c)
  }

  function Least(a: nat, b: nat): nat { if a < b then a else b }

  /** One step lengthens the logs of a condition variable, and a signal wakes the oldest waiter. */
  lemma {:induction false} CondStep(s: State, step: Step, c: nat)
    requires Inv(s) && Enabled(s, step) && c in s.conds
    ensures var s' := Next(s, step);
            && c in s'.conds && s.conds[c].waits <= s'.conds[c].waits && s.conds[c].woken <= s'.conds[c].woken
            && |s'.conds[c].woken| == |s.conds[c].woken| + if step == DoSignal(c) && s.conds[c].queue != [] then 1 else 0
  {
    QueueHeadsLive(s);
    if step.DoWait? {
      assert Next(s, step).conds == Await(Unlock(s, step.m), step.c, step.m).conds;
    } else if step.DoSignal? {
      assert Next(s, step) == Signal(s, step.c);
    } else {
      CondsStay(s, step, c);
    }
  }

  lemma {:induction false} CondsStay(s: State, step: Step, c: nat)
    requires Inv(s) && Enabled(s, step) && c in s.conds && !step.DoWait? && !step.DoSignal?
    ensures c in Next(s, step).conds && Next(s, step).conds[c] == s.conds[c]
  {
  }

  /** Over any run, signals wake waiters oldest first, one each, and none is lost: the k-th
      waiter of now has been woken once there were more than k signals. */
  lemma {:induction false} NoLostWakeup(s: State, steps: seq<Step>, s': State, c: nat)
    requires Inv(s) && Reaches(s, steps, s') && c in s.conds
    ensures c in s'.conds && s.conds[c].waits <= s'.conds[c].waits && s.conds[c].woken <= s'.conds[c].woken
    ensures |s'.conds[c].woken| <= |s.conds[c].woken| + Signals(steps, c)
    ensures |s'.conds[c].woken| >= Least(|s.conds[c].waits|, |s.conds[c].woken| + Signals(steps, c))
    decreases |steps|
  {
    if steps != [] {
      var s1 := Next(s, steps[0]);
      NextInv(s, steps[0]);
      CondStep(s, steps[0], c);
      NoLostWakeup(s1, steps[1..], s', c);
      CondIn(s, c);
    }
  }

  lemma {:induction false} KthWaiterWoken(s: State, steps: seq<Step>, s': State, c: nat, k: nat)
    requires Inv(s) && Reaches(s, steps, s') && c in s.conds && k < |s.conds[c].queue| && Signals(steps, c) > k
    ensures c in s'.conds && |s.conds[c].woken| + k < |s'.conds[c].woken|
    ensures s'.conds[c].woken[|s.conds[c].woken| + k] == s.conds[c].queue[k]
  {
    NoLostWakeup(s, steps, s', c);
    RunInv(s, steps, s');
    CondIn(s, c);
    CondIn(s', c);
    var j := |s.conds[c].woken| + k;
    assert s'.conds[c].woken[j] == s'.conds[c].waits[j] == s.conds[c].waits[j] == s.conds[c].queue[k];
  }
}
