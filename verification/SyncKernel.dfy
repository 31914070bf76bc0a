/** The scheduler and the synchronisation objects as the kernel updates them in place, proved
against the steps of module `Sync`. The fields are what the kernel stores; program counters
and histories are ghost, and `View` puts the two together. */
module SyncKernel {
  import opened Addresses
  import opened Sync

  datatype MutexCell = MutexCell(spin: bool, locked: bool, queue: seq<Tid>)
  datatype MutexLog = MutexLog(calls: seq<Tid>, grants: seq<Tid>, believers: multiset<Tid>)
  datatype SemCell = SemCell(count: int, queue: seq<Tid>)
  datatype SemLog = SemLog(init: nat, ups: nat, calls: seq<Tid>, passed: seq<Tid>)
  datatype CondLog = CondLog(waits: seq<Tid>, woken: seq<Tid>)

  function MutexOf(c: MutexCell, l: MutexLog): Mutex { Mutex(c.spin, c.locked, c.queue, l.calls, l.grants, l.believers) }
  function SemOf(c: SemCell, l: SemLog): Semaphore { Semaphore(l.init, c.count, c.queue, l.ups, l.calls, l.passed) }
  function CondOf(queue: seq<Tid>, l: CondLog): Condvar { Condvar(queue, l.waits, l.woken) }

  ghost function Tasks(status: map<Tid, Status>, pcs: map<Tid, Pc>): map<Tid, Task>
  {
    map t | t in status && t in pcs :: Task(status[t], pcs[t])
  }

  ghost function Mutexes(cells: map<nat, MutexCell>, logs: map<nat, MutexLog>): map<nat, Mutex>
  {
    map m | m in cells && m in logs :: MutexOf(cells[m], logs[m])
  }

  ghost function Sems(cells: map<nat, SemCell>, logs: map<nat, SemLog>): map<nat, Semaphore>
  {
    map i | i in cells && i in logs :: SemOf(cells[i], logs[i])
  }

  ghost function Conds(queues: map<nat, seq<Tid>>, logs: map<nat, CondLog>): map<nat, Condvar>
  {
    map c | c in queues && c in logs :: CondOf(queues[c], logs[c])
  }

  lemma {:induction false} TaskSet(status: map<Tid, Status>, pcs: map<Tid, Pc>, t: Tid, st: Status, pc: Pc)
    ensures Tasks(status[t := st], pcs[t := pc]) == Tasks(status, pcs)[t := Task(st, pc)]
  {
  }

  class Kernel {
    var current: Option<Tid>
    var ready: seq<Tid>
    var status: map<Tid, Status>
    var mutexes: map<nat, MutexCell>
    var sems: map<nat, SemCell>
    var conds: map<nat, seq<Tid>>

    ghost var pcs: map<Tid, Pc>
    ghost var mutexLogs: map<nat, MutexLog>
    ghost var semLogs: map<nat, SemLog>
    ghost var condLogs: map<nat, CondLog>

    ghost predicate Tied()
      reads this
    {
      status.Keys == pcs.Keys && mutexes.Keys == mutexLogs.Keys && sems.Keys == semLogs.Keys && conds.Keys == condLogs.Keys
    }

    ghost function View(): State
      reads this
    {
      State(current, ready, Tasks(status, pcs), Mutexes(mutexes, mutexLogs), Sems(sems, semLogs), Conds(conds, condLogs))
    }

    ghost predicate Valid()
      reads this
    {
      Tied() && Inv(View())
    }

    constructor (t: Tid)
      ensures View() == Boot(t) && Valid()
    {
      current, ready, status, pcs := None, [t], map[t := Ready], map[t := User];
      mutexes, sems, conds := map[], map[], map[];
      mutexLogs, semLogs, condLogs := map[], map[], map[];
      new;
      BootInv(t);
      assert View() == Boot(t);
    }

    // ---- one cell ----------------------------------------------------------------------

    method SetTask(t: Tid, st: Status, ghost pc: Pc)
      requires Tied()
      modifies this`status, this`pcs
      ensures Tied() && View() == old(View()).(tasks := old(View()).tasks[t := Task(st, pc)])
    {
      status, pcs := status[t := st], pcs[t := pc];
      TaskSet(old(status), old(pcs), t, st, pc);
    }

    method SetMutex(m: nat, cell: MutexCell, ghost log: MutexLog)
      requires Tied()
      modifies this`mutexes, this`mutexLogs
      ensures Tied() && View() == old(View()).(mutexes := old(View()).mutexes[m := MutexOf(cell, log)])
    {
      mutexes, mutexLogs := mutexes[m := cell], mutexLogs[m := log];
    }

    method SetSem(i: nat, cell: SemCell, ghost log: SemLog)
      requires Tied()
      modifies this`sems, this`semLogs
      ensures Tied() && View() == old(View()).(sems := old(View()).sems[i := SemOf(cell, log)])
    {
      sems, semLogs := sems[i := cell], semLogs[i := log];
    }

    method SetCond(c: nat, queue: seq<Tid>, ghost log: CondLog)
      requires Tied()
      modifies this`conds, this`condLogs
      ensures Tied() && View() == old(View()).(conds := old(View()).conds[c := CondOf(queue, log)])
      ensures conds == old(conds)[c := queue]
    {
      conds, condLogs := conds[c := queue], condLogs[c := log];
    }

    // ---- the scheduler -----------------------------------------------------------------

    method WakeupTask(t: Tid)
      requires Tied() && t in status
      modifies this`status, this`pcs, this`ready
      ensures Tied() && t in old(View()).tasks && View() == Wake(old(View()), t)
    {
      SetTask(t, Ready, pcs[t]);
      ready := ready + [t];
    }

    /** `pc` is where execution will go on. */
    method BlockCurrent(ghost pc: Pc)
      requires Tied() && current.Some?
      modifies this`current, this`status, this`pcs
      ensures Tied() && View() == Block(old(View()), pc)
    {
      SetTask(current.value, Blocked, pc);
      current := None;
    }

    method SuspendCurrent(ghost pc: Pc)
      requires Tied() && current.Some?
      modifies this`current, this`status, this`pcs, this`ready
      ensures Tied() && View() == Suspend(old(View()), pc)
    {
      SetTask(current.value, Ready, pc);
      ready := ready + [current.value];
      current := None;
    }

    /** One turn of `run_tasks`: the oldest ready task runs, if there is one. */
    method RunNext()
      requires Valid() && current.None?
      modifies this`current, this`status, this`pcs, this`ready
      ensures View() == Next(old(View()), DoDispatch) && Valid()
      ensures current == if old(ready) == [] then None else Some(old(ready)[0])
    {
      QueueHeadsLive(View());
      NextInv(View(), DoDispatch);
      if ready != [] {
        var t := ready[0];
        SetTask(t, Running, pcs[t]);
        ready, current := ready[1..], Some(t);
      }
    }

    method Yield()
      requires Valid() && InUser(View())
      modifies this`current, this`status, this`pcs, this`ready
      ensures View() == Next(old(View()), DoYield) && Valid()
    {
      NextInv(View(), DoYield);
      SuspendCurrent(User);
    }

    method Spawn(t: Tid)
      requires Valid() && InUser(View()) && t !in status
      modifies this`status, this`pcs, this`ready
      ensures View() == Next(old(View()), DoSpawn(t)) && Valid()
    {
      NextInv(View(), DoSpawn(t));
      SetTask(t, Ready, User);
      ready := ready + [t];
    }

    method Exit()
      requires Valid() && InUser(View())
      modifies this`current, this`status, this`pcs
      ensures View() == Next(old(View()), DoExit) && Valid()
    {
      NextInv(View(), DoExit);
      var t := current.value;
      status, pcs, current := status - {t}, pcs - {t}, None;
      assert Tasks(status, pcs) == old(View()).tasks - {t};
    }

    // ---- mutexes -----------------------------------------------------------------------

    method CreateMutex(m: nat, spin: bool)
      requires Valid() && InUser(View()) && m !in mutexes
      modifies this`mutexes, this`mutexLogs
      ensures View() == Next(old(View()), NewMutex(m, spin)) && Valid()
    {
      NextInv(View(), NewMutex(m, spin));
      SetMutex(m, MutexCell(spin, false, []), MutexLog([], [], multiset{}));
    }

    /** A turn of the lock loop of a spin mutex, or the lock call of a blocking one. */
    method LockStep(m: nat)
      requires Tied() && current.Some? && m in mutexes
      modifies this
      ensures Tied() && m in old(View()).mutexes && View() == Lock(old(View()), m)
    {
      var t, mu := current.value, mutexes[m];
      ghost var log := mutexLogs[m];
      if !mu.spin {
        log := log.(calls := log.calls + [t]);
      }
      if !mu.locked {
        SetMutex(m, mu.(locked := true), log.(grants := log.grants + [t], believers := log.believers + multiset{t}));
        SetTask(t, Running, User);
      } else if mu.spin {
        SuspendCurrent(Spinning(m));
      } else {
        SetMutex(m, mu.(queue := mu.queue + [t]), log);
        BlockCurrent(InLock(m));
      }
    }

    method UnlockStep(m: nat)
      requires Tied() && current.Some? && m in mutexes && (mutexes[m].queue != [] ==> mutexes[m].queue[0] in status)
      modifies this`status, this`pcs, this`ready, this`mutexes, this`mutexLogs
      ensures Tied() && m in old(View()).mutexes
      ensures (old(View()).mutexes[m].queue != [] ==> old(View()).mutexes[m].queue[0] in old(View()).tasks)
              && View() == Unlock(old(View()), m)
    {
      var mu := mutexes[m];
      ghost var log := mutexLogs[m].(believers := mutexLogs[m].believers - multiset{current.value});
      if !mu.spin && mu.queue != [] {
        var next := mu.queue[0];
        SetMutex(m, mu.(queue := mu.queue[1..]), log.(grants := log.grants + [next], believers := log.believers + multiset{next}));
        WakeupTask(next);
      } else {
        SetMutex(m, mu.(locked := false), log);
      }
    }

    method MutexLock(m: nat)
      requires Valid() && InUser(View()) && m in mutexes
      modifies this
      ensures View() == Next(old(View()), DoLock(m)) && Valid()
      ensures m in mutexes && mutexes[m].locked && (InUser(View()) <==> !old(mutexes)[m].locked)
      ensures InUser(View()) ==> Holds(View(), m)
    {
      NextInv(View(), DoLock(m));
      LockReturnsAsHolder(View(), m);
      LockExactly(View(), DoLock(m), m);
      LockStep(m);
    }

    /** `unlock`, by whatever task: it fails exactly on a blocking mutex that is not locked. */
    method MutexUnlock(m: nat) returns (ok: bool)
      requires Valid() && InUser(View()) && m in mutexes
      modifies this
      ensures ok <==> old(mutexes)[m].spin || old(mutexes)[m].locked
      ensures View() == (if ok then Next(old(View()), DoUnlock(m)) else old(View())) && Valid()
    {
      ok := mutexes[m].spin || mutexes[m].locked;
      if ok {
        NextInv(View(), DoUnlock(m));
        QueueHeadsLive(View());
        UnlockStep(m);
      }
    }

    /** A task goes on in the loop of a spin lock, or locks again after a condition wait. */
    method LockAgain(m: nat)
      requires Valid() && Enabled(View(), DoResume)
      requires var pc := pcs[current.value]; pc == Spinning(m) || (pc.InWait? && pc.m == m)
      modifies this
      ensures View() == Next(old(View()), DoResume) && Valid()
      ensures m in mutexes && m in old(mutexes) && mutexes[m].locked && (InUser(View()) <==> !old(mutexes)[m].locked)
      ensures InUser(View()) ==> Holds(View(), m)
    {
      NextInv(View(), DoResume);
      ReturnsAsHolder(View(), m);
      LockExactly(View(), DoResume, m);
      GrantIn(View(), current.value);
      LockStep(m);
    }

    // ---- semaphores --------------------------------------------------------------------

    method CreateSemaphore(i: nat, n: nat)
      requires Valid() && InUser(View()) && i !in sems
      modifies this`sems, this`semLogs
      ensures View() == Next(old(View()), NewSemaphore(i, n)) && Valid()
    {
      NextInv(View(), NewSemaphore(i, n));
      SetSem(i, SemCell(n, []), SemLog(n, 0, [], []));
    }

    /** `up`: when the count was negative there is a waiter to wake. */
    method SemUp(i: nat)
      requires Valid() && InUser(View()) && i in sems
      modifies this`status, this`pcs, this`ready, this`sems, this`semLogs
      ensures View() == Next(old(View()), DoUp(i)) && Valid()
      ensures old(sems)[i].count < 0 ==> old(sems)[i].queue != [] && ready == old(ready) + [old(sems)[i].queue[0]]
    {
      NextInv(View(), DoUp(i));
      QueueHeadsLive(View());
      SemIn(View(), i);
      UpStep(i);
    }

    method UpStep(i: nat)
      requires Tied() && i in sems && (sems[i].queue != [] ==> sems[i].queue[0] in status)
      modifies this`status, this`pcs, this`ready, this`sems, this`semLogs
      ensures Tied() && i in old(View()).sems
      ensures (old(View()).sems[i].queue != [] ==> old(View()).sems[i].queue[0] in old(View()).tasks)
              && View() == Up(old(View()), i)
    {
      var se := sems[i].(count := sems[i].count + 1);
      ghost var log := semLogs[i].(ups := semLogs[i].ups + 1);
      if se.count <= 0 && se.queue != [] {
        var t := se.queue[0];
        SetSem(i, se.(queue := se.queue[1..]), log.(passed := log.passed + [t]));
        WakeupTask(t);
      } else {
        SetSem(i, se, log);
      }
    }

    method SemDown(i: nat)
      requires Valid() && InUser(View()) && i in sems
      modifies this`current, this`status, this`pcs, this`sems, this`semLogs
      ensures View() == Next(old(View()), DoDown(i)) && Valid()
    {
      NextInv(View(), DoDown(i));
      DownStep(i);
    }

    method DownStep(i: nat)
      requires Tied() && current.Some? && i in sems
      modifies this`current, this`status, this`pcs, this`sems, this`semLogs
      ensures Tied() && i in old(View()).sems && View() == Down(old(View()), i)
    {
      var t := current.value;
      var se := sems[i].(count := sems[i].count - 1);
      ghost var log := semLogs[i].(calls := semLogs[i].calls + [t]);
      if se.count < 0 {
        SetSem(i, se.(queue := se.queue + [t]), log);
        BlockCurrent(InDown(i));
      } else {
        SetSem(i, se, log.(passed := log.passed + [t]));
      }
    }

    // ---- condition variables -----------------------------------------------------------

    method CreateCondvar(c: nat)
      requires Valid() && InUser(View()) && c !in conds
      modifies this`conds, this`condLogs
      ensures View() == Next(old(View()), NewCondvar(c)) && Valid()
    {
      NextInv(View(), NewCondvar(c));
      SetCond(c, [], CondLog([], []));
    }

    method CondSignal(c: nat)
      requires Valid() && InUser(View()) && c in conds
      modifies this`status, this`pcs, this`ready, this`conds, this`condLogs
      ensures View() == Next(old(View()), DoSignal(c)) && Valid()
    {
      NextInv(View(), DoSignal(c));
      QueueHeadsLive(View());
      var queue := conds[c];
      if queue != [] {
        var t := queue[0];
        SetCond(c, queue[1..], condLogs[c].(woken := condLogs[c].woken + [t]));
        WakeupTask(t);
      }
    }

    /** `wait_with_mutex` up to the switch: unlock, queue, block. */
    method CondWait(c: nat, m: nat) returns (ok: bool)
      requires Valid() && InUser(View()) && c in conds && m in mutexes
      modifies this
      ensures ok <==> old(mutexes)[m].spin || old(mutexes)[m].locked
      ensures View() == (if ok then Next(old(View()), DoWait(c, m)) else old(View())) && Valid()
      ensures ok ==> c in conds && conds[c] == old(conds)[c] + [old(current).value]
    {
      ok := mutexes[m].spin || mutexes[m].locked;
      if ok {
        NextInv(View(), DoWait(c, m));
        QueueHeadsLive(View());
        UnlockStep(m);
        AwaitStep(c, m);
      }
    }

    method AwaitStep(c: nat, ghost m: nat)
      requires Tied() && current.Some? && c in conds
      modifies this`current, this`status, this`pcs, this`conds, this`condLogs
      ensures Tied() && c in old(View()).conds && View() == Await(old(View()), c, m)
      ensures conds == old(conds)[c := old(conds)[c] + [old(current).value]]
    {
      var t := current.value;
      SetCond(c, conds[c] + [t], condLogs[c].(waits := condLogs[c].waits + [t]));
      BlockCurrent(InWait(c, m));
    }

    /** A call that blocked on a mutex or a semaphore is back: nothing is left to do. */
    method ReturnFromBlock()
      requires Valid() && Enabled(View(), DoResume) && (pcs[current.value].InLock? || pcs[current.value].InDown?)
      modifies this`pcs
      ensures View() == Next(old(View()), DoResume) && Valid()
    {
      ghost var t, s := current.value, View();
      assert s.tasks[t].pc == pcs[t];
      NextInv(s, DoResume);
      CurrentRuns(s);
      pcs := pcs[t := User];
      TaskSet(status, old(pcs), t, Running, User);
    }
  }
}
