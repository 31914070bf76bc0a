/** Clock arithmetic and the timer queue (os/src/timer.rs). */
module Timer {
  import opened Addresses

  const CLOCK_FREQ: nat := 12_500_000
  const MSEC_PER_SEC: nat := 1000
  const NSEC_PER_SEC: nat := 1_000_000_000
  const NSEC_PER_MSEC: nat := 1_000_000
  const ISIZE_LIMIT: nat := 0x8000_0000_0000_0000

  // ---- TimeSpec ------------------------------------------------------------------------

  datatype TimeSpec = TimeSpec(sec: nat, nsec: nat)
  {
    function ToMs(): nat { Wrap(sec * MSEC_PER_SEC + nsec / NSEC_PER_MSEC) }
    function ToNs(): nat { Wrap(sec * NSEC_PER_SEC + nsec) }

    function Add(other: TimeSpec): TimeSpec
    {
      var nsum := Wrap(nsec + other.nsec);
      TimeSpec(Wrap(sec + other.sec + nsum / NSEC_PER_SEC), nsum % NSEC_PER_SEC)
    }

    function Sub(other: TimeSpec): TimeSpec
    {
      if ToNs() <= other.ToNs() then TimeSpec(0, 0) else FromNs(ToNs() - other.ToNs())
    }
  }

  function FromTick(tick: nat): TimeSpec
  {
    TimeSpec(tick / CLOCK_FREQ, Wrap(tick % CLOCK_FREQ * NSEC_PER_SEC) / CLOCK_FREQ)
  }

  function FromNs(ns: nat): TimeSpec { TimeSpec(ns / NSEC_PER_SEC, ns % NSEC_PER_SEC) }

  /** `get_time_ms`. */
  function TickMs(tick: nat): nat { tick / (CLOCK_FREQ / MSEC_PER_SEC) }

  /** The time-of-day reading and the millisecond counter never disagree. */
  lemma {:induction false} TickToMs(tick: nat)
    requires tick < USIZE_LIMIT
    ensures FromTick(tick).ToMs() == TickMs(tick)
    ensures FromTick(tick).nsec == tick % CLOCK_FREQ * 80 < NSEC_PER_SEC
  {
  }

  /** An addition that does not wrap adds the nanoseconds and is normalised. */
  lemma {:induction false} AddIsExact(a: TimeSpec, b: TimeSpec)
    requires a.nsec + b.nsec < USIZE_LIMIT && a.sec + b.sec + (a.nsec + b.nsec) / NSEC_PER_SEC < USIZE_LIMIT
    ensures a.Add(b).nsec < NSEC_PER_SEC
    ensures a.Add(b).sec * NSEC_PER_SEC + a.Add(b).nsec == (a.sec + b.sec) * NSEC_PER_SEC + a.nsec + b.nsec
  {
  }

  /** Subtraction is that of the nanoseconds, normalised, and zero where it would be negative. */
  lemma {:induction false} SubIsExact(a: TimeSpec, b: TimeSpec)
    requires a.sec * NSEC_PER_SEC + a.nsec < USIZE_LIMIT && b.sec * NSEC_PER_SEC + b.nsec < USIZE_LIMIT
    ensures a.Sub(b).nsec < NSEC_PER_SEC
    ensures var x, y := a.sec * NSEC_PER_SEC + a.nsec, b.sec * NSEC_PER_SEC + b.nsec;
            a.Sub(b).sec * NSEC_PER_SEC + a.Sub(b).nsec == if x <= y then 0 else x - y
  {
  }

  /** Subtraction undoes addition as long as nanoseconds fit a word. */
  lemma {:induction false} SubUndoesAdd(a: TimeSpec, b: TimeSpec)
    requires a.nsec < NSEC_PER_SEC && b.nsec < NSEC_PER_SEC
    requires (a.sec + b.sec + 2) * NSEC_PER_SEC < USIZE_LIMIT
    ensures a.Add(b).Sub(b) == a
  {
  }

  /** When the millisecond counter has reached a deadline, the deadline is less than a
      millisecond ahead of the clock. */
  lemma {:induction false} DeadlineWithinMs(end: TimeSpec, tick: nat)
    requires end.nsec < NSEC_PER_SEC && tick < USIZE_LIMIT && (end.sec + 1) * MSEC_PER_SEC < USIZE_LIMIT
    requires end.ToMs() <= TickMs(tick)
    ensures var now := FromTick(tick);
            end.sec * NSEC_PER_SEC + end.nsec < now.sec * NSEC_PER_SEC + now.nsec + NSEC_PER_MSEC
  {
  }

  /** `a <= b` as `TimeSpec` compares. */
  predicate NoLater(a: TimeSpec, b: TimeSpec) { a.sec < b.sec || (a.sec == b.sec && a.nsec <= b.nsec) }

  /** The assertion that a woken sleeper's deadline has passed holds at every wake-up time exactly
      when the deadline is a whole number of milliseconds. */
  lemma {:induction false} DeadlinePassedExactly(end: TimeSpec)
    requires end.nsec < NSEC_PER_SEC && (end.sec + 1) * CLOCK_FREQ < USIZE_LIMIT
    ensures (forall tick :: 0 <= tick < USIZE_LIMIT && end.ToMs() <= TickMs(tick) ==> NoLater(end, FromTick(tick)))
            <==> end.nsec % NSEC_PER_MSEC == 0
  {
    var ms := end.sec * MSEC_PER_SEC + end.nsec / NSEC_PER_MSEC;
    assert end.ToMs() == ms;
    if end.nsec % NSEC_PER_MSEC == 0 {
      forall tick | 0 <= tick < USIZE_LIMIT && ms <= TickMs(tick) ensures NoLater(end, FromTick(tick)) {
        WholeMsPassed(end, tick);
      }
    } else {
      AtTheMs(end);
      assert !NoLater(end, FromTick(ms * 12500)) && ms <= TickMs(ms * 12500);
    }
  }

  lemma {:induction false} WholeMsPassed(end: TimeSpec, tick: nat)
    requires end.nsec < NSEC_PER_SEC && end.nsec % NSEC_PER_MSEC == 0 && tick < USIZE_LIMIT
    requires end.sec * MSEC_PER_SEC + end.nsec / NSEC_PER_MSEC <= TickMs(tick)
    ensures NoLater(end, FromTick(tick))
  {
  }

  /** At the tick where its millisecond begins, a deadline inside that millisecond is ahead. */
  lemma {:induction false} AtTheMs(end: TimeSpec)
    requires end.nsec < NSEC_PER_SEC && end.nsec % NSEC_PER_MSEC != 0
    ensures var ms := end.sec * MSEC_PER_SEC + end.nsec / NSEC_PER_MSEC;
            TickMs(ms * 12500) == ms && !NoLater(end, FromTick(ms * 12500))
  {
  }

  // ---- the timer queue -----------------------------------------------------------------

  datatype Entry = Entry(expire: nat, task: nat)

  /** The heap's key: the expiry as an `isize`, negated with wrap-around. */
  function Key(e: Entry): int
    requires e.expire < USIZE_LIMIT
  {
    if e.expire < ISIZE_LIMIT then 0 - e.expire as int
    else if e.expire == ISIZE_LIMIT then 0 - ISIZE_LIMIT as int
    else USIZE_LIMIT - e.expire
  }

  predicate Words(heap: multiset<Entry>) { forall e :: e in heap ==> e.expire < USIZE_LIMIT }

  ghost predicate IsTop(heap: multiset<Entry>, e: Entry)
    requires Words(heap)
  {
    e in heap && forall f :: f in heap ==> Key(f) <= Key(e)
  }

  lemma {:induction false} TopExists(heap: multiset<Entry>)
    requires Words(heap) && |heap| > 0
    ensures exists e :: IsTop(heap, e)
    decreases |heap|
  {
    var e :| e in heap;
    var rest := heap - multiset{e};
    if |rest| > 0 {
      TopExists(rest);
      var f :| IsTop(rest, f);
      assert IsTop(heap, if Key(e) <= Key(f) then f else e);
    } else {
      assert rest == multiset{};
      assert heap == multiset{e};
      assert IsTop(heap, e);
    }
  }

  /** What `check_timer` promises: the woken entries are those that have expired, earliest
      first; the others stay. */
  ghost predicate Checked(heap: multiset<Entry>, now: nat, woken: seq<Entry>, heap': multiset<Entry>)
  {
    && heap == multiset(woken) + heap'
    && (forall i :: 0 <= i < |woken| ==> woken[i].expire <= now)
    && (forall e :: e in heap' ==> e.expire > now)
    && (forall i, j :: 0 <= i < j < |woken| ==> woken[i].expire <= woken[j].expire)
  }

  /** An expiry so late that the key wraps round to the front of the queue. */
  ghost predicate Stuck(heap: multiset<Entry>) { exists e :: e in heap && e.expire > ISIZE_LIMIT }

  ghost predicate Due(heap: multiset<Entry>, now: nat) { exists e :: e in heap && e.expire <= now }

  /** What `check_timer` does: what it promises, or nothing at all. */
  ghost predicate Ticked(heap: multiset<Entry>, now: nat, woken: seq<Entry>, heap': multiset<Entry>)
  {
    if Stuck(heap) then woken == [] && heap' == heap else Checked(heap, now, woken, heap')
  }

  class TimerQueue {
    var heap: multiset<Entry>

    constructor ()
      ensures heap == multiset{}
    {
      heap := multiset{};
    }

    /** `add_timer`. */
    method AddTimer(expire: nat, task: nat)
      modifies this
      ensures heap == old(heap) + multiset{Entry(expire, task)}
    {
      heap := heap + multiset{Entry(expire, task)};
    }

    /** A greatest element of the heap; which one among equals is up to the heap. */
    method Peek() returns (r: Option<Entry>)
      requires Words(heap)
      ensures r.None? <==> heap == multiset{}
      ensures r.Some? ==> IsTop(heap, r.value)
    {
      if |heap| == 0 {
        return None;
      }
      TopExists(heap);
      ghost var top :| IsTop(heap, top);
      var rest := heap;
      var best :| best in heap;
      while rest != multiset{}
        invariant rest <= heap && best in heap
        invariant forall f :: f in heap && f !in rest ==> Key(f) <= Key(best)
        decreases |rest|
      {
        var e :| e in rest;
        if Key(e) > Key(best) {
          best := e;
        }
        rest := rest[e := 0];
      }
      return Some(best);
    }

    /** `check_timer` at millisecond `now`. It does what it promises exactly when nothing is
        due or no expiry is past 2^63. */
    method CheckTimer(now: nat) returns (woken: seq<Entry>)
      requires Words(heap) && now < ISIZE_LIMIT
      modifies this
      ensures Words(heap)
      ensures Checked(old(heap), now, woken, heap) <==> (!old(Stuck(heap)) || !old(Due(heap, now)))
      ensures Ticked(old(heap), now, woken, heap)
    {
      woken := [];
      ghost var heap0 := heap;
      while true
        invariant Words(heap) && SoFar(heap0, now, woken, heap)
        decreases |heap|
      {
        var top := Peek();
        if top.None? {
          CheckEnds(heap0, now, woken, heap);
          break;
        }
        if top.value.expire > now {
          TopIsEarliest(heap, top.value, now);
          CheckEnds(heap0, now, woken, heap);
          break;
        }
        CheckStep(heap0, now, woken, heap, top.value);
        woken := woken + [top.value];
        heap := heap - multiset{top.value};
      }
    }
  }

  /** The state of the loop: `woken` was taken from the top, in order. */
  ghost predicate SoFar(heap0: multiset<Entry>, now: nat, woken: seq<Entry>, heap: multiset<Entry>)
  {
    && heap0 == multiset(woken) + heap
    && (Stuck(heap0) ==> woken == [] && heap == heap0)
    && (forall i :: 0 <= i < |woken| ==> woken[i].expire <= now)
    && (forall i, j :: 0 <= i < j < |woken| ==> woken[i].expire <= woken[j].expire)
    && (woken != [] ==> forall e :: e in heap ==> woken[|woken| - 1].expire <= e.expire)
  }

  lemma {:induction false} CheckStep(heap0: multiset<Entry>, now: nat, woken: seq<Entry>, heap: multiset<Entry>, top: Entry)
    requires SoFar(heap0, now, woken, heap) && Words(heap) && IsTop(heap, top) && top.expire <= now < ISIZE_LIMIT
    ensures SoFar(heap0, now, woken + [top], heap - multiset{top})
  {
    TopIsEarliest(heap, top, now);
    var w, h := woken + [top], heap - multiset{top};
    assert heap0 == multiset(w) + h by {
      assert multiset(w) == multiset(woken) + multiset{top};
      assert heap == h + multiset{top};
    }
    assert forall e :: e in h ==> e in heap;
    Ordered(woken, top);
  }

  lemma {:induction false} Ordered(woken: seq<Entry>, top: Entry)
    requires forall i, j :: 0 <= i < j < |woken| ==> woken[i].expire <= woken[j].expire
    requires woken != [] ==> woken[|woken| - 1].expire <= top.expire
    ensures var w := woken + [top]; forall i, j :: 0 <= i < j < |w| ==> w[i].expire <= w[j].expire
  {
  }

  lemma {:induction false} CheckEnds(heap0: multiset<Entry>, now: nat, woken: seq<Entry>, heap: multiset<Entry>)
    requires SoFar(heap0, now, woken, heap) && now < ISIZE_LIMIT
    requires Stuck(heap) || forall e :: e in heap ==> e.expire > now
    ensures Checked(heap0, now, woken, heap) <==> (!Stuck(heap0) || !Due(heap0, now))
    ensures Ticked(heap0, now, woken, heap)
  {
  }

  /** Without a stuck expiry the top of the heap expires first, and with one it is stuck. */
  lemma {:induction false} TopIsEarliest(heap: multiset<Entry>, top: Entry, now: nat)
    requires Words(heap) && IsTop(heap, top) && now < ISIZE_LIMIT
    ensures top.expire <= now ==> !Stuck(heap)
    ensures !Stuck(heap) && top.expire < ISIZE_LIMIT ==> forall e :: e in heap ==> top.expire <= e.expire
    ensures !Stuck(heap) ==> top.expire <= ISIZE_LIMIT
    ensures !Stuck(heap) && top.expire > now ==> forall e :: e in heap ==> e.expire > now
  {
  }
}

/** Sleeping tasks (os/src/syscall/process.rs, os/src/hal/arch/riscv/trap/mod.rs).

A timer interrupt may run `check_timer` at any point of a system call, in particular between
the `add_timer` and the blocking of a sleeper. */
module Sleep {
  import opened Addresses
  import opened Frames
  import opened Timer

  type Tid = nat

  datatype Phase =
    | Awake
    | Armed      // the timer is set, but it has not blocked yet
    | Asleep     // blocked, until it is dispatched again

  datatype Sleeper = Sleeper(phase: Phase, deadline: nat)

  datatype State = State(now: nat, current: Option<Tid>, ready: seq<Tid>, tasks: map<Tid, Sleeper>, heap: multiset<Entry>)

  datatype Step =
    | DoDispatch
    | DoYield
    | DoArm(expire: nat)                                        // add_timer
    | DoBlock                                                   // block_current_and_run_next
    | DoTick(now: nat, woken: seq<Entry>, heap: multiset<Entry>)   // check_timer

  /** The timer of `t` has not fired. */
  ghost predicate Pending(s: State, t: Tid)
  {
    t in s.tasks && Entry(s.tasks[t].deadline, t) in s.heap
  }

  ghost predicate OnCpu(s: State, t: Tid) { s.current == Some(t) }

  /** A task is waited for in exactly one way: it runs, or it is queued once, or its timer is
      pending. A task that has set its timer but still runs counts by its timer or its place
      in the queue, so that it is not lost whichever comes first. */
  ghost predicate Inv(s: State)
  {
    && NoDup(s.ready) && Words(s.heap)
    && (s.current.Some? ==> s.current.value in s.tasks)
    && (forall t :: t in s.ready ==> t in s.tasks)
    && (forall e :: e in s.heap ==> s.heap[e] == 1 && Pending(s, e.task) && e.expire == s.tasks[e.task].deadline)
    && (forall t :: t in s.tasks ==> TaskOk(s, t))
  }

  ghost predicate TaskOk(s: State, t: Tid)
    requires t in s.tasks
  {
    match s.tasks[t].phase
    case Awake => !Pending(s, t) && (OnCpu(s, t) <==> t !in s.ready)
    case Armed => OnCpu(s, t) && (Pending(s, t) <==> t !in s.ready) && (t in s.ready ==> s.tasks[t].deadline <= s.now)
    case Asleep => !OnCpu(s, t) && (Pending(s, t) <==> t !in s.ready) && (t in s.ready ==> s.tasks[t].deadline <= s.now)
  }

  function TasksOf(woken: seq<Entry>): (ts: seq<Tid>)
    ensures |ts| == |woken| && forall i :: 0 <= i < |ts| ==> ts[i] == woken[i].task
  {
    seq(|woken|, i requires 0 <= i < |woken| => woken[i].task)
  }

  ghost predicate Enabled(s: State, step: Step)
  {
    match step
    case DoDispatch => s.current.None? && s.ready != []
    case DoYield => s.current.Some? && s.current.value in s.tasks && s.tasks[s.current.value].phase == Awake
    case DoArm(expire) => expire < USIZE_LIMIT && s.current.Some? && s.current.value in s.tasks && s.tasks[s.current.value].phase == Awake
    case DoBlock => s.current.Some? && s.current.value in s.tasks && s.tasks[s.current.value].phase == Armed
    case DoTick(now, woken, heap) => s.now <= now < ISIZE_LIMIT && Ticked(s.heap, now, woken, heap)
  }

  ghost function Next(s: State, step: Step): State
    requires Inv(s) && Enabled(s, step)
  {
    match step
    case DoDispatch =>
      var t := s.ready[0];
      assert t in s.ready;
      s.(ready := s.ready[1..], current := Some(t), tasks := s.tasks[t := s.tasks[t].(phase := Awake)])
    case DoYield => s.(ready := s.ready + [s.current.value], current := None)
    case DoArm(expire) =>
      var t := s.current.value;
      s.(heap := s.heap + multiset{Entry(expire, t)}, tasks := s.tasks[t := Sleeper(Armed, expire)])
    case DoBlock =>
      var t := s.current.value;
      s.(current := None, tasks := s.tasks[t := s.tasks[t].(phase := Asleep)])
    case DoTick(now, woken, heap) => s.(now := now, heap := heap, ready := s.ready + TasksOf(woken))
  }

  lemma {:induction false} DispatchInv(s: State)
    requires Inv(s) && Enabled(s, DoDispatch)
    ensures Inv(Next(s, DoDispatch))
  {
  }

  lemma {:induction false} YieldInv(s: State)
    requires Inv(s) && Enabled(s, DoYield)
    ensures Inv(Next(s, DoYield))
  {
  }

  lemma {:induction false} ArmInv(s: State, expire: nat)
    requires Inv(s) && Enabled(s, DoArm(expire))
    ensures Inv(Next(s, DoArm(expire)))
  {
  }

  lemma {:induction false} BlockInv(s: State)
    requires Inv(s) && Enabled(s, DoBlock)
    ensures Inv(Next(s, DoBlock))
  {
  }

  /** The tasks of the fired entries are distinct and were not queued. */
  lemma {:induction false} FiredOnce(s: State, woken: seq<Entry>, heap: multiset<Entry>)
    requires Inv(s) && s.heap == multiset(woken) + heap
    ensures NoDup(TasksOf(woken))
    ensures forall i :: 0 <= i < |woken| ==> woken[i] in s.heap && woken[i] !in heap && woken[i].task in s.tasks && woken[i].task !in s.ready
    ensures forall e :: e in s.heap && e !in heap ==> exists i :: 0 <= i < |woken| && woken[i] == e
  {
    forall i | 0 <= i < |woken|
      ensures woken[i] in s.heap && woken[i] !in heap && woken[i].task in s.tasks && woken[i].task !in s.ready
    {
      assert woken[i] in multiset(woken);
      assert TaskOk(s, woken[i].task);
    }
    forall i, j | 0 <= i < j < |woken| ensures woken[i].task != woken[j].task {
      if woken[i] == woken[j] {
        TwiceInside(woken, i, j);
      }
    }
  }

  lemma {:induction false} TwiceInside(w: seq<Entry>, i: nat, j: nat)
    requires i < j < |w| && w[i] == w[j]
    ensures multiset(w)[w[i]] >= 2
  {
    assert w == w[..i] + [w[i]] + w[i + 1..j] + [w[j]] + w[j + 1..];
  }

  lemma {:induction false} TickTask(s: State, now: nat, woken: seq<Entry>, heap: multiset<Entry>, x: Tid)
    requires Inv(s) && Enabled(s, DoTick(now, woken, heap)) && x in s.tasks
    ensures TaskOk(Next(s, DoTick(now, woken, heap)), x)
  {
  }

  lemma {:induction false} TickInv(s: State, now: nat, woken: seq<Entry>, heap: multiset<Entry>)
    requires Inv(s) && Enabled(s, DoTick(now, woken, heap))
    ensures Inv(Next(s, DoTick(now, woken, heap)))
  {
    var ts, s' := TasksOf(woken), Next(s, DoTick(now, woken, heap));
    TickSplits(s.heap, now, woken, heap);
    FiredOnce(s, woken, heap);
    NoDupAppend(s.ready, ts);
    forall x | x in s'.tasks ensures TaskOk(s', x) {
      TickTask(s, now, woken, heap, x);
    }
    forall e | e in s'.heap ensures s'.heap[e] == 1 && Pending(s', e.task) && e.expire == s'.tasks[e.task].deadline {
      assert e in s.heap;
    }
  }

  lemma {:induction false} TickSplits(heap: multiset<Entry>, now: nat, woken: seq<Entry>, heap': multiset<Entry>)
    requires Ticked(heap, now, woken, heap')
    ensures heap == multiset(woken) + heap'
    ensures forall i :: 0 <= i < |woken| ==> woken[i].expire <= now
  {
  }

  /** No interleaving of interrupts and blocking loses a sleeper or queues it twice. */
  lemma {:induction false} NextInv(s: State, step: Step)
    requires Inv(s) && Enabled(s, step)
    ensures Inv(Next(s, step))
  {
    match step
    case DoDispatch => DispatchInv(s);
    case DoYield => YieldInv(s);
    case DoArm(expire) => ArmInv(s, expire);
    case DoBlock => BlockInv(s);
    case DoTick(now, woken, heap) => TickInv(s, now, woken, heap);
  }

  ghost predicate Reaches(s: State, steps: seq<Step>, s': State)
    requires Inv(s)
    decreases |steps|
  {
    if steps == [] then s' == s
    else Enabled(s, steps[0]) && (NextInv(s, steps[0]); Reaches(Next(s, steps[0]), steps[1..], s'))
  }

  lemma {:induction false} RunInv(s: State, steps: seq<Step>, s': State)
    requires Inv(s) && Reaches(s, steps, s')
    ensures Inv(s')
    decreases |steps|
  {
    if steps != [] {
      NextInv(s, steps[0]);
      RunInv(Next(s, steps[0]), steps[1..], s');
    }
  }

  /** All tasks are ready and none has set a timer. */
  function Boot(ts: seq<Tid>): State
  {
    State(0, None, ts, map t | t in ts :: Sleeper(Awake, 0), multiset{})
  }

  lemma {:induction false} BootInv(ts: seq<Tid>)
    requires NoDup(ts)
    ensures Inv(Boot(ts))
  {
  }

  /** In every reachable state a sleeper is in the ready queue once if its timer has fired and
      not at all before; it is never dispatched before its deadline. */
  lemma {:induction false} SleeperWokenOnce(ts: seq<Tid>, steps: seq<Step>, s: State, t: Tid)
    requires NoDup(ts) && (BootInv(ts); Reaches(Boot(ts), steps, s))
    requires t in s.tasks && s.tasks[t].phase != Awake
    ensures multiset(s.ready)[t] == if Pending(s, t) then 0 else 1
    ensures t in s.ready ==> s.tasks[t].deadline <= s.now
  {
    BootInv(ts);
    RunInv(Boot(ts), steps, s);
    assert TaskOk(s, t);
    if t in s.ready {
      NoDupOnce(s.ready, t);
    }
  }

  /** The run dispatches `t`. */
  ghost predicate RunsAgain(s: State, steps: seq<Step>, t: Tid)
    requires Inv(s)
    decreases |steps|
  {
    && steps != [] && Enabled(s, steps[0])
    && ((steps[0].DoDispatch? && s.ready[0] == t) || (NextInv(s, steps[0]); RunsAgain(Next(s, steps[0]), steps[1..], t)))
  }

  lemma {:induction false} StillSleeping(s: State, step: Step, t: Tid)
    requires Inv(s) && Enabled(s, step) && t in s.tasks && s.tasks[t].phase != Awake && !(step.DoDispatch? && s.ready[0] == t)
    ensures var s' := Next(s, step); t in s'.tasks && s'.tasks[t].phase != Awake && s'.tasks[t].deadline == s.tasks[t].deadline
  {
    assert TaskOk(s, t);
  }

  lemma {:induction false} SleepsOn(s: State, steps: seq<Step>, s': State, t: Tid)
    requires Inv(s) && Reaches(s, steps, s') && !RunsAgain(s, steps, t) && t in s.tasks && s.tasks[t].phase != Awake
    ensures t in s'.tasks && s'.tasks[t].phase != Awake && s'.tasks[t].deadline == s.tasks[t].deadline
    decreases |steps|
  {
    if steps != [] {
      NextInv(s, steps[0]);
      StillSleeping(s, steps[0], t);
      SleepsOn(Next(s, steps[0]), steps[1..], s', t);
    }
  }

  /** A task that sets its timer to `expire`, in any run after that and until it is dispatched
      again: its entry is in the heap, or the time has come and it is in the ready queue, once;
      and never both. */
  lemma {:induction false} SleepsUntil(s: State, expire: nat, steps: seq<Step>, s': State)
    requires Inv(s) && Enabled(s, DoArm(expire))
    requires (NextInv(s, DoArm(expire)); Reaches(Next(s, DoArm(expire)), steps, s'))
    requires !RunsAgain(Next(s, DoArm(expire)), steps, s.current.value)
    ensures var t := s.current.value;
            && (Entry(expire, t) in s'.heap <==> t !in s'.ready)
            && (t in s'.ready ==> expire <= s'.now && multiset(s'.ready)[t] == 1)
  {
    var t, s1 := s.current.value, Next(s, DoArm(expire));
    NextInv(s, DoArm(expire));
    SleepsOn(s1, steps, s', t);
    RunInv(s1, steps, s');
    assert TaskOk(s', t);
    if t in s'.ready {
      NoDupOnce(s'.ready, t);
    }
  }

  /** Every sleeper whose deadline has come is queued. */
  ghost predicate AllDueQueued(s: State)
  {
    forall t :: t in s.tasks && s.tasks[t].phase != Awake && s.tasks[t].deadline <= s.now ==> t in s.ready
  }

  /** A tick leaves no sleeper waiting past its deadline if and only if nobody sleeps for a
      moment past 2^63 or nothing is due. */
  lemma {:induction false} TickWakesExactly(s: State, now: nat, woken: seq<Entry>, heap: multiset<Entry>)
    requires Inv(s) && Enabled(s, DoTick(now, woken, heap))
    ensures AllDueQueued(Next(s, DoTick(now, woken, heap))) <==> !Stuck(s.heap) || !Due(s.heap, now)
  {
    var s' := Next(s, DoTick(now, woken, heap));
    TickInv(s, now, woken, heap);
    forall t | t in s'.tasks && s'.tasks[t].phase != Awake && s'.tasks[t].deadline <= now
      ensures t in s'.ready <==> !Pending(s', t)
    {
      assert TaskOk(s', t);
    }
    if Stuck(s.heap) && Due(s.heap, now) {
      var e :| e in s.heap && e.expire <= now;
      assert TaskOk(s', e.task);
    }
  }

  /** One sleeper past 2^63 stops the clock for good: in no run after that does any timer fire
      again, so whoever sleeps by then, or falls asleep later, is never queued. */
  lemma {:induction false} StuckForever(s: State, steps: seq<Step>, s': State, e: Entry)
    requires Inv(s) && Stuck(s.heap) && Reaches(s, steps, s') && e in s.heap
    ensures Stuck(s'.heap) && s.heap <= s'.heap
    ensures Pending(s', e.task) && e.task !in s'.ready
    decreases |steps|
  {
    if steps == [] {
      assert TaskOk(s, e.task);
    } else {
      var s1 := Next(s, steps[0]);
      NextInv(s, steps[0]);
      var late :| late in s.heap && late.expire > ISIZE_LIMIT;
      assert late in s1.heap;
      StuckForever(s1, steps[1..], s', e);
    }
  }
}
