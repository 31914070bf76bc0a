/** The ring buffer of a pipe and the atomic stretches of its read and write calls
(os/src/fs/pipe.rs). */
module Pipe {

  const RING_BUFFER_SIZE: nat := 32

  datatype RingBufferStatus = Full | Empty | Normal

  function Count(head: nat, tail: nat, status: RingBufferStatus): nat
    requires head < RING_BUFFER_SIZE && tail < RING_BUFFER_SIZE
  {
    if status.Empty? then 0 else if tail > head then tail - head else tail + RING_BUFFER_SIZE - head
  }

  /** The place `i` steps after `h` on the ring. */
  function Slot(h: nat, i: nat): (k: nat)
    requires h < RING_BUFFER_SIZE && i <= RING_BUFFER_SIZE
    ensures k < RING_BUFFER_SIZE && k == (h + i) % RING_BUFFER_SIZE
  {
    if h + i < RING_BUFFER_SIZE then h + i else h + i - RING_BUFFER_SIZE
  }

  class PipeRingBuffer {
    const arr: array<nat>
    var head: nat
    var tail: nat
    var status: RingBufferStatus

    ghost predicate Valid()
      reads this
    {
      && arr.Length == RING_BUFFER_SIZE && head < RING_BUFFER_SIZE && tail < RING_BUFFER_SIZE
      && (status.Normal? <==> head != tail)
    }

    /** The bytes in the pipe, oldest first. */
    ghost function Contents(): (s: seq<nat>)
      requires Valid()
      reads this, arr
      ensures |s| == Count(head, tail, status) <= RING_BUFFER_SIZE
    {
      seq(Count(head, tail, status), i requires 0 <= i < RING_BUFFER_SIZE && Valid() reads this, arr => arr[Slot(head, i)])
    }

    constructor ()
      ensures Valid() && fresh(arr) && Contents() == []
    {
      arr := new nat[RING_BUFFER_SIZE](_ => 0);
      head, tail, status := 0, 0, Empty;
    }

    method WriteByte(b: nat)
      requires Valid() && !status.Full?
      modifies this, arr
      ensures Valid() && Contents() == old(Contents()) + [b]
    {
      ghost var before, h, n := Contents(), head, |Contents()|;
      status := Normal;
      arr[tail] := b;
      assert Slot(h, n) == tail;
      forall i | 0 <= i < n ensures arr[Slot(h, i)] == before[i] {
        assert Slot(h, i) != tail;
      }
      tail := (tail + 1) % RING_BUFFER_SIZE;
      if tail == head {
        status := Full;
      }
    }

    method ReadByte() returns (c: nat)
      requires Valid() && !status.Empty?
      modifies this
      ensures Valid() && [c] + Contents() == old(Contents())
    {
      ghost var before, h := Contents(), head;
      status := Normal;
      c := arr[head];
      head := (head + 1) % RING_BUFFER_SIZE;
      if head == tail {
        status := Empty;
      }
      forall i | 0 <= i < |Contents()| ensures Contents()[i] == before[i + 1] {
        assert Slot(head, i) == Slot(h, i + 1);
      }
    }

    method AvailableRead() returns (n: nat)
      requires Valid()
      ensures n == |Contents()| && (n == 0 <==> status.Empty?)
    {
      n := if status.Empty? then 0 else if tail > head then tail - head else tail + RING_BUFFER_SIZE - head;
    }

    method AvailableWrite() returns (n: nat)
      requires Valid()
      ensures n == RING_BUFFER_SIZE - |Contents()| && (n == 0 <==> status.Full?)
    {
      if status.Full? {
        return 0;
      }
      var r := AvailableRead();
      n := RING_BUFFER_SIZE - r;
    }
  }

  function Min(a: nat, b: nat): nat { if a < b then a else b }

  /** How many bytes a read takes before it returns or waits, and whether it returns. */
  function ReadMoves(avail: nat, rest: nat): nat { Min(avail, rest) }

  predicate ReadReturns(avail: nat, rest: nat, quit: bool)
  {
    (avail > 0 && rest <= avail) || (avail <= rest && quit)
  }

  predicate WriteReturns(space: nat, rest: nat, nonblocking: bool)
  {
    (space > 0 && rest <= space) || (space <= rest && nonblocking)
  }

  lemma {:induction false} TakeOne(before: seq<nat>, i: nat, b: nat, rest: seq<nat>)
    requires i <= |before| && [b] + rest == before[i..]
    ensures i < |before| && before[..i + 1] == before[..i] + [b] && before[i + 1..] == rest
  {
  }

  /** The inner loop of `read`: take up to `n` bytes. */
  method TakeBytes(ring: PipeRingBuffer, n: nat, want: nat, got: seq<nat>) returns (got': seq<nat>, done: bool)
    requires ring.Valid() && |got| <= want && n == |ring.Contents()| > 0
    modifies ring
    ensures ring.Valid()
    ensures var k := Min(n, want - |got|);
            got' == got + old(ring.Contents())[..k] && ring.Contents() == old(ring.Contents())[k..]
    ensures done <==> want - |got| <= n
  {
    got' := got;
    ghost var before := ring.Contents();
    for i := 0 to n
      invariant ring.Valid() && i <= want - |got| && got' == got + before[..i] && ring.Contents() == before[i..]
      invariant i > 0 ==> |got'| < want
    {
      if |got'| == want {
        return got', true;
      }
      var b := ring.ReadByte();
      TakeOne(before, i, b, ring.Contents());
      got' := got' + [b];
      if |got'| == want {
        return got', true;
      }
    }
    return got', false;
  }

  /** `read` from one switch to the next: `closed` says that no write end is left. */
  method ReadSegment(ring: PipeRingBuffer, want: nat, got: seq<nat>, nonblocking: bool, closed: bool)
    returns (got': seq<nat>, returned: bool)
    requires ring.Valid() && |got| <= want
    modifies ring
    ensures ring.Valid()
    ensures var was := old(ring.Contents());
            var k := ReadMoves(|was|, want - |got|);
            && got' == got + was[..k] && ring.Contents() == was[k..]
            && (returned <==> ReadReturns(|was|, want - |got|, nonblocking || closed))
  {
    got' := got;
    ghost var was, k := ring.Contents(), 0;
    while true
      invariant ring.Valid() && 0 <= k <= |was| && |got'| <= want
      invariant got' == got + was[..k] && ring.Contents() == was[k..]
      invariant k > 0 ==> k == |was| && |got'| < want
      decreases |ring.Contents()|
    {
      var n := ring.AvailableRead();
      if n == 0 {
        if nonblocking {
          return got', true;
        }
        if closed {
          return got', true;
        }
        return got', false; // suspend, and look again when dispatched
      }
      assert got' == got;
      var done;
      got', done := TakeBytes(ring, n, want, got');
      k := |got'| - |got|;
      if done {
        return got', true;
      }
    }
  }

  /** The inner loop of `write`: put up to `n` bytes. */
  method PutBytes(ring: PipeRingBuffer, n: nat, data: seq<nat>, from: nat) returns (to: nat, done: bool)
    requires ring.Valid() && from <= |data| && n == RING_BUFFER_SIZE - |ring.Contents()| > 0
    modifies ring, ring.arr
    ensures ring.Valid() && to == from + Min(n, |data| - from)
    ensures ring.Contents() == old(ring.Contents()) + data[from..to]
    ensures done <==> |data| - from <= n
  {
    to := from;
    ghost var before := ring.Contents();
    for i := 0 to n
      invariant ring.Valid() && to == from + i <= |data| && ring.Contents() == before + data[from..to]
      invariant i > 0 ==> to < |data|
    {
      if to == |data| {
        return to, true;
      }
      ring.WriteByte(data[to]);
      assert data[from..to + 1] == data[from..to] + [data[to]];
      to := to + 1;
      if to == |data| {
        return to, true;
      }
    }
    return to, false;
  }

  /** `write` from one switch to the next. */
  method WriteSegment(ring: PipeRingBuffer, data: seq<nat>, from: nat, nonblocking: bool) returns (to: nat, returned: bool)
    requires ring.Valid() && from <= |data|
    modifies ring, ring.arr
    ensures ring.Valid() && to == from + Min(RING_BUFFER_SIZE - |old(ring.Contents())|, |data| - from)
    ensures ring.Contents() == old(ring.Contents()) + data[from..to]
    ensures returned <==> WriteReturns(RING_BUFFER_SIZE - |old(ring.Contents())|, |data| - from, nonblocking)
  {
    to := from;
    ghost var was := ring.Contents();
    while true
      invariant ring.Valid() && from <= to <= |data| && ring.Contents() == was + data[from..to]
      invariant to > from ==> |ring.Contents()| == RING_BUFFER_SIZE && to < |data|
      decreases |data| - to
    {
      var n := ring.AvailableWrite();
      if n == 0 {
        if nonblocking {
          return to, true;
        }
        return to, false; // suspend, and look again when dispatched
      }
      assert to == from;
      var done;
      to, done := PutBytes(ring, n, data, to);
      if done {
        return to, true;
      }
    }
  }

  /** `read_at`: whatever there is, at most `len`. */
  method ReadAt(ring: PipeRingBuffer, len: nat) returns (got: seq<nat>)
    requires ring.Valid()
    modifies ring
    ensures ring.Valid() && |got| == Min(|old(ring.Contents())|, len) && got + ring.Contents() == old(ring.Contents())
  {
    var avail := ring.AvailableRead();
    var n := Min(avail, len);
    got := [];
    ghost var before := ring.Contents();
    for i := 0 to n
      invariant ring.Valid() && got == before[..i] && ring.Contents() == before[i..]
    {
      var b := ring.ReadByte();
      TakeOne(before, i, b, ring.Contents());
      got := got + [b];
    }
  }

  /** `write_at`: as much as fits. */
  method WriteAt(ring: PipeRingBuffer, data: seq<nat>) returns (n: nat)
    requires ring.Valid()
    modifies ring, ring.arr
    ensures ring.Valid() && n == Min(RING_BUFFER_SIZE - |old(ring.Contents())|, |data|)
    ensures ring.Contents() == old(ring.Contents()) + data[..n]
  {
    var avail := ring.AvailableWrite();
    var m := Min(avail, |data|);
    n := 0;
    ghost var before := ring.Contents();
    for i := 0 to m
      invariant ring.Valid() && n == i && ring.Contents() == before + data[..i]
    {
      ring.WriteByte(data[i]);
      assert data[..i + 1] == data[..i] + [data[i]];
      n := n + 1;
    }
  }
}

/** Readers and writers of one pipe, interleaved at the points where they suspend. */
module PipeStream {
  import opened Closed
  import opened Pipe

  /** A read call in progress or finished, with the bytes it has got. */
  datatype Reader = Reader(want: nat, got: seq<nat>, nonblocking: bool, finished: bool)

  /** A write call in progress or finished. */
  datatype Writer = Writer(data: seq<nat>, done: nat, nonblocking: bool, finished: bool)

  /** `ends` counts the descriptors of the write end. `puts` and `takes` are the logs of who
      put and who took each byte. */
  datatype State = State(ring: seq<nat>, ends: nat, readers: map<nat, Reader>, writers: map<nat, Writer>,
                         puts: seq<(nat, nat)>, takes: seq<(nat, nat)>)

  datatype Step =
    | StartRead(r: nat, want: nat, nonblocking: bool)
    | DoRead(r: nat)
    | StartWrite(w: nat, data: seq<nat>, nonblocking: bool)
    | DoWrite(w: nat)
    | Dup
    | Close

  function Bytes(log: seq<(nat, nat)>): (bs: seq<nat>)
    ensures |bs| == |log| && forall i :: 0 <= i < |bs| ==> bs[i] == log[i].1
  {
    seq(|log|, i requires 0 <= i < |log| => log[i].1)
  }

  /** The bytes of the log that carry `tag`, in order. */
  function Of(log: seq<(nat, nat)>, tag: nat): seq<nat>
  {
    if log == [] then [] else
    var front := Of(log[..|log| - 1], tag);
    if log[|log| - 1].0 == tag then front + [log[|log| - 1].1] else front
  }

  function Tagged(bs: seq<nat>, tag: nat): (log: seq<(nat, nat)>)
    ensures |log| == |bs| && forall i :: 0 <= i < |log| ==> log[i] == (tag, bs[i])
  {
    seq(|bs|, i requires 0 <= i < |bs| => (tag, bs[i]))
  }

  lemma {:induction false} OfAppend(log: seq<(nat, nat)>, bs: seq<nat>, tag: nat, t: nat)
    ensures Of(log + Tagged(bs, tag), t) == if t == tag then Of(log, t) + bs else Of(log, t)
    decreases |bs|
  {
    if bs == [] {
      assert log + Tagged(bs, tag) == log;
    } else {
      var n := |bs| - 1;
      OfAppend(log, bs[..n], tag, t);
      var whole := log + Tagged(bs, tag);
      assert whole[..|whole| - 1] == log + Tagged(bs[..n], tag);
      assert bs == bs[..n] + [bs[n]];
    }
  }

  /** No write end is left: no descriptor, and no write call that holds one. */
  ghost predicate NoWriteEnd(s: State)
  {
    s.ends == 0 && forall w :: w in s.writers ==> s.writers[w].finished
  }

  ghost predicate Enabled(s: State, step: Step)
  {
    match step
    case StartRead(r, _, _) => r !in s.readers
    case DoRead(r) => r in s.readers && !s.readers[r].finished
    case StartWrite(w, _, _) => w !in s.writers && s.ends > 0
    case DoWrite(w) => w in s.writers && !s.writers[w].finished
    case Dup => s.ends > 0
    case Close => s.ends > 0
  }

  ghost function ReadNext(s: State, r: nat): State
    requires r in s.readers && |s.readers[r].got| <= s.readers[r].want
  {
    var rd := s.readers[r];
    var rest := rd.want - |rd.got|;
    var k := ReadMoves(|s.ring|, rest);
    var rd' := rd.(got := rd.got + s.ring[..k], finished := ReadReturns(|s.ring|, rest, rd.nonblocking || NoWriteEnd(s)));
    s.(ring := s.ring[k..], readers := s.readers[r := rd'], takes := s.takes + Tagged(s.ring[..k], r))
  }

  ghost function WriteNext(s: State, w: nat): State
    requires w in s.writers && s.writers[w].done <= |s.writers[w].data| && |s.ring| <= RING_BUFFER_SIZE
  {
    var wr := s.writers[w];
    var space, rest := RING_BUFFER_SIZE - |s.ring|, |wr.data| - wr.done;
    var to := wr.done + Min(space, rest);
    var wr' := wr.(done := to, finished := WriteReturns(space, rest, wr.nonblocking));
    s.(ring := s.ring + wr.data[wr.done..to], writers := s.writers[w := wr'],
       puts := s.puts + Tagged(wr.data[wr.done..to], w))
  }

  ghost predicate WriterOk(puts: seq<(nat, nat)>, w: nat, wr: Writer)
  {
    wr.done <= |wr.data| && Of(puts, w) == wr.data[..wr.done] && WriterDone(wr)
  }

  /** A blocking write comes back with all of its bytes written, and any write that has some
      comes back when they are. */
  predicate WriterDone(wr: Writer)
  {
    && (wr.finished && !wr.nonblocking ==> wr.done == |wr.data|)
    && (wr.data != [] && wr.done == |wr.data| ==> wr.finished)
  }

  ghost predicate ReaderOk(takes: seq<(nat, nat)>, r: nat, rd: Reader)
  {
    |rd.got| <= rd.want && Of(takes, r) == rd.got && ReaderDone(rd)
  }

  /** A read that wants some bytes comes back when it has them. */
  predicate ReaderDone(rd: Reader) { rd.want > 0 && |rd.got| == rd.want ==> rd.finished }

  /** Every write call has put the front of its own data, in order. */
  ghost predicate WritersOk(puts: seq<(nat, nat)>, writers: map<nat, Writer>)
  {
    forall k: Key :: OpenWriters(k) ==> WritersFacts(puts, writers)
  }

  predicate OpenWriters(k: Key) { true }

  ghost predicate WritersFacts(puts: seq<(nat, nat)>, writers: map<nat, Writer>)
  {
    && (forall w :: w in writers ==> WriterOk(puts, w, writers[w]))
    && (forall w :: w !in writers ==> Of(puts, w) == [])
  }

  /** Every read call has what it took, in order. */
  ghost predicate ReadersOk(takes: seq<(nat, nat)>, readers: map<nat, Reader>)
  {
    forall k: Key :: OpenReaders(k) ==> ReadersFacts(takes, readers)
  }

  predicate OpenReaders(k: Key) { true }

  ghost predicate ReadersFacts(takes: seq<(nat, nat)>, readers: map<nat, Reader>)
  {
    && (forall r :: r in readers ==> ReaderOk(takes, r, readers[r]))
    && (forall r :: r !in readers ==> Of(takes, r) == [])
  }

  lemma {:induction false} WritersGrow(puts: seq<(nat, nat)>, writers: map<nat, Writer>, w: nat, bs: seq<nat>,
                                       puts': seq<(nat, nat)>, wr': Writer)
    requires WritersOk(puts, writers) && w in writers && writers[w].done <= |writers[w].data| && wr'.done <= |wr'.data|
    requires wr'.data[..wr'.done] == writers[w].data[..writers[w].done] + bs
    requires puts' == puts + Tagged(bs, w) && WriterDone(wr')
    ensures WritersOk(puts', writers[w := wr'])
  {
    assert OpenWriters(Key);
    LogGrows(puts, bs, w);
    assert WriterOk(puts, w, writers[w]);
    forall x | x in writers && x != w ensures WriterOk(puts', x, writers[x]) {
      assert WriterOk(puts, x, writers[x]);
    }
  }

  lemma {:induction false} ReadersGrow(takes: seq<(nat, nat)>, readers: map<nat, Reader>, r: nat, bs: seq<nat>,
                                       takes': seq<(nat, nat)>, rd': Reader)
    requires ReadersOk(takes, readers) && r in readers && rd'.got == readers[r].got + bs && |rd'.got| <= rd'.want
    requires takes' == takes + Tagged(bs, r) && ReaderDone(rd')
    ensures ReadersOk(takes', readers[r := rd'])
  {
    assert OpenReaders(Key);
    LogGrows(takes, bs, r);
    assert ReaderOk(takes, r, readers[r]);
    forall x | x in readers && x != r ensures ReaderOk(takes', x, readers[x]) {
      assert ReaderOk(takes, x, readers[x]);
    }
  }

  /** Everything written is what was read followed by what is in the ring; every call has its
      own bytes, in order. */
  ghost predicate Inv(s: State)
  {
    && |s.ring| <= RING_BUFFER_SIZE
    && Bytes(s.puts) == Bytes(s.takes) + s.ring
    && WritersOk(s.puts, s.writers) && ReadersOk(s.takes, s.readers)
    && (forall r :: r in s.readers ==> ShortMeansDrained(s, s.readers[r]))
  }

  /** A blocking read that came back short has seen the end of the stream. */
  ghost predicate ShortMeansDrained(s: State, rd: Reader)
  {
    rd.finished && !rd.nonblocking && |rd.got| < rd.want ==> s.ring == [] && NoWriteEnd(s)
  }

  lemma {:induction false} AllOk(s: State)
    requires Inv(s)
    ensures forall w :: w in s.writers ==> WriterOk(s.puts, w, s.writers[w])
    ensures forall r :: r in s.readers ==> ReaderOk(s.takes, r, s.readers[r])
  {
    assert OpenWriters(Key) && OpenReaders(Key);
  }

  /** A call that starts has no bytes in the log. */
  lemma {:induction false} StartInv(s: State, step: Step)
    requires Inv(s) && Enabled(s, step) && (step.StartRead? || step.StartWrite?)
    ensures WritersOk(Next(s, step).puts, Next(s, step).writers) && ReadersOk(Next(s, step).takes, Next(s, step).readers)
  {
  }

  ghost function Next(s: State, step: Step): State
    requires Inv(s) && Enabled(s, step)
  {
    AllOk(s);
    match step
    case StartRead(r, want, nb) => s.(readers := s.readers[r := Reader(want, [], nb, false)])
    case DoRead(r) => ReadNext(s, r)
    case StartWrite(w, data, nb) => s.(writers := s.writers[w := Writer(data, 0, nb, false)])
    case DoWrite(w) => WriteNext(s, w)
    case Dup => s.(ends := s.ends + 1)
    case Close => s.(ends := s.ends - 1)
  }

  lemma {:induction false} LogGrows(log: seq<(nat, nat)>, bs: seq<nat>, tag: nat)
    ensures var log' := log + Tagged(bs, tag);
            && Bytes(log') == Bytes(log) + bs && Of(log', tag) == Of(log, tag) + bs
            && (forall t: nat :: t != tag ==> Of(log', t) == Of(log, t))
  {
    forall t: nat ensures Of(log + Tagged(bs, tag), t) == if t == tag then Of(log, t) + bs else Of(log, t) {
      OfAppend(log, bs, tag, t);
    }
  }

  /** One stretch of a write: it puts the next bytes of its data, all of them or as many as fill
      the ring. It returns if and only if all are written and there was room, or the ring is
      full and the call does not block; so a blocking write waits only on a full ring. */
  lemma {:induction false} WriteExactly(s: State, w: nat)
    requires Inv(s) && Enabled(s, DoWrite(w))
    ensures w in Next(s, DoWrite(w)).writers
    ensures var s', wr := Next(s, DoWrite(w)), s.writers[w];
            var wr' := s'.writers[w];
            && wr'.data == wr.data && wr'.nonblocking == wr.nonblocking && wr.done <= wr'.done <= |wr.data|
            && s'.ring == s.ring + wr.data[wr.done..wr'.done] && |s'.ring| <= RING_BUFFER_SIZE
            && (wr'.done == |wr.data| || |s'.ring| == RING_BUFFER_SIZE)
            && (wr'.finished <==>
                (wr'.done == |wr.data| && |s.ring| < RING_BUFFER_SIZE) || (|s'.ring| == RING_BUFFER_SIZE && wr.nonblocking))
            && s'.readers == s.readers && s'.ends == s.ends && s'.writers == s.writers[w := wr']
  {
    AllOk(s);
  }

  /** One stretch of a read: it takes the next bytes of the ring, all of them or as many as it
      wants. It returns if and only if it has what it wants and there was something, or the ring
      is empty and the call does not block or no write end is left. */
  lemma {:induction false} ReadExactly(s: State, r: nat)
    requires Inv(s) && Enabled(s, DoRead(r))
    ensures r in Next(s, DoRead(r)).readers
    ensures var s', rd := Next(s, DoRead(r)), s.readers[r];
            var rd' := s'.readers[r];
            && rd'.want == rd.want && rd'.nonblocking == rd.nonblocking && rd.got <= rd'.got && |rd'.got| <= rd.want
            && rd'.got[|rd.got|..] + s'.ring == s.ring
            && (|rd'.got| == rd.want || s'.ring == [])
            && (rd'.finished <==>
                (|rd'.got| == rd.want && s.ring != []) || (s'.ring == [] && (rd.nonblocking || NoWriteEnd(s))))
            && s'.writers == s.writers && s'.ends == s.ends && s'.readers == s.readers[r := rd']
  {
    AllOk(s);
  }

  lemma {:induction false} ReadInv(s: State, r: nat)
    requires Inv(s) && Enabled(s, DoRead(r))
    ensures Inv(Next(s, DoRead(r)))
  {
    ReadReaders(s, r);
    ReadStream(s, r);
    ReadDrains(s, r);
  }

  lemma {:induction false} ReadReaders(s: State, r: nat)
    requires Inv(s) && Enabled(s, DoRead(r))
    ensures ReadersOk(Next(s, DoRead(r)).takes, Next(s, DoRead(r)).readers)
  {
    var s', rd := Next(s, DoRead(r)), s.readers[r];
    AllOk(s);
    assert ReaderDone(s'.readers[r]) by { ReadExactly(s, r); }
    ReadersGrow(s.takes, s.readers, r, s.ring[..ReadMoves(|s.ring|, rd.want - |rd.got|)], s'.takes, s'.readers[r]);
  }

  lemma {:induction false} ReadStream(s: State, r: nat)
    requires Inv(s) && Enabled(s, DoRead(r))
    ensures var s' := Next(s, DoRead(r)); |s'.ring| <= RING_BUFFER_SIZE && Bytes(s'.puts) == Bytes(s'.takes) + s'.ring
  {
    var s', rd := Next(s, DoRead(r)), s.readers[r];
    AllOk(s);
    var k := ReadMoves(|s.ring|, rd.want - |rd.got|);
    assert Bytes(s'.takes) == Bytes(s.takes) + s.ring[..k];
    assert Bytes(s.takes) + s.ring == Bytes(s.takes) + s.ring[..k] + s.ring[k..];
  }

  lemma {:induction false} ReadDrains(s: State, r: nat)
    requires Inv(s) && Enabled(s, DoRead(r))
    ensures var s' := Next(s, DoRead(r)); forall x :: x in s'.readers ==> ShortMeansDrained(s', s'.readers[x])
  {
    var s' := Next(s, DoRead(r));
    ReadExactly(s, r);
    forall x | x in s'.readers ensures ShortMeansDrained(s', s'.readers[x]) {
      assert x != r ==> ShortMeansDrained(s, s.readers[x]);
    }
  }

  lemma {:induction false} WriteInv(s: State, w: nat)
    requires Inv(s) && Enabled(s, DoWrite(w))
    ensures Inv(Next(s, DoWrite(w)))
  {
    WriteWriters(s, w);
    WriteStream(s, w);
    WriteDrains(s, w);
  }

  lemma {:induction false} WriteWriters(s: State, w: nat)
    requires Inv(s) && Enabled(s, DoWrite(w))
    ensures WritersOk(Next(s, DoWrite(w)).puts, Next(s, DoWrite(w)).writers)
  {
    var s', wr := Next(s, DoWrite(w)), s.writers[w];
    AllOk(s);
    var bs := wr.data[wr.done..s'.writers[w].done];
    assert wr.data[..s'.writers[w].done] == wr.data[..wr.done] + bs;
    assert WriterDone(s'.writers[w]) by { WriteExactly(s, w); }
    WritersGrow(s.puts, s.writers, w, bs, s'.puts, s'.writers[w]);
  }

  lemma {:induction false} WriteStream(s: State, w: nat)
    requires Inv(s) && Enabled(s, DoWrite(w))
    ensures var s' := Next(s, DoWrite(w)); |s'.ring| <= RING_BUFFER_SIZE && Bytes(s'.puts) == Bytes(s'.takes) + s'.ring
  {
    var s', wr := Next(s, DoWrite(w)), s.writers[w];
    AllOk(s);
    var bs := wr.data[wr.done..s'.writers[w].done];
    assert Bytes(s'.puts) == Bytes(s.puts) + bs;
    assert Bytes(s.takes) + s.ring + bs == Bytes(s.takes) + (s.ring + bs);
  }

  lemma {:induction false} WriteDrains(s: State, w: nat)
    requires Inv(s) && Enabled(s, DoWrite(w))
    ensures var s' := Next(s, DoWrite(w)); forall x :: x in s'.readers ==> ShortMeansDrained(s', s'.readers[x])
  {
    var s' := Next(s, DoWrite(w));
    WriteExactly(s, w);
    forall x | x in s'.readers ensures ShortMeansDrained(s', s'.readers[x]) {
      assert ShortMeansDrained(s, s.readers[x]);
    }
  }

  /** No interleaving breaks the stream. */
  lemma {:induction false} NextInv(s: State, step: Step)
    requires Inv(s) && Enabled(s, step)
    ensures Inv(Next(s, step))
    ensures NoWriteEnd(s) ==> NoWriteEnd(Next(s, step)) && Next(s, step).puts == s.puts
    ensures s.puts <= Next(s, step).puts && s.takes <= Next(s, step).takes
  {
    match step
    case DoRead(r) => ReadInv(s, r);
    case DoWrite(w) => WriteInv(s, w);
    case _ =>
      var s' := Next(s, step);
      if step.StartRead? || step.StartWrite? {
        StartInv(s, step);
      }
      forall x | x in s'.readers ensures ShortMeansDrained(s', s'.readers[x]) {
        assert x in s.readers ==> ShortMeansDrained(s, s.readers[x]);
      }
  }

  function Created(): State { State([], 1, map[], map[], [], []) }

  lemma {:induction false} CreatedInv()
    ensures Inv(Created())
  {
  }

  ghost predicate Reaches(s: State, steps: seq<Step>, s': State)
    requires Inv(s)
    decreases |steps|
  {
    if steps == [] then s' == s
    else Enabled(s, steps[0]) && (NextInv(s, steps[0]); Reaches(Next(s, steps[0]), steps[1..], s'))
  }

  lemma {:induction false} RunInv(s: State, steps: seq<Step>, s': State)
    requires Inv(s) && Reaches(s, steps, s')
    ensures Inv(s') && s.puts <= s'.puts && s.takes <= s'.takes
    ensures NoWriteEnd(s) ==> NoWriteEnd(s') && s'.puts == s.puts
    decreases |steps|
  {
    if steps != [] {
      NextInv(s, steps[0]);
      RunInv(Next(s, steps[0]), steps[1..], s');
    }
  }

  /** A call in the state is one that the run has started, with its arguments. */
  lemma {:induction false} CallsWereStarted(s: State, steps: seq<Step>, s': State)
    requires Inv(s) && Reaches(s, steps, s')
    ensures forall w :: w in s'.writers ==>
              || (w in s.writers && s'.writers[w].data == s.writers[w].data && s'.writers[w].nonblocking == s.writers[w].nonblocking)
              || StartWrite(w, s'.writers[w].data, s'.writers[w].nonblocking) in steps
    ensures forall r :: r in s'.readers ==>
              || (r in s.readers && s'.readers[r].want == s.readers[r].want && s'.readers[r].nonblocking == s.readers[r].nonblocking)
              || StartRead(r, s'.readers[r].want, s'.readers[r].nonblocking) in steps
    decreases |steps|
  {
    if steps != [] {
      NextInv(s, steps[0]);
      CallsWereStarted(Next(s, steps[0]), steps[1..], s');
      CallStarted(s, steps[0]);
    }
  }

  lemma {:induction false} CallStarted(s: State, step: Step)
    requires Inv(s) && Enabled(s, step)
    ensures var s' := Next(s, step);
            forall w :: w in s'.writers ==>
              || (w in s.writers && s'.writers[w].data == s.writers[w].data && s'.writers[w].nonblocking == s.writers[w].nonblocking)
              || StartWrite(w, s'.writers[w].data, s'.writers[w].nonblocking) == step
    ensures var s' := Next(s, step);
            forall r :: r in s'.readers ==>
              || (r in s.readers && s'.readers[r].want == s.readers[r].want && s'.readers[r].nonblocking == s.readers[r].nonblocking)
              || StartRead(r, s'.readers[r].want, s'.readers[r].nonblocking) == step
  {
  }

  /** From creation on, under every interleaving: the bytes written are the bytes read followed
      by the ring, in order. Every write has put the front of the data that it was called with
      and comes back short only if it does not block; every read has what it took. */
  lemma {:induction false} StreamLaw(steps: seq<Step>, s: State)
    requires (CreatedInv(); Reaches(Created(), steps, s))
    ensures Bytes(s.puts) == Bytes(s.takes) + s.ring
    ensures forall w :: w in s.writers ==>
              var wr := s.writers[w];
              && wr.done <= |wr.data| && Of(s.puts, w) == wr.data[..wr.done]
              && StartWrite(w, wr.data, wr.nonblocking) in steps
              && (wr.finished && wr.done < |wr.data| ==> wr.nonblocking) && (wr.data != [] && wr.done == |wr.data| ==> wr.finished)
    ensures forall r :: r in s.readers ==>
              var rd := s.readers[r];
              && |rd.got| <= rd.want && Of(s.takes, r) == rd.got
              && StartRead(r, rd.want, rd.nonblocking) in steps && (rd.want > 0 && |rd.got| == rd.want ==> rd.finished)
  {
    RunInv(Created(), steps, s);
    AllOk(s);
    CallsWereStarted(Created(), steps, s);
    forall w | w in s.writers ensures WriterOk(s.puts, w, s.writers[w]) && StartWrite(w, s.writers[w].data, s.writers[w].nonblocking) in steps {
    }
    forall r | r in s.readers ensures ReaderOk(s.takes, r, s.readers[r]) && StartRead(r, s.readers[r].want, s.readers[r].nonblocking) in steps {
    }
  }

  /** Once a blocking read has come back short, everything ever written has been read, and
      nothing will be written again. */
  lemma {:induction false} ShortReadIsTheEnd(s: State, steps: seq<Step>, s': State, r: nat)
    requires Inv(s) && Reaches(s, steps, s')
    requires r in s.readers && s.readers[r].finished && !s.readers[r].nonblocking && |s.readers[r].got| < s.readers[r].want
    ensures Bytes(s.puts) == Bytes(s.takes) && s'.puts == s.puts && s'.ring == []
  {
    assert ShortMeansDrained(s, s.readers[r]);
    RunInv(s, steps, s');
    assert Bytes(s'.puts) == Bytes(s'.takes) + s'.ring;
  }
}
