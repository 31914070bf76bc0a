/** Whole sessions on the byte device: any mix of reads, writes, seeks and flushes answers as a
flat byte array with a cursor does (os/src/fs/fat32.rs, os/src/fs/block_cache.rs). */
module FatSession {
  import opened Addresses
  import opened BlockCache
  import opened FatDevice

  /** The device as its users see it. */
  datatype Flat = Flat(bytes: seq<nat>, pos: nat)

  datatype Op = ReadOp(len: nat) | WriteOp(data: seq<nat>) | SeekOp(to: SeekFrom) | FlushOp

  datatype Answer = Bytes(data: seq<nat>) | Count(n: nat) | Refused | Crash

  predicate Fitting(op: Op)
  {
    match op
    case SeekOp(Start(p)) => p < USIZE_LIMIT
    case SeekOp(Current(d)) => -I64_LIMIT <= d < I64_LIMIT
    case _ => true
  }

  /** Where a seek leads, or a negative number. */
  function Wanted(d: Flat, to: SeekFrom): int
  {
    match to
    case Start(p) => p
    case Current(delta) => d.pos + delta
    case End(_) => -1
  }

  /** One operation on the flat device. */
  function Step(d: Flat, op: Op): (Flat, Answer)
  {
    match op
    case ReadOp(n) =>
      if n == 0 then (d, Bytes([]))
      else if d.pos + n > |d.bytes| then (d, Crash)
      else (d.(pos := d.pos + n), Bytes(d.bytes[d.pos..d.pos + n]))
    case WriteOp(data) =>
      if data == [] then (d, Count(0))
      else if d.pos + |data| > |d.bytes| then (d, Crash)
      else (Flat(d.bytes[..d.pos] + data + d.bytes[d.pos + |data|..], d.pos + |data|), Count(|data|))
    case SeekOp(to) =>
      var w := Wanted(d, to);
      if 0 <= w < I64_LIMIT then (d.(pos := w), Count(w)) else (d, Refused)
    case FlushOp => (d, Count(0))
  }

  /** The answers to a sequence of operations, up to a crash. */
  function Answers(d: Flat, ops: seq<Op>): seq<Answer>
    decreases |ops|
  {
    if ops == [] then [] else
    var (d', a) := Step(d, ops[0]);
    if a == Crash then [Crash] else [a] + Answers(d', ops[1..])
  }

  /** The blocks as one sequence of bytes. */
  ghost function FlatOf(image: seq<Block>): (bs: seq<nat>)
    ensures |bs| == BLOCK_SZ * |image| && forall k :: 0 <= k < |bs| ==> bs[k] == ByteAt(image, k)
  {
    seq(BLOCK_SZ * |image|, k requires 0 <= k < BLOCK_SZ * |image| => ByteAt(image, k))
  }

  lemma {:induction false} ShownIsSlice(image: seq<Block>, at: nat, bytes: seq<nat>)
    requires Shown(image, at, bytes)
    ensures bytes == FlatOf(image)[at..at + |bytes|]
  {
    forall k | 0 <= k < |bytes| ensures bytes[k] == FlatOf(image)[at..at + |bytes|][k] {
      assert bytes[k] == ByteAt(image, at + k);
    }
  }

  lemma {:induction false} StoredIsSplice(image0: seq<Block>, image: seq<Block>, at: nat, bytes: seq<nat>)
    requires Stored(image0, image, at, bytes)
    ensures FlatOf(image) == FlatOf(image0)[..at] + bytes + FlatOf(image0)[at + |bytes|..]
  {
    var l, r := FlatOf(image), FlatOf(image0)[..at] + bytes + FlatOf(image0)[at + |bytes|..];
    forall k | 0 <= k < |l| ensures l[k] == r[k] {
      assert ByteAt(image, k) == if at <= k < at + |bytes| then bytes[k - at] else ByteAt(image0, k);
    }
  }

  lemma {:induction false} ReadAnswers(image: seq<Block>, at: nat, bytes: seq<nat>)
    requires Shown(image, at, bytes) && bytes != []
    ensures Step(Flat(FlatOf(image), at), ReadOp(|bytes|)) == (Flat(FlatOf(image), at + |bytes|), Bytes(bytes))
  {
    ShownIsSlice(image, at, bytes);
  }

  lemma {:induction false} WriteAnswers(image0: seq<Block>, image: seq<Block>, at: nat, bytes: seq<nat>)
    requires Stored(image0, image, at, bytes) && bytes != []
    ensures Step(Flat(FlatOf(image0), at), WriteOp(bytes)) == (Flat(FlatOf(image), at + |bytes|), Count(|bytes|))
  {
    StoredIsSplice(image0, image, at, bytes);
  }

  ghost function View(dev: FatFsBlockDevice): Flat
    reads dev, dev.cache
  {
    Flat(FlatOf(dev.cache.image), dev.offset)
  }

  method PerformRead(dev: FatFsBlockDevice, n: nat) returns (a: Answer)
    requires dev.Valid()
    modifies dev`offset, dev.cache`queue, dev.cache`held, dev.disk, Caches(dev.cache.queue)
    ensures fresh(Caches(dev.cache.queue) - old(Caches(dev.cache.queue)))
    ensures a == Step(old(View(dev)), ReadOp(n)).1
    ensures a != Crash ==> dev.Valid() && View(dev) == Step(old(View(dev)), ReadOp(n)).0
  {
    dev.ImageSize();
    var buf := new nat[n];
    var r := dev.Read(buf);
    if r.Panicked? {
      return Crash;
    }
    if n > 0 {
      ReadAnswers(dev.cache.image, old(dev.offset), buf[..]);
    }
    return Bytes(buf[..]);
  }

  method PerformWrite(dev: FatFsBlockDevice, data: seq<nat>) returns (a: Answer)
    requires dev.Valid()
    modifies dev`offset, dev.cache, dev.disk, Caches(dev.cache.queue)
    ensures fresh(Caches(dev.cache.queue) - old(Caches(dev.cache.queue)))
    ensures a == Step(old(View(dev)), WriteOp(data)).1
    ensures a != Crash ==> dev.Valid() && View(dev) == Step(old(View(dev)), WriteOp(data)).0
  {
    dev.ImageSize();
    ghost var image0 := dev.cache.image;
    var r := dev.Write(data);
    if r.Panicked? {
      return Crash;
    }
    if data != [] {
      WriteAnswers(image0, dev.cache.image, old(dev.offset), data);
    }
    return Count(|data|);
  }

  /** One operation on the real device. */
  method Perform(dev: FatFsBlockDevice, op: Op) returns (a: Answer)
    requires dev.Valid() && Fitting(op)
    modifies dev`offset, dev.cache, dev.disk, Caches(dev.cache.queue)
    ensures fresh(Caches(dev.cache.queue) - old(Caches(dev.cache.queue)))
    ensures a == Step(old(View(dev)), op).1
    ensures a != Crash ==> dev.Valid() && View(dev) == Step(old(View(dev)), op).0
    ensures op.FlushOp? ==> dev.disk.blocks == dev.cache.image
  {
    match op {
      case ReadOp(n) =>
        a := PerformRead(dev, n);
      case WriteOp(data) =>
        a := PerformWrite(dev, data);
      case SeekOp(to) =>
        var r := dev.Seek(to);
        a := if r.Ok? then Count(r.count) else Refused;
      case FlushOp =>
        dev.Flush();
        a := Count(0);
    }
  }

  /** A session on the real device gives the answers of the flat one, whatever was cached,
      evicted or written back on the way. */
  method Session(dev: FatFsBlockDevice, ops: seq<Op>) returns (answers: seq<Answer>)
    requires dev.Valid() && forall i :: 0 <= i < |ops| ==> Fitting(ops[i])
    modifies dev`offset, dev.cache, dev.disk, Caches(dev.cache.queue)
    ensures answers == Answers(old(View(dev)), ops)
    decreases |ops|
  {
    if ops == [] {
      return [];
    }
    var a := Perform(dev, ops[0]);
    if a == Crash {
      return [Crash];
    }
    var rest := Session(dev, ops[1..]);
    return [a] + rest;
  }
}
