/** The write-back block cache (os/src/fs/block_cache.rs). */
module BlockCache {
  import opened Addresses
  import opened Closed

  const BLOCK_SZ: nat := 512
  const BLOCK_CACHE_SIZE: nat := 16

  type Block = b: seq<nat> | |b| == BLOCK_SZ witness seq(BLOCK_SZ, i => 0)

  /** The block device. Reading or writing past its end makes the driver panic. */
  class Disk {
    var blocks: seq<Block>

    constructor (blocks: seq<Block>)
      ensures this.blocks == blocks
    {
      this.blocks := blocks;
    }

    method ReadBlock(id: nat) returns (r: Option<Block>)
      ensures r == if id < |blocks| then Some(blocks[id]) else None
    {
      return if id < |blocks| then Some(blocks[id]) else None;
    }

    method WriteBlock(id: nat, data: Block)
      requires id < |blocks|
      modifies this
      ensures blocks == old(blocks)[id := data]
    {
      blocks := blocks[id := data];
    }
  }

  class BlockCache {
    const blockId: nat
    var data: Block
    var modified: bool

    /** A clean cache of a block as the disk has it. */
    constructor (id: nat, data: Block)
      ensures blockId == id && this.data == data && !modified
    {
      blockId, this.data, modified := id, data, false;
    }

    /** `modify` on the whole block: store `bytes` from offset `at` on. */
    method Modify(at: nat, bytes: seq<nat>)
      requires at + |bytes| <= BLOCK_SZ
      modifies this
      ensures modified && data == old(data)[..at] + bytes + old(data)[at + |bytes|..]
    {
      modified := true;
      data := data[..at] + bytes + data[at + |bytes|..];
    }

    method Sync(disk: Disk)
      requires blockId < |disk.blocks|
      modifies this`modified, disk
      ensures !modified
      ensures disk.blocks == if old(modified) then old(disk.blocks)[blockId := data] else old(disk.blocks)
    {
      if modified {
        modified := false;
        disk.WriteBlock(blockId, data);
      }
    }
  }

  datatype GetResult = Cached(cache: BlockCache) | RunOut | NoSuchBlock

  /** Distinct objects that are all held make the holders at least as many. */
  lemma {:induction false} HoldersCount(s: seq<BlockCache>, held: multiset<BlockCache>)
    requires (forall i, j :: 0 <= i < j < |s| ==> s[i] != s[j]) && forall i :: 0 <= i < |s| ==> s[i] in held
    ensures |s| <= |held|
  {
    if s != [] {
      var x := s[|s| - 1];
      HoldersCount(s[..|s| - 1], held - multiset{x});
    }
  }

  type Queue = seq<(nat, BlockCache)>

  ghost function Caches(queue: Queue): set<BlockCache>
  {
    set i | 0 <= i < |queue| :: queue[i].1
  }

  /** Block numbers in the queue are true, distinct and on the disk. */
  ghost predicate Numbered(queue: Queue, size: nat)
  {
    && |queue| <= BLOCK_CACHE_SIZE
    && (forall i :: 0 <= i < |queue| ==> queue[i].0 == queue[i].1.blockId < size)
    && (forall i, j :: 0 <= i < j < |queue| ==> queue[i].0 != queue[j].0)
  }

  ghost predicate Queued(queue: Queue, c: BlockCache)
  {
    exists i :: 0 <= i < |queue| && queue[i].1 == c
  }

  /** `image` is what the device holds: the cached block where there is one, the disk elsewhere;
      a clean cache agrees with the disk. */
  ghost predicate Shows(queue: Queue, blocks: seq<Block>, image: seq<Block>)
    requires Numbered(queue, |blocks|)
    reads Caches(queue)
  {
    && |image| == |blocks|
    && (forall i :: 0 <= i < |queue| ==> Mirrored(queue[i].1, blocks, image))
    && (forall b :: 0 <= b < |blocks| && (forall i :: 0 <= i < |queue| ==> queue[i].0 != b) ==> image[b] == blocks[b])
  }

  ghost predicate Mirrored(c: BlockCache, blocks: seq<Block>, image: seq<Block>)
    requires |image| == |blocks|
    reads c
  {
    && c.blockId < |blocks| && image[c.blockId] == c.data
    && (!c.modified ==> c.data == blocks[c.blockId])
  }

  class BlockCacheManager {
    var queue: Queue
    /** The handles outside the queue: a cache's reference count is one more than its holders. */
    var held: multiset<BlockCache>
    ghost var image: seq<Block>

    ghost predicate Valid(disk: Disk)
      reads this, disk, Caches(queue)
    {
      forall k: Key :: OpenCache(k) ==> Facts(disk)
    }

    predicate OpenCache(k: Key) { true }

    ghost predicate Facts(disk: Disk)
      reads this, disk, Caches(queue)
    {
      && Numbered(queue, |disk.blocks|)
      && (forall c :: c in held ==> Queued(queue, c))
      && Shows(queue, disk.blocks, image)
    }

    constructor (ghost disk: Disk)
      ensures Valid(disk) && queue == [] && held == multiset{} && image == disk.blocks
    {
      queue, held, image := [], multiset{}, disk.blocks;
    }

    /** No block ever has two live caches: every live one is in the queue, and the queue has
        one per block. */
    lemma {:induction false} OneCachePerBlock(disk: Disk, c: BlockCache, d: BlockCache)
      requires Valid(disk) && (c in held || Queued(queue, c)) && (d in held || Queued(queue, d)) && c.blockId == d.blockId
      ensures c == d
    {
      assert OpenCache(Key);
      var i :| 0 <= i < |queue| && queue[i].1 == c;
      var j :| 0 <= j < |queue| && queue[j].1 == d;
    }

    method Find(id: nat) returns (r: Option<nat>)
      ensures r.None? <==> forall i :: 0 <= i < |queue| ==> queue[i].0 != id
      ensures r.Some? ==> r.value < |queue| && queue[r.value].0 == id
    {
      for i := 0 to |queue|
        invariant forall j :: 0 <= j < i ==> queue[j].0 != id
      {
        if queue[i].0 == id {
          return Some(i);
        }
      }
      return None;
    }

    /** The first cache in the queue that nobody else holds. */
    method FindUnheld() returns (r: Option<nat>)
      ensures r.None? <==> forall i :: 0 <= i < |queue| ==> queue[i].1 in held
      ensures r.Some? ==> r.value < |queue| && queue[r.value].1 !in held
      ensures r.Some? ==> forall i :: 0 <= i < r.value ==> queue[i].1 in held
    {
      for i := 0 to |queue|
        invariant forall j :: 0 <= j < i ==> queue[j].1 in held
      {
        if held[queue[i].1] == 0 {
          return Some(i);
        }
      }
      return None;
    }

    /** Take entry `k` out of the queue; the cache is dropped, which writes it back. */
    method Evict(k: nat, c: BlockCache, disk: Disk)
      requires Valid(disk) && k < |queue| && queue[k].1 == c && c !in held
      modifies this`queue, disk, c`modified
      ensures Valid(disk) && queue == old(queue[..k] + queue[k + 1..])
      ensures |disk.blocks| == old(|disk.blocks|)
    {
      assert OpenCache(Key);
      ghost var q0 := queue;
      c.Sync(disk);
      queue := queue[..k] + queue[k + 1..];
      EvictShifts(q0, queue, k);
      EvictQueued(q0, queue, k, held);
      forall i | 0 <= i < |queue| ensures Mirrored(queue[i].1, disk.blocks, image) {
        var j := if i < k then i else i + 1;
        assert queue[i] == q0[j] && q0[j].0 != q0[k].0;
        assert Mirrored(q0[j].1, disk.blocks, image);
      }
      forall b | 0 <= b < |disk.blocks| && (forall i :: 0 <= i < |queue| ==> queue[i].0 != b) ensures image[b] == disk.blocks[b] {
        if b != c.blockId {
          EvictMisses(q0, queue, k, b);
        }
      }
    }

    /** Read a block that has no cache and push its new cache. */
    method LoadBlock(id: nat, disk: Disk) returns (r: GetResult)
      requires Valid(disk) && |queue| < BLOCK_CACHE_SIZE && forall i :: 0 <= i < |queue| ==> queue[i].0 != id
      modifies this`queue, this`held
      ensures Valid(disk)
      ensures r == NoSuchBlock <==> id >= |disk.blocks|
      ensures r.NoSuchBlock? || r.Cached?
      ensures r.NoSuchBlock? ==> queue == old(queue) && held == old(held)
      ensures r.Cached? ==>
                && fresh(r.cache) && r.cache.blockId == id
                && queue == old(queue) + [(id, r.cache)] && held == old(held) + multiset{r.cache}
    {
      assert OpenCache(Key);
      var block := disk.ReadBlock(id);
      if block.None? {
        return NoSuchBlock;
      }
      var c := new BlockCache(id, block.value);
      ghost var q0 := queue;
      queue := queue + [(id, c)];
      held := held + multiset{c};
      forall d | d in held ensures Queued(queue, d) {
        if d == c {
          assert queue[|q0|].1 == c;
        } else {
          var i :| 0 <= i < |q0| && q0[i].1 == d;
          assert queue[i].1 == d;
        }
      }
      forall b | 0 <= b < |disk.blocks| && (forall i :: 0 <= i < |queue| ==> queue[i].0 != b) ensures image[b] == disk.blocks[b] {
        assert forall i :: 0 <= i < |q0| ==> queue[i].0 == q0[i].0;
      }
      forall i | 0 <= i < |queue| ensures Mirrored(queue[i].1, disk.blocks, image) {
        assert i < |q0| ==> queue[i] == q0[i] && Mirrored(q0[i].1, disk.blocks, image);
      }
      return Cached(c);
    }

    /** Every cache is held, and there are as many as there may be. */
    ghost predicate Full()
      reads this
    {
      |queue| == BLOCK_CACHE_SIZE && forall i :: 0 <= i < |queue| ==> queue[i].1 in held
    }

    /** Sixteen held caches take sixteen handles. */
    lemma {:induction false} FullTakesHandles(disk: Disk)
      requires Valid(disk) && Full()
      ensures |held| >= BLOCK_CACHE_SIZE
    {
      assert OpenCache(Key);
      var objects := seq(|queue|, i requires 0 <= i < |queue| reads this => queue[i].1);
      HoldersCount(objects, held);
    }

    /** Evict a cache if the queue is full. */
    method MakeRoom(id: nat, disk: Disk) returns (ok: bool)
      requires Valid(disk) && forall i :: 0 <= i < |queue| ==> queue[i].0 != id
      modifies this`queue, disk, Caches(queue)
      ensures ok <==> !old(Full())
      ensures Valid(disk) && |disk.blocks| == old(|disk.blocks|)
      ensures !ok ==> queue == old(queue)
      ensures ok ==> |queue| < BLOCK_CACHE_SIZE && (forall i :: 0 <= i < |queue| ==> queue[i].0 != id)
      ensures Caches(queue) <= old(Caches(queue))
    {
      assert OpenCache(Key);
      if |queue| < BLOCK_CACHE_SIZE {
        return true;
      }
      var victim := FindUnheld();
      if victim.None? {
        return false;
      }
      ghost var k := victim.value;
      ghost var q0 := queue;
      assert queue[k].1 in Caches(queue);
      Evict(victim.value, queue[victim.value].1, disk);
      EvictShifts(q0, queue, k);
      return true;
    }

    /** Clone the handle in entry `k`. */
    method HoldAnother(k: nat, ghost disk: Disk)
      requires Valid(disk) && k < |queue|
      modifies this`held
      ensures Valid(disk) && held == old(held) + multiset{queue[k].1} && Queued(queue, queue[k].1)
      ensures queue[k].1.blockId == queue[k].0 < |disk.blocks|
    {
      assert OpenCache(Key);
      held := held + multiset{queue[k].1};
    }

    /** `get_block_cache`. It hands out the live cache of the block if there is one and loads
        it otherwise; what the device holds does not change. It panics for want of a cache
        exactly when there is none for the block and all sixteen are held. */
    method GetBlockCache(id: nat, disk: Disk) returns (r: GetResult)
      requires Valid(disk)
      modifies this`queue, this`held, disk, Caches(queue)
      ensures r.RunOut? <==> old(Full()) && forall i :: 0 <= i < |old(queue)| ==> old(queue)[i].0 != id
      ensures r.NoSuchBlock? ==> id >= |disk.blocks|
      ensures r.Cached? ==> id < |disk.blocks|
      ensures Valid(disk) && |disk.blocks| == old(|disk.blocks|)
      ensures fresh(Caches(queue) - old(Caches(queue)))
      ensures r.Cached? ==> r.cache.blockId == id && Queued(queue, r.cache) && held == old(held) + multiset{r.cache}
      ensures !r.Cached? ==> held == old(held)
    {
      var hit := Find(id);
      if hit.Some? {
        HoldAnother(hit.value, disk);
        return Cached(queue[hit.value].1);
      }
      var ok := MakeRoom(id, disk);
      if !ok {
        return RunOut;
      }
      ghost var q1 := queue;
      r := LoadBlock(id, disk);
      if r.Cached? {
        assert queue[|q1|].1 == r.cache;
        CachesSnoc(q1, (id, r.cache));
      }
    }

    /** A holder drops its handle. The queue still has the cache, so nothing is written back. */
    method Release(c: BlockCache, ghost disk: Disk)
      requires Valid(disk) && c in held
      modifies this`held
      ensures Valid(disk) && held == old(held) - multiset{c}
    {
      assert OpenCache(Key);
      held := held - multiset{c};
    }

    /** What a live cache holds is that block of the device. */
    lemma {:induction false} CacheShows(c: BlockCache, disk: Disk)
      requires Valid(disk) && Queued(queue, c)
      ensures c.blockId < |image| == |disk.blocks| && image[c.blockId] == c.data
    {
      assert OpenCache(Key);
      var k :| 0 <= k < |queue| && queue[k].1 == c;
      assert Mirrored(queue[k].1, disk.blocks, image);
    }

    /** A change to the data of a live cache is a change to that block of the device. */
    method Modify(c: BlockCache, at: nat, bytes: seq<nat>, ghost disk: Disk)
      requires Valid(disk) && Queued(queue, c) && at + |bytes| <= BLOCK_SZ
      modifies this`image, c
      ensures Valid(disk) && c.blockId < |old(image)| && image == old(image)[c.blockId := c.data]
      ensures c.data == old(image)[c.blockId][..at] + bytes + old(image)[c.blockId][at + |bytes|..]
    {
      assert OpenCache(Key);
      ghost var k :| 0 <= k < |queue| && queue[k].1 == c;
      assert Mirrored(queue[k].1, disk.blocks, image);
      c.Modify(at, bytes);
      ghost var image0 := image;
      image := image[c.blockId := c.data];
      forall i | 0 <= i < |queue| ensures Mirrored(queue[i].1, disk.blocks, image) {
        assert i != k ==> Mirrored(queue[i].1, disk.blocks, image0) && queue[i].0 != queue[k].0;
      }
    }

    /** `block_cache_sync_all`: afterwards the disk is what the device holds. */
    method SyncAll(disk: Disk)
      requires Valid(disk)
      modifies disk, Caches(queue)
      ensures Valid(disk) && disk.blocks == image && |disk.blocks| == old(|disk.blocks|)
    {
      assert OpenCache(Key);
      ghost var n := |disk.blocks|;
      for i := 0 to |queue|
        invariant Valid(disk) && |disk.blocks| == n
        invariant forall j :: 0 <= j < i ==> !queue[j].1.modified
      {
        SyncOne(i, queue[i].1, disk);
      }
      assert OpenCache(Key);
      forall b | 0 <= b < |image| ensures disk.blocks[b] == image[b] {
        if k :| 0 <= k < |queue| && queue[k].0 == b {
          assert Mirrored(queue[k].1, disk.blocks, image);
        }
      }
    }

    method SyncOne(k: nat, c: BlockCache, disk: Disk)
      requires Valid(disk) && k < |queue| && queue[k].1 == c
      modifies disk, c`modified
      ensures Valid(disk) && !queue[k].1.modified && |disk.blocks| == old(|disk.blocks|)
    {
      assert OpenCache(Key);
      assert Mirrored(queue[k].1, disk.blocks, image);
      c.Sync(disk);
      forall i | 0 <= i < |queue| ensures Mirrored(queue[i].1, disk.blocks, image) {
        assert i != k ==> queue[i].0 != queue[k].0;
      }
    }
  }

  lemma {:induction false} CachesSnoc(q: Queue, e: (nat, BlockCache))
    ensures Caches(q + [e]) == Caches(q) + {e.1}
  {
    assert (q + [e])[|q|] == e;
    forall c | c in Caches(q) ensures c in Caches(q + [e]) {
      var i :| 0 <= i < |q| && q[i].1 == c;
      assert (q + [e])[i] == q[i];
    }
  }

  lemma {:induction false} EvictShifts(q0: Queue, q: Queue, k: nat)
    requires k < |q0| && q == q0[..k] + q0[k + 1..]
    ensures Caches(q) <= Caches(q0)
    ensures forall i :: 0 <= i < |q| ==> q[i] == q0[if i < k then i else i + 1]
    ensures forall size: nat :: Numbered(q0, size) ==> Numbered(q, size)
  {
  }

  lemma {:induction false} EvictQueued(q0: Queue, q: Queue, k: nat, held: multiset<BlockCache>)
    requires k < |q0| && q == q0[..k] + q0[k + 1..] && q0[k].1 !in held && forall c :: c in held ==> Queued(q0, c)
    ensures forall c :: c in held ==> Queued(q, c)
  {
    forall c | c in held ensures Queued(q, c) {
      var i :| 0 <= i < |q0| && q0[i].1 == c;
      assert q[if i < k then i else i - 1] == q0[i];
    }
  }

  lemma {:induction false} EvictMisses(q0: Queue, q: Queue, k: nat, b: nat)
    requires k < |q0| && q == q0[..k] + q0[k + 1..] && q0[k].0 != b && forall i :: 0 <= i < |q| ==> q[i].0 != b
    ensures forall i :: 0 <= i < |q0| ==> q0[i].0 != b
  {
    forall i | 0 <= i < |q0| ensures q0[i].0 != b {
      assert i != k ==> q[if i < k then i else i - 1] == q0[i];
    }
  }
}
