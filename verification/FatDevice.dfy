/** The byte-addressed device above the block cache (os/src/fs/fat32.rs). */
module FatDevice {
  import opened Addresses
  import opened BlockCache
  import opened Closed

  const I64_LIMIT: int := 0x8000_0000_0000_0000

  /** Byte `k` of a device whose blocks are `image`. */
  function ByteAt(image: seq<Block>, k: nat): nat
    requires k < BLOCK_SZ * |image|
  {
    image[k / BLOCK_SZ][k % BLOCK_SZ]
  }

  datatype IoResult = Ok(count: nat) | Err | Panicked

  datatype SeekFrom = Start(pos: nat) | Current(delta: int) | End(delta: int)

  /** `x as i64` for a 64-bit value, and the wrapped sum of two `i64`s. */
  function AsI64(x: int): (r: int)
    ensures -I64_LIMIT <= r < I64_LIMIT
    ensures -I64_LIMIT <= x < I64_LIMIT ==> r == x
  {
    (x + I64_LIMIT) % (2 * I64_LIMIT) - I64_LIMIT
  }

  /** The part of one block that a transfer of `len - done` more bytes at `at` can cover. */
  function PartSize(at: nat, rest: nat): (n: nat)
    requires rest > 0
    ensures 0 < n <= rest && at % BLOCK_SZ + n <= BLOCK_SZ
    ensures n < rest ==> at % BLOCK_SZ + n == BLOCK_SZ
  {
    if rest < BLOCK_SZ - at % BLOCK_SZ then rest else BLOCK_SZ - at % BLOCK_SZ
  }

  /** The device holds `bytes` from `at` on. */
  ghost predicate Shown(image: seq<Block>, at: nat, bytes: seq<nat>)
  {
    && at + |bytes| <= BLOCK_SZ * |image|
    && forall k :: 0 <= k < |bytes| ==> bytes[k] == ByteAt(image, at + k)
  }

  lemma {:induction false} ShownInBlock(image: seq<Block>, at: nat, part: seq<nat>)
    requires at / BLOCK_SZ < |image| && at % BLOCK_SZ + |part| <= BLOCK_SZ
    requires part == image[at / BLOCK_SZ][at % BLOCK_SZ..at % BLOCK_SZ + |part|]
    ensures Shown(image, at, part)
  {
  }

  lemma {:induction false} ShownMore(image: seq<Block>, at: nat, front: seq<nat>, part: seq<nat>)
    requires Shown(image, at, front) && Shown(image, at + |front|, part)
    ensures Shown(image, at, front + part)
  {
  }

  /** What was stored is what is read back. */
  lemma {:induction false} ReadBack(image0: seq<Block>, image: seq<Block>, at: nat, bytes: seq<nat>, back: seq<nat>)
    requires Stored(image0, image, at, bytes) && Shown(image, at, back) && |back| == |bytes|
    ensures back == bytes
  {
  }

  /** `bytes` are stored from `at` on, and nothing else differs. */
  ghost predicate Stored(image0: seq<Block>, image: seq<Block>, at: nat, bytes: seq<nat>)
  {
    && |image| == |image0| && at + |bytes| <= BLOCK_SZ * |image|
    && (forall k: nat :: k < BLOCK_SZ * |image| ==>
                      ByteAt(image, k) == if at <= k < at + |bytes| then bytes[k - at] else ByteAt(image0, k))
  }

  lemma {:induction false} StoreInBlock(image0: seq<Block>, at: nat, bytes: seq<nat>, block: Block)
    requires at / BLOCK_SZ < |image0| && at % BLOCK_SZ + |bytes| <= BLOCK_SZ
    requires block == image0[at / BLOCK_SZ][..at % BLOCK_SZ] + bytes + image0[at / BLOCK_SZ][at % BLOCK_SZ + |bytes|..]
    ensures Stored(image0, image0[at / BLOCK_SZ := block], at, bytes)
  {
  }

  lemma {:induction false} StoredNext(image0: seq<Block>, image1: seq<Block>, image2: seq<Block>, at: nat, bytes: seq<nat>, n: nat, m: nat)
    requires n <= m <= |bytes| && Stored(image1, image2, at + n, bytes[n..m])
    requires if n == 0 then image1 == image0 else Stored(image0, image1, at, bytes[..n])
    ensures Stored(image0, image2, at, bytes[..m])
  {
  }

  /** Copy the bytes of one block behind those read before. */
  method Append(buf: array<nat>, done: nat, part: seq<nat>, ghost at: nat, ghost image: seq<Block>)
    requires done + |part| <= buf.Length && (done > 0 ==> Shown(image, at, buf[..done])) && Shown(image, at + done, part)
    modifies buf
    ensures Shown(image, at, buf[..done + |part|])
  {
    ghost var before := buf[..done];
    forall i | 0 <= i < |part| {
      buf[done + i] := part[i];
    }
    assert buf[..done + |part|] == before + part;
    if done > 0 {
      ShownMore(image, at, before, part);
    }
  }

  class FatFsBlockDevice {
    const disk: Disk
    const cache: BlockCacheManager
    var offset: nat

    /** No more handles are out than leave a cache free; disk and cursor fit an `i64`. */
    ghost predicate Valid()
      reads this, cache, disk, Caches(cache.queue)
    {
      && cache.Valid(disk) && |cache.held| < BLOCK_CACHE_SIZE
      && BLOCK_SZ * |disk.blocks| < I64_LIMIT && offset < I64_LIMIT
    }

    ghost function Size(): nat
      reads disk
    {
      BLOCK_SZ * |disk.blocks|
    }

    constructor (disk: Disk, cache: BlockCacheManager)
      requires cache.Valid(disk) && |cache.held| < BLOCK_CACHE_SIZE && BLOCK_SZ * |disk.blocks| < I64_LIMIT
      ensures Valid() && offset == 0 && this.disk == disk && this.cache == cache
    {
      this.disk, this.cache, offset := disk, cache, 0;
    }

    lemma {:induction false} ImageSize()
      requires Valid()
      ensures |cache.image| == |disk.blocks|
    {
      assert cache.OpenCache(Key);
    }

    /** A handle on the cache of a block. The only panic is for a block past the disk. */
    method Handle(id: nat) returns (c: Option<BlockCache>)
      requires Valid()
      modifies cache`queue, cache`held, disk, Caches(cache.queue)
      ensures c.Some? <==> id < |disk.blocks|
      ensures cache.Valid(disk) && |disk.blocks| == old(|disk.blocks|)
      ensures fresh(Caches(cache.queue) - old(Caches(cache.queue)))
      ensures c.Some? ==> c.value.blockId == id && Queued(cache.queue, c.value) && cache.held == old(cache.held) + multiset{c.value}
      ensures c.None? ==> cache.held == old(cache.held)
    {
      if cache.Full() {
        cache.FullTakesHandles(disk);
      }
      var r := cache.GetBlockCache(id, disk);
      return if r.Cached? then Some(r.cache) else None;
    }
  
    /** One turn of the loop of `read`: the bytes of one block. */
    method Fetch(at: nat, n: nat) returns (r: Option<seq<nat>>)
      requires Valid() && at % BLOCK_SZ + n <= BLOCK_SZ
      modifies cache`queue, cache`held, disk, Caches(cache.queue)
      ensures Valid() && |disk.blocks| == old(|disk.blocks|) && fresh(Caches(cache.queue) - old(Caches(cache.queue)))
      ensures if r.Some? then at + n <= Size() else Size() <= at
      ensures cache.held == old(cache.held)
      ensures r.Some? ==> |r.value| == n && Shown(cache.image, at, r.value)
    {
      var h := Handle(at / BLOCK_SZ);
      if h.None? {
        return None;
      }
      var c, o := h.value, at % BLOCK_SZ;
      cache.CacheShows(c, disk);
      var part := c.data[o..o + n];
      ShownInBlock(cache.image, at, part);
      cache.Release(c, disk);
      WithinDisk(at, n, |disk.blocks|);
      assert cache.held == old(cache.held);
      return Some(part);
    }

    /** `read`: the bytes at the cursor, which moves past them. It panics exactly when the
        range runs past the disk. */
    method Read(buf: array<nat>) returns (r: IoResult)
      requires Valid()
      modifies this`offset, cache`queue, cache`held, disk, Caches(cache.queue), buf
      ensures r.Panicked? <==> buf.Length > 0 && old(offset) + buf.Length > Size()
      ensures !r.Panicked? ==> r == Ok(buf.Length) && Valid() && offset == old(offset) + buf.Length
      ensures !r.Panicked? && buf.Length > 0 ==> Shown(cache.image, old(offset), buf[..])
      ensures |disk.blocks| == old(|disk.blocks|) && cache.held == old(cache.held)
      ensures fresh(Caches(cache.queue) - old(Caches(cache.queue)))
    {
      if buf.Length == 0 {
        return Ok(0);
      }
      var ok := ReadRange(offset, buf);
      if !ok {
        return Panicked;
      }
      offset := offset + buf.Length;
      return Ok(buf.Length);
    }

    /** The loop of `read`. */
    method ReadRange(at: nat, buf: array<nat>) returns (ok: bool)
      requires Valid() && buf.Length > 0
      modifies cache`queue, cache`held, disk, Caches(cache.queue), buf
      ensures Valid() && |disk.blocks| == old(|disk.blocks|) && cache.held == old(cache.held)
      ensures fresh(Caches(cache.queue) - old(Caches(cache.queue)))
      ensures ok <==> at + buf.Length <= Size()
      ensures ok ==> Shown(cache.image, at, buf[..])
    {
      var done, current := 0, at;
      while done < buf.Length
        invariant 0 <= done <= buf.Length && current == at + done && (done > 0 ==> current <= Size())
        invariant Valid() && |disk.blocks| == old(|disk.blocks|) && cache.held == old(cache.held)
        invariant fresh(Caches(cache.queue) - old(Caches(cache.queue)))
        invariant done > 0 ==> Shown(cache.image, at, buf[..done])
      {
        var n := PartSize(current, buf.Length - done);
        var part := Fetch(current, n);
        if part.None? {
          return false;
        }
        Append(buf, done, part.value, at, cache.image);
        done, current := done + n, current + n;
      }
      assert buf[..buf.Length] == buf[..];
      return true;
    }

    /** One turn of the loop of `write`. */
    method WritePart(at: nat, bytes: seq<nat>) returns (ok: bool)
      requires Valid() && at % BLOCK_SZ + |bytes| <= BLOCK_SZ
      modifies cache, disk, Caches(cache.queue)
      ensures Valid() && |disk.blocks| == old(|disk.blocks|) && fresh(Caches(cache.queue) - old(Caches(cache.queue)))
      ensures if ok then at + |bytes| <= Size() else Size() <= at
      ensures cache.held == old(cache.held)
      ensures if ok then Stored(old(cache.image), cache.image, at, bytes) else cache.image == old(cache.image)
    {
      var h := Handle(at / BLOCK_SZ);
      if h.None? {
        return false;
      }
      var c := h.value;
      ghost var image0 := cache.image;
      cache.Modify(c, at % BLOCK_SZ, bytes, disk);
      StoreInBlock(image0, at, bytes, c.data);
      cache.Release(c, disk);
      WithinDisk(at, |bytes|, |disk.blocks|);
      assert cache.held == old(cache.held);
      return true;
    }

    /** `write`: store at the cursor, which moves past the bytes. It panics exactly when the
        range runs past the disk. */
    method Write(buf: seq<nat>) returns (r: IoResult)
      requires Valid()
      modifies this`offset, cache, disk, Caches(cache.queue)
      ensures r.Panicked? <==> |buf| > 0 && old(offset) + |buf| > Size()
      ensures !r.Panicked? ==> r == Ok(|buf|) && Valid() && offset == old(offset) + |buf|
      ensures !r.Panicked? && |buf| > 0 ==> Stored(old(cache.image), cache.image, old(offset), buf)
      ensures |buf| == 0 ==> cache.image == old(cache.image)
      ensures |disk.blocks| == old(|disk.blocks|) && cache.held == old(cache.held)
      ensures fresh(Caches(cache.queue) - old(Caches(cache.queue)))
    {
      if |buf| == 0 {
        return Ok(0);
      }
      var ok := WriteRange(offset, buf);
      if !ok {
        return Panicked;
      }
      offset := offset + |buf|;
      return Ok(|buf|);
    }

    /** The loop of `write`. */
    method WriteRange(at: nat, buf: seq<nat>) returns (ok: bool)
      requires Valid() && |buf| > 0
      modifies cache, disk, Caches(cache.queue)
      ensures Valid() && |disk.blocks| == old(|disk.blocks|) && cache.held == old(cache.held)
      ensures fresh(Caches(cache.queue) - old(Caches(cache.queue)))
      ensures ok <==> at + |buf| <= Size()
      ensures ok ==> Stored(old(cache.image), cache.image, at, buf)
    {
      var done, current := 0, at;
      ghost var image0 := cache.image;
      while done < |buf|
        invariant 0 <= done <= |buf| && current == at + done && (done > 0 ==> current <= Size())
        invariant Valid() && |disk.blocks| == old(|disk.blocks|) && cache.held == old(cache.held)
        invariant fresh(Caches(cache.queue) - old(Caches(cache.queue)))
        invariant if done == 0 then cache.image == image0 else Stored(image0, cache.image, at, buf[..done])
      {
        var n := PartSize(current, |buf| - done);
        ghost var image1 := cache.image;
        var ok' := WritePart(current, buf[done..done + n]);
        if !ok' {
          return false;
        }
        StoredNext(image0, image1, cache.image, at, buf, done, done + n);
        done, current := done + n, current + n;
      }
      assert buf[..|buf|] == buf;
      return true;
    }

    /** `flush`: the disk becomes what the device holds, which does not change. */
    method Flush()
      requires Valid()
      modifies disk, Caches(cache.queue)
      ensures Valid() && disk.blocks == cache.image
    {
      cache.SyncAll(disk);
    }

    /** `seek`: the cursor moves to the wanted place if it is neither negative nor past what an
        `i64` can say; seeking from the end is refused. */
    method Seek(pos: SeekFrom) returns (r: IoResult)
      requires Valid()
      requires pos.Start? ==> pos.pos < USIZE_LIMIT
      requires pos.Current? ==> -I64_LIMIT <= pos.delta < I64_LIMIT
      modifies this`offset
      ensures Valid()
      ensures var want := match pos case Start(p) => p case Current(d) => old(offset) + d case End(d) => -1;
              if 0 <= want < I64_LIMIT then r == Ok(want) && offset == want else r == Err && offset == old(offset)
    {
      var target: int;
      match pos {
        case Start(p) => target := AsI64(p);
        case Current(d) => target := AsI64(AsI64(offset) + d);
        case End(d) => return Err;
      }
      if target < 0 {
        return Err;
      }
      offset := target;
      return Ok(target);
    }
  }

  lemma {:induction false} WithinDisk(at: nat, n: nat, blocks: nat)
    requires at % BLOCK_SZ + n <= BLOCK_SZ && at / BLOCK_SZ < blocks
    ensures at + n <= BLOCK_SZ * blocks
  {
  }
}
