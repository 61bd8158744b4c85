/**
 The buffer cache of kernel/bio.c under the log of kernel/log.c: why a buffer that log_write()
 has pinned stays in the cache until it is installed, and why every block reads as the log's
 `dirty` bytes over those on the disk.
 */
module LogCache {
  import opened Bio
  import LogMachine

  /**
   What the buffers are in use for: how many processes are between bread() and brelse() of each;
   which ones have been changed and not yet been passed to log_write() or bwrite(); and the bytes
   that log_write() has pinned, by block of device dev.
   */
  datatype Uses = Uses(dev: nat, held: seq<nat>, touched: set<nat>, dirty: map<nat, Bytes>)

  predicate Pinned(buf: Buf, u: Uses) {
    buf.dev == u.dev && buf.blockno in u.dirty
  }

  /** One buffer: if no holder is changing it, it has the bytes that were logged, if any, or else
      those on the disk. */
  ghost predicate BufOk(buf: Buf, b: nat, u: Uses, disk: map<Key, Bytes>) {
    && b < |u.held| && buf.refcnt == u.held[b] + (if Pinned(buf, u) then 1 else 0)
    && (b in u.touched ==> u.held[b] > 0 && buf.valid && buf.dev == u.dev)
    && (Pinned(buf, u) ==> buf.valid)
    && (buf.valid ==> KeyOf(buf) in disk)
    && (buf.valid && b !in u.touched ==> buf.data == if Pinned(buf, u) then u.dirty[buf.blockno] else disk[KeyOf(buf)])
  }

  /** Some buffer has the block. */
  ghost predicate Cached(bufs: seq<Buf>, key: Key) {
    exists i: nat :: Holds(bufs, i, key)
  }

  ghost predicate Tied(bufs: seq<Buf>, disk: map<Key, Bytes>, u: Uses) {
    && |u.held| == |bufs| && u.dev != 0 && Unique(bufs)
    && (forall b {:trigger bufs[b]} :: 0 <= b < |bufs| ==> BufOk(bufs[b], b, u, disk))
    && (forall x :: x in u.dirty ==> Cached(bufs, (u.dev, x)))
  }

  /** No buffer that could be recycled differs from the disk. */
  lemma TiedSettled(bufs: seq<Buf>, disk: map<Key, Bytes>, u: Uses)
    requires Tied(bufs, disk, u)
    ensures Settled(bufs, disk) && Unique(bufs) && u.dev != 0 && |u.held| == |bufs|
    ensures forall b :: 0 <= b < |bufs| ==> bufs[b].refcnt >= u.held[b]
  {
  }

  lemma TiedAt(bufs: seq<Buf>, disk: map<Key, Bytes>, u: Uses, b: nat)
    requires Tied(bufs, disk, u) && b < |bufs|
    ensures BufOk(bufs[b], b, u, disk) && (b in u.touched ==> u.held[b] > 0)
  {
  }

  /** No holder is in the middle of changing the block. */
  ghost predicate Quiet(bufs: seq<Buf>, touched: set<nat>, key: Key) {
    forall b :: b in touched && b < |bufs| ==> KeyOf(bufs[b]) != key
  }

  /** What a block reads as: the bytes that were logged, or else those on the disk. */
  lemma ReadsLogged(bufs: seq<Buf>, disk: map<Key, Bytes>, u: Uses, x: nat)
    requires Tied(bufs, disk, u) && Quiet(bufs, u.touched, (u.dev, x)) && (u.dev, x) in disk
    ensures Latest(bufs, disk, (u.dev, x)) == if x in u.dirty then u.dirty[x] else disk[(u.dev, x)]
  {
    if i: nat :| Holds(bufs, i, (u.dev, x)) {
      LatestHeld(bufs, disk, i);
      assert BufOk(bufs[i], i, u, disk);
    } else {
      assert !Cached(bufs, (u.dev, x));
    }
  }

  /** A pinned block is found in the cache: its buffer has not been recycled. */
  lemma DirtyCached(bufs: seq<Buf>, disk: map<Key, Bytes>, u: Uses, d: map<nat, Bytes>, x: nat)
    requires Tied(bufs, disk, u) && OnDisk(disk, u.dev, d) && x in u.dirty
    ensures x in d && exists i :: 0 <= i < |bufs| && KeyOf(bufs[i]) == (u.dev, x) && bufs[i].valid && bufs[i].refcnt > 0
  {
    assert Cached(bufs, (u.dev, x));
    var i: nat :| Holds(bufs, i, (u.dev, x));
    assert BufOk(bufs[i], i, u, disk);
  }

  /** d is what the disk has of device dev. */
  ghost predicate OnDisk(disk: map<Key, Bytes>, dev: nat, d: map<nat, Bytes>) {
    forall x: nat :: (x in d <==> (dev, x) in disk) && (x in d ==> d[x] == disk[(dev, x)])
  }

  /**
   The cache refines the machine: with the machine's disk and pinned buffers, every home block
   reads in the cache as the machine's file system sees it.
   */
  lemma LatestIsView(g: LogMachine.Geometry, s: LogMachine.State, bufs: seq<Buf>, disk: map<Key, Bytes>, u: Uses,
                     x: nat)
    requires LogMachine.DiskOk(g, s.disk) && LogMachine.Home(g, x) && OnDisk(disk, u.dev, s.disk) && u.dirty == s.dirty
    requires Tied(bufs, disk, u) && Quiet(bufs, u.touched, (u.dev, x))
    ensures x in LogMachine.View(g, s) && Latest(bufs, disk, (u.dev, x)) == LogMachine.View(g, s)[x]
  {
    ReadsLogged(bufs, disk, u, x);
  }

  /** When no buffer is in use, nothing is held, changed or logged. */
  lemma TiedFirst(bufs: seq<Buf>, disk: map<Key, Bytes>, dev: nat)
    requires dev != 0 && Unique(bufs) && Settled(bufs, disk) && forall b :: 0 <= b < |bufs| ==> bufs[b].refcnt == 0
    ensures Tied(bufs, disk, Uses(dev, seq(|bufs|, _ => 0), {}, map[]))
  {
  }

  /** Only buffer b changes, and its block stays. */
  ghost predicate OneUse(u: Uses, u': Uses, b: nat, key: Key) {
    && b < |u.held| == |u'.held| && u'.dev == u.dev && u'.held == u.held[b := u'.held[b]]
    && (forall i :: i != b ==> (i in u'.touched <==> i in u.touched))
    && (forall x :: (u.dev, x) != key ==>
      (x in u'.dirty <==> x in u.dirty) && (x in u.dirty ==> u'.dirty[x] == u.dirty[x]))
  }

  lemma TiedOne(bufs: seq<Buf>, disk: map<Key, Bytes>, u: Uses, u': Uses, b: nat, buf: Buf)
    requires Tied(bufs, disk, u) && b < |bufs| && KeyOf(buf) == KeyOf(bufs[b]) && (bufs[b].valid ==> buf.valid)
    requires OneUse(u, u', b, KeyOf(buf)) && BufOk(buf, b, u', disk)
    ensures Tied(bufs[b := buf], disk, u')
  {
    var bufs' := bufs[b := buf];
    assert Unique(bufs') by { UniqueKept(bufs, b, buf); }
    forall i | 0 <= i < |bufs'| ensures BufOk(bufs'[i], i, u', disk) {
      if i != b {
        assert BufOk(bufs[i], i, u, disk);
        if bufs[i].dev == u.dev { assert (u.dev, bufs[i].blockno) != KeyOf(buf) by { UniqueAt(bufs, i, b); } }
      }
    }
    forall x | x in u'.dirty ensures Cached(bufs', (u.dev, x)) {
      if (u.dev, x) == KeyOf(buf) {
        assert Holds(bufs', b, (u.dev, x));
      } else {
        CachedKept(bufs, b, buf, (u.dev, x));
      }
    }
  }

  lemma UniqueAt(bufs: seq<Buf>, i: nat, j: nat)
    requires Unique(bufs) && i < |bufs| && j < |bufs| && i != j && bufs[i].dev != 0
    ensures KeyOf(bufs[i]) != KeyOf(bufs[j])
  {
  }

  lemma UniqueKept(bufs: seq<Buf>, b: nat, buf: Buf)
    requires Unique(bufs) && b < |bufs| && KeyOf(buf) == KeyOf(bufs[b])
    ensures Unique(bufs[b := buf])
  {
  }

  lemma CachedKept(bufs: seq<Buf>, b: nat, buf: Buf, key: Key)
    requires Cached(bufs, key) && b < |bufs|
    requires bufs[b].valid ==> KeyOf(bufs[b]) != key || (KeyOf(buf) == key && buf.valid)
    ensures Cached(bufs[b := buf], key)
  {
    var i: nat :| Holds(bufs, i, key);
    assert Holds(bufs[b := buf], i, key);
  }

  /** The uses after one more process holds buffer b. */
  function Held(u: Uses, b: nat): Uses
    requires b < |u.held|
  {
    u.(held := u.held[b := u.held[b] + 1])
  }

  /** bread() gives buffer b to block x, or finds it there. */
  lemma TiedRead(bufs: seq<Buf>, disk: map<Key, Bytes>, u: Uses, b: nat, buf: Buf, x: nat)
    requires Tied(bufs, disk, u) && b < |bufs| && (u.dev, x) in disk && Unique(bufs[b := buf])
    requires buf.valid && KeyOf(buf) == (u.dev, x) && buf.refcnt == bufs[b].refcnt + 1
    requires buf.data == Latest(bufs, disk, (u.dev, x))
    requires bufs[b].refcnt > 0 ==> KeyOf(bufs[b]) == (u.dev, x)
    ensures b < |u.held| && Tied(bufs[b := buf], disk, Held(u, b))
    ensures b !in u.touched ==> buf.data == if x in u.dirty then u.dirty[x] else disk[(u.dev, x)]
  {
    assert BufOk(bufs[b], b, u, disk);
    if b in u.touched {
      LatestHeld(bufs, disk, b);
    } else {
      OnlyReader(bufs, disk, u, b, buf, x);
      ReadsLogged(bufs, disk, u, x);
    }
    if KeyOf(bufs[b]) == (u.dev, x) {
      TiedOne(bufs, disk, u, Held(u, b), b, buf);
    } else {
      Recycled(bufs, disk, u, b, buf, x);
    }
  }

  /** No other buffer has the block that b has just got. */
  lemma OnlyReader(bufs: seq<Buf>, disk: map<Key, Bytes>, u: Uses, b: nat, buf: Buf, x: nat)
    requires Tied(bufs, disk, u) && b < |bufs| && b !in u.touched && Unique(bufs[b := buf]) && KeyOf(buf) == (u.dev, x)
    ensures Quiet(bufs, u.touched, (u.dev, x))
  {
    forall i | i in u.touched && i < |bufs| ensures KeyOf(bufs[i]) != (u.dev, x) { UniqueAt(bufs[b := buf], b, i); }
  }

  lemma Recycled(bufs: seq<Buf>, disk: map<Key, Bytes>, u: Uses, b: nat, buf: Buf, x: nat)
    requires Tied(bufs, disk, u) && b < |bufs| && (u.dev, x) in disk && Unique(bufs[b := buf])
    requires buf.valid && KeyOf(buf) == (u.dev, x) != KeyOf(bufs[b]) && buf.refcnt == 1 && bufs[b].refcnt == 0
    requires b !in u.touched && buf.data == if x in u.dirty then u.dirty[x] else disk[(u.dev, x)]
    ensures Tied(bufs[b := buf], disk, Held(u, b))
  {
    var bufs', u' := bufs[b := buf], Held(u, b);
    assert BufOk(bufs[b], b, u, disk);
    assert x !in u.dirty by {
      if i: nat :| Holds(bufs, i, (u.dev, x)) { UniqueAt(bufs', b, i); }
    }
    forall i | 0 <= i < |bufs'| ensures BufOk(bufs'[i], i, u', disk) {
      if i != b { assert BufOk(bufs[i], i, u, disk); }
    }
    forall y | y in u.dirty ensures Cached(bufs', (u.dev, y)) { CachedKept(bufs, b, buf, (u.dev, y)); }
  }

  /** bwrite() of buffer b. */
  lemma TiedWrite(bufs: seq<Buf>, disk: map<Key, Bytes>, u: Uses, b: nat)
    requires Tied(bufs, disk, u) && b < |bufs| && bufs[b].valid && bufs[b].dev == u.dev
    requires Pinned(bufs[b], u) ==> bufs[b].data == u.dirty[bufs[b].blockno]
    ensures Tied(bufs, disk[KeyOf(bufs[b]) := bufs[b].data], u.(touched := u.touched - {b}))
  {
    var disk', u' := disk[KeyOf(bufs[b]) := bufs[b].data], u.(touched := u.touched - {b});
    forall i | 0 <= i < |bufs| ensures BufOk(bufs[i], i, u', disk') {
      assert BufOk(bufs[i], i, u, disk);
      if i != b { UniqueAt(bufs, b, i); }
    }
  }
}
