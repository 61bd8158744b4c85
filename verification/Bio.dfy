/**
 The buffer cache of kernel/bio.c, and the plain map from blocks to bytes that it stands for.
 */
module Bio {
  import opened LruRing

  type Bytes = seq<nat>
  type Key = (nat, nat)   // device and block number

  datatype Buf = Buf(valid: bool, dev: nat, blockno: nat, refcnt: nat, data: Bytes)

  function KeyOf(b: Buf): Key {
    (b.dev, b.blockno)
  }

  /** At most one buffer has a given block of a device other than 0. */
  ghost predicate Unique(bufs: seq<Buf>) {
    forall i, j :: 0 <= i < j < |bufs| && bufs[i].dev != 0 ==> KeyOf(bufs[i]) != KeyOf(bufs[j])
  }

  /** A buffer that nobody holds agrees with the disk. */
  ghost predicate Clean(b: Buf, disk: map<Key, Bytes>) {
    b.valid ==> KeyOf(b) in disk && disk[KeyOf(b)] == b.data
  }

  ghost predicate Settled(bufs: seq<Buf>, disk: map<Key, Bytes>) {
    forall i :: 0 <= i < |bufs| && bufs[i].refcnt == 0 ==> Clean(bufs[i], disk)
  }

  predicate Holds(bufs: seq<Buf>, i: nat, key: Key) {
    i < |bufs| && bufs[i].valid && KeyOf(bufs[i]) == key
  }

  /** The latest bytes of a block: those of a buffer that has it, or else those on the disk. */
  ghost function Latest(bufs: seq<Buf>, disk: map<Key, Bytes>, key: Key): Bytes {
    if exists i: nat :: Holds(bufs, i, key) then (var i: nat :| Holds(bufs, i, key); bufs[i].data)
    else if key in disk then disk[key] else []
  }

  lemma LatestHeld(bufs: seq<Buf>, disk: map<Key, Bytes>, i: nat)
    requires Unique(bufs) && i < |bufs| && bufs[i].valid && bufs[i].dev != 0
    ensures Latest(bufs, disk, KeyOf(bufs[i])) == bufs[i].data
  {
    assert Holds(bufs, i, KeyOf(bufs[i]));
    forall j: nat | Holds(bufs, j, KeyOf(bufs[i])) ensures j == i {}
  }

  /** What every operation but a change of bytes keeps: all blocks read as before. */
  ghost predicate SameBlocks(bufs: seq<Buf>, disk: map<Key, Bytes>, bufs': seq<Buf>, disk': map<Key, Bytes>) {
    forall key: Key :: key.0 != 0 ==> Latest(bufs', disk', key) == Latest(bufs, disk, key)
  }

  /** Giving buffer b, which is clean, to another block that no buffer has. */
  lemma RecycleSame(bufs: seq<Buf>, disk: map<Key, Bytes>, b: nat, buf: Buf)
    requires Unique(bufs) && b < |bufs| && Clean(bufs[b], disk) && !buf.valid
    requires forall i :: 0 <= i < |bufs| ==> KeyOf(bufs[i]) != KeyOf(buf)
    ensures Unique(bufs[b := buf]) && SameBlocks(bufs, disk, bufs[b := buf], disk)
  {
    var bufs' := bufs[b := buf];
    forall key: Key | key.0 != 0 ensures Latest(bufs', disk, key) == Latest(bufs, disk, key) {
      if i: nat :| Holds(bufs, i, key) {
        LatestHeld(bufs, disk, i);
        if i == b {
          assert forall j: nat :: !Holds(bufs', j, key);
        } else {
          assert Holds(bufs', i, key);
          LatestHeld(bufs', disk, i);
        }
      } else {
        assert forall j: nat :: Holds(bufs', j, key) ==> Holds(bufs, j, key);
      }
    }
  }

  /** Reading the block of buffer b in from the disk. */
  lemma FillSame(bufs: seq<Buf>, disk: map<Key, Bytes>, b: nat, buf: Buf)
    requires Unique(bufs) && b < |bufs| && !bufs[b].valid && buf.valid && KeyOf(buf) == KeyOf(bufs[b])
    requires KeyOf(buf) in disk && disk[KeyOf(buf)] == buf.data && buf.dev != 0
    ensures Unique(bufs[b := buf]) && SameBlocks(bufs, disk, bufs[b := buf], disk)
  {
    var bufs' := bufs[b := buf];
    forall key: Key | key.0 != 0 ensures Latest(bufs', disk, key) == Latest(bufs, disk, key) {
      if i: nat :| Holds(bufs', i, key) {
        LatestHeld(bufs', disk, i);
        if i == b {
          assert forall j: nat :: !Holds(bufs, j, key);
        } else {
          assert Holds(bufs, i, key);
          LatestHeld(bufs, disk, i);
        }
      } else {
        assert forall j: nat :: Holds(bufs, j, key) ==> Holds(bufs', j, key);
      }
    }
  }

  /** A change of nothing but reference counts. */
  lemma CountSame(bufs: seq<Buf>, disk: map<Key, Bytes>, b: nat, n: nat)
    requires Unique(bufs) && b < |bufs|
    ensures Unique(bufs[b := bufs[b].(refcnt := n)]) && SameBlocks(bufs, disk, bufs[b := bufs[b].(refcnt := n)], disk)
  {
    var bufs' := bufs[b := bufs[b].(refcnt := n)];
    forall key: Key | key.0 != 0 ensures Latest(bufs', disk, key) == Latest(bufs, disk, key) {
      if i: nat :| Holds(bufs, i, key) {
        assert Holds(bufs', i, key);
        LatestHeld(bufs, disk, i);
        LatestHeld(bufs', disk, i);
      } else {
        assert forall j: nat :: Holds(bufs', j, key) ==> Holds(bufs, j, key);
      }
    }
  }

  /** bwrite(): the disk catches up with the buffer. */
  lemma WriteSame(bufs: seq<Buf>, disk: map<Key, Bytes>, b: nat)
    requires Unique(bufs) && b < |bufs| && bufs[b].valid && bufs[b].dev != 0
    ensures SameBlocks(bufs, disk, bufs, disk[KeyOf(bufs[b]) := bufs[b].data])
  {
    forall key: Key | key.0 != 0
      ensures Latest(bufs, disk[KeyOf(bufs[b]) := bufs[b].data], key) == Latest(bufs, disk, key)
    {
      assert Holds(bufs, b, KeyOf(bufs[b]));
    }
  }

  /** New bytes in buffer b are the new bytes of its block, and of no other. */
  lemma ChangeBlock(bufs: seq<Buf>, disk: map<Key, Bytes>, b: nat, data: Bytes, key: Key)
    requires Unique(bufs) && b < |bufs| && bufs[b].valid && bufs[b].dev != 0 && key.0 != 0
    ensures Unique(bufs[b := bufs[b].(data := data)])
    ensures Latest(bufs[b := bufs[b].(data := data)], disk, key) == if key == KeyOf(bufs[b]) then data
      else Latest(bufs, disk, key)
  {
    var bufs' := bufs[b := bufs[b].(data := data)];
    if i: nat :| Holds(bufs, i, key) {
      assert Holds(bufs', i, key);
      LatestHeld(bufs, disk, i);
      LatestHeld(bufs', disk, i);
    } else {
      assert forall j: nat :: Holds(bufs', j, key) ==> Holds(bufs, j, key);
      assert Holds(bufs, b, KeyOf(bufs[b]));
    }
  }

  /** Buffers nearer the front of the list were put there later. */
  ghost predicate ByStamp(order: seq<nat>, stamp: seq<nat>, now: nat) {
    && (forall i :: 0 <= i < |order| ==> order[i] < |stamp| && stamp[order[i]] < now)
    && forall i, j :: 0 <= i < j < |order| ==> stamp[order[i]] > stamp[order[j]]
  }

  lemma RingSize(next: seq<nat>, prev: seq<nat>, order: seq<nat>, h: nat)
    requires Ring(next, prev, order, h)
    ensures |next| == |prev| == h + 1 && next[h] <= h
  {
    assert Link(next, prev, Round(order, h)[0], Round(order, h)[1]);
  }

  lemma StampFront(order: seq<nat>, stamp: seq<nat>, now: nat, b: nat)
    requires ByStamp(order, stamp, now) && b < |stamp| && b !in order
    ensures ByStamp([b] + order, stamp[b := now], now + 1)
  {
  }

  /** Everything behind order[k] is held. */
  lemma LeastRecent(order: seq<nat>, stamp: seq<nat>, now: nat, bufs: seq<Buf>, k: nat)
    requires ByStamp(order, stamp, now) && k < |order| && (forall i :: 0 <= i < |bufs| ==> i in order)
    requires forall i :: 0 <= i < |order| ==> order[i] < |bufs|
    requires forall i :: k < i < |order| ==> bufs[order[i]].refcnt != 0
    ensures forall i :: 0 <= i < |bufs| && bufs[i].refcnt == 0 ==> i < |stamp| && stamp[order[k]] <= stamp[i]
  {
    forall i | 0 <= i < |bufs| && bufs[i].refcnt == 0 ensures i < |stamp| && stamp[order[k]] <= stamp[i] {
      assert i in order;
    }
  }

  /** The order after b has gone to the front. */
  ghost predicate MovedFront(order: seq<nat>, order': seq<nat>, b: nat) {
    exists k :: 0 <= k < |order| && order[k] == b && order' == [b] + Without(order, k)
  }

  class Cache {
    const nbuf: nat
    var next: seq<nat>
    var prev: seq<nat>
    var bufs: seq<Buf>
    var disk: map<Key, Bytes>
    ghost var order: seq<nat>
    ghost var stamp: seq<nat>   // when each buffer was last put at the front
    ghost var now: nat

    ghost predicate Linked()
      reads this
    {
      && Ring(next, prev, order, nbuf) && |order| == |bufs| == |stamp| == nbuf
      && (forall b :: 0 <= b < nbuf ==> b in order) && ByStamp(order, stamp, now)
    }

    ghost predicate Valid()
      reads this
    {
      Linked() && Unique(bufs) && Settled(bufs, disk)
    }

    /** binit(): the list head is number nbuf. */
    constructor (nbuf: nat, disk: map<Key, Bytes>)
      ensures Valid() && this.nbuf == nbuf && this.disk == disk
      ensures forall b :: 0 <= b < nbuf ==> bufs[b] == Buf(false, 0, 0, 0, [])
    {
      this.nbuf := nbuf;
      this.disk := disk;
      this.bufs := seq(nbuf, _ => Buf(false, 0, 0, 0, []));
      next, prev := seq(nbuf + 1, _ => nbuf), seq(nbuf + 1, _ => nbuf);
      order, stamp, now := [], seq(nbuf, _ => 0), 0;
      new;
      var b := 0;
      while b < nbuf
        invariant b <= nbuf && now == |order| == b && Ring(next, prev, order, nbuf) && |stamp| == nbuf
        invariant bufs == seq(nbuf, _ => Buf(false, 0, 0, 0, []))
        invariant forall x :: 0 <= x < b <==> x in order
        invariant ByStamp(order, stamp, now)
        modifies this`next, this`prev, this`order, this`stamp, this`now
      {
        PushFront(b);
        b := b + 1;
      }
    }

    /** Puts b, which is not in the list, at its front. */
    method PushFront(b: nat)
      requires Ring(next, prev, order, nbuf) && b < nbuf && b !in order && |stamp| == nbuf && ByStamp(order, stamp, now)
      modifies this`next, this`prev, this`order, this`stamp, this`now
      ensures Ring(next, prev, order, nbuf) && order == [b] + old(order)
      ensures stamp == old(stamp)[b := old(now)] && now == old(now) + 1 && ByStamp(order, stamp, now)
    {
      RingSize(next, prev, order, nbuf);
      PushOk(next, prev, order, nbuf, b);
      StampFront(order, stamp, now, b);
      hide Ring, ByStamp;
      next := next[b := next[nbuf]];
      prev := prev[b := nbuf];
      prev := prev[next[nbuf] := b];
      next := next[nbuf := b];
      order, stamp, now := [b] + order, stamp[b := now], now + 1;
    }

    /** A buffer that has the block, or that nobody holds. */
    ghost predicate Available(dev: nat, blockno: nat)
      reads this
    {
      exists i :: 0 <= i < |bufs| && (KeyOf(bufs[i]) == (dev, blockno) || bufs[i].refcnt == 0)
    }

    /** bget(): the buffer of the block, or else the one put at the front longest ago of those
        that nobody holds; it panics exactly when there is neither. */
    method Bget(dev: nat, blockno: nat) returns (panic: bool, b: nat)
      requires Valid() && dev != 0
      modifies this`bufs
      ensures Valid() && (panic <==> !old(Available(dev, blockno))) && (panic ==> bufs == old(bufs))
      ensures !panic ==> b < nbuf && KeyOf(bufs[b]) == (dev, blockno) && bufs[b].refcnt == old(bufs)[b].refcnt + 1
      ensures !panic ==> SameBlocks(old(bufs), disk, bufs, disk) && bufs == old(bufs)[b := bufs[b]]
      ensures !panic ==>
        if KeyOf(old(bufs)[b]) == (dev, blockno) then bufs[b] == old(bufs)[b].(refcnt := bufs[b].refcnt)
        else !bufs[b].valid && old(bufs)[b].refcnt == 0
             && (forall i :: 0 <= i < nbuf ==> KeyOf(old(bufs)[i]) != (dev, blockno))
             && (forall i :: 0 <= i < nbuf && old(bufs)[i].refcnt == 0 ==> stamp[b] <= stamp[i])
    {
      panic := false;
      b := Find(dev, blockno);
      hide Ring, ByStamp;
      if b != nbuf {
        CountSame(bufs, disk, b, bufs[b].refcnt + 1);
        bufs := bufs[b := bufs[b].(refcnt := bufs[b].refcnt + 1)];
        return;
      }
      b := FindUnused();
      if b == nbuf {
        return true, 0;
      }
      ghost var buf := Buf(false, dev, blockno, 1, bufs[b].data);
      RecycleSame(bufs, disk, b, buf);
      bufs := bufs[b := Buf(false, dev, blockno, 1, bufs[b].data)];
    }

    /** The first loop of bget(): from the front. */
    method Find(dev: nat, blockno: nat) returns (b: nat)
      requires Linked()
      ensures if b == nbuf then forall i :: 0 <= i < nbuf ==> KeyOf(bufs[i]) != (dev, blockno)
              else b < nbuf && KeyOf(bufs[b]) == (dev, blockno)
    {
      hide ByStamp;
      ghost var r := Round(order, nbuf);
      assert Link(next, prev, r[0], r[1]);
      b := next[nbuf];
      ghost var k: nat := 0;
      while b != nbuf
        invariant k <= nbuf && b == r[k + 1]
        invariant forall i :: 0 <= i < k ==> KeyOf(bufs[order[i]]) != (dev, blockno)
        decreases nbuf - k
      {
        assert k < nbuf && b == order[k];
        if bufs[b].dev == dev && bufs[b].blockno == blockno {
          return;
        }
        assert Link(next, prev, r[k + 1], r[k + 2]);
        b := next[b];
        k := k + 1;
      }
      assert k == nbuf;
      forall i | 0 <= i < nbuf ensures KeyOf(bufs[i]) != (dev, blockno) { assert i in order; }
    }

    /** Its second loop: from the back. */
    method FindUnused() returns (b: nat)
      requires Linked()
      ensures if b == nbuf then forall i :: 0 <= i < nbuf ==> bufs[i].refcnt != 0 else b < nbuf && bufs[b].refcnt == 0
      ensures b < nbuf ==> forall i :: 0 <= i < nbuf && bufs[i].refcnt == 0 ==> stamp[b] <= stamp[i]
    {
      hide ByStamp;
      ghost var r := Round(order, nbuf);
      assert Link(next, prev, r[nbuf], r[nbuf + 1]);
      b := prev[nbuf];
      ghost var k: nat := nbuf;
      while b != nbuf
        invariant k <= nbuf && b == r[k]
        invariant forall i :: k <= i < nbuf ==> bufs[order[i]].refcnt != 0
        decreases k
      {
        assert k > 0 && b == order[k - 1];
        if bufs[b].refcnt == 0 {
          LeastRecent(order, stamp, now, bufs, k - 1);
          return;
        }
        assert Link(next, prev, r[k - 1], r[k]);
        b := prev[b];
        k := k - 1;
      }
      assert k == 0;
      forall i | 0 <= i < nbuf ensures bufs[i].refcnt != 0 { assert i in order; }
    }

    /** bread(): the buffer has the latest bytes of the block. */
    method Bread(dev: nat, blockno: nat) returns (panic: bool, b: nat)
      requires Valid() && dev != 0 && (dev, blockno) in disk
      modifies this`bufs
      ensures Valid() && (panic <==> !old(Available(dev, blockno))) && (panic ==> bufs == old(bufs))
      ensures !panic ==> b < nbuf && bufs[b].valid && KeyOf(bufs[b]) == (dev, blockno)
      ensures !panic ==> bufs[b].refcnt == old(bufs)[b].refcnt + 1 && bufs == old(bufs)[b := bufs[b]]
      ensures !panic ==>
        bufs[b].data == Latest(old(bufs), disk, (dev, blockno)) && SameBlocks(old(bufs), disk, bufs, disk)
      ensures !panic && old(bufs)[b].refcnt > 0 ==> KeyOf(old(bufs)[b]) == (dev, blockno)
    {
      hide Ring, ByStamp;
      panic, b := Bget(dev, blockno);
      if panic {
        return;
      }
      if !bufs[b].valid {
        ghost var buf := bufs[b].(valid := true, data := disk[(dev, blockno)]);
        FillSame(bufs, disk, b, buf);
        bufs := bufs[b := bufs[b].(valid := true, data := disk[(dev, blockno)])];
      }
      LatestHeld(bufs, disk, b);
      assert Latest(bufs, disk, (dev, blockno)) == Latest(old(bufs), disk, (dev, blockno));
    }

    /** bwrite() */
    method Bwrite(b: nat)
      requires Valid() && b < nbuf && bufs[b].valid && bufs[b].dev != 0 && bufs[b].refcnt > 0
      modifies this`disk
      ensures Valid() && disk == old(disk)[KeyOf(bufs[b]) := bufs[b].data] && SameBlocks(bufs, old(disk), bufs, disk)
    {
      hide Ring, ByStamp;
      WriteSame(bufs, disk, b);
      disk := disk[KeyOf(bufs[b]) := bufs[b].data];
    }

    /** The holder of a buffer changes its bytes. */
    method Change(b: nat, data: Bytes)
      requires Valid() && b < nbuf && bufs[b].valid && bufs[b].dev != 0 && bufs[b].refcnt > 0
      modifies this`bufs
      ensures Valid() && bufs == old(bufs)[b := old(bufs)[b].(data := data)]
      ensures forall key: Key :: key.0 != 0 ==>
        Latest(bufs, disk, key) == if key == KeyOf(bufs[b]) then data else Latest(old(bufs), disk, key)
    {
      hide Ring, ByStamp;
      forall key: Key | key.0 != 0
        ensures Latest(bufs[b := bufs[b].(data := data)], disk, key) == if key == KeyOf(bufs[b]) then data
          else Latest(bufs, disk, key)
      {
        ChangeBlock(bufs, disk, b, data, key);
      }
      ChangeBlock(bufs, disk, b, data, KeyOf(bufs[b]));
      bufs := bufs[b := bufs[b].(data := data)];
    }

    /** bpin() */
    method Bpin(b: nat)
      requires Valid() && b < nbuf && bufs[b].refcnt > 0
      modifies this`bufs
      ensures Valid() && bufs == old(bufs)[b := old(bufs)[b].(refcnt := old(bufs)[b].refcnt + 1)]
      ensures SameBlocks(old(bufs), disk, bufs, disk)
    {
      hide Ring, ByStamp;
      CountSame(bufs, disk, b, bufs[b].refcnt + 1);
      bufs := bufs[b := bufs[b].(refcnt := bufs[b].refcnt + 1)];
    }

    /** bunpin(): the cache stays settled exactly when the last reference to a buffer goes only
        after the disk has its bytes. */
    method Bunpin(b: nat)
      requires Valid() && b < nbuf && bufs[b].refcnt > 0
      modifies this`bufs
      ensures Linked() && Unique(bufs) && bufs == old(bufs)[b := old(bufs)[b].(refcnt := old(bufs)[b].refcnt - 1)]
      ensures SameBlocks(old(bufs), disk, bufs, disk)
      ensures Settled(bufs, disk) <==> (bufs[b].refcnt == 0 ==> Clean(bufs[b], disk))
    {
      hide Ring, ByStamp;
      CountSame(bufs, disk, b, bufs[b].refcnt - 1);
      bufs := bufs[b := bufs[b].(refcnt := bufs[b].refcnt - 1)];
    }

    /** brelse(): a buffer that nobody holds any more goes to the front. The cache stays settled
        exactly when the disk then has its bytes. */
    method Brelse(b: nat)
      requires Valid() && b < nbuf && bufs[b].refcnt > 0
      modifies this`bufs, this`next, this`prev, this`order, this`stamp, this`now
      ensures Linked() && Unique(bufs) && bufs == old(bufs)[b := old(bufs)[b].(refcnt := old(bufs)[b].refcnt - 1)]
      ensures SameBlocks(old(bufs), disk, bufs, disk)
      ensures Settled(bufs, disk) <==> (bufs[b].refcnt == 0 ==> Clean(bufs[b], disk))
      ensures if bufs[b].refcnt > 0 then order == old(order) && stamp == old(stamp)
              else stamp == old(stamp)[b := old(now)] && MovedFront(old(order), order, b)
    {
      hide Ring, ByStamp, Latest, Without;
      CountSame(bufs, disk, b, bufs[b].refcnt - 1);
      bufs := bufs[b := bufs[b].(refcnt := bufs[b].refcnt - 1)];
      if bufs[b].refcnt == 0 {
        MoveFront(b);
      }
    }

    /** Takes b out of the list and puts it at the front. */
    method MoveFront(b: nat)
      requires Linked() && b < nbuf
      modifies this`next, this`prev, this`order, this`stamp, this`now
      ensures Linked() && stamp == old(stamp)[b := old(now)] && MovedFront(old(order), order, b)
    {
      assert b in order;
      ghost var k :| 0 <= k < nbuf && order[k] == b;
      UnlinkOk(next, prev, order, nbuf, k);
      StampWithout(order, stamp, now, k);
      RingSize(next, prev, order, nbuf);
      WithoutOut(order, nbuf, k);
      hide Ring, ByStamp, Without;
      var n, p := next[b], prev[b];
      prev := prev[n := p];
      next := next[p := n];
      order := Without(order, k);
      PushFront(b);
    }
  }

  lemma StampWithout(order: seq<nat>, stamp: seq<nat>, now: nat, k: nat)
    requires ByStamp(order, stamp, now) && k < |order|
    ensures ByStamp(Without(order, k), stamp, now)
  {
  }

  lemma WithoutOut(order: seq<nat>, h: nat, k: nat)
    requires Distinct(order, h) && k < |order|
    ensures |Without(order, k)| == |order| - 1 && order[k] !in Without(order, k)
    ensures forall x :: x in order && x != order[k] ==> x in Without(order, k)
  {
  }
}
