/**
 The virtio block queue: the driver of kernel/virtio_disk.c and a device that takes requests
 in order and completes them in any order. Every method is what one side does at once: the
 driver while it holds vdisk_lock, the device in one access of a ring. The layout is that of
 section 2.6 of VIRTIO 1.1.
 */
module Virtio {
  import opened Options
  const NUM: nat := 8
  const TWO16: nat := 65536

  /** A 16-bit counter after k increments. */
  function U16(k: nat): nat {
    k % TWO16
  }

  /** The ring slot of entry k. */
  function Slot(k: nat): (i: nat)
    ensures i < NUM
  {
    k % NUM
  }

  const BSIZE: nat := 1024
  const SECTOR: nat := 512

  /** Block b of a disk: its bytes from b * BSIZE on. */
  function Block(disk: seq<nat>, b: nat): seq<nat> {
    if (b + 1) * BSIZE <= |disk| then disk[b * BSIZE..(b + 1) * BSIZE] else []
  }

  /** A device puts x on the disk, from a sector on. */
  function Stored(disk: seq<nat>, sector: nat, x: seq<nat>): seq<nat>
    requires sector * SECTOR + |x| <= |disk|
  {
    disk[..sector * SECTOR] + x + disk[sector * SECTOR + |x|..]
  }

  /** From d to d' block b has become x, and no other block has changed. */
  ghost predicate BlockSet(d: seq<nat>, d': seq<nat>, b: nat, x: seq<nat>) {
    |d'| == |d| && Block(d', b) == x && forall c: nat :: c != b ==> Block(d', c) == Block(d, c)
  }

  /** A block that is stored at its sectors is that block, and no other block changes. */
  lemma StoredBlock(disk: seq<nat>, b: nat, x: seq<nat>, c: nat)
    requires |x| == BSIZE && (b + 1) * BSIZE <= |disk|
    ensures b * (BSIZE / 512) * SECTOR + |x| <= |disk| && |Stored(disk, b * (BSIZE / 512), x)| == |disk|
    ensures Block(Stored(disk, b * (BSIZE / 512), x), c) == if c == b then x else Block(disk, c)
  {
    var d := Stored(disk, b * (BSIZE / 512), x);
    if c < b {
      assert (c + 1) * BSIZE <= b * BSIZE;
    } else if c > b {
      assert (b + 1) * BSIZE <= c * BSIZE;
      if (c + 1) * BSIZE <= |disk| {
        forall k | c * BSIZE <= k < (c + 1) * BSIZE ensures d[k] == disk[k] {}
      }
    }
  }

  lemma StoredSet(disk: seq<nat>, b: nat, x: seq<nat>)
    requires |x| == BSIZE && (b + 1) * BSIZE <= |disk|
    ensures b * (BSIZE / 512) * SECTOR + |x| <= |disk| && BlockSet(disk, Stored(disk, b * (BSIZE / 512), x), b, x)
  {
    StoredBlock(disk, b, x, b);
    var d := Stored(disk, b * (BSIZE / 512), x);
    forall c: nat | c != b ensures Block(d, c) == Block(disk, c) { StoredBlock(disk, b, x, c); }
  }

  /** What the address in a descriptor leads to: an entry of ops[], the bytes of a buffer, or
      the status byte in an entry of info[]. */
  datatype Target = Nowhere | OpAt(i: nat) | DataOf(b: nat) | StatusAt(i: nat)

  /** A descriptor: address, length, the next one of its chain, F_NEXT, and F_WRITE. */
  datatype Desc = Desc(addr: Target, len: nat, next: nat, more: bool, write: bool)

  const NoDesc := Desc(Nowhere, 0, 0, false, false)

  /** A struct virtio_blk_req: the direction of a request and its first sector of 512 bytes. */
  datatype Op = Op(out: bool, sector: nat)

  /** info[] with ops[], which are both indexed by the head of a chain: the buffer of a request,
      the status byte that the device writes, and the command. */
  datatype Info = Info(b: Option<nat>, status: nat, op: Op)

  /** Where a request is: in the available ring, with the device, in the used ring, or known
      to the driver as done. */
  datatype Stage = Queued | Taken | Used | Done

  /** A request to read block `blockno` into buffer b, or to write it from there. */
  datatype Request = Request(b: nat, blockno: nat, write: bool, d1: nat, d2: nat, stage: Stage)

  function OpOf(r: Request): Op {
    Op(r.write, r.blockno * (BSIZE / 512))
  }

  /** The three descriptors of section 5.2.6 of VIRTIO 1.1: command, data, status. */
  function HeadDesc(h: nat, r: Request): Desc {
    Desc(OpAt(h), 16, r.d1, true, false)
  }

  function DataDesc(r: Request): Desc {
    Desc(DataOf(r.b), BSIZE, r.d2, true, !r.write)
  }

  function StatusDesc(h: nat): Desc {
    Desc(StatusAt(h), 1, 0, false, true)
  }

  /** Descriptor i is one of the three of the request at h. */
  predicate InChain(h: nat, r: Request, i: nat) {
    i == h || i == r.d1 || i == r.d2
  }

  /** The tables agree with request r at head h. */
  predicate ChainOk(h: nat, r: Request, free: seq<bool>, desc: seq<Desc>, info: seq<Info>, busy: map<nat, bool>) {
    && |free| == |desc| == |info| == NUM && h < NUM && r.d1 < NUM && r.d2 < NUM && h != r.d1 && h != r.d2
      && r.d1 != r.d2
    && !free[h] && !free[r.d1] && !free[r.d2]
    && desc[h] == HeadDesc(h, r) && desc[r.d1] == DataDesc(r) && desc[r.d2] == StatusDesc(h)
    && info[h].b == Some(r.b) && info[h].op == OpOf(r)
      && info[h].status == (if r.stage.Queued? || r.stage.Taken? then 0xff else 0)
    && r.b in busy && busy[r.b] == !r.stage.Done?
  }

  /** Different requests have different buffers and no descriptor in common. */
  predicate Apart(h: nat, r: Request, h': nat, r': Request) {
    r.b != r'.b && h != h' && h != r'.d1 && h != r'.d2 && r.d1 != h' && r.d1 != r'.d1 && r.d1 != r'.d2
    && r.d2 != h' && r.d2 != r'.d1 && r.d2 != r'.d2
  }

  /** Descriptor i belongs to a request. */
  ghost predicate Owned(reqs: map<nat, Request>, i: nat) {
    exists h :: h in reqs && InChain(h, reqs[h], i)
  }

  ghost predicate Chains(reqs: map<nat, Request>, free: seq<bool>, desc: seq<Desc>, info: seq<Info>,
                         busy: map<nat, bool>) {
    && |free| == |desc| == |info| == NUM
    && (forall h {:trigger ChainOk(h, reqs[h], free, desc, info, busy)} :: h in reqs ==>
      ChainOk(h, reqs[h], free, desc, info, busy))
    && (forall h, h' {:trigger Apart(h, reqs[h], h', reqs[h'])} :: h in reqs && h' in reqs && h != h' ==>
      Apart(h, reqs[h], h', reqs[h']))
    && (forall i {:trigger Owned(reqs, i)} :: 0 <= i < NUM && !free[i] ==> Owned(reqs, i))
    && (forall i :: 0 <= i < NUM && free[i] ==> desc[i] == NoDesc)
  }

  /** The ring slots from number `start` on hold q, which are exactly the requests in `stage`. */
  ghost predicate Holds(ring: seq<nat>, start: nat, q: seq<nat>, reqs: map<nat, Request>, stage: Stage) {
    && |ring| == NUM
    && (forall i, j :: 0 <= i < j < |q| ==> q[i] != q[j])
    && (forall i :: 0 <= i < |q| ==> q[i] < NUM && q[i] in reqs && reqs[q[i]].stage == stage)
    && (forall k :: start <= k < start + |q| ==> ring[Slot(k)] == q[k - start])
    && (forall h :: h in reqs && reqs[h].stage == stage ==> h in q)
  }

  /** Distinct numbers below n are at most n. */
  lemma {:induction false} Pigeons(q: seq<nat>, n: nat)
    requires (forall i, j :: 0 <= i < j < |q| ==> q[i] != q[j]) && forall i :: 0 <= i < |q| ==> q[i] < n
    ensures |q| <= n
  {
    if |q| > 0 {
      assert q[0] < n;
      if k :| 0 <= k < |q| && q[k] == n - 1 {
        var w := q[..k] + q[k + 1..];
        forall i | 0 <= i < |w| ensures w[i] == if i < k then q[i] else q[i + 1] {}
        Pigeons(w, n - 1);
      } else {
        Pigeons(q, n - 1);
      }
    }
  }

  /** A slot past the last pending one is not a pending one. */
  lemma SlotFree(start: nat, n: nat, k: nat)
    requires n < NUM && start <= k < start + n
    ensures Slot(k) != Slot(start + n)
  {
  }

  /** Adding h at the end of the ring overwrites nothing that is pending. */
  lemma PushHolds(ring: seq<nat>, start: nat, q: seq<nat>, reqs: map<nat, Request>, reqs': map<nat, Request>,
                  stage: Stage, h: nat)
    requires Holds(ring, start, q, reqs, stage) && h < NUM && h !in q && h in reqs' && reqs'[h].stage == stage
    requires forall x :: x != h ==> (x in reqs' && reqs'[x].stage == stage <==> x in reqs && reqs[x].stage == stage)
    ensures |q| < NUM && Holds(ring[Slot(start + |q|) := h], start, q + [h], reqs', stage)
  {
    Pigeons(q + [h], NUM);
    var ring' := ring[Slot(start + |q|) := h];
    forall k | start <= k < start + |q| + 1 ensures ring'[Slot(k)] == (q + [h])[k - start] {
      if k < start + |q| { SlotFree(start, |q|, k); }
    }
    forall i | 0 <= i < |q| ensures (q + [h])[i] in reqs' && reqs'[(q + [h])[i]].stage == stage { assert q[i] != h; }
  }

  /** Taking the first pending entry off the ring. */
  lemma PopHolds(ring: seq<nat>, start: nat, q: seq<nat>, reqs: map<nat, Request>, stage: Stage, r': Request)
    requires Holds(ring, start, q, reqs, stage) && |q| > 0 && r'.stage != stage
    ensures ring[Slot(start)] == q[0] && Holds(ring, start + 1, q[1..], reqs[q[0] := r'], stage)
  {
    var reqs' := reqs[q[0] := r'];
    forall h | h in reqs' && reqs'[h].stage == stage ensures h in q[1..] {
      assert h in q;
    }
    assert ring[Slot(start)] == q[0];
  }

  /** A ring is not concerned by a request that neither was nor is in its stage. */
  lemma OtherHolds(ring: seq<nat>, start: nat, q: seq<nat>, reqs: map<nat, Request>, stage: Stage, h: nat, r': Request)
    requires Holds(ring, start, q, reqs, stage) && r'.stage != stage && (h in reqs ==> reqs[h].stage != stage)
    ensures Holds(ring, start, q, reqs[h := r'], stage)
  {
  }

  lemma DropHolds(ring: seq<nat>, start: nat, q: seq<nat>, reqs: map<nat, Request>, stage: Stage, h: nat)
    requires Holds(ring, start, q, reqs, stage) && h in reqs && reqs[h].stage != stage
    ensures Holds(ring, start, q, reqs - {h}, stage)
  {
  }

  // ---- chains of descriptors

  function Set3<T>(s: seq<T>, h: nat, a: T, d1: nat, b: T, d2: nat, c: T): seq<T>
    requires h < |s| && d1 < |s| && d2 < |s|
  {
    s[h := a][d1 := b][d2 := c]
  }

  lemma Set3At<T>(s: seq<T>, h: nat, a: T, d1: nat, b: T, d2: nat, c: T)
    requires h < |s| && d1 < |s| && d2 < |s|
    ensures var r := Set3(s, h, a, d1, b, d2, c);
      && |r| == |s| && (h != d1 && h != d2 ==> r[h] == a) && (d1 != d2 ==> r[d1] == b) && r[d2] == c
      && forall i :: 0 <= i < |s| && i != h && i != d1 && i != d2 ==> r[i] == s[i]
  {
  }

  predicate Three(h: nat, d1: nat, d2: nat) {
    h < NUM && d1 < NUM && d2 < NUM && h != d1 && h != d2 && d1 != d2
  }

  /** A chain is not concerned by changes to other descriptors and another buffer. */
  lemma ChainKept(h: nat, r: Request, free: seq<bool>, desc: seq<Desc>, info: seq<Info>, busy: map<nat, bool>,
                  free': seq<bool>, desc': seq<Desc>, info': seq<Info>, busy': map<nat, bool>)
    requires ChainOk(h, r, free, desc, info, busy) && |free'| == |desc'| == |info'| == NUM
    requires forall i :: 0 <= i < NUM && InChain(h, r, i) ==> free'[i] == free[i] && desc'[i] == desc[i]
    requires info'[h] == info[h] && r.b in busy' && busy'[r.b] == busy[r.b]
    ensures ChainOk(h, r, free', desc', info', busy')
  {
  }

  ghost predicate ThreeFree(free: seq<bool>) {
    exists x: nat, y: nat, z: nat :: Three(x, y, z) && |free| == NUM && free[x] && free[y] && free[z]
  }

  lemma AddChain(reqs: map<nat, Request>, free: seq<bool>, desc: seq<Desc>, info: seq<Info>, busy: map<nat, bool>,
                 h: nat, r: Request)
    requires Chains(reqs, free, desc, info, busy) && Three(h, r.d1, r.d2) && free[h] && free[r.d1] && free[r.d2]
      && r.stage == Queued
    requires forall x :: x in reqs ==> reqs[x].b != r.b
    ensures h !in reqs && |free| == |desc| == |info| == NUM
    ensures Chains(reqs[h := r], Set3(free, h, false, r.d1, false, r.d2, false),
                   Set3(desc, h, HeadDesc(h, r), r.d1, DataDesc(r), r.d2, StatusDesc(h)),
                   info[h := Info(Some(r.b), 0xff, OpOf(r))], busy[r.b := true])
  {
    hide Chains, Set3, ChainOk, Apart, Owned, InChain;
    AddFresh(reqs, free, desc, info, busy, h, r);
    Set3At(free, h, false, r.d1, false, r.d2, false);
    Set3At(desc, h, HeadDesc(h, r), r.d1, DataDesc(r), r.d2, StatusDesc(h));
    var reqs', free' := reqs[h := r], Set3(free, h, false, r.d1, false, r.d2, false);
    var desc' := Set3(desc, h, HeadDesc(h, r), r.d1, DataDesc(r), r.d2, StatusDesc(h));
    var info', busy' := info[h := Info(Some(r.b), 0xff, OpOf(r))], busy[r.b := true];
    forall x | x in reqs' ensures ChainOk(x, reqs'[x], free', desc', info', busy') {
      if x == h { AddSelf(free, desc, info, busy, h, r); } else { AddOther(reqs, free, desc, info, busy, h, r, x); }
    }
    forall x, y | x in reqs' && y in reqs' && x != y ensures Apart(x, reqs'[x], y, reqs'[y]) {
      if x == h {
        OutsideFree(reqs, free, desc, info, busy, h, r, y);
      } else if y == h {
        OutsideFree(reqs, free, desc, info, busy, h, r, x);
      } else {
        ApartAt(reqs, free, desc, info, busy, x, y);
      }
    }
    forall i | 0 <= i < NUM && !free'[i] ensures Owned(reqs', i) {
      AddOwned(reqs, h, r, i);
      if i != h && i != r.d1 && i != r.d2 { OwnerOf(reqs, free, desc, info, busy, i); }
    }
    forall i | 0 <= i < NUM && free'[i] ensures desc'[i] == NoDesc { FreeDesc0(reqs, free, desc, info, busy, i); }
    Fold(reqs', free', desc', info', busy');
  }

  lemma AddFresh(reqs: map<nat, Request>, free: seq<bool>, desc: seq<Desc>, info: seq<Info>, busy: map<nat, bool>,
                 h: nat, r: Request)
    requires Chains(reqs, free, desc, info, busy) && Three(h, r.d1, r.d2) && free[h]
    ensures h !in reqs && |free| == |desc| == |info| == NUM
  {
    if h in reqs { ChainAt(reqs, free, desc, info, busy, h); }
  }

  lemma AddSelf(free: seq<bool>, desc: seq<Desc>, info: seq<Info>, busy: map<nat, bool>, h: nat, r: Request)
    requires |free| == |desc| == |info| == NUM && Three(h, r.d1, r.d2) && r.stage == Queued
    ensures ChainOk(h, r, Set3(free, h, false, r.d1, false, r.d2, false),
      Set3(desc, h, HeadDesc(h, r), r.d1, DataDesc(r), r.d2, StatusDesc(h)),
      info[h := Info(Some(r.b), 0xff, OpOf(r))], busy[r.b := true])
  {
  }

  lemma AddOther(reqs: map<nat, Request>, free: seq<bool>, desc: seq<Desc>, info: seq<Info>, busy: map<nat, bool>,
                 h: nat, r: Request, x: nat)
    requires Chains(reqs, free, desc, info, busy) && Three(h, r.d1, r.d2) && free[h] && free[r.d1] && free[r.d2]
      && x in reqs && reqs[x].b != r.b
    ensures |free| == |desc| == |info| == NUM
    ensures ChainOk(x, reqs[x], Set3(free, h, false, r.d1, false, r.d2, false),
      Set3(desc, h, HeadDesc(h, r), r.d1, DataDesc(r), r.d2, StatusDesc(h)),
      info[h := Info(Some(r.b), 0xff, OpOf(r))], busy[r.b := true])
  {
    hide Chains, Set3;
    ChainAt(reqs, free, desc, info, busy, x);
    Set3At(free, h, false, r.d1, false, r.d2, false);
    Set3At(desc, h, HeadDesc(h, r), r.d1, DataDesc(r), r.d2, StatusDesc(h));
  }

  /** Descriptors that are free are in no chain. */
  lemma OutsideFree(reqs: map<nat, Request>, free: seq<bool>, desc: seq<Desc>, info: seq<Info>, busy: map<nat, bool>,
                    h: nat, r: Request, x: nat)
    requires Chains(reqs, free, desc, info, busy) && Three(h, r.d1, r.d2) && free[h] && free[r.d1] && free[r.d2]
      && x in reqs && reqs[x].b != r.b
    ensures Apart(x, reqs[x], h, r) && Apart(h, r, x, reqs[x])
  {
    hide Chains;
    ChainAt(reqs, free, desc, info, busy, x);
  }

  lemma AddOwned(reqs: map<nat, Request>, h: nat, r: Request, i: nat)
    requires h !in reqs
    ensures Owned(reqs, i) || InChain(h, r, i) ==> Owned(reqs[h := r], i)
    ensures i == h || i == r.d1 || i == r.d2 ==> InChain(h, r, i)
  {
    var reqs' := reqs[h := r];
    assert h in reqs' && reqs'[h] == r;
    if x :| x in reqs && InChain(x, reqs[x], i) { assert x in reqs' && reqs'[x] == reqs[x]; }
  }

  lemma RemoveChain(reqs: map<nat, Request>, free: seq<bool>, desc: seq<Desc>, info: seq<Info>, busy: map<nat, bool>,
                    h: nat)
    requires Chains(reqs, free, desc, info, busy) && h in reqs
    ensures Three(h, reqs[h].d1, reqs[h].d2)
    ensures Chains(reqs - {h}, Set3(free, h, true, reqs[h].d1, true, reqs[h].d2, true),
                   Set3(desc, h, NoDesc, reqs[h].d1, NoDesc, reqs[h].d2, NoDesc),
                     info[h := Info(None, info[h].status, info[h].op)], busy)
  {
    hide Chains;
    Sizes(reqs, free, desc, info, busy);
    var r := reqs[h];
    ChainAt(reqs, free, desc, info, busy, h);
    var reqs', free' := reqs - {h}, Set3(free, h, true, r.d1, true, r.d2, true);
    var desc', info' := Set3(desc, h, NoDesc, r.d1, NoDesc, r.d2, NoDesc),
      info[h := Info(None, info[h].status, info[h].op)];
    forall x | x in reqs' ensures ChainOk(x, reqs'[x], free', desc', info', busy) {
      ChainAt(reqs, free, desc, info, busy, x);
      ApartAt(reqs, free, desc, info, busy, x, h);
      ChainKept(x, reqs[x], free, desc, info, busy, free', desc', info', busy);
    }
    forall x, y | x in reqs' && y in reqs' && x != y ensures Apart(x, reqs'[x], y, reqs'[y]) {
      ApartAt(reqs, free, desc, info, busy, x, y);
    }
    forall i | 0 <= i < NUM && !free'[i] ensures Owned(reqs', i) {
      OwnerOf(reqs, free, desc, info, busy, i);
      var x :| x in reqs && InChain(x, reqs[x], i);
      assert x in reqs' && reqs'[x] == reqs[x];
    }
    forall i | 0 <= i < NUM && free'[i] ensures desc'[i] == NoDesc {
      if free[i] { FreeDesc0(reqs, free, desc, info, busy, i); }
    }
    Fold(reqs', free', desc', info', busy);
  }

  /** The request at h goes on to the next stage. */
  lemma MoveChain(reqs: map<nat, Request>, free: seq<bool>, desc: seq<Desc>, info: seq<Info>, busy: map<nat, bool>,
                  h: nat, stage: Stage)
    requires Chains(reqs, free, desc, info, busy) && h in reqs && h < NUM
    ensures var r := reqs[h].(stage := stage);
      Chains(reqs[h := r], free, desc,
        info[h := Info(Some(r.b), if stage.Queued? || stage.Taken? then 0xff else 0, OpOf(r))],
             busy[r.b := !stage.Done?])
  {
    hide Chains;
    Sizes(reqs, free, desc, info, busy);
    var r := reqs[h].(stage := stage);
    var reqs', info', busy' := reqs[h := r],
      info[h := Info(Some(r.b), if stage.Queued? || stage.Taken? then 0xff else 0, OpOf(r))], busy[r.b := !stage.Done?];
    ChainAt(reqs, free, desc, info, busy, h);
    assert ChainOk(h, r, free, desc, info', busy');
    forall x | x in reqs' && x != h ensures ChainOk(x, reqs'[x], free, desc, info', busy') {
      ChainAt(reqs, free, desc, info, busy, x);
      ApartAt(reqs, free, desc, info, busy, x, h);
      ChainKept(x, reqs[x], free, desc, info, busy, free, desc, info', busy');
    }
    forall x, y | x in reqs' && y in reqs' && x != y ensures Apart(x, reqs'[x], y, reqs'[y]) {
      ApartAt(reqs, free, desc, info, busy, x, y);
    }
    forall i | 0 <= i < NUM && !free[i] ensures Owned(reqs', i) {
      OwnerOf(reqs, free, desc, info, busy, i);
      var x :| x in reqs && InChain(x, reqs[x], i);
      assert x in reqs' && InChain(x, reqs'[x], i);
    }
    forall i | 0 <= i < NUM && free[i] ensures desc[i] == NoDesc { FreeDesc0(reqs, free, desc, info, busy, i); }
    Fold(reqs', free, desc, info', busy');
  }

  lemma Sizes(reqs: map<nat, Request>, free: seq<bool>, desc: seq<Desc>, info: seq<Info>, busy: map<nat, bool>)
    requires Chains(reqs, free, desc, info, busy)
    ensures |free| == |desc| == |info| == NUM
  {
  }

  lemma ApartAt(reqs: map<nat, Request>, free: seq<bool>, desc: seq<Desc>, info: seq<Info>, busy: map<nat, bool>,
                h: nat, h': nat)
    requires Chains(reqs, free, desc, info, busy) && h in reqs && h' in reqs && h != h'
    ensures Apart(h, reqs[h], h', reqs[h'])
  {
  }

  lemma OwnerOf(reqs: map<nat, Request>, free: seq<bool>, desc: seq<Desc>, info: seq<Info>, busy: map<nat, bool>,
                i: nat)
    requires Chains(reqs, free, desc, info, busy) && i < NUM && !free[i]
    ensures Owned(reqs, i)
  {
  }

  lemma FreeDesc0(reqs: map<nat, Request>, free: seq<bool>, desc: seq<Desc>, info: seq<Info>, busy: map<nat, bool>,
                  i: nat)
    requires Chains(reqs, free, desc, info, busy) && i < NUM && free[i]
    ensures desc[i] == NoDesc
  {
  }

  lemma Fold(reqs: map<nat, Request>, free: seq<bool>, desc: seq<Desc>, info: seq<Info>, busy: map<nat, bool>)
    requires |free| == |desc| == |info| == NUM
    requires forall h :: h in reqs ==> ChainOk(h, reqs[h], free, desc, info, busy)
    requires forall h, h' :: h in reqs && h' in reqs && h != h' ==> Apart(h, reqs[h], h', reqs[h'])
    requires forall i :: 0 <= i < NUM && !free[i] ==> Owned(reqs, i)
    requires forall i :: 0 <= i < NUM && free[i] ==> desc[i] == NoDesc
    ensures Chains(reqs, free, desc, info, busy)
  {
  }

  lemma ChainAt(reqs: map<nat, Request>, free: seq<bool>, desc: seq<Desc>, info: seq<Info>, busy: map<nat, bool>,
                h: nat)
    requires Chains(reqs, free, desc, info, busy) && h in reqs
    ensures ChainOk(h, reqs[h], free, desc, info, busy)
  {
  }

  /** From free0 to free, the descriptors idx have been allocated. */
  ghost predicate Claimed(free0: seq<bool>, free: seq<bool>, idx: seq<nat>) {
    && |free0| == |free| == NUM && (forall i, j :: 0 <= i < j < |idx| ==> idx[i] != idx[j])
    && (forall i :: 0 <= i < |idx| ==> idx[i] < NUM && free0[idx[i]])
    && forall k :: 0 <= k < NUM ==> free[k] == (free0[k] && k !in idx)
  }

  lemma ClaimedThree(free0: seq<bool>, free: seq<bool>, idx: seq<nat>)
    requires Claimed(free0, free, idx) && |idx| == 3
    ensures Three(idx[0], idx[1], idx[2]) && free == Set3(free0, idx[0], false, idx[1], false, idx[2], false)
  {
  }

  lemma NotThree(free: seq<bool>, idx: seq<nat>)
    requires |idx| < 3 && |free| == NUM && forall k :: 0 <= k < NUM && free[k] ==> k in idx
    ensures !ThreeFree(free)
  {
    forall x: nat, y: nat, z: nat | Three(x, y, z) ensures !(free[x] && free[y] && free[z]) {
      assert x in idx && y in idx && z in idx ==> |idx| >= 3;
    }
  }

  /** What a device is told by a chain: the command, the buffer with its length, and where the status goes. */
  datatype Found = Found(op: Op, b: nat, len: nat, status: nat)

  /** How a device reads the chain at h, by section 5.2.6 of VIRTIO 1.1: a header that it may only read,
      the data, which it may write exactly if that is what it is to do, and a status byte to write. */
  function Follow(desc: seq<Desc>, info: seq<Info>, h: nat): Option<Found> {
    if !(h < |desc| && desc[h].more && !desc[h].write && desc[h].len == 16 && desc[h].next < |desc|) then None
    else
      var head, data := desc[h], desc[desc[h].next];
      if !(head.addr.OpAt? && head.addr.i < |info| && data.addr.DataOf? && data.more && data.next < |desc|) then None
      else
        var op, status := info[head.addr.i].op, desc[data.next];
        if !(status.addr.StatusAt? && status.write && status.len == 1 && !status.more) then None
        else if data.write == op.out then None
        else Some(Found(op, data.addr.b, data.len, status.addr.i))
  }

  /** What driver and device find at the head of a chain. */
  lemma ChainFacts(reqs: map<nat, Request>, free: seq<bool>, desc: seq<Desc>, info: seq<Info>, busy: map<nat, bool>,
                   h: nat)
    requires Chains(reqs, free, desc, info, busy) && h in reqs
    ensures h < NUM && |desc| == |info| == NUM && desc[h].next < NUM && desc[desc[h].next].next < NUM
    ensures Follow(desc, info, h) == Some(Found(OpOf(reqs[h]), reqs[h].b, BSIZE, h)) && info[h].b == Some(reqs[h].b)
    ensures reqs[h].stage == Used ==> info[h].status == 0
  {
    hide Chains;
    ChainAt(reqs, free, desc, info, busy, h);
  }

  /** The buffer of request r is there, and it is as `data` says: as it was when a write was
      submitted, or as the device left it when it had completed the request. */
  ghost predicate Carries(h: nat, r: Request, bytes: map<nat, seq<nat>>, data: map<nat, seq<nat>>) {
    && r.b in bytes && |bytes[r.b]| == BSIZE
    && (r.write || r.stage.Used? || r.stage.Done? ==> h in data && data[h] == bytes[r.b])
  }

  ghost predicate Carried(reqs: map<nat, Request>, bytes: map<nat, seq<nat>>, data: map<nat, seq<nat>>) {
    forall h {:trigger Carries(h, reqs[h], bytes, data)} :: h in reqs ==> Carries(h, reqs[h], bytes, data)
  }

  lemma CarriesAt(reqs: map<nat, Request>, bytes: map<nat, seq<nat>>, data: map<nat, seq<nat>>, h: nat)
    requires Carried(reqs, bytes, data) && h in reqs
    ensures Carries(h, reqs[h], bytes, data)
  {
  }

  /** A request that is known as done has its bytes in its buffer. */
  lemma CarriesDone(reqs: map<nat, Request>, bytes: map<nat, seq<nat>>, data: map<nat, seq<nat>>, h: nat)
    requires Carried(reqs, bytes, data) && h in reqs
    ensures reqs[h].b in bytes && |bytes[reqs[h].b]| == BSIZE
    ensures reqs[h].stage.Done? ==> h in data && data[h] == bytes[reqs[h].b]
    ensures reqs[h].write ==> h in data && data[h] == bytes[reqs[h].b]
    ensures Carried(reqs - {h}, bytes, data)
  {
    CarriesAt(reqs, bytes, data, h);
    var reqs' := reqs - {h};
    forall k | k in reqs' ensures Carries(k, reqs'[k], bytes, data) { CarriesAt(reqs, bytes, data, k); }
  }

  /** The request at h goes on to a stage in which the bytes do not move. */
  lemma CarriedMove(reqs: map<nat, Request>, bytes: map<nat, seq<nat>>, data: map<nat, seq<nat>>, h: nat, stage: Stage)
    requires Carried(reqs, bytes, data) && h in reqs && (reqs[h].stage == Used || stage == Taken)
    ensures Carried(reqs[h := reqs[h].(stage := stage)], bytes, data)
  {
    var reqs' := reqs[h := reqs[h].(stage := stage)];
    forall k | k in reqs' ensures Carries(k, reqs'[k], bytes, data) { CarriesAt(reqs, bytes, data, k); }
  }

  /** A new request r, or a new stage of the one about r.b, with bytes x in the buffer. */
  lemma CarriedNew(reqs: map<nat, Request>, bytes: map<nat, seq<nat>>, data: map<nat, seq<nat>>, h: nat, r: Request,
                   x: seq<nat>)
    requires Carried(reqs, bytes, data) && |x| == BSIZE && forall k :: k in reqs && k != h ==> reqs[k].b != r.b
    ensures Carried(reqs[h := r], bytes[r.b := x], data[h := x])
  {
    var reqs' := reqs[h := r];
    forall k | k in reqs' ensures Carries(k, reqs'[k], bytes[r.b := x], data[h := x]) {
      if k != h { CarriesAt(reqs, bytes, data, k); }
    }
  }

  /** A buffer that no request is about may change. */
  lemma CarriedChange(reqs: map<nat, Request>, bytes: map<nat, seq<nat>>, data: map<nat, seq<nat>>, b: nat, x: seq<nat>)
    requires Carried(reqs, bytes, data) && forall k :: k in reqs ==> reqs[k].b != b
    ensures Carried(reqs, bytes[b := x], data)
  {
    forall k | k in reqs ensures Carries(k, reqs[k], bytes[b := x], data) { CarriesAt(reqs, bytes, data, k); }
  }

  lemma OneBuffer(reqs: map<nat, Request>, free: seq<bool>, desc: seq<Desc>, info: seq<Info>, busy: map<nat, bool>,
                  h: nat)
    requires Chains(reqs, free, desc, info, busy) && h in reqs
    ensures forall k :: k in reqs && k != h ==> reqs[k].b != reqs[h].b
  {
    forall k | k in reqs && k != h ensures reqs[k].b != reqs[h].b {
      ApartAt(reqs, free, desc, info, busy, k, h);
    }
  }

  class Queue {
    var free: seq<bool>
    var desc: seq<Desc>
    var info: seq<Info>
    var busy: map<nat, bool>       // b->disk of every buffer that was ever used
    var availRing: seq<nat>
    var availIdx: nat              // 16 bits
    var usedRing: seq<nat>
    var usedIdx: nat               // 16 bits, the device's
    var seen: nat                  // disk.used_idx, 16 bits
    var taken: nat                 // the device's place in the available ring, 16 bits
    var bytes: map<nat, seq<nat>>  // b->data of every buffer
    var disk: seq<nat>             // what the device stores, in sectors of SECTOR bytes
    ghost var reqs: map<nat, Request>
    ghost var availq: seq<nat>     // heads that the device has not taken
    ghost var usedq: seq<nat>      // heads that the driver has not seen
    ghost var t: nat               // all that the device ever took
    ghost var c: nat               // all that the driver ever saw
    ghost var data: map<nat, seq<nat>> // by head: the block of a write, or what a read was given

    ghost predicate Rings()
      reads this
    {
      && Holds(availRing, t, availq, reqs, Queued) && Holds(usedRing, c, usedq, reqs, Used)
      && taken == U16(t) && availIdx == U16(t + |availq|)
      && seen == U16(c) && usedIdx == U16(c + |usedq|)
    }

    ghost predicate Valid()
      reads this
    {
      Chains(reqs, free, desc, info, busy) && Rings() && Carried(reqs, bytes, data)
    }

    /** After virtio_disk_init(): all descriptors are free and the rings are empty. */
    constructor (bytes: map<nat, seq<nat>>, disk: seq<nat>)
      ensures Valid() && reqs == map[] && (forall i :: 0 <= i < NUM ==> free[i])
      ensures this.bytes == bytes && this.disk == disk
    {
      free, desc, info := seq(NUM, _ => true), seq(NUM, _ => NoDesc), seq(NUM, _ => Info(None, 0, Op(false, 0)));
      busy := map[];
      availRing, usedRing := seq(NUM, _ => 0), seq(NUM, _ => 0);
      availIdx, usedIdx, seen, taken := 0, 0, 0, 0;
      reqs, availq, usedq, t, c, data := map[], [], [], 0, 0, map[];
      this.bytes, this.disk := bytes, disk;
    }

    /** alloc_desc(): the first free descriptor, or NUM. */
    method AllocDesc() returns (i: nat)
      requires |free| == NUM
      modifies this`free
      ensures i <= NUM && (forall j :: 0 <= j < i ==> !old(free)[j])
      ensures if i == NUM then free == old(free) else old(free)[i] && free == old(free)[i := false]
    {
      i := 0;
      while i < NUM
        invariant i <= NUM && free == old(free) && forall j :: 0 <= j < i ==> !free[j]
      {
        if free[i] {
          free := free[i := false];
          return;
        }
        i := i + 1;
      }
    }

    /** free_desc(): its panics are ruled out by what it requires. */
    method FreeDesc(i: nat)
      requires |free| == |desc| == NUM && i < NUM && !free[i]
      modifies this`free, this`desc
      ensures free == old(free)[i := true] && desc == old(desc)[i := NoDesc]
    {
      if i >= NUM {
        assert false; // panic: free_desc 1
      }
      if free[i] {
        assert false; // panic: free_desc 2
      }
      desc := desc[i := NoDesc];
      free := free[i := true];
    }

    /** alloc3_desc(): three descriptors, or none if there are not three. */
    method Alloc3() returns (ok: bool, idx: seq<nat>)
      requires |free| == |desc| == NUM && forall i :: 0 <= i < NUM && free[i] ==> desc[i] == NoDesc
      modifies this`free, this`desc
      ensures desc == old(desc)
      ensures ok ==>
        |idx| == 3 && Three(idx[0], idx[1], idx[2]) && old(free)[idx[0]] && old(free)[idx[1]] && old(free)[idx[2]]
      ensures ok ==> free == Set3(old(free), idx[0], false, idx[1], false, idx[2], false)
      ensures !ok ==> free == old(free) && !ThreeFree(free)
    {
      idx := [];
      while |idx| < 3
        invariant |idx| <= 3 && |free| == |desc| == NUM && desc == old(desc)
        invariant Claimed(old(free), free, idx)
      {
        var i := AllocDesc();
        if i == NUM {
          NotThree(old(free), idx);
          GiveBack(idx, old(free));
          return false, idx;
        }
        idx := idx + [i];
      }
      ClaimedThree(old(free), free, idx);
      return true, idx;
    }

    /** What alloc3_desc() has allocated goes back. */
    method GiveBack(idx: seq<nat>, ghost free0: seq<bool>)
      requires Claimed(free0, free, idx) && |desc| == NUM && forall i :: 0 <= i < NUM && free0[i] ==> desc[i] == NoDesc
      modifies this`free, this`desc
      ensures free == free0 && desc == old(desc)
    {
      var j := 0;
      while j < |idx|
        invariant j <= |idx| && Claimed(free0, free, idx[j..]) && desc == old(desc)
      {
        FreeDesc(idx[j]);
        j := j + 1;
      }
    }

    /** The three descriptors, ops[] and info[] of request r, whose head is h. */
    method Format(h: nat, r: Request)
      requires |desc| == |info| == NUM && Three(h, r.d1, r.d2)
      modifies this`desc, this`info, this`busy
      ensures desc == Set3(old(desc), h, HeadDesc(h, r), r.d1, DataDesc(r), r.d2, StatusDesc(h))
      ensures info == old(info)[h := Info(Some(r.b), 0xff, OpOf(r))] && busy == old(busy)[r.b := true]
    {
      info := info[h := info[h].(op := Op(r.write, r.blockno * (BSIZE / 512)))];
      desc := desc[h := Desc(OpAt(h), 16, r.d1, true, false)];
      desc := desc[r.d1 := Desc(DataOf(r.b), BSIZE, r.d2, true, !r.write)];
      info := info[h := info[h].(status := 0xff)];
      desc := desc[r.d2 := Desc(StatusAt(h), 1, 0, false, true)];
      busy := busy[r.b := true];
      info := info[h := info[h].(b := Some(r.b))];
    }

    /** A head goes into the available ring. */
    method PushAvail(h: nat, ghost r: Request)
      requires Rings() && h !in reqs && h < NUM && r.stage == Queued
      modifies this`availRing, this`availIdx, this`reqs, this`availq
      ensures Rings() && reqs == old(reqs)[h := r] && availq == old(availq) + [h]
    {
      hide Holds, U16, Slot;
      NotQueued(availRing, t, availq, reqs, Queued, h);
      PushHolds(availRing, t, availq, reqs, reqs[h := r], Queued, h);
      OtherHolds(usedRing, c, usedq, reqs, Used, h, r);
      SlotOf(t + |availq|, availIdx);
      availRing := availRing[Slot(availIdx) := h];
      availIdx := U16(availIdx + 1);
      reqs, availq := reqs[h := r], availq + [h];
    }

    /** virtio_disk_rw(), up to its notification of the device; ok is false when it has to sleep
        for descriptors. b is locked by the caller, so no request is about it. */
    method Submit(b: nat, blockno: nat, write: bool) returns (ok: bool, h: nat)
      requires Valid() && b in bytes && |bytes[b]| == BSIZE && forall x :: x in reqs ==> reqs[x].b != b
      modifies this
      ensures Valid()
      ensures !ok ==> reqs == old(reqs) && free == old(free) && busy == old(busy) && !ThreeFree(free)
      ensures ok ==>
        h !in old(reqs) && h in reqs
        && reqs == old(reqs)[h := Request(b, blockno, write, reqs[h].d1, reqs[h].d2, Queued)]
      ensures ok ==> availq == old(availq) + [h] && usedq == old(usedq) && busy == old(busy)[b := true]
      ensures bytes == old(bytes) && disk == old(disk) && data == if ok then old(data)[h := bytes[b]] else old(data)
    {
      hide Holds, Chains, InChain, U16, Slot, Set3, ThreeFree, Carried;
      h := 0;
      ghost var free0 := free;
      Sizes(reqs, free, desc, info, busy);
      Zeroed(reqs, free, desc, info, busy);
      var idx;
      ok, idx := Alloc3();
      if !ok {
        return;
      }
      h := idx[0];
      Enqueue(h, Request(b, blockno, write, idx[1], idx[2], Queued), free0);
      Carry(h, b, old(reqs));
    }

    /** What the buffer holds is what a write is about. */
    ghost method Carry(h: nat, b: nat, reqs0: map<nat, Request>)
      requires Carried(reqs0, bytes, data) && b in bytes && |bytes[b]| == BSIZE
      requires h in reqs && reqs[h].b == b && reqs == reqs0[h := reqs[h]]
      requires forall x :: x in reqs0 ==> reqs0[x].b != b
      modifies this`data
      ensures Carried(reqs, bytes, data) && data == old(data)[h := bytes[b]]
    {
      hide Carried;
      CarriedNew(reqs0, bytes, data, h, reqs[h], bytes[b]);
      assert bytes[b := bytes[b]] == bytes;
      data := data[h := bytes[b]];
    }

    /** The rest of it, with the descriptors in hand. */
    method Enqueue(h: nat, r: Request, ghost free0: seq<bool>)
      requires Chains(reqs, free0, desc, info, busy) && Rings() && forall x :: x in reqs ==> reqs[x].b != r.b
      requires Three(h, r.d1, r.d2) && |free0| == NUM && free0[h] && free0[r.d1] && free0[r.d2] && r.stage == Queued
      requires free == Set3(free0, h, false, r.d1, false, r.d2, false)
      modifies this`desc, this`info, this`busy, this`availRing, this`availIdx, this`reqs, this`availq
      ensures Chains(reqs, free, desc, info, busy) && Rings() && h !in old(reqs) && reqs == old(reqs)[h := r]
      ensures availq == old(availq) + [h] && busy == old(busy)[r.b := true]
    {
      hide Holds, Chains, U16, Slot, Set3, HeadDesc, DataDesc, StatusDesc, OpOf;
      AddChain(reqs, free0, desc, info, busy, h, r);
      Format(h, r);
      PushAvail(h, r);
    }

    /** The device takes the next available request; h is NUM if there is none. */
    method Take() returns (h: nat)
      requires Valid()
      modifies this`taken, this`t, this`reqs, this`availq
      ensures Valid()
      ensures if old(availq) == [] then h == NUM && reqs == old(reqs)
              else h == old(availq)[0] && h in old(reqs) && reqs == old(reqs)[h := old(reqs)[h].(stage := Taken)]
    {
      hide Holds, Chains, U16, Slot, Carried;
      RingFacts(availRing, t, availq, reqs, Queued);
      Counts(t, |availq|);
      if taken == availIdx {
        return NUM;
      }
      SlotOf(t, taken);
      h := availRing[Slot(taken)];
      ghost var r := reqs[availq[0]].(stage := Taken);
      PopHolds(availRing, t, availq, reqs, Queued, r);
      OtherHolds(usedRing, c, usedq, reqs, Used, h, r);
      MoveTaken(reqs, free, desc, info, busy, h);
      CarriedMove(reqs, bytes, data, h, Taken);
      taken := U16(taken + 1);
      t, reqs, availq := t + 1, reqs[h := r], availq[1..];
    }

    /** The device completes any request that it has taken: it follows the chain, moves the bytes,
        and writes the status and an entry of the used ring. */
    method Complete(h: nat)
      requires Valid() && h in reqs && reqs[h].stage == Taken && (reqs[h].blockno + 1) * BSIZE <= |disk|
      modifies this`info, this`usedRing, this`usedIdx, this`reqs, this`usedq, this`bytes, this`disk, this`data
      ensures Valid() && reqs == old(reqs)[h := old(reqs)[h].(stage := Used)] && usedq == old(usedq) + [h]
      ensures var r := old(reqs)[h];
        if r.write then h in old(data) && data == old(data) && bytes == old(bytes)
        else data == old(data)[h := Block(disk, r.blockno)] && disk == old(disk) && bytes == old(bytes)[r.b := data[h]]
      ensures old(reqs)[h].write ==> BlockSet(old(disk), disk, old(reqs)[h].blockno, data[h])
    {
      hide Holds, Chains, U16, Slot, ChainOk, OpOf, Carried, Follow, Block, BlockSet;
      ghost var r := reqs[h].(stage := Used);
      MoveBytes(h);
      ChainFacts(reqs, free, desc, info, busy, h);
      MoveUsed(reqs, free, desc, info, busy, h);
      var i := Follow(desc, info, h).value.status;
      info := info[i := info[i].(status := 0)];
      PushUsed(h, r);
    }

    /** The transfer concerns no other request's buffer. */
    method MoveBytes(h: nat)
      requires Chains(reqs, free, desc, info, busy) && Carried(reqs, bytes, data)
      requires h in reqs && (reqs[h].blockno + 1) * BSIZE <= |disk|
      modifies this`bytes, this`disk, this`data
      ensures Carried(reqs[h := reqs[h].(stage := Used)], bytes, data)
      ensures var r := reqs[h];
        if r.write then h in old(data) && data == old(data) && bytes == old(bytes)
        else data == old(data)[h := Block(disk, r.blockno)] && disk == old(disk) && bytes == old(bytes)[r.b := data[h]]
      ensures reqs[h].write ==> BlockSet(old(disk), disk, reqs[h].blockno, data[h])
    {
      hide Chains, Carried, OpOf, BlockSet;
      ghost var r := reqs[h];
      CarriesDone(reqs, bytes, data, h);
      OneBuffer(reqs, free, desc, info, busy, h);
      ghost var x := if r.write then bytes[r.b] else Block(disk, r.blockno);
      CarriedNew(reqs, bytes, data, h, r.(stage := Used), x);
      Transfer(h);
      assert bytes == old(bytes)[r.b := x];
      data := data[h := x];
      assert r.write ==> data == old(data);
    }

    /** A head goes into the used ring. */
    method PushUsed(h: nat, ghost r: Request)
      requires Rings() && h in reqs && h < NUM && reqs[h].stage == Taken && r.stage == Used
      modifies this`usedRing, this`usedIdx, this`reqs, this`usedq
      ensures Rings() && reqs == old(reqs)[h := r] && usedq == old(usedq) + [h]
    {
      hide Holds, U16, Slot;
      OutOfStage(usedRing, c, usedq, reqs, Used, h);
      PushHolds(usedRing, c, usedq, reqs, reqs[h := r], Used, h);
      OtherHolds(availRing, t, availq, reqs, Queued, h, r);
      SlotOf(c + |usedq|, usedIdx);
      usedRing := usedRing[Slot(usedIdx) := h];
      usedIdx := U16(usedIdx + 1);
      reqs, usedq := reqs[h := r], usedq + [h];
    }

    /** The device moves the bytes that the chain at h tells it to. */
    method Transfer(h: nat)
      requires Chains(reqs, free, desc, info, busy) && h in reqs && reqs[h].b in bytes && |bytes[reqs[h].b]| == BSIZE
      requires (reqs[h].blockno + 1) * BSIZE <= |disk|
      modifies this`bytes, this`disk
      ensures var r := reqs[h];
        if r.write then bytes == old(bytes) && BlockSet(old(disk), disk, r.blockno, bytes[r.b])
        else disk == old(disk) && bytes == old(bytes)[r.b := Block(disk, r.blockno)]
    {
      hide Chains, Stored, Follow, BlockSet;
      ChainFacts(reqs, free, desc, info, busy, h);
      var f := Follow(desc, info, h).value;
      StoredSet(disk, reqs[h].blockno, bytes[reqs[h].b]);
      if f.op.out {
        assert bytes[f.b][..f.len] == bytes[f.b];
        disk := Stored(disk, f.op.sector, bytes[f.b][..f.len]);
      } else {
        var at := f.op.sector * SECTOR;
        assert bytes[f.b][f.len..] == [];
        bytes := bytes[f.b := disk[at..at + f.len] + bytes[f.b][f.len..]];
        assert bytes[f.b] == Block(disk, reqs[h].blockno);
      }
    }

    /** virtio_disk_intr(): every request in the used ring, and no other, becomes done. */
    method Intr()
      requires Valid()
      modifies this`busy, this`seen, this`c, this`reqs, this`usedq
      ensures Valid() && usedq == [] && Seen(old(reqs), reqs, old(usedq))
      ensures Untouched(old(busy), busy, old(reqs), old(usedq))
    {
      hide Holds, Chains, U16, Slot, Seen, Untouched, Carried;
      ghost var reqs0, q, k: nat, busy0 := reqs, usedq, 0, busy;
      SeenNone(reqs, usedq, busy);
      RingFacts(usedRing, c, usedq, reqs, Used);
      Counts(c, |usedq|);
      AllInUse(usedRing, c, usedq, reqs, Used);
      while seen != usedIdx
        invariant Valid() && k <= |q| && usedq == q[k..] && Seen(reqs0, reqs, q[..k])
        invariant seen != usedIdx <==> usedq != []
        invariant Untouched(busy0, busy, reqs0, q)
        decreases |q| - k
      {
        SeenNext(reqs0, reqs, q, k);
        UntouchedNext(busy0, busy, reqs0, q, k);
        IntrOne();
        k := k + 1;
        RingFacts(usedRing, c, usedq, reqs, Used);
        Counts(c, |usedq|);
      }
    }

    /** One entry of the used ring. */
    method IntrOne()
      requires Valid() && usedq != []
      modifies this`busy, this`seen, this`c, this`reqs, this`usedq
      ensures Valid() && old(usedq)[0] in old(reqs) && usedq == old(usedq)[1..]
      ensures reqs == old(reqs)[old(usedq)[0] := old(reqs)[old(usedq)[0]].(stage := Done)]
      ensures busy == old(busy)[old(reqs)[old(usedq)[0]].b := false]
    {
      hide Holds, Chains, U16, Slot, ChainOk, OpOf, Carried;
      var id := FirstUsed();
      ChainFacts(reqs, free, desc, info, busy, id);
      MoveDone(reqs, free, desc, info, busy, id);
      CarriedMove(reqs, bytes, data, id, Done);
      if info[id].status != 0 {
        assert false; // panic: virtio_disk_intr status
      }
      busy := busy[info[id].b.value := false];
      PopUsed();
    }

    /** disk.used->ring[disk.used_idx % NUM].id */
    method FirstUsed() returns (id: nat)
      requires Rings() && usedq != []
      ensures id == usedq[0] && id < NUM && id in reqs && reqs[id].stage == Used
    {
      hide Holds, U16, Slot;
      RingFacts(usedRing, c, usedq, reqs, Used);
      SlotOf(c, seen);
      PopHolds(usedRing, c, usedq, reqs, Used, reqs[usedq[0]].(stage := Done));
      id := usedRing[Slot(seen)];
    }

    /** disk.used_idx += 1 */
    method PopUsed()
      requires Rings() && usedq != [] && usedq[0] in reqs && reqs[usedq[0]].stage == Used
      modifies this`seen, this`c, this`reqs, this`usedq
      ensures Rings() && usedq == old(usedq)[1..]
      ensures reqs == old(reqs)[old(usedq)[0] := old(reqs)[old(usedq)[0]].(stage := Done)]
    {
      hide Holds, U16, Slot;
      ghost var r := reqs[usedq[0]].(stage := Done);
      SlotOf(c, seen);
      PopHolds(usedRing, c, usedq, reqs, Used, r);
      OtherHolds(availRing, t, availq, reqs, Queued, usedq[0], r);
      seen := U16(seen + 1);
      c, reqs, usedq := c + 1, reqs[usedq[0] := r], usedq[1..];
    }

    /** free_chain() */
    method FreeChain(h: nat, ghost d1: nat, ghost d2: nat)
      requires |free| == |desc| == NUM && Three(h, d1, d2) && !free[h] && !free[d1] && !free[d2]
      requires desc[h].more && desc[h].next == d1 && desc[d1].more && desc[d1].next == d2 && !desc[d2].more
      modifies this`free, this`desc
      ensures free == Set3(old(free), h, true, d1, true, d2, true)
        && desc == Set3(old(desc), h, NoDesc, d1, NoDesc, d2, NoDesc)
    {
      var i := h;
      var more := true;
      ghost var k := 0;
      while more
        invariant 0 <= k <= 3 && |free| == |desc| == NUM && (more <==> k < 3)
        invariant more ==> i == if k == 0 then h else if k == 1 then d1 else d2
        invariant free == (if k == 0 then old(free) else if k == 1 then old(free)[h := true]
                           else if k == 2 then old(free)[h := true][d1 := true]
                             else Set3(old(free), h, true, d1, true, d2, true))
        invariant desc == (if k == 0 then old(desc) else if k == 1 then old(desc)[h := NoDesc]
                           else if k == 2 then old(desc)[h := NoDesc][d1 := NoDesc]
                             else Set3(old(desc), h, NoDesc, d1, NoDesc, d2, NoDesc))
        decreases 3 - k
      {
        var nxt := desc[i].next;
        more := desc[i].more;
        FreeDesc(i);
        i := nxt;
        k := k + 1;
      }
    }

    /** The holder of a buffer that no request is about changes it. */
    method Change(b: nat, x: seq<nat>)
      requires Valid() && b in bytes && forall k :: k in reqs ==> reqs[k].b != b
      modifies this`bytes
      ensures Valid() && bytes == old(bytes)[b := x]
    {
      hide Holds, Chains, U16, Slot, Carried;
      CarriedChange(reqs, bytes, data, b, x);
      bytes := bytes[b := x];
    }

    /** The end of virtio_disk_rw() for the request at h: false while it has to sleep. The buffer is
        then as it was when the device completed the request, whatever ran since. */
    method Finish(h: nat) returns (ok: bool)
      requires Valid() && h in reqs
      modifies this`free, this`desc, this`info, this`reqs
      ensures Valid() && (ok <==> old(reqs)[h].stage == Done) && reqs == if ok then old(reqs) - {h} else old(reqs)
      ensures ok ==> h in data && old(reqs)[h].b in bytes && bytes[old(reqs)[h].b] == data[h]
    {
      hide Holds, Chains, U16, Slot, Set3, Carried;
      CarriesDone(reqs, bytes, data, h);
      ghost var r := reqs[h];
      ChainAt(reqs, free, desc, info, busy, h);
      var b := info[h].b.value;
      if busy[b] {
        return false;
      }
      RemoveChain(reqs, free, desc, info, busy, h);
      DropHolds(availRing, t, availq, reqs, Queued, h);
      DropHolds(usedRing, c, usedq, reqs, Used, h);
      info := info[h := info[h].(b := None)];
      FreeChain(h, r.d1, r.d2);
      reqs := reqs - {h};
      return true;
    }
  }

  /** The requests after the first k entries of q have been seen. */
  ghost predicate Seen(reqs0: map<nat, Request>, reqs: map<nat, Request>, q: seq<nat>) {
    && reqs.Keys == reqs0.Keys
    && forall h :: h in reqs0 ==> reqs[h] == if h in q then reqs0[h].(stage := Done) else reqs0[h]
  }

  /** Buffers of no request in q are as they were. */
  ghost predicate Untouched(busy0: map<nat, bool>, busy: map<nat, bool>, reqs: map<nat, Request>, q: seq<nat>) {
    forall b :: b in busy0 && (forall h :: h in q && h in reqs ==> reqs[h].b != b) ==> b in busy && busy[b] == busy0[b]
  }

  lemma SeenNone(reqs: map<nat, Request>, q: seq<nat>, busy: map<nat, bool>)
    ensures Seen(reqs, reqs, q[..0]) && Untouched(busy, busy, reqs, q) && q[0..] == q && q[..|q|] == q
  {
  }

  lemma UntouchedNext(busy0: map<nat, bool>, busy: map<nat, bool>, reqs: map<nat, Request>, q: seq<nat>, k: nat)
    requires Untouched(busy0, busy, reqs, q) && k < |q| && q[k] in reqs
    ensures Untouched(busy0, busy[reqs[q[k]].b := false], reqs, q)
  {
  }

  lemma SeenNext(reqs0: map<nat, Request>, reqs: map<nat, Request>, q: seq<nat>, k: nat)
    requires k < |q| && Seen(reqs0, reqs, q[..k]) && q[k] in reqs0 && q[k] !in q[..k]
    ensures q[k] in reqs && reqs[q[k]] == reqs0[q[k]]
    ensures Seen(reqs0, reqs[q[k] := reqs0[q[k]].(stage := Done)], q[..k + 1])
  {
    assert q[..k + 1] == q[..k] + [q[k]];
  }

  /** 16-bit counters are equal exactly when the counts are: no more than NUM entries are pending. */
  lemma Counts(start: nat, n: nat)
    requires n <= NUM
    ensures U16(start) == U16(start + n) <==> n == 0
  {
  }

  lemma RingFacts(ring: seq<nat>, start: nat, q: seq<nat>, reqs: map<nat, Request>, stage: Stage)
    requires Holds(ring, start, q, reqs, stage)
    ensures |ring| == NUM && |q| <= NUM && (q != [] ==> q[0] < NUM && q[0] in reqs && reqs[q[0]].stage == stage)
  {
    Pigeons(q, NUM);
  }

  lemma AllInUse(ring: seq<nat>, start: nat, q: seq<nat>, reqs: map<nat, Request>, stage: Stage)
    requires Holds(ring, start, q, reqs, stage)
    ensures forall k :: 0 <= k < |q| ==> q[k] in reqs && q[k] !in q[..k]
  {
  }

  lemma OutOfStage(ring: seq<nat>, start: nat, q: seq<nat>, reqs: map<nat, Request>, stage: Stage, h: nat)
    requires Holds(ring, start, q, reqs, stage) && h in reqs && reqs[h].stage != stage
    ensures h !in q && |ring| == NUM
  {
  }

  lemma MoveTaken(reqs: map<nat, Request>, free: seq<bool>, desc: seq<Desc>, info: seq<Info>, busy: map<nat, bool>,
                  h: nat)
    requires Chains(reqs, free, desc, info, busy) && h in reqs && reqs[h].stage == Queued
    ensures Chains(reqs[h := reqs[h].(stage := Taken)], free, desc, info, busy)
  {
    hide Chains;
    ChainAt(reqs, free, desc, info, busy, h);
    MoveChain(reqs, free, desc, info, busy, h, Taken);
    assert info[h := Info(Some(reqs[h].b), 0xff, OpOf(reqs[h]))] == info && busy[reqs[h].b := true] == busy;
  }

  lemma MoveUsed(reqs: map<nat, Request>, free: seq<bool>, desc: seq<Desc>, info: seq<Info>, busy: map<nat, bool>,
                 h: nat)
    requires Chains(reqs, free, desc, info, busy) && h in reqs && reqs[h].stage == Taken
    ensures h < |info| && Chains(reqs[h := reqs[h].(stage := Used)], free, desc, info[h := info[h].(status := 0)], busy)
  {
    hide Chains;
    ChainAt(reqs, free, desc, info, busy, h);
    MoveChain(reqs, free, desc, info, busy, h, Used);
    assert busy[reqs[h].b := true] == busy;
  }

  lemma MoveDone(reqs: map<nat, Request>, free: seq<bool>, desc: seq<Desc>, info: seq<Info>, busy: map<nat, bool>,
                 h: nat)
    requires Chains(reqs, free, desc, info, busy) && h in reqs && reqs[h].stage == Used
    ensures Chains(reqs[h := reqs[h].(stage := Done)], free, desc, info, busy[reqs[h].b := false])
  {
    hide Chains;
    ChainAt(reqs, free, desc, info, busy, h);
    MoveChain(reqs, free, desc, info, busy, h, Done);
    assert info[h := Info(Some(reqs[h].b), 0, OpOf(reqs[h]))] == info;
  }

  lemma Zeroed(reqs: map<nat, Request>, free: seq<bool>, desc: seq<Desc>, info: seq<Info>, busy: map<nat, bool>)
    requires Chains(reqs, free, desc, info, busy)
    ensures |free| == |desc| == NUM && forall i :: 0 <= i < NUM && free[i] ==> desc[i] == NoDesc
  {
  }

  lemma NotQueued(ring: seq<nat>, start: nat, q: seq<nat>, reqs: map<nat, Request>, stage: Stage, h: nat)
    requires Holds(ring, start, q, reqs, stage) && h !in reqs
    ensures h !in q && |ring| == NUM
  {
  }

  /** A 16-bit index leads to the same slot as the count it stands for, also where it wraps. */
  lemma SlotOf(k: nat, idx: nat)
    requires idx == U16(k)
    ensures Slot(idx) == Slot(k) && U16(idx + 1) == U16(k + 1)
  {
    var q := k / TWO16;
    assert k == idx + TWO16 * q && TWO16 * q == NUM * (8192 * q);
    hide U16, Slot;
    SlotShift(idx, 8192 * q);
    U16Shift(idx + 1, q);
  }

  lemma {:induction false} SlotShift(k: nat, q: nat)
    ensures Slot(k + NUM * q) == Slot(k)
  {
    if q > 0 { SlotShift(k, q - 1); }
  }

  lemma {:induction false} U16Shift(k: nat, q: nat)
    ensures U16(k + TWO16 * q) == U16(k)
  {
    if q > 0 { U16Shift(k, q - 1); }
  }
}
