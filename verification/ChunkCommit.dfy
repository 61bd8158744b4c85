/**
 A chunk of filewrite() and the log together: the disk blocks of kernel/fs.h stand for a state
 of the file system, and after a crash at any point of a commit they stand for the state before
 the chunk or for the state after it.
 */
module ChunkCommit {
  import opened LogMachine
  import opened FsLayout
  import opened FsState
  import FileSystem

  /** Where the inodes and the free map begin; the free map ends at `data`. */
  datatype Layout = Layout(inodestart: nat, bmapstart: nat, data: nat)

  function Power(k: nat): (p: nat)
    ensures p > 0
  {
    if k == 0 then 1 else 2 * Power(k - 1)
  }

  /** Bit k of a block of 32-bit words. */
  predicate BitIn(x: Block, k: nat) {
    k / 32 < |x| && x[k / 32] / Power(k % 32) % 2 == 1
  }

  /** Block x is a block of the free map, from bit `from` on. */
  ghost predicate ShowsBits(x: Block, bits: seq<bv8>, from: nat) {
    forall k: nat :: k < BPB ==> (BitIn(x, k) <==> Bit(bits, from + k))
  }

  /** The 16 words of a struct dinode at word w: type, device and link count, size, addresses. */
  ghost predicate ShowsInode(x: Block, w: nat, node: Inode) {
    && w + 3 + |node.addrs| <= |x| && x[w + 2] == node.size
    && forall a :: 0 <= a < |node.addrs| ==> x[w + 3 + a] == node.addrs[a]
  }

  ghost predicate ShowsBytes(x: Block, bytes: Bytes) {
    forall w :: 0 <= w < |x| ==> x[w] == Word(bytes, w)
  }

  /** Disk block b, which is x, is what it has to be in state fs. */
  ghost predicate Shows(l: Layout, x: Block, fs: Fs, b: nat) {
    |x| == WORDS &&
    if l.bmapstart <= b < l.data then ShowsBits(x, fs.bits, (b - l.bmapstart) * BPB)
    else if l.inodestart <= b < l.bmapstart then
      forall i {:trigger fs.inodes[i]} :: i in fs.inodes && i / 16 + l.inodestart == b ==>
        ShowsInode(x, i % 16 * 16, fs.inodes[i])
    else b in fs.data && ShowsBytes(x, fs.data[b])
  }

  /** The home blocks m stand for state fs. */
  ghost predicate Encodes(l: Layout, g: Geometry, m: map<nat, Block>, fs: Fs) {
    forall b: nat {:trigger Home(g, b)} :: Home(g, b) ==> b in m && Shows(l, m[b], fs, b)
  }

  lemma UnloggedBits(l: Layout, x: Block, s: Fs, t: Fs, ino: nat, logged: set<nat>, q: nat)
    requires FileSystem.Covered(s, t, ino, logged, l.bmapstart) && q + l.bmapstart !in logged
    requires ShowsBits(x, s.bits, q * BPB)
    ensures ShowsBits(x, t.bits, q * BPB)
  {
    hide Bit, BitIn;
    forall k: nat | k < BPB ensures BitIn(x, k) <==> Bit(t.bits, q * BPB + k) { BlockOfBit(q, k); }
  }

  /** A block that was not passed to log_write() shows the new state as it did the old one. */
  lemma UnloggedShows(l: Layout, x: Block, s: Fs, t: Fs, ino: nat, logged: set<nat>, b: nat)
    requires FileSystem.Covered(s, t, ino, logged, l.bmapstart) && s.inodes.Keys == t.inodes.Keys
    requires ino / 16 + l.inodestart in logged && b !in logged && Shows(l, x, s, b)
    ensures Shows(l, x, t, b)
  {
    hide ShowsBits, ShowsInode, ShowsBytes, Bit;
    if l.bmapstart <= b < l.data { UnloggedBits(l, x, s, t, ino, logged, b - l.bmapstart); }
  }

  lemma BlockOfBit(q: nat, k: nat)
    requires k < BPB
    ensures (q * BPB + k) / BPB == q
  {
  }

  /** Inodes and free map lie in home blocks, one after the other. */
  ghost predicate LayoutOk(l: Layout, g: Geometry, fs: Fs) {
    && l.inodestart <= l.bmapstart <= l.data
    && (forall i {:trigger fs.inodes[i]} :: i in fs.inodes ==>
          Home(g, i / 16 + l.inodestart) && i / 16 + l.inodestart < l.bmapstart)
    && (forall b: nat {:trigger Bit(fs.bits, b)} :: b < fs.n ==>
          Home(g, b / BPB + l.bmapstart) && b / BPB + l.bmapstart < l.data)
  }

  ghost predicate SameWords(x: Bytes, y: Bytes) {
    forall w: nat :: w < WORDS ==> Word(x, w) == Word(y, w)
  }

  /** Home blocks stand for one state: its inodes, its free map and every word of its other blocks. */
  lemma OneState(l: Layout, g: Geometry, m: map<nat, Block>, s: Fs, t: Fs)
    requires FsOk(s) && FsOk(t) && LayoutOk(l, g, s) && Encodes(l, g, m, s) && Encodes(l, g, m, t)
    requires s.n == t.n && s.inodes.Keys == t.inodes.Keys
    ensures s.inodes == t.inodes && forall b: nat :: b < s.n ==> (Bit(s.bits, b) <==> Bit(t.bits, b))
    ensures forall b: nat :: Home(g, b) && l.data <= b ==> b in s.data && b in t.data && SameWords(s.data[b], t.data[b])
  {
    forall i | i in s.inodes ensures s.inodes[i] == t.inodes[i] { OneInode(l, g, m, s, t, i); }
    forall b: nat | b < s.n ensures Bit(s.bits, b) <==> Bit(t.bits, b) { OneBit(l, g, m, s, t, b); }
    forall b: nat | Home(g, b) && l.data <= b ensures b in s.data && b in t.data && SameWords(s.data[b], t.data[b]) {
      forall w: nat | w < WORDS ensures Word(s.data[b], w) == Word(t.data[b], w) {
        assert m[b][w] == Word(s.data[b], w);
      }
    }
  }

  lemma OneInode(l: Layout, g: Geometry, m: map<nat, Block>, s: Fs, t: Fs, i: nat)
    requires FsOk(s) && FsOk(t) && LayoutOk(l, g, s) && Encodes(l, g, m, s) && Encodes(l, g, m, t)
    requires i in s.inodes && i in t.inodes
    ensures s.inodes[i] == t.inodes[i]
  {
    var b, w := i / 16 + l.inodestart, i % 16 * 16;
    assert InodeOk(s, i) && InodeOk(t, i);
    hide FsOk, InodeOk;
    var a, a' := s.inodes[i].addrs, t.inodes[i].addrs;
    assert ShowsInode(m[b], w, s.inodes[i]) && ShowsInode(m[b], w, t.inodes[i]);
    forall k | 0 <= k < |a| ensures a[k] == a'[k] { assert m[b][w + 3 + k] == a[k]; }
    assert a == a';
  }

  lemma OneBit(l: Layout, g: Geometry, m: map<nat, Block>, s: Fs, t: Fs, b: nat)
    requires LayoutOk(l, g, s) && Encodes(l, g, m, s) && Encodes(l, g, m, t) && b < s.n
    ensures Bit(s.bits, b) <==> Bit(t.bits, b)
  {
    hide Bit, BitIn;
    var q, k := b / BPB, b % BPB;
    assert b == q * BPB + k;
    assert b < s.n ==> Home(g, q + l.bmapstart) by { var bit := Bit(s.bits, b); }
    var x := m[q + l.bmapstart];
    assert BitIn(x, k) <==> Bit(s.bits, q * BPB + k);
  }

  lemma StepAt(g: Geometry, k: nat, ss: seq<State>, es: seq<Event>, i: nat)
    requires IsRun(g, k, ss, es) && i < |es|
    ensures Steps(g, k, ss[i], es[i], ss[i + 1])
  {
    assert es[i] == es[i];
  }

  /** The rest of a run is one. */
  lemma Rest(g: Geometry, k: nat, ss: seq<State>, es: seq<Event>, n: nat)
    requires IsRun(g, k, ss, es) && n <= |es|
    ensures IsRun(g, k, ss[n..], es[n..])
  {
    hide Steps;
    var ss', es' := ss[n..], es[n..];
    forall i {:trigger es'[i]} | 0 <= i < |es'| ensures Steps(g, k, ss'[i], es'[i], ss'[i + 1]) {
      assert es'[i] == es[n + i];
    }
  }

  /** What a sequence of log_write()s leaves in the blocks it is about. */
  ghost function Written(es: seq<Event>): map<nat, Block> {
    if es == [] then map[]
    else
      var e := es[|es| - 1];
      var w := Written(es[..|es| - 1]);
      if e.Write? then w[e.b := e.data] else w
  }

  /** The first n events are those of operations, and there is one in progress all along. */
  ghost predicate Operating(ss: seq<State>, es: seq<Event>, n: nat) {
    && n <= |es| && |ss| == |es| + 1
    && forall i {:trigger es[i]} :: 0 <= i < n ==>
      (es[i].Begin? || es[i].Write? || es[i].End?) && ss[i + 1].phase.Running?
  }

  lemma OperatingBefore(ss: seq<State>, es: seq<Event>, n: nat)
    requires Operating(ss, es, n) && n > 0
    ensures Operating(ss, es, n - 1) && n <= |es| && |ss| == |es| + 1
    ensures (es[n - 1].Begin? || es[n - 1].Write? || es[n - 1].End?) && ss[n].phase.Running?
  {
  }

  lemma OperatingStep(g: Geometry, k: nat, s: State, e: Event, s': State)
    requires Wf(g) && Inv(g, s) && s.phase.Running? && s'.phase.Running? && (e.Begin? || e.Write? || e.End?)
    requires Steps(g, k, s, e, s')
    ensures Inv(g, s') && s'.disk == s.disk
    ensures View(g, s') == if e.Write? then View(g, s)[e.b := e.data] else View(g, s)
    ensures forall b :: b in s'.lh <==> b in s.lh || (e.Write? && e.b == b)
  {
    StepKeeps(g, s, e, k);
    hide Inv;
    WriteSeen(g, k, s, e);
  }

  lemma WriteSeen(g: Geometry, k: nat, s: State, e: Event)
    requires DiskOk(g, s.disk) && Enabled(g, s, e, k) && (e.Begin? || e.Write? || e.End?)
    ensures Apply(g, s, e, k).disk == s.disk
    ensures View(g, Apply(g, s, e, k)) == if e.Write? then View(g, s)[e.b := e.data] else View(g, s)
  {
  }

  /** An idle log shows the disk as it is. */
  lemma Idle(g: Geometry, s: State)
    requires Inv(g, s) && s.phase.Running? && s.ops == []
    ensures s.lh == [] && View(g, s) == HomeBlocks(g, s.disk)
  {
  }

  /** While operations run, the file system sees the disk with what was written over it. */
  lemma {:induction false} Ran(g: Geometry, k: nat, ss: seq<State>, es: seq<Event>, n: nat)
    requires Wf(g) && |ss| == |es| + 1 && IsRun(g, k, ss, es) && Operating(ss, es, n)
    requires Inv(g, ss[0]) && ss[0].phase.Running? && ss[0].ops == []
    ensures Inv(g, ss[n]) && ss[n].phase.Running? && ss[n].disk == ss[0].disk
    ensures View(g, ss[n]) == HomeBlocks(g, ss[0].disk) + Written(es[..n])
    ensures forall b :: b in ss[n].lh <==> b in Written(es[..n])
  {
    hide Inv, Enabled, Apply, DiskOk, Wf, IsRun, View, HomeBlocks, Operating;
    if n == 0 {
      Idle(g, ss[0]);
    } else {
      OperatingBefore(ss, es, n);
      Ran(g, k, ss, es, n - 1);
      assert es[..n][..n - 1] == es[..n - 1] && es[..n][n - 1] == es[n - 1];
      StepAt(g, k, ss, es, n - 1);
      OperatingStep(g, k, ss[n - 1], es[n - 1], ss[n]);
    }
  }

  /**
   Group commit. Operations begin, write and end on an idle log, the last of them ends at event
   n, commit() makes j of its disk writes, the machine crashes, and recovery completes, however
   often it is interrupted. The home blocks are then as they were before the first operation, or
   with everything written over them that was passed to log_write().
   */
  lemma GroupCommit(g: Geometry, k: nat, ss: seq<State>, es: seq<Event>, n: nat, j: nat)
    requires Wf(g) && IsRun(g, k, ss, es) && Operating(ss, es, n)
    requires Inv(g, ss[0]) && ss[0].phase.Running? && ss[0].ops == []
    requires |ss[n].ops| == 1 && Written(es[..n]) != map[]
    requires n + j + 1 < |es| && es[n] == End(0) && es[n + j + 1].Crash?
    requires forall i :: n < i <= n + j ==> es[i].DiskStep?
    requires forall i :: n + j + 1 <= i < |es| ==> es[i].DiskStep? || es[i].Crash?
    requires ss[|es|].phase.Running?
    ensures DiskOk(g, ss[0].disk) && DiskOk(g, ss[|es|].disk)
    ensures HomeBlocks(g, ss[|es|].disk) ==
            HomeBlocks(g, ss[0].disk) + if j <= |ss[n].lh| then map[] else Written(es[..n])
  {
    hide Inv, Enabled, Apply, IsRun, DiskOk, View, HomeBlocks, Wf;
    Ran(g, k, ss, es, n);
    var b :| b in Written(es[..n]);
    assert b in ss[n].lh;
    Rest(g, k, ss, es, n);
    var ss', es' := ss[n..], es[n..];
    assert |ss'| == |es'| + 1 && ss'[0] == ss[n] && es'[0] == es[n] && ss'[|es'|] == ss[|es|]
      && es'[j + 1] == es[n + j + 1];
    CrashAtomicity(g, k, ss', es', j);
  }

  /**
   A chunk is all on the disk or not at all. s and t are the states before and after it, as
   WriteOp leaves them unless a copy has failed inside a block; its blocks are passed to
   log_write(), each at last as it is in t.
   */
  lemma ChunkAtomic(l: Layout, g: Geometry, k: nat, ss: seq<State>, es: seq<Event>, n: nat, j: nat,
                    s: Fs, t: Fs, ino: nat, logged: set<nat>)
    requires Wf(g) && IsRun(g, k, ss, es) && Operating(ss, es, n)
    requires Inv(g, ss[0]) && ss[0].phase.Running? && ss[0].ops == [] && |ss[n].ops| == 1
    requires n + j + 1 < |es| && es[n] == End(0) && es[n + j + 1].Crash?
    requires forall i :: n < i <= n + j ==> es[i].DiskStep?
    requires forall i :: n + j + 1 <= i < |es| ==> es[i].DiskStep? || es[i].Crash?
    requires ss[|es|].phase.Running?
    requires DiskOk(g, ss[0].disk) && Encodes(l, g, HomeBlocks(g, ss[0].disk), s)
    requires FileSystem.Covered(s, t, ino, logged, l.bmapstart) && s.inodes.Keys == t.inodes.Keys
    requires ino / 16 + l.inodestart in logged && Written(es[..n]).Keys == logged
    requires forall b :: b in logged ==> Shows(l, Written(es[..n])[b], t, b)
    ensures DiskOk(g, ss[|es|].disk)
    ensures Encodes(l, g, HomeBlocks(g, ss[|es|].disk), if j <= |ss[n].lh| then s else t)
  {
    hide Inv, Enabled, Apply, Shows, FileSystem.Covered, DiskOk;
    assert Written(es[..n]) != map[] by { assert ino / 16 + l.inodestart in Written(es[..n]).Keys; }
    GroupCommit(g, k, ss, es, n, j);
    var m0, m := HomeBlocks(g, ss[0].disk), HomeBlocks(g, ss[|es|].disk);
    if j <= |ss[n].lh| {
      assert m == m0;
    } else {
      forall b: nat | Home(g, b) ensures b in m && Shows(l, m[b], t, b) {
        assert Shows(l, m0[b], s, b);
        if b !in logged { UnloggedShows(l, m0[b], s, t, ino, logged, b); }
      }
    }
  }
}
