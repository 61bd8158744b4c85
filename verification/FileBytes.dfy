/**
 The contents of files as runs of bytes, and what writing some of them does.
 */
module FileBytes {
  import opened FsLayout
  import opened FsState

  /** n bytes of a file from offset off. */
  ghost function Slice(fs: Fs, ino: nat, off: nat, n: nat): (r: seq<nat>)
    ensures |r| == n && forall k :: off <= k < off + n ==> r[k - off] == Byte(fs, ino, k)
  {
    if n == 0 then [] else Slice(fs, ino, off, n - 1) + [Byte(fs, ino, off + n - 1)]
  }

  ghost function Contents(fs: Fs, ino: nat): seq<nat> {
    if ino in fs.inodes then Slice(fs, ino, 0, fs.inodes[ino].size) else []
  }

  /** Byte k of ino is on the disk. */
  ghost predicate Has(fs: Fs, ino: nat, k: nat) {
    k / BSIZE < MAXFILE && At(fs, ino, k / BSIZE) != 0
  }

  /** Below its end a file has all its bytes. */
  lemma HasAll(fs: Fs, ino: nat, k: nat)
    requires FsOk(fs) && ino in fs.inodes && k < fs.inodes[ino].size
    ensures Has(fs, ino, k)
  {
    assert InodeOk(fs, ino) && NoHoles(fs, ino);
    assert At(fs, ino, k / BSIZE) != 0;
  }

  /** Byte k after src has been written at off. */
  ghost predicate ByteWritten(s0: Fs, s: Fs, ino: nat, off: nat, src: seq<nat>, k: nat) {
    && (off <= k < off + |src| ==> Has(s, ino, k) && Byte(s, ino, k) == src[k - off])
    && (!(off <= k < off + |src|) && Has(s0, ino, k) ==> Has(s, ino, k) && Byte(s, ino, k) == Byte(s0, ino, k))
  }

  /** From s0 to s, src has been written at off of ino: no size has changed, and no other file. */
  ghost predicate Wrote(s0: Fs, s: Fs, ino: nat, off: nat, src: seq<nat>) {
    && s.n == s0.n && s.inodes.Keys == s0.inodes.Keys && ino in s.inodes
    && (forall i :: i in s0.inodes ==> s.inodes[i].size == s0.inodes[i].size)
    && (forall k {:trigger ByteWritten(s0, s, ino, off, src, k)} :: 0 <= k ==> ByteWritten(s0, s, ino, off, src, k))
    && (forall i, k {:trigger Byte(s, i, k)} :: i in s0.inodes && i != ino && 0 <= k && Has(s0, i, k) ==>
          Has(s, i, k) && Byte(s, i, k) == Byte(s0, i, k))
  }

  lemma WroteNone(s: Fs, ino: nat, off: nat)
    requires ino in s.inodes
    ensures Wrote(s, s, ino, off, [])
  {
  }

  lemma ExtendsByte(s: Fs, t: Fs, ino: nat, i: nat, k: nat)
    requires Extends(s, t, ino) && i in s.inodes && Has(s, i, k)
    ensures Has(t, i, k) && Byte(t, i, k) == Byte(s, i, k)
  {
    assert SlotKept(s, t, i, k / BSIZE);
  }

  lemma WroteExtends(s0: Fs, s: Fs, t: Fs, ino: nat, off: nat, src: seq<nat>)
    requires Wrote(s0, s, ino, off, src) && Extends(s, t, ino)
    ensures Wrote(s0, t, ino, off, src)
  {
    hide Has, Byte;
    forall k | 0 <= k ensures ByteWritten(s0, t, ino, off, src, k) {
      assert ByteWritten(s0, s, ino, off, src, k);
      if Has(s, ino, k) { ExtendsByte(s, t, ino, ino, k); }
    }
    forall i, k | i in s0.inodes && i != ino && 0 <= k && Has(s0, i, k)
      ensures Has(t, i, k) && Byte(t, i, k) == Byte(s0, i, k)
    {
      assert Byte(s, i, k) == Byte(s0, i, k);
      ExtendsByte(s, t, ino, i, k);
    }
  }

  /** The bytes of a block after src has been put at o. */
  function Patched(b: Bytes, o: nat, src: seq<nat>): Bytes
    requires o + |src| <= |b|
  {
    b[..o] + src + b[o + |src|..]
  }

  lemma StoredByte(s: Fs, ino: nat, bn: nat, o: nat, src: seq<nat>, i: nat, k: nat)
    requires FsOk(s) && ino in s.inodes && bn < MAXFILE && At(s, ino, bn) != 0 && i in s.inodes && Has(s, i, k)
    requires o + |src| <= BSIZE
    ensures At(s, ino, bn) in s.data && |s.data[At(s, ino, bn)]| == BSIZE
    ensures var t := Stored(s, ino, bn, Patched(s.data[At(s, ino, bn)], o, src));
      && Has(t, i, k)
      && Byte(t, i, k) == if i == ino && k / BSIZE == bn && o <= k % BSIZE < o + |src| then src[k % BSIZE - o]
        else Byte(s, i, k)
  {
    SlotData(s, ino, bn);
    SlotData(s, i, k / BSIZE);
    StoredAt(s, ino, bn, Patched(s.data[At(s, ino, bn)], o, src), i, k / BSIZE);
    if At(s, i, k / BSIZE) == At(s, ino, bn) { OnePlace(s, i, k / BSIZE, ino, bn); }
  }

  lemma WroteStore(s0: Fs, s: Fs, ino: nat, off: nat, src: seq<nat>, more: seq<nat>)
    requires FsOk(s) && Wrote(s0, s, ino, off, src) && Has(s, ino, off + |src|)
    requires var a := off + |src|; a % BSIZE + |more| <= BSIZE
    requires At(s, ino, (off + |src|) / BSIZE) in s.data && |s.data[At(s, ino, (off + |src|) / BSIZE)]| == BSIZE
    ensures var a := off + |src|; var bn := a / BSIZE;
      Wrote(s0, Stored(s, ino, bn, Patched(s.data[At(s, ino, bn)], a % BSIZE, more)), ino, off, src + more)
  {
    var a := off + |src|;
    var bn := a / BSIZE;
    var t := Stored(s, ino, bn, Patched(s.data[At(s, ino, bn)], a % BSIZE, more));
    forall k: nat | 0 <= k ensures ByteWritten(s0, t, ino, off, src + more, k) {
      assert ByteWritten(s0, s, ino, off, src, k);
      InBlock(a, |more|, k);
      if Has(s, ino, k) {
        StoredByte(s, ino, bn, a % BSIZE, more, ino, k);
      }
    }
    forall i, k | i in s0.inodes && i != ino && 0 <= k && Has(s0, i, k)
      ensures Has(t, i, k) && Byte(t, i, k) == Byte(s0, i, k)
    {
      assert Byte(s, i, k) == Byte(s0, i, k);
      StoredByte(s, ino, bn, a % BSIZE, more, i, k);
    }
  }

  /** The m bytes from a on lie in one block. */
  lemma InBlock(a: nat, m: nat, k: nat)
    requires a % BSIZE + m <= BSIZE
    ensures a <= k < a + m <==> k / BSIZE == a / BSIZE && a % BSIZE <= k % BSIZE < a % BSIZE + m
    ensures a <= k < a + m ==> k % BSIZE - a % BSIZE == k - a
  {
  }

  /** The size of ino becomes sz. */
  function Sized(fs: Fs, ino: nat, sz: nat): Fs
    requires ino in fs.inodes
  {
    fs.(inodes := fs.inodes[ino := fs.inodes[ino].(size := sz)])
  }

  lemma SizedOk(fs: Fs, ino: nat, sz: nat)
    requires FsOk(fs) && ino in fs.inodes && sz <= MAXFILE * BSIZE
    requires forall bn :: 0 <= bn && bn * BSIZE < sz ==> At(fs, ino, bn) != 0
    ensures FsOk(Sized(fs, ino, sz))
  {
    var t := Sized(fs, ino, sz);
    assert forall i: nat, bn: nat :: At(t, i, bn) == At(fs, i, bn);
    hide At;
    forall b | 0 <= b < t.n ensures OwnerOk(t, b) { assert OwnerOk(fs, b); }
    forall i | i in t.inodes ensures InodeOk(t, i) && NoHoles(t, i) {
      assert InodeOk(fs, i) && NoHoles(fs, i);
      forall bn | 0 <= bn < MAXFILE ensures SlotOk(t, i, bn) { assert SlotOk(fs, i, bn); }
    }
  }

  /** A write that starts within the file leaves no hole before its end. */
  lemma WroteReaches(s0: Fs, s: Fs, ino: nat, off: nat, src: seq<nat>, bn: nat)
    requires FsOk(s0) && Wrote(s0, s, ino, off, src) && off <= s0.inodes[ino].size
    requires bn * BSIZE < s0.inodes[ino].size || bn * BSIZE < off + |src|
    ensures At(s, ino, bn) != 0
  {
    var k := bn * BSIZE;
    assert ByteWritten(s0, s, ino, off, src, k);
    if k < s0.inodes[ino].size { HasAll(s0, ino, k); }
  }

  function Max(a: nat, b: nat): nat {
    if a < b then b else a
  }

  /** c with src in place of what was at off. */
  function Replaced(c: seq<nat>, off: nat, src: seq<nat>): (r: seq<nat>)
    requires off <= |c|
    ensures |r| == Max(|c|, off + |src|)
  {
    c[..off] + src + (if off + |src| < |c| then c[off + |src|..] else [])
  }

  /** The end of writei(): the size takes in the first r bytes of what has been written. */
  lemma WroteContents(s0: Fs, s: Fs, ino: nat, off: nat, src: seq<nat>, r: nat)
    requires FsOk(s0) && FsOk(s) && Wrote(s0, s, ino, off, src) && off <= s0.inodes[ino].size
      && r <= |src| && off + |src| <= MAXFILE * BSIZE
    ensures var sz := Max(s0.inodes[ino].size, off + r); var t := Sized(s, ino, sz);
      && FsOk(t) && |Contents(s0, ino)| == s0.inodes[ino].size
      && Contents(t, ino) == Replaced(Contents(s0, ino), off, src)[..sz]
      && forall i :: i in s0.inodes && i != ino ==> Contents(t, i) == Contents(s0, i)
  {
    var sz := Max(s0.inodes[ino].size, off + r);
    var t := Sized(s, ino, sz);
    assert InodeOk(s0, ino);
    forall bn | 0 <= bn && bn * BSIZE < sz ensures At(s, ino, bn) != 0 { WroteReaches(s0, s, ino, off, src, bn); }
    SizedOk(s, ino, sz);
    SizedBytes(s, ino, sz);
    hide FsOk, Byte, Has;
    var c := Contents(s0, ino);
    forall k | 0 <= k < sz ensures Byte(t, ino, k) == Replaced(c, off, src)[k] {
      assert ByteWritten(s0, s, ino, off, src, k);
      if !(off <= k < off + |src|) { HasAll(s0, ino, k); }
    }
    assert Contents(t, ino) == Replaced(c, off, src)[..sz];
    forall i | i in s0.inodes && i != ino ensures Contents(t, i) == Contents(s0, i) {
      OtherContents(s0, s, t, ino, off, src, i);
    }
  }

  lemma WroteHas(s0: Fs, s: Fs, ino: nat, off: nat, src: seq<nat>, k: nat)
    requires Wrote(s0, s, ino, off, src) && Has(s0, ino, k)
    ensures Has(s, ino, k)
  {
    assert ByteWritten(s0, s, ino, off, src, k);
  }

  lemma OtherContents(s0: Fs, s: Fs, t: Fs, ino: nat, off: nat, src: seq<nat>, i: nat)
    requires FsOk(s0) && Wrote(s0, s, ino, off, src) && i in s0.inodes && i != ino
    requires i in t.inodes && t.inodes[i].size == s.inodes[i].size && forall k: nat :: Byte(t, i, k) == Byte(s, i, k)
    ensures Contents(t, i) == Contents(s0, i)
  {
    hide FsOk, Byte, Has;
    var n := s0.inodes[i].size;
    forall k | 0 <= k < n ensures Byte(t, i, k) == Byte(s0, i, k) {
      HasAll(s0, i, k);
      assert Byte(s, i, k) == Byte(s0, i, k);
    }
    SliceSame(s0, t, i, n);
  }

  lemma SliceSame(s: Fs, t: Fs, i: nat, n: nat)
    requires forall k :: 0 <= k < n ==> Byte(t, i, k) == Byte(s, i, k)
    ensures Slice(s, i, 0, n) == Slice(t, i, 0, n)
  {
  }

  lemma SizedBytes(s: Fs, ino: nat, sz: nat)
    requires ino in s.inodes
    ensures forall i: nat, k: nat :: Byte(Sized(s, ino, sz), i, k) == Byte(s, i, k)
  {
  }
}
