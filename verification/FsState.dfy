/**
 Who owns each block of the disk: the free map, the block numbers in inodes and those in
 indirect blocks agree, and no block is in two places.
 */
module FsState {
  import opened FsLayout

  datatype Inode = Inode(size: nat, addrs: seq<nat>)

  /** The one place that a block number may be in. */
  datatype Place = Unused | Meta | Direct(ino: nat, i: nat) | Indirect(ino: nat) | Entry(ino: nat, j: nat)

  /** Blocks 0 .. n - 1 of the disk, with the free map and the inodes read out of them. */
  datatype Fs = Fs(n: nat, bits: seq<bv8>, data: map<nat, Bytes>, inodes: map<nat, Inode>, owner: map<nat, Place>)

  /** Block bn of a file, or 0. */
  function At(fs: Fs, ino: nat, bn: nat): nat {
    if ino !in fs.inodes || |fs.inodes[ino].addrs| != NDIRECT + 1 then 0
    else
      var a := fs.inodes[ino].addrs;
      if bn < NDIRECT then a[bn]
      else if bn < MAXFILE && a[NDIRECT] != 0 && a[NDIRECT] in fs.data then Word(fs.data[a[NDIRECT]], bn - NDIRECT)
      else 0
  }

  /** The place of block bn of a file. */
  function PlaceOf(ino: nat, bn: nat): Place {
    if bn < NDIRECT then Direct(ino, bn) else Entry(ino, bn - NDIRECT)
  }

  ghost predicate SlotOk(fs: Fs, ino: nat, bn: nat) {
    At(fs, ino, bn) != 0 ==> At(fs, ino, bn) in fs.owner && fs.owner[At(fs, ino, bn)] == PlaceOf(ino, bn)
  }

  ghost predicate InodeOk(fs: Fs, ino: nat) {
    ino in fs.inodes && var a := fs.inodes[ino].addrs;
    && |a| == NDIRECT + 1 && fs.inodes[ino].size <= MAXFILE * BSIZE
    && (a[NDIRECT] != 0 ==> a[NDIRECT] in fs.owner && fs.owner[a[NDIRECT]] == Indirect(ino))
    && forall bn {:trigger SlotOk(fs, ino, bn)} :: 0 <= bn < MAXFILE ==> SlotOk(fs, ino, bn)
  }

  ghost predicate OwnerOk(fs: Fs, b: nat) {
    && b in fs.owner && b in fs.data && |fs.data[b]| == BSIZE
    && (Bit(fs.bits, b) <==> fs.owner[b] != Unused)
    && match fs.owner[b]
       case Unused => true
       case Meta => true
       case Direct(ino, i) => ino in fs.inodes && i < NDIRECT && At(fs, ino, i) == b
       case Indirect(ino) => ino in fs.inodes && |fs.inodes[ino].addrs| == NDIRECT + 1
         && fs.inodes[ino].addrs[NDIRECT] == b
       case Entry(ino, j) => ino in fs.inodes && j < NINDIRECT && At(fs, ino, NDIRECT + j) == b
  }

  /** No block below the end of a file is missing. */
  ghost predicate NoHoles(fs: Fs, ino: nat) {
    ino in fs.inodes && forall bn {:trigger At(fs, ino, bn)} :: 0 <= bn && bn * BSIZE < fs.inodes[ino].size ==>
      At(fs, ino, bn) != 0
  }

  ghost predicate FsOk(fs: Fs) {
    && fs.n <= |fs.bits| * 8 && fs.n <= TWO32
    && (forall b :: b in fs.owner <==> 0 <= b < fs.n) && (forall b :: b in fs.data <==> 0 <= b < fs.n)
    && (0 in fs.owner && fs.owner[0] == Meta)
    && (forall b {:trigger OwnerOk(fs, b)} :: 0 <= b < fs.n ==> OwnerOk(fs, b))
    && (forall ino {:trigger InodeOk(fs, ino)} :: ino in fs.inodes ==> InodeOk(fs, ino))
    && (forall ino {:trigger NoHoles(fs, ino)} :: ino in fs.inodes ==> NoHoles(fs, ino))
  }

  /** Byte k of a file. */
  function Byte(fs: Fs, ino: nat, k: nat): nat {
    var b := At(fs, ino, k / BSIZE);
    if b in fs.data && k % BSIZE < |fs.data[b]| then fs.data[b][k % BSIZE] else 0
  }

  /** Two places are never the same block. */
  lemma OnePlace(fs: Fs, ino: nat, bn: nat, ino': nat, bn': nat)
    requires FsOk(fs) && ino in fs.inodes && ino' in fs.inodes && bn < MAXFILE && bn' < MAXFILE
    requires At(fs, ino, bn) == At(fs, ino', bn') != 0
    ensures ino == ino' && bn == bn'
  {
    assert InodeOk(fs, ino) && SlotOk(fs, ino, bn);
    assert InodeOk(fs, ino') && SlotOk(fs, ino', bn');
  }

  // ---- balloc() for a place in a file

  /** The state after balloc() has returned b, before b is put anywhere. */
  function Marked(fs: Fs, b: nat): Fs {
    fs.(bits := SetBit(fs.bits, b), data := fs.data[b := ZeroBytes()])
  }

  function SetAddr(fs: Fs, ino: nat, i: nat, b: nat): map<nat, Inode>
    requires ino in fs.inodes && i < |fs.inodes[ino].addrs|
  {
    fs.inodes[ino := fs.inodes[ino].(addrs := fs.inodes[ino].addrs[i := b])]
  }

  /** b becomes direct block i of ino. */
  function AddDirect(fs: Fs, ino: nat, i: nat, b: nat): Fs
    requires ino in fs.inodes && i < |fs.inodes[ino].addrs|
  {
    Marked(fs, b).(inodes := SetAddr(fs, ino, i, b), owner := fs.owner[b := Direct(ino, i)])
  }

  /** b becomes the indirect block of ino. */
  function AddIndirect(fs: Fs, ino: nat, b: nat): Fs
    requires ino in fs.inodes && NDIRECT < |fs.inodes[ino].addrs|
  {
    Marked(fs, b).(inodes := SetAddr(fs, ino, NDIRECT, b), owner := fs.owner[b := Indirect(ino)])
  }

  /** b becomes entry j of the indirect block of ino. */
  function AddEntry(fs: Fs, ino: nat, j: nat, b: nat): Fs
    requires ino in fs.inodes && NDIRECT < |fs.inodes[ino].addrs| && fs.inodes[ino].addrs[NDIRECT] in fs.data
  {
    var ind := fs.inodes[ino].addrs[NDIRECT];
    var t := Marked(fs, b);
    t.(data := t.data[ind := SetWord(fs.data[ind], j, b)], owner := fs.owner[b := Entry(ino, j)])
  }

  function IndOf(fs: Fs, ino: nat): nat {
    if ino in fs.inodes && |fs.inodes[ino].addrs| == NDIRECT + 1 then fs.inodes[ino].addrs[NDIRECT] else 0
  }

  /** From fs to t, b has been given the place `place`, which was empty. */
  ghost predicate Added(fs: Fs, t: Fs, b: nat, place: Place) {
    && t.n == fs.n && t.bits == SetBit(fs.bits, b) && t.owner == fs.owner[b := place]
    && t.inodes.Keys == fs.inodes.Keys && t.data.Keys == fs.data.Keys
    && (forall x :: x in fs.data ==> |t.data[x]| == BSIZE)
    && (forall ino {:trigger AddedIn(fs, t, b, place, ino)} :: ino in fs.inodes ==> AddedIn(fs, t, b, place, ino))
    && (forall ino, bn {:trigger At(t, ino, bn)} :: ino in fs.inodes && 0 <= bn < MAXFILE ==>
          At(t, ino, bn) == if place == PlaceOf(ino, bn) then b else At(fs, ino, bn))
  }

  ghost predicate AddedIn(fs: Fs, t: Fs, b: nat, place: Place, ino: nat) {
    && ino in fs.inodes && ino in t.inodes && t.inodes[ino].size == fs.inodes[ino].size
      && |t.inodes[ino].addrs| == NDIRECT + 1
    && IndOf(t, ino) == if place == Indirect(ino) then b else IndOf(fs, ino)
  }

  /** The place is in the file system and empty. */
  ghost predicate Vacant(fs: Fs, place: Place) {
    match place
    case Direct(ino, i) => ino in fs.inodes && i < NDIRECT && At(fs, ino, i) == 0
    case Indirect(ino) => ino in fs.inodes && IndOf(fs, ino) == 0
    case Entry(ino, j) => ino in fs.inodes && j < NINDIRECT && IndOf(fs, ino) != 0 && At(fs, ino, NDIRECT + j) == 0
    case _ => false
  }

  ghost predicate FreeBlock(fs: Fs, b: nat) {
    b < fs.n && b in fs.owner && fs.owner[b] == Unused
  }

  lemma AddedInode(fs: Fs, t: Fs, b: nat, place: Place, ino: nat)
    requires FsOk(fs) && FreeBlock(fs, b) && Added(fs, t, b, place) && ino in fs.inodes
    ensures InodeOk(t, ino) && NoHoles(t, ino)
  {
    assert InodeOk(fs, ino) && NoHoles(fs, ino) && AddedIn(fs, t, b, place, ino) && OwnerOk(fs, 0);
    forall bn | 0 <= bn < MAXFILE ensures SlotOk(t, ino, bn) { assert SlotOk(fs, ino, bn); }
  }

  lemma AddedOwner(fs: Fs, t: Fs, b: nat, place: Place, x: nat)
    requires FsOk(fs) && FreeBlock(fs, b) && Vacant(fs, place) && Added(fs, t, b, place) && x < fs.n
    ensures OwnerOk(t, x)
  {
    assert OwnerOk(fs, x) && OwnerOk(fs, 0);
    BitChanged(fs.bits, b, x);
    var p := t.owner[x];
    if p.Indirect? { assert AddedIn(fs, t, b, place, p.ino); }
  }

  lemma AddedOk(fs: Fs, t: Fs, b: nat, place: Place)
    requires FsOk(fs) && FreeBlock(fs, b) && Vacant(fs, place) && Added(fs, t, b, place)
    ensures FsOk(t)
  {
    hide OwnerOk, InodeOk, NoHoles;
    BitChanged(fs.bits, b, b);
    forall x | 0 <= x < t.n ensures OwnerOk(t, x) { AddedOwner(fs, t, b, place, x); }
    forall ino | ino in t.inodes ensures InodeOk(t, ino) && NoHoles(t, ino) { AddedInode(fs, t, b, place, ino); }
  }

  /** What the steps below need of any inode: its indirect block, if any, is not the free b. */
  lemma Facts(fs: Fs, b: nat, ino: nat)
    requires FsOk(fs) && FreeBlock(fs, b) && ino in fs.inodes
    ensures |fs.inodes[ino].addrs| == NDIRECT + 1
      && (IndOf(fs, ino) != 0 ==> IndOf(fs, ino) != b && IndOf(fs, ino) in fs.data)
    ensures b in fs.data && forall x :: x in fs.data ==> |fs.data[x]| == BSIZE
    ensures IndOf(fs, ino) != 0 ==> fs.owner[IndOf(fs, ino)] == Indirect(ino)
  {
    assert InodeOk(fs, ino);
    forall x | x in fs.data ensures |fs.data[x]| == BSIZE { assert OwnerOk(fs, x); }
  }

  lemma AddDirectOk(fs: Fs, ino: nat, i: nat, b: nat)
    requires FsOk(fs) && FreeBlock(fs, b) && Vacant(fs, Direct(ino, i)) && |fs.inodes[ino].addrs| == NDIRECT + 1
    ensures Added(fs, AddDirect(fs, ino, i, b), b, Direct(ino, i))
  {
    hide FsOk;
    var t := AddDirect(fs, ino, i, b);
    Facts(fs, b, ino);
    forall ino' | ino' in fs.inodes ensures AddedIn(fs, t, b, Direct(ino, i), ino') { Facts(fs, b, ino'); }
    forall ino', bn | ino' in fs.inodes && 0 <= bn < MAXFILE
      ensures At(t, ino', bn) == if Direct(ino, i) == PlaceOf(ino', bn) then b else At(fs, ino', bn)
    {
      Facts(fs, b, ino');
    }
  }

  lemma AddIndirectOk(fs: Fs, ino: nat, b: nat)
    requires FsOk(fs) && FreeBlock(fs, b) && Vacant(fs, Indirect(ino)) && |fs.inodes[ino].addrs| == NDIRECT + 1
    ensures Added(fs, AddIndirect(fs, ino, b), b, Indirect(ino))
  {
    hide FsOk;
    var t := AddIndirect(fs, ino, b);
    Facts(fs, b, ino);
    forall ino' | ino' in fs.inodes ensures AddedIn(fs, t, b, Indirect(ino), ino') { Facts(fs, b, ino'); }
    forall ino', bn | ino' in fs.inodes && 0 <= bn < MAXFILE ensures At(t, ino', bn) == At(fs, ino', bn) {
      Facts(fs, b, ino');
    }
  }

  lemma AddEntryOk(fs: Fs, ino: nat, j: nat, b: nat)
    requires FsOk(fs) && FreeBlock(fs, b) && Vacant(fs, Entry(ino, j)) && |fs.inodes[ino].addrs| == NDIRECT + 1
    ensures IndOf(fs, ino) in fs.data && Added(fs, AddEntry(fs, ino, j, b), b, Entry(ino, j))
  {
    Facts(fs, b, ino);
    var t, ind := AddEntry(fs, ino, j, b), IndOf(fs, ino);
    assert b < TWO32;
    hide FsOk, Word, SetWord;
    SetWordOk(fs.data[ind], j, b, 0);
    forall ino' | ino' in fs.inodes ensures AddedIn(fs, t, b, Entry(ino, j), ino') { Facts(fs, b, ino'); }
    forall ino', bn | ino' in fs.inodes && 0 <= bn < MAXFILE
      ensures At(t, ino', bn) == if Entry(ino, j) == PlaceOf(ino', bn) then b else At(fs, ino', bn)
    {
      Facts(fs, b, ino');
      if ino' == ino && bn >= NDIRECT { SetWordOk(fs.data[ind], j, b, bn - NDIRECT); }
    }
  }

  // ---- what stays when ino gets more blocks, and what a write to one of its blocks changes

  /** Slot bn of ino' had this block, with these bytes, before. */
  ghost predicate SlotKept(fs: Fs, t: Fs, ino: nat, bn: nat) {
    At(fs, ino, bn) != 0 ==>
      && At(t, ino, bn) == At(fs, ino, bn)
      && At(fs, ino, bn) in fs.data && At(fs, ino, bn) in t.data && t.data[At(fs, ino, bn)] == fs.data[At(fs, ino, bn)]
  }

  /** t has the files of fs, and perhaps more blocks in ino. */
  ghost predicate Extends(fs: Fs, t: Fs, ino: nat) {
    && t.n == fs.n && t.inodes.Keys == fs.inodes.Keys
    && (forall ino' :: ino' in fs.inodes ==> t.inodes[ino'].size == fs.inodes[ino'].size)
    && (forall ino', bn {:trigger SlotKept(fs, t, ino', bn)} :: ino' in fs.inodes && 0 <= bn < MAXFILE ==>
      SlotKept(fs, t, ino', bn))
    && (forall ino', bn {:trigger At(t, ino', bn)} :: ino' in fs.inodes && ino' != ino && 0 <= bn < MAXFILE ==>
      At(t, ino', bn) == At(fs, ino', bn))
  }

  lemma SlotData(fs: Fs, ino: nat, bn: nat)
    requires FsOk(fs) && ino in fs.inodes && bn < MAXFILE && At(fs, ino, bn) != 0
    ensures var b := At(fs, ino, bn);
      && b < fs.n && b in fs.owner && fs.owner[b] == PlaceOf(ino, bn) && b in fs.data && |fs.data[b]| == BSIZE
      && Bit(fs.bits, b)
  {
    assert InodeOk(fs, ino) && SlotOk(fs, ino, bn);
    assert OwnerOk(fs, At(fs, ino, bn));
  }

  lemma ExtendsSelf(fs: Fs, ino: nat)
    requires FsOk(fs)
    ensures Extends(fs, fs, ino)
  {
    forall ino', bn | ino' in fs.inodes && 0 <= bn < MAXFILE ensures SlotKept(fs, fs, ino', bn) {
      if At(fs, ino', bn) != 0 { SlotData(fs, ino', bn); }
    }
  }

  lemma ExtendsTrans(fs: Fs, t: Fs, u: Fs, ino: nat)
    requires Extends(fs, t, ino) && Extends(t, u, ino)
    ensures Extends(fs, u, ino)
  {
    forall ino', bn | ino' in fs.inodes && 0 <= bn < MAXFILE ensures SlotKept(fs, u, ino', bn) {
      assert SlotKept(fs, t, ino', bn) && SlotKept(t, u, ino', bn);
    }
    forall ino', bn | ino' in fs.inodes && ino' != ino && 0 <= bn < MAXFILE
      ensures At(u, ino', bn) == At(fs, ino', bn)
    {
      assert At(t, ino', bn) == At(fs, ino', bn);
    }
  }

  lemma AddedExtends(fs: Fs, t: Fs, b: nat, place: Place, ino: nat)
    requires FsOk(fs) && FreeBlock(fs, b) && Vacant(fs, place) && Added(fs, t, b, place)
      && (place.Meta? || place.Unused? || place.ino == ino)
    requires forall x :: x in fs.data && x != b && !(place.Entry? && x == IndOf(fs, ino)) ==> t.data[x] == fs.data[x]
    ensures Extends(fs, t, ino)
  {
    forall ino' | ino' in fs.inodes ensures t.inodes[ino'].size == fs.inodes[ino'].size {
      assert AddedIn(fs, t, b, place, ino');
    }
    forall ino', bn | ino' in fs.inodes && 0 <= bn < MAXFILE ensures SlotKept(fs, t, ino', bn) {
      if At(fs, ino', bn) != 0 {
        SlotData(fs, ino', bn);
        if place.Entry? { Facts(fs, b, ino); }
        assert At(t, ino', bn) == At(fs, ino', bn);
      }
    }
  }

  /** Block bn of ino gets new bytes. */
  function Stored(fs: Fs, ino: nat, bn: nat, bytes: Bytes): Fs {
    fs.(data := fs.data[At(fs, ino, bn) := bytes])
  }

  lemma StoredAt(fs: Fs, ino: nat, bn: nat, bytes: Bytes, ino': nat, bn': nat)
    requires FsOk(fs) && ino in fs.inodes && bn < MAXFILE && At(fs, ino, bn) != 0 && ino' in fs.inodes
    ensures At(Stored(fs, ino, bn, bytes), ino', bn') == At(fs, ino', bn')
  {
    SlotData(fs, ino, bn);
    assert InodeOk(fs, ino');
  }

  lemma StoredOk(fs: Fs, ino: nat, bn: nat, bytes: Bytes)
    requires FsOk(fs) && ino in fs.inodes && bn < MAXFILE && At(fs, ino, bn) != 0 && |bytes| == BSIZE
    ensures FsOk(Stored(fs, ino, bn, bytes))
  {
    var t := Stored(fs, ino, bn, bytes);
    SlotData(fs, ino, bn);
    hide At;
    forall x | 0 <= x < t.n ensures OwnerOk(t, x) {
      assert OwnerOk(fs, x);
      match fs.owner[x]
      case Direct(i, k) => StoredAt(fs, ino, bn, bytes, i, k);
      case Entry(i, k) => StoredAt(fs, ino, bn, bytes, i, NDIRECT + k);
      case _ =>
    }
    forall i | i in t.inodes ensures InodeOk(t, i) && NoHoles(t, i) {
      assert InodeOk(fs, i) && NoHoles(fs, i);
      forall k | 0 <= k < MAXFILE ensures SlotOk(t, i, k) {
        assert SlotOk(fs, i, k);
        StoredAt(fs, ino, bn, bytes, i, k);
      }
      forall k | 0 <= k && k * BSIZE < t.inodes[i].size ensures At(t, i, k) != 0 { StoredAt(fs, ino, bn, bytes, i, k); }
    }
  }

  /** balloc() gives a free block when its bit was clear. */
  lemma ClearIsFree(fs: Fs, b: nat)
    requires FsOk(fs) && b < fs.n && !Bit(fs.bits, b)
    ensures FreeBlock(fs, b) && b != 0
  {
    assert OwnerOk(fs, b) && OwnerOk(fs, 0);
  }

  lemma Basics(fs: Fs, ino: nat)
    requires FsOk(fs) && ino in fs.inodes
    ensures |fs.inodes[ino].addrs| == NDIRECT + 1 && fs.n <= |fs.bits| * 8 && fs.n > 0 && Bit(fs.bits, 0)
    ensures fs.inodes[ino].size <= MAXFILE * BSIZE
    ensures IndOf(fs, ino) != 0 ==> IndOf(fs, ino) in fs.data
    ensures forall i :: 0 <= i < NDIRECT ==> At(fs, ino, i) == fs.inodes[ino].addrs[i]
    ensures forall k :: NDIRECT <= k < MAXFILE ==>
      At(fs, ino, k) == if IndOf(fs, ino) == 0 then 0 else Word(fs.data[IndOf(fs, ino)], k - NDIRECT)
    ensures IndOf(fs, ino) == fs.inodes[ino].addrs[NDIRECT]
  {
    assert InodeOk(fs, ino) && OwnerOk(fs, 0);
  }

  lemma DirectDone(fs: Fs, ino: nat, i: nat, b: nat)
    requires FsOk(fs) && FreeBlock(fs, b) && Vacant(fs, Direct(ino, i)) && |fs.inodes[ino].addrs| == NDIRECT + 1
    ensures var t := AddDirect(fs, ino, i, b);
      && FsOk(t) && Extends(fs, t, ino) && IndOf(t, ino) == IndOf(fs, ino)
      && forall k :: 0 <= k < MAXFILE ==> At(t, ino, k) == if k == i then b else At(fs, ino, k)
  {
    hide FsOk;
    var t := AddDirect(fs, ino, i, b);
    AddDirectOk(fs, ino, i, b);
    AddedOk(fs, t, b, Direct(ino, i));
    AddedExtends(fs, t, b, Direct(ino, i), ino);
  }

  lemma IndirectDone(fs: Fs, ino: nat, b: nat)
    requires FsOk(fs) && FreeBlock(fs, b) && Vacant(fs, Indirect(ino)) && |fs.inodes[ino].addrs| == NDIRECT + 1
    ensures var t := AddIndirect(fs, ino, b);
      && FsOk(t) && Extends(fs, t, ino) && IndOf(t, ino) == b
      && forall k :: 0 <= k < MAXFILE ==> At(t, ino, k) == At(fs, ino, k)
  {
    hide FsOk;
    var t := AddIndirect(fs, ino, b);
    AddIndirectOk(fs, ino, b);
    AddedOk(fs, t, b, Indirect(ino));
    AddedExtends(fs, t, b, Indirect(ino), ino);
  }

  lemma EntryDone(fs: Fs, ino: nat, j: nat, b: nat)
    requires FsOk(fs) && FreeBlock(fs, b) && Vacant(fs, Entry(ino, j)) && |fs.inodes[ino].addrs| == NDIRECT + 1
    ensures IndOf(fs, ino) in fs.data && IndOf(fs, ino) != b
    ensures var t := AddEntry(fs, ino, j, b);
      && FsOk(t) && Extends(fs, t, ino) && IndOf(t, ino) == IndOf(fs, ino)
      && forall k :: 0 <= k < MAXFILE ==> At(t, ino, k) == if k == NDIRECT + j then b else At(fs, ino, k)
  {
    hide FsOk;
    AddEntryOk(fs, ino, j, b);
    Facts(fs, b, ino);
    var t := AddEntry(fs, ino, j, b);
    AddedOk(fs, t, b, Entry(ino, j));
    AddedExtends(fs, t, b, Entry(ino, j), ino);
  }

  // ---- itrunc()

  predicate OfFile(p: Place, ino: nat) {
    (p.Direct? || p.Indirect? || p.Entry?) && p.ino == ino
  }

  /** Of the places of ino: direct blocks below i, entries below j, and the indirect block. */
  predicate Gone(p: Place, ino: nat, i: nat, j: nat, ind: bool) {
    || (p.Direct? && p.ino == ino && p.i < i) || (p.Entry? && p.ino == ino && p.j < j) || (ind && p == Indirect(ino))
  }

  /** The free map with the blocks at these places freed. */
  ghost predicate BitsGone(fs: Fs, bits: seq<bv8>, ino: nat, i: nat, j: nat, ind: bool) {
    && |bits| == |fs.bits|
    && forall x :: x in fs.owner ==> (Bit(bits, x) <==> fs.owner[x] != Unused && !Gone(fs.owner[x], ino, i, j, ind))
  }

  lemma BitsNone(fs: Fs, ino: nat)
    requires FsOk(fs)
    ensures BitsGone(fs, fs.bits, ino, 0, 0, false)
  {
    forall x | x in fs.owner ensures Bit(fs.bits, x) <==> fs.owner[x] != Unused { assert OwnerOk(fs, x); }
  }

  /** bfree() of the one block that is at the next place. */
  lemma FreeNext(fs: Fs, bits: seq<bv8>, ino: nat, i: nat, j: nat, ind: bool, i': nat, j': nat, ind': bool, b: nat)
    requires FsOk(fs) && BitsGone(fs, bits, ino, i, j, ind) && b in fs.owner && fs.owner[b] != Unused
    requires !Gone(fs.owner[b], ino, i, j, ind) && i <= i' && j <= j' && (ind ==> ind')
    requires forall x :: x in fs.owner && Gone(fs.owner[x], ino, i', j', ind') && !Gone(fs.owner[x], ino, i, j, ind) ==>
      x == b
    requires Gone(fs.owner[b], ino, i', j', ind')
    ensures Bit(bits, b) && BitsGone(fs, ClearBit(bits, b), ino, i', j', ind')
  {
    hide Gone;
    assert b < fs.n;
    forall x | x in fs.owner
      ensures Bit(ClearBit(bits, b), x) <==> fs.owner[x] != Unused && !Gone(fs.owner[x], ino, i', j', ind')
    {
      BitChanged(bits, b, x);
      GoneMore(fs.owner[x], ino, i, j, ind, i', j', ind');
    }
    BitChanged(bits, b, b);
  }

  lemma GoneMore(p: Place, ino: nat, i: nat, j: nat, ind: bool, i': nat, j': nat, ind': bool)
    requires i <= i' && j <= j' && (ind ==> ind')
    ensures Gone(p, ino, i, j, ind) ==> Gone(p, ino, i', j', ind')
  {
  }

  /** The block at a place is found there only. */
  lemma AtPlace(fs: Fs, x: nat)
    requires FsOk(fs) && x in fs.owner
    ensures match fs.owner[x]
      case Direct(ino, i) => ino in fs.inodes && i < NDIRECT && At(fs, ino, i) == x
      case Entry(ino, j) => ino in fs.inodes && j < NINDIRECT && At(fs, ino, NDIRECT + j) == x && IndOf(fs, ino) != 0
      case Indirect(ino) => ino in fs.inodes && IndOf(fs, ino) == x
      case _ => true
    ensures fs.owner[x] in {Unused, Meta} || x != 0
  {
    assert OwnerOk(fs, x) && OwnerOk(fs, 0);
  }

  function NoAddrs(): seq<nat> {
    seq(NDIRECT + 1, _ => 0)
  }

  /** ino has lost all its blocks. */
  ghost predicate Truncated(fs: Fs, t: Fs, ino: nat) {
    && t.n == fs.n && t.data == fs.data && ino in fs.inodes && t.inodes == fs.inodes[ino := Inode(0, NoAddrs())]
    && t.owner.Keys == fs.owner.Keys
    && (forall x :: x in fs.owner ==> t.owner[x] == if OfFile(fs.owner[x], ino) then Unused else fs.owner[x])
    && |t.bits| == |fs.bits| && forall x :: x in fs.owner ==> (Bit(t.bits, x) <==> t.owner[x] != Unused)
  }

  lemma TruncatedAt(fs: Fs, t: Fs, ino: nat, i: nat, bn: nat)
    requires Truncated(fs, t, ino)
    ensures At(t, i, bn) == if i == ino then 0 else At(fs, i, bn)
    ensures IndOf(t, i) == if i == ino then 0 else IndOf(fs, i)
  {
  }

  lemma TruncatedOk(fs: Fs, t: Fs, ino: nat)
    requires FsOk(fs) && Truncated(fs, t, ino)
    ensures FsOk(t)
  {
    assert OwnerOk(fs, 0);
    forall x | 0 <= x < t.n ensures OwnerOk(t, x) {
      assert OwnerOk(fs, x);
      AtPlace(fs, x);
      match fs.owner[x]
      case Direct(i, k) => TruncatedAt(fs, t, ino, i, k);
      case Entry(i, k) => TruncatedAt(fs, t, ino, i, NDIRECT + k);
      case Indirect(i) => TruncatedAt(fs, t, ino, i, 0);
      case _ =>
    }
    hide OwnerOk;
    forall i | i in t.inodes ensures InodeOk(t, i) && NoHoles(t, i) { TruncatedInode(fs, t, ino, i); }
  }

  lemma TruncatedInode(fs: Fs, t: Fs, ino: nat, i: nat)
    requires FsOk(fs) && Truncated(fs, t, ino) && i in t.inodes
    ensures InodeOk(t, i) && NoHoles(t, i)
  {
    assert InodeOk(fs, i) && NoHoles(fs, i);
    hide At;
    TruncatedAt(fs, t, ino, i, 0);
    forall bn | 0 <= bn < MAXFILE ensures SlotOk(t, i, bn) { TruncatedAt(fs, t, ino, i, bn); assert SlotOk(fs, i, bn); }
    forall bn | 0 <= bn && bn * BSIZE < t.inodes[i].size ensures At(t, i, bn) != 0 { TruncatedAt(fs, t, ino, i, bn); }
  }
}
