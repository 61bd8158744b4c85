/**
 Runs of filewrite() on a crowded disk. One chunk logs MAXOPBLOCKS blocks: it starts inside the last
 direct block of a file, goes on in three new blocks behind a new indirect block, and the four blocks
 that it allocates are in four blocks of the free map. Another fails in the middle of a copy.
 */
module ChunkRuns {
  import opened FsLayout
  import opened FsState
  import opened FileBytes
  import opened FileSystem

  const FILE: nat := 1
  const SIZE: nat := 11 * BSIZE + 1
  const DISK: nat := 4 * BPB
  const FIRST: nat := 100

  /** The last block of each block of the free map is free, and the one before the last of all. */
  predicate Unowned(b: nat) {
    b == BPB - 1 || b == 2 * BPB - 1 || b == 3 * BPB - 1 || b == DISK - 2 || b == DISK - 1
  }

  function MapByte(i: nat): bv8 {
    if i == DISK / 8 - 1 then 0x3f
    else if i == BSIZE - 1 || i == 2 * BSIZE - 1 || i == 3 * BSIZE - 1 then 0x7f
    else 0xff
  }

  function OwnerOf(b: nat): Place {
    if Unowned(b) then Unused else if FIRST <= b < FIRST + NDIRECT then Direct(FILE, b - FIRST) else Meta
  }

  function Node(): Inode {
    Inode(SIZE, seq(NDIRECT + 1, i => if 0 <= i < NDIRECT then FIRST + i else 0))
  }

  /** One file, with all its direct blocks and one byte in the last of them. */
  function Crowded(): Fs {
    Fs(DISK, seq(DISK / 8, i requires 0 <= i => MapByte(i)), map b: nat | b < DISK :: Blank(b),
       map[FILE := Node()], map b: nat | b < DISK :: OwnerOf(b))
  }

  lemma MapBit(k: nat)
    requires k < 8
    ensures TestByte(0xff, k) && (TestByte(0x7f, k) <==> k != 7) && (TestByte(0x3f, k) <==> k < 6)
  {
    if k == 0 {} else if k == 1 {} else if k == 2 {} else if k == 3 {} else if k == 4 {} else if k == 5 {}
    else if k == 6 {} else {}
  }

  /** Bit k of byte i. */
  lemma BitOf(b: nat, i: nat, k: nat)
    requires k < 8
    ensures b == 8 * i + k <==> b / 8 == i && b % 8 == k
  {
  }

  lemma CrowdedBit(b: nat)
    ensures Bit(Crowded().bits, b) <==> b < DISK && !Unowned(b)
  {
    BitOf(b, BSIZE - 1, 7);
    BitOf(b, 2 * BSIZE - 1, 7);
    BitOf(b, 3 * BSIZE - 1, 7);
    BitOf(b, DISK / 8 - 1, 6);
    BitOf(b, DISK / 8 - 1, 7);
    MapBit(b % 8);
    hide TestByte;
    if b < DISK {
      assert Crowded().bits[b / 8] == MapByte(b / 8);
    }
  }

  lemma CrowdedAt(bn: nat)
    ensures At(Crowded(), FILE, bn) == if bn < NDIRECT then FIRST + bn else 0
    ensures IndOf(Crowded(), FILE) == 0
  {
  }

  lemma CrowdedOwner(b: nat)
    requires b < DISK
    ensures OwnerOk(Crowded(), b)
  {
    CrowdedBit(b);
    if FIRST <= b < FIRST + NDIRECT { CrowdedAt(b - FIRST); }
    hide Bit, Unowned;
    assert Crowded().data[b] == ZeroBytes() && Crowded().owner[b] == OwnerOf(b);
  }

  lemma CrowdedOk()
    ensures FsOk(Crowded()) && Crowded().n == DISK && FILE in Crowded().inodes && Crowded().inodes[FILE].size == SIZE
  {
    var fs := Crowded();
    forall b: nat | b < DISK ensures OwnerOk(fs, b) { CrowdedOwner(b); }
    forall bn: nat ensures At(fs, FILE, bn) == if bn < NDIRECT then FIRST + bn else 0 { CrowdedAt(bn); }
    hide Bit, OwnerOk, At;
    forall bn | 0 <= bn < MAXFILE ensures SlotOk(fs, FILE, bn) {}
    assert InodeOk(fs, FILE) && NoHoles(fs, FILE);
  }

  /** A place that has been filled has been filled with a block that was free. */
  lemma NewPlace(s: Fs, t: Fs, al: set<nat>, ino: nat, bn: nat)
    requires FsOk(s) && FsOk(t) && Grown(s, t, al) && ino in s.inodes && ino in t.inodes && bn < MAXFILE
    ensures At(s, ino, bn) == 0 && At(t, ino, bn) != 0 ==> At(t, ino, bn) in al
    ensures At(s, ino, bn) != 0 ==> At(t, ino, bn) == At(s, ino, bn)
  {
    if At(t, ino, bn) != 0 {
      SlotData(t, ino, bn);
      AtPlace(s, At(t, ino, bn));
    }
    if At(s, ino, bn) != 0 {
      SlotData(s, ino, bn);
      AtPlace(t, At(s, ino, bn));
    }
  }

  lemma NewIndirectBlock(s: Fs, t: Fs, al: set<nat>, ino: nat)
    requires FsOk(s) && FsOk(t) && Grown(s, t, al) && ino in s.inodes && ino in t.inodes
    ensures IndOf(s, ino) == 0 && IndOf(t, ino) != 0 ==> IndOf(t, ino) in al
  {
    if IndOf(t, ino) != 0 {
      assert InodeOk(t, ino);
      AtPlace(s, IndOf(t, ino));
    }
  }

  /** What first fit means on this disk. */
  lemma Fits(t: Fs, al: set<nat>)
    requires Grown(Crowded(), t, al)
    ensures forall x :: x in al ==> x < DISK && Unowned(x)
    ensures forall x, y: nat :: x in al && y < x && Unowned(y) ==> y in al
    ensures FullMap(t.bits, DISK) ==> forall x: nat :: x < DISK && Unowned(x) ==> x in al
  {
    assert Crowded().n == DISK;
    forall x: nat ensures Bit(Crowded().bits, x) <==> x < DISK && !Unowned(x) { CrowdedBit(x); }
    hide Bit, Unowned, Crowded;
  }

  /** The free blocks, in order. */
  function FreeBlocks(): set<nat> {
    {BPB - 1, 2 * BPB - 1, 3 * BPB - 1, DISK - 2, DISK - 1}
  }

  lemma UnownedIs(b: nat)
    ensures b < DISK && Unowned(b) <==> b in FreeBlocks()
  {
  }

  lemma FiveFree(al: set<nat>)
    requires FreeBlocks() <= al
    ensures |al| >= 5
  {
    assert |FreeBlocks()| == 5;
    Within(FreeBlocks(), al);
  }

  lemma FourFree(al: set<nat>)
    requires |al| == 4 && al <= FreeBlocks() && forall x, y :: x in al && y in FreeBlocks() && y < x ==> y in al
    ensures al == {BPB - 1, 2 * BPB - 1, 3 * BPB - 1, DISK - 2}
  {
    if DISK - 1 in al {
      FiveFree(al);
    }
    Same(al, {BPB - 1, 2 * BPB - 1, 3 * BPB - 1, DISK - 2});
  }

  lemma Same(a: set<nat>, b: set<nat>)
    requires a <= b && |a| >= |b|
    ensures a == b
  {
    assert b == a + (b - a);
  }

  /** First fit takes the free blocks of the disk in order. */
  lemma FirstFour(t: Fs, al: set<nat>)
    requires Grown(Crowded(), t, al) && |al| == 4
    ensures al == {BPB - 1, 2 * BPB - 1, 3 * BPB - 1, DISK - 2}
  {
    hide Unowned, Grown, Crowded, FullMap, FreeBlocks;
    Fits(t, al);
    forall x: nat ensures x < DISK && Unowned(x) <==> x in FreeBlocks() { UnownedIs(x); }
    FourFree(al);
  }

  /** Four blocks are too few to fill the disk. */
  lemma NotFull(t: Fs, al: set<nat>)
    requires Grown(Crowded(), t, al) && |al| <= 4
    ensures !FullMap(t.bits, DISK)
  {
    hide Unowned, Grown, Crowded, FullMap, FreeBlocks;
    Fits(t, al);
    forall x: nat ensures x < DISK && Unowned(x) <==> x in FreeBlocks() { UnownedIs(x); }
    if FullMap(t.bits, DISK) { FiveFree(al); }
  }

  function Ones(): (r: seq<nat>)
    ensures |r| == WRITEMAX && forall k :: 0 <= k < WRITEMAX ==> r[k] == 1
  {
    seq(WRITEMAX, _ => 1)
  }

  /** t is what the chunk leaves, and the blocks `logged` cover it. */
  ghost predicate After(t: Fs, al: set<nat>, logged: set<nat>, bmapstart: nat) {
    && FsOk(t) && FILE in t.inodes && Grown(Crowded(), t, al) && |al| <= 4
    && Covered(Crowded(), t, FILE, logged, bmapstart)
    && SIZE <= |Contents(Crowded(), FILE)| && Contents(t, FILE) == Replaced(Contents(Crowded(), FILE), SIZE, Ones())
  }

  /** The byte at k has changed from 0 to 1, so its block has been logged. */
  lemma Touched(t: Fs, al: set<nat>, logged: set<nat>, bmapstart: nat, k: nat)
    requires After(t, al, logged, bmapstart) && SIZE <= k < SIZE + WRITEMAX
    ensures At(t, FILE, k / BSIZE) != 0 && At(t, FILE, k / BSIZE) in logged && k / BSIZE < MAXFILE
  {
    hide FsOk, Covered, Grown, Crowded, At;
    var s, b := Crowded(), At(t, FILE, k / BSIZE);
    assert Contents(t, FILE)[k] == 1;
    HasAll(t, FILE, k);
    SlotData(t, FILE, k / BSIZE);
    assert Byte(t, FILE, k) == 1;
    CrowdedData(t, al, b);
    if b !in logged { CoveredData(s, t, FILE, logged, bmapstart, b); }
  }

  lemma CrowdedData(t: Fs, al: set<nat>, b: nat)
    requires Grown(Crowded(), t, al) && b < t.n
    ensures b in Crowded().data && Crowded().data[b] == ZeroBytes()
  {
  }

  lemma CoveredData(s: Fs, t: Fs, ino: nat, logged: set<nat>, bmapstart: nat, b: nat)
    requires Covered(s, t, ino, logged, bmapstart) && b in s.data && b !in logged
    ensures b in t.data && t.data[b] == s.data[b]
  {
  }

  /** The indirect block is new, and logged. */
  lemma IndirectLogged(t: Fs, al: set<nat>, logged: set<nat>, bmapstart: nat)
    requires After(t, al, logged, bmapstart)
    ensures IndOf(t, FILE) != 0 && IndOf(t, FILE) in logged && IndOf(t, FILE) in al
  {
    hide FsOk, At, IndOf, Crowded, Grown, Covered, Contents, Replaced;
    var s, b := Crowded(), IndOf(t, FILE);
    CrowdedOk();
    CrowdedAt(NDIRECT);
    Touched(t, al, logged, bmapstart, NDIRECT * BSIZE);
    NewIndirectBlock(s, t, al, FILE);
    Basics(t, FILE);
    assert Word(ZeroBytes(), 0) == 0;
    IndirectIn(t, FILE);
    CrowdedData(t, al, b);
    if b !in logged { CoveredData(s, t, FILE, logged, bmapstart, b); }
  }

  lemma IndirectIn(t: Fs, ino: nat)
    requires FsOk(t) && ino in t.inodes && IndOf(t, ino) != 0
    ensures IndOf(t, ino) < t.n && IndOf(t, ino) in t.owner && t.owner[IndOf(t, ino)] == Indirect(ino)
  {
    assert InodeOk(t, ino);
  }

  /** The blocks allocated are the indirect block and three data blocks; all are logged. */
  lemma FourNew(t: Fs, al: set<nat>, logged: set<nat>, bmapstart: nat)
    requires After(t, al, logged, bmapstart)
    ensures |al| == 4 && al <= logged
  {
    hide FsOk, At, IndOf, Crowded, Grown, Covered, Contents, Replaced;
    var a, b, c, ind := At(t, FILE, 12), At(t, FILE, 13), At(t, FILE, 14), IndOf(t, FILE);
    NewData(t, al, logged, bmapstart, 12);
    NewData(t, al, logged, bmapstart, 13);
    NewData(t, al, logged, bmapstart, 14);
    IndirectLogged(t, al, logged, bmapstart);
    ApartAt(t, 12, 13);
    ApartAt(t, 12, 14);
    ApartAt(t, 13, 14);
    Four(a, b, c, ind, al);
  }

  lemma ApartAt(t: Fs, k: nat, m: nat)
    requires FsOk(t) && FILE in t.inodes && k < m < MAXFILE && At(t, FILE, k) != 0
    ensures At(t, FILE, k) != At(t, FILE, m)
  {
    hide FsOk, At;
    if At(t, FILE, k) == At(t, FILE, m) { OnePlace(t, FILE, k, FILE, m); }
  }

  lemma Four(a: nat, b: nat, c: nat, d: nat, al: set<nat>)
    requires a != b && a != c && a != d && b != c && b != d && c != d && {a, b, c, d} <= al && |al| <= 4
    ensures al == {a, b, c, d} && |al| == 4
  {
    assert |{a, b, c, d}| == 4;
    Same({a, b, c, d}, al);
  }

  lemma NewData(t: Fs, al: set<nat>, logged: set<nat>, bmapstart: nat, bn: nat)
    requires After(t, al, logged, bmapstart) && NDIRECT <= bn < NDIRECT + 3
    ensures At(t, FILE, bn) != 0 && At(t, FILE, bn) in al && At(t, FILE, bn) in logged
    ensures At(t, FILE, bn) != IndOf(t, FILE)
  {
    hide FsOk, At, IndOf, Crowded, Grown, Covered, Contents, Replaced;
    CrowdedOk();
    CrowdedAt(bn);
    assert bn * BSIZE / BSIZE == bn;
    Touched(t, al, logged, bmapstart, bn * BSIZE);
    NewPlace(Crowded(), t, al, FILE, bn);
    SlotData(t, FILE, bn);
    if IndOf(t, FILE) != 0 { IndirectIn(t, FILE); }
  }

  /** The last direct block is logged. */
  lemma OldData(t: Fs, al: set<nat>, logged: set<nat>, bmapstart: nat)
    requires After(t, al, logged, bmapstart)
    ensures FIRST + NDIRECT - 1 in logged
  {
    hide FsOk, At, IndOf, Crowded, Grown, Covered, Contents, Replaced;
    CrowdedOk();
    CrowdedAt(NDIRECT - 1);
    Touched(t, al, logged, bmapstart, SIZE);
    NewPlace(Crowded(), t, al, FILE, NDIRECT - 1);
  }

  /** The bit of an allocated block has changed, so its block of the free map is logged. */
  lemma MapLoggedAt(t: Fs, al: set<nat>, logged: set<nat>, bmapstart: nat, b: nat)
    requires After(t, al, logged, bmapstart) && b in al
    ensures b / BPB + bmapstart in logged
  {
    hide FsOk, Crowded, Bit, Contents;
    assert Bit(t.bits, b) != Bit(Crowded().bits, b);
  }

  lemma Ten(al: set<nat>, logged: set<nat>, m: nat, ib: nat)
    requires al <= logged && |al| == 4 && (forall x :: x in al ==> x > FIRST + NDIRECT) && ib < m < FIRST - 4
    requires {ib, FIRST + NDIRECT - 1, m, m + 1, m + 2, m + 3} <= logged
    ensures |logged| >= 10
  {
    var six := {ib, FIRST + NDIRECT - 1, m, m + 1, m + 2, m + 3};
    assert |six| == 6 && al !! six;
    assert |al + six| == 10;
    Within(al + six, logged);
  }

  /** Together these are ten blocks, if the metadata lies before the file. */
  lemma TenLogged(t: Fs, al: set<nat>, logged: set<nat>, bmapstart: nat, ib: nat)
    requires After(t, al, logged, bmapstart) && ib in logged && ib < bmapstart < FIRST - 4
    ensures |logged| >= 10
  {
    hide FsOk, At, IndOf, Crowded, Grown, Covered, Contents, Replaced;
    FourNew(t, al, logged, bmapstart);
    FirstFour(t, al);
    MapLoggedAt(t, al, logged, bmapstart, BPB - 1);
    MapLoggedAt(t, al, logged, bmapstart, 2 * BPB - 1);
    MapLoggedAt(t, al, logged, bmapstart, 3 * BPB - 1);
    MapLoggedAt(t, al, logged, bmapstart, DISK - 2);
    OldData(t, al, logged, bmapstart);
    Ten(al, logged, bmapstart, ib);
  }

  /** The bound of WriteOp is attained: this chunk is written whole and logs MAXOPBLOCKS blocks. */
  method LargestChunk() returns (r: int, ghost logged: set<nat>)
    ensures r == WRITEMAX && |logged| == MAXOPBLOCKS
  {
    hide FsOk, Grown, Covered, Crowded, Contents, Ended, Has, FullMap, Written, After;
    CrowdedOk();
    var d := new FileDisk.Mount(Crowded(), 45, 32);
    ghost var p, lost, al;
    r, p, lost, al := d.WriteOp(FILE, SIZE, Ones(), WRITEMAX);
    NotFull(d.S(), al);
    EndedAt(FullMap(d.bits, d.n), Has(Crowded(), FILE, SIZE + r), SIZE, WRITEMAX, r, p, WRITEMAX);
    assert Ones()[..p] == Ones();
    logged := d.logged;
    assert logged + lost == logged;
    IsAfter(d.S(), al, logged, 45);
    TenLogged(d.S(), al, logged, 45, d.IBlock(FILE));
  }

  lemma IsAfter(t: Fs, al: set<nat>, logged: set<nat>, bmapstart: nat)
    requires FsOk(t) && FILE in t.inodes && Grown(Crowded(), t, al) && |al| <= 4
    requires Covered(Crowded(), t, FILE, logged, bmapstart) && SIZE <= |Contents(Crowded(), FILE)|
    requires Contents(t, FILE) == Written(Contents(Crowded(), FILE), SIZE, Ones(), WRITEMAX)
    ensures After(t, al, logged, bmapstart)
  {
    hide FsOk, Grown, Covered, Crowded, Contents;
  }

  /** A copy that fails inside a block leaves bytes there that writei() does not count and the log does
      not have: of two bytes for the first block of the file, the caller's memory supplies one. */
  method HalfCopied() returns (r: int, d: FileDisk)
    ensures fresh(d) && FsOk(d.S()) && r == 0 && FIRST in d.data && FIRST in Crowded().data
    ensures d.data[FIRST] != Crowded().data[FIRST] && FIRST !in d.logged
    ensures !Covered(Crowded(), d.S(), FILE, d.logged, d.bmapstart)
  {
    hide FsOk, Grown, Covered, Crowded, Contents, Ended, Has, FullMap, Written, At;
    CrowdedOk();
    FirstThere();
    d := new FileDisk.Mount(Crowded(), 45, 32);
    ghost var p, lost, al;
    r, p, lost, al := d.WriteOp(FILE, 0, [1, 1], 1);
    OneOfTwo(FullMap(d.bits, d.n), r, p);
    FirstChanged(d.S(), al, [1, 1][..p]);
    if Covered(Crowded(), d.S(), FILE, d.logged, 45) { CoveredData(Crowded(), d.S(), FILE, d.logged, 45, FIRST); }
  }

  lemma FirstThere()
    ensures Has(Crowded(), FILE, 0) && At(Crowded(), FILE, 0) == FIRST && FIRST in Crowded().data
    ensures Crowded().data[FIRST] == ZeroBytes()
  {
    CrowdedAt(0);
  }

  /** One byte of two fits, and nothing counts. */
  lemma OneOfTwo(full: bool, r: nat, p: nat)
    requires Ended(full, Has(Crowded(), FILE, r), 0, 2, r, p, 1)
    ensures r == 0 && p == 1
  {
    FirstThere();
    hide Has, Crowded;
  }

  lemma FirstChanged(t: Fs, al: set<nat>, src: seq<nat>)
    requires FsOk(t) && FILE in t.inodes && Grown(Crowded(), t, al) && |src| == 1 && src[0] == 1
    requires Contents(t, FILE) == Written(Contents(Crowded(), FILE), 0, src, 0)
    ensures FIRST in t.data && t.data[FIRST] != ZeroBytes()
  {
    hide FsOk, Grown, Crowded, At;
    CrowdedOk();
    FirstThere();
    NewPlace(Crowded(), t, al, FILE, 0);
    SlotData(t, FILE, 0);
    assert Contents(t, FILE)[0] == 1;
    assert Byte(t, FILE, 0) == 1;
  }
}
