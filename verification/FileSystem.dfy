/**
 balloc(), bfree(), bmap(), itrunc(), readi() and writei() of kernel/fs.c and the chunking
 of filewrite() in kernel/file.c, on the disk as the buffer cache shows it. `logged` collects
 the blocks that the current operation has passed to log_write().
 */
module FileSystem {
  import opened FsLayout
  import opened FsState
  import opened FileBytes
  import LogMachine

  /** Every block is in use. */
  ghost predicate FullMap(bits: seq<bv8>, n: nat) {
    forall x :: 0 <= x < n ==> Bit(bits, x)
  }

  /** From s to t only inode ino has changed, and every block whose bytes or whose bit in the
      free map has changed is among those that were passed to log_write(). */
  ghost predicate Covered(s: Fs, t: Fs, ino: nat, logged: set<nat>, bmapstart: nat) {
    && (forall x :: x in s.data ==> x in logged || (x in t.data && t.data[x] == s.data[x]))
    && (forall b: nat :: Bit(t.bits, b) == Bit(s.bits, b) || b / BPB + bmapstart in logged)
    && (forall i :: i in s.inodes && i != ino ==> i in t.inodes && t.inodes[i] == s.inodes[i])
  }

  lemma CoveredSelf(s: Fs, ino: nat, logged: set<nat>, bmapstart: nat)
    ensures Covered(s, s, ino, logged, bmapstart)
  {
  }

  lemma CoveredTrans(s: Fs, t: Fs, u: Fs, ino: nat, l: set<nat>, l': set<nat>, bmapstart: nat)
    requires Covered(s, t, ino, l, bmapstart) && Covered(t, u, ino, l', bmapstart) && l <= l'
    ensures Covered(s, u, ino, l', bmapstart)
  {
  }

  /** A balloc() of b, with other changes to blocks that were logged. */
  lemma CoveredAlloc(s: Fs, t: Fs, ino: nat, b: nat, logged: set<nat>, bmapstart: nat)
    requires t.bits == SetBit(s.bits, b) && b / 8 < |s.bits| && b / BPB + bmapstart in logged
    requires forall x :: x in s.data ==> x in logged || (x in t.data && t.data[x] == s.data[x])
    requires forall i :: i in s.inodes && i != ino ==> i in t.inodes && t.inodes[i] == s.inodes[i]
    ensures Covered(s, t, ino, logged, bmapstart)
  {
    forall x: nat ensures Bit(t.bits, x) == Bit(s.bits, x) || x / BPB + bmapstart in logged {
      BitChanged(s.bits, b, x);
    }
  }

  /** From s to t exactly the blocks al have been allocated, first fit, and no other has changed hands. */
  ghost predicate Grown(s: Fs, t: Fs, al: set<nat>) {
    && t.n == s.n
    && (forall x :: x in al ==> x < s.n && !Bit(s.bits, x))
    && (forall x: nat :: x < s.n ==> (Bit(t.bits, x) <==> Bit(s.bits, x) || x in al))
    && (forall x, y: nat :: x in al && y < x ==> Bit(t.bits, y))
    && (forall x :: x in s.owner && x !in al ==> x in t.owner && t.owner[x] == s.owner[x])
  }

  lemma GrownSame(s: Fs, t: Fs)
    requires t.n == s.n && t.bits == s.bits && t.owner == s.owner
    ensures Grown(s, t, {})
  {
  }

  lemma GrownTrans(s: Fs, t: Fs, u: Fs, al: set<nat>, al': set<nat>)
    requires Grown(s, t, al) && Grown(t, u, al')
    ensures Grown(s, u, al + al')
  {
    hide Bit;
  }

  lemma GrownThen(s: Fs, t: Fs, u: Fs, al: set<nat>)
    requires Grown(s, t, al) && u.n == t.n && u.bits == t.bits && u.owner == t.owner
    ensures Grown(s, u, al)
  {
    hide Bit;
  }

  /** A balloc() of b. */
  lemma GrownAlloc(s: Fs, t: Fs, b: nat, place: Place)
    requires t.n == s.n <= |s.bits| * 8 && b < s.n && !Bit(s.bits, b) && (forall x :: 0 <= x < b ==> Bit(s.bits, x))
    requires t.bits == SetBit(s.bits, b) && t.owner == s.owner[b := place]
    ensures Grown(s, t, {b})
  {
    forall x: nat ensures Bit(t.bits, x) <==> Bit(s.bits, x) || x == b { BitChanged(s.bits, b, x); }
  }

  /** The places of ino are vacant. */
  ghost function Disowned(owner: map<nat, Place>, ino: nat): map<nat, Place> {
    map x | x in owner :: if OfFile(owner[x], ino) then Unused else owner[x]
  }

  lemma TruncDone(s: Fs, t: Fs, ino: nat)
    requires FsOk(s) && ino in s.inodes && BitsGone(s, t.bits, ino, NDIRECT, NINDIRECT, true)
    requires t == Fs(s.n, t.bits, s.data, s.inodes[ino := Inode(0, NoAddrs())], Disowned(s.owner, ino))
    ensures FsOk(t) && Truncated(s, t, ino)
    ensures forall i :: i in t.inodes && i != ino ==> Contents(t, i) == Contents(s, i)
    ensures Contents(t, ino) == []
  {
    hide FsOk, BitsGone, Bit, Contents, OfFile;
    AllGone(s, t.bits, ino);
    NoContents(t, ino);
    TruncatedOk(s, t, ino);
    forall i | i in t.inodes && i != ino ensures Contents(t, i) == Contents(s, i) { TruncatedContents(s, t, ino, i); }
  }

  lemma NoContents(fs: Fs, ino: nat)
    requires ino in fs.inodes && fs.inodes[ino].size == 0
    ensures Contents(fs, ino) == []
  {
  }

  lemma BitInMap(bits: seq<bv8>, b: nat)
    ensures Bit(bits, b) ==> b / 8 < |bits|
  {
  }

  /** A bfree() of b. */
  lemma CoveredFree(s: Fs, t: Fs, ino: nat, b: nat, logged: set<nat>, bmapstart: nat)
    requires t.bits == ClearBit(s.bits, b) && b / 8 < |s.bits| && b / BPB + bmapstart in logged && t.data == s.data
    requires forall i :: i in s.inodes && i != ino ==> i in t.inodes && t.inodes[i] == s.inodes[i]
    ensures Covered(s, t, ino, logged, bmapstart)
  {
  }

  /** New bytes for block x, or changes to ino. */
  lemma CoveredStore(s: Fs, t: Fs, ino: nat, x: nat, logged: set<nat>, bmapstart: nat)
    requires x in logged && t.bits == s.bits && forall y :: y in s.data && y != x ==>
      y in t.data && t.data[y] == s.data[y]
    requires forall i :: i in s.inodes && i != ino ==> i in t.inodes && t.inodes[i] == s.inodes[i]
    ensures Covered(s, t, ino, logged, bmapstart)
  {
  }

  function Blank(b: nat): Bytes {
    ZeroBytes()
  }

  function FirstUse(b: nat, nmeta: nat): Place {
    if b < nmeta then Meta else Unused
  }

  function NoFile(i: nat): Inode {
    Inode(0, NoAddrs())
  }

  /** A disk on which nothing but the first nmeta blocks is in use. */
  lemma FreshOk(fs: Fs, nmeta: nat)
    requires 0 < nmeta <= fs.n <= |fs.bits| * 8 && fs.n <= TWO32
    requires forall b: nat :: Bit(fs.bits, b) <==> b < nmeta
    requires fs.data.Keys == fs.owner.Keys && forall b :: b in fs.owner <==> 0 <= b < fs.n
    requires forall b :: b in fs.owner ==> fs.data[b] == Blank(b) && fs.owner[b] == FirstUse(b, nmeta)
    requires forall i :: i in fs.inodes ==> fs.inodes[i] == NoFile(i)
    ensures FsOk(fs) && forall i :: i in fs.inodes ==> Contents(fs, i) == []
  {
  }

  class FileDisk {
    const n: nat
    const bmapstart: nat
    const inodestart: nat
    var bits: seq<bv8>
    var data: map<nat, Bytes>
    var inodes: map<nat, Inode>
    ghost var owner: map<nat, Place>
    ghost var logged: set<nat>

    ghost function S(): Fs
      reads this
    {
      Fs(n, bits, data, inodes, owner)
    }

    /** mkfs, but for the files it copies: the first nmeta blocks are in use, all inodes empty. */
    constructor (n: nat, nmeta: nat, ninodes: nat, bmapstart: nat, inodestart: nat)
      requires 0 < nmeta <= n <= TWO32
      ensures FsOk(S()) && this.n == n && this.bmapstart == bmapstart && this.inodestart == inodestart && logged == {}
      ensures forall b :: 0 <= b < n ==> (Bit(bits, b) <==> b < nmeta)
      ensures (forall i: nat :: i in inodes <==> i < ninodes) && forall i :: i in inodes ==> Contents(S(), i) == []
    {
      var bs: seq<bv8> := seq(n / 8 + 1, _ => 0);
      for b := 0 to nmeta
        invariant |bs| == n / 8 + 1 && forall x: nat :: Bit(bs, x) <==> x < b
      {
        forall x: nat ensures Bit(SetBit(bs, b), x) <==> x < b + 1 { BitChanged(bs, b, x); }
        bs := SetBit(bs, b);
      }
      this.n, this.bmapstart, this.inodestart := n, bmapstart, inodestart;
      bits, logged := bs, {};
      data := map b: nat | b < n :: Blank(b);
      inodes := map i: nat | i < ninodes :: NoFile(i);
      owner := map b: nat | b < n :: FirstUse(b, nmeta);
      new;
      FreshOk(S(), nmeta);
    }

    /** A disk that is in use already, as fsinit() finds it. */
    constructor Mount(fs: Fs, bmapstart: nat, inodestart: nat)
      requires FsOk(fs)
      ensures S() == fs && this.bmapstart == bmapstart && this.inodestart == inodestart && logged == {}
    {
      n, this.bmapstart, this.inodestart := fs.n, bmapstart, inodestart;
      bits, data, inodes, owner, logged := fs.bits, fs.data, fs.inodes, fs.owner, {};
    }

    /** BBLOCK(b, sb) */
    function BBlock(b: nat): nat {
      b / BPB + bmapstart
    }

    /** balloc(): the first free block, marked and zeroed; 0 if there is none. */
    method Balloc() returns (b: nat)
      requires n <= |bits| * 8 && n > 0 && Bit(bits, 0)
      modifies this`bits, this`data, this`logged
      ensures b == 0 ==> FullMap(bits, n) && bits == old(bits) && data == old(data) && logged == old(logged)
      ensures b != 0 ==>
        && b < n && !Bit(old(bits), b) && (forall x :: 0 <= x < b ==> Bit(old(bits), x))
        && bits == SetBit(old(bits), b) && data == old(data)[b := ZeroBytes()] && logged == old(logged) + {BBlock(b), b}
    {
      b := 0;
      while b < n
        invariant b % BPB == 0 && bits == old(bits) && data == old(data) && logged == old(logged)
        invariant forall x :: 0 <= x < b && x < n ==> Bit(bits, x)
      {
        var bi := 0;
        while bi < BPB && b + bi < n
          invariant bi <= BPB && bits == old(bits) && data == old(data) && logged == old(logged)
          invariant forall x :: 0 <= x < b + bi && x < n ==> Bit(bits, x)
        {
          if !Bit(bits, b + bi) {
            bits := SetBit(bits, b + bi);
            logged := logged + {BBlock(b + bi)};
            data := data[b + bi := ZeroBytes()];
            logged := logged + {b + bi};
            return b + bi;
          }
          bi := bi + 1;
        }
        b := b + BPB;
      }
      return 0;
    }

    /** bfree(): its panic is ruled out by what it requires. */
    method Bfree(b: nat)
      requires Bit(bits, b)
      modifies this`bits, this`logged
      ensures bits == ClearBit(old(bits), b) && logged == old(logged) + {BBlock(b)}
    {
      if !Bit(bits, b) {
        assert false; // panic: freeing free block
      }
      bits := ClearBit(bits, b);
      logged := logged + {BBlock(b)};
    }

    /** The log entries of one balloc() of b, or none. */
    ghost predicate AllocLogged(was: set<nat>, b: nat)
      reads this
    {
      logged == if b == 0 then was else was + {BBlock(b), b}
    }

    /** A missing direct block of ino. */
    method AllocDirect(ino: nat, i: nat) returns (b: nat)
      requires FsOk(S()) && Vacant(S(), Direct(ino, i))
      modifies this
      ensures FsOk(S()) && Extends(old(S()), S(), ino) && AllocLogged(old(logged), b)
        && IndOf(S(), ino) == IndOf(old(S()), ino)
      ensures forall k :: 0 <= k < MAXFILE ==> At(S(), ino, k) == if k == i then b else At(old(S()), ino, k)
      ensures if b == 0 then FullMap(bits, n) else b < n
      ensures Grown(old(S()), S(), One(b))
      ensures old(logged) <= logged && Covered(old(S()), S(), ino, logged, bmapstart)
    {
      hide FsOk, Added, Extends, Covered, Grown, Bit, SetBit;
      ghost var s0 := S();
      Basics(s0, ino);
      ExtendsSelf(s0, ino);
      GrownSame(s0, s0);
      CoveredSelf(s0, ino, logged, bmapstart);
      b := Balloc();
      if b == 0 {
        return;
      }
      ClearIsFree(s0, b);
      DirectDone(s0, ino, i, b);
      inodes := inodes[ino := inodes[ino].(addrs := inodes[ino].addrs[i := b])];
      owner := owner[b := Direct(ino, i)];
      assert S() == AddDirect(s0, ino, i, b);
      CoveredAlloc(s0, S(), ino, b, logged, bmapstart);
      GrownAlloc(s0, S(), b, Direct(ino, i));
    }

    /** A missing indirect block of ino. */
    method AllocIndirect(ino: nat) returns (b: nat)
      requires FsOk(S()) && Vacant(S(), Indirect(ino))
      modifies this
      ensures FsOk(S()) && Extends(old(S()), S(), ino) && AllocLogged(old(logged), b) && IndOf(S(), ino) == b
      ensures forall k :: 0 <= k < MAXFILE ==> At(S(), ino, k) == At(old(S()), ino, k)
      ensures if b == 0 then FullMap(bits, n) else b < n
      ensures Grown(old(S()), S(), One(b))
      ensures old(logged) <= logged && Covered(old(S()), S(), ino, logged, bmapstart)
    {
      hide FsOk, Added, Extends, Covered, Grown, Bit, SetBit;
      ghost var s0 := S();
      Basics(s0, ino);
      ExtendsSelf(s0, ino);
      GrownSame(s0, s0);
      CoveredSelf(s0, ino, logged, bmapstart);
      b := Balloc();
      if b == 0 {
        return;
      }
      ClearIsFree(s0, b);
      IndirectDone(s0, ino, b);
      inodes := inodes[ino := inodes[ino].(addrs := inodes[ino].addrs[NDIRECT := b])];
      owner := owner[b := Indirect(ino)];
      assert S() == AddIndirect(s0, ino, b);
      CoveredAlloc(s0, S(), ino, b, logged, bmapstart);
      GrownAlloc(s0, S(), b, Indirect(ino));
    }

    /** A missing entry of the indirect block of ino. */
    method AllocEntry(ino: nat, j: nat) returns (b: nat)
      requires FsOk(S()) && Vacant(S(), Entry(ino, j))
      modifies this
      ensures FsOk(S()) && Extends(old(S()), S(), ino) && IndOf(S(), ino) == IndOf(old(S()), ino)
      ensures logged == if b == 0 then old(logged) else old(logged) + {BBlock(b), b, IndOf(S(), ino)}
      ensures forall k :: 0 <= k < MAXFILE ==> At(S(), ino, k) == if k == NDIRECT + j then b else At(old(S()), ino, k)
      ensures if b == 0 then FullMap(bits, n) else b < n
      ensures Grown(old(S()), S(), One(b))
      ensures old(logged) <= logged && Covered(old(S()), S(), ino, logged, bmapstart)
    {
      hide FsOk, Added, Extends, Covered, Grown, Bit, SetBit, Word, SetWord;
      ghost var s0 := S();
      Basics(s0, ino);
      ExtendsSelf(s0, ino);
      GrownSame(s0, s0);
      CoveredSelf(s0, ino, logged, bmapstart);
      b := Balloc();
      if b == 0 {
        return;
      }
      ClearIsFree(s0, b);
      EntryDone(s0, ino, j, b);
      var ind := inodes[ino].addrs[NDIRECT];
      data := data[ind := SetWord(data[ind], j, b)];
      logged := logged + {ind};
      owner := owner[b := Entry(ino, j)];
      assert S() == AddEntry(s0, ino, j, b);
      CoveredAlloc(s0, S(), ino, b, logged, bmapstart);
      GrownAlloc(s0, S(), b, Entry(ino, j));
    }

    /** The blocks of the free map with the bits of al. */
    ghost function Maps(al: set<nat>): set<nat> {
      set b | b in al :: BBlock(b)
    }

    lemma MapsSum(a: set<nat>, b: set<nat>)
      ensures Maps({}) == {} && Maps(a + b) == Maps(a) + Maps(b)
    {
    }

    lemma MapsOne(b: nat)
      ensures Maps({b}) == {BBlock(b)}
    {
    }

    lemma {:induction false} MapsSize(al: set<nat>)
      ensures |Maps(al)| <= |al|
    {
      if al == {} {
        MapsSum({}, {});
      } else {
        var b :| b in al;
        MapsSize(al - {b});
        assert al == (al - {b}) + {b};
        MapsSum(al - {b}, {b});
        MapsOne(b);
        Sum(Maps(al - {b}), {BBlock(b)});
      }
    }

    /** What bmap() may have put into the log: the bitmap blocks of al, block addr and block ind. */
    ghost predicate MapLogged(was: set<nat>, al: set<nat>, addr: nat, ind: nat)
      reads this
    {
      logged <= was + Maps(al) + One(addr) + One(ind)
    }

    /** bmap() of block NDIRECT + j. */
    method BmapIndirect(ino: nat, j: nat) returns (addr: nat, ghost al: set<nat>)
      requires FsOk(S()) && ino in inodes && j < NINDIRECT
      modifies this
      ensures FsOk(S()) && Extends(old(S()), S(), ino) && addr == At(S(), ino, NDIRECT + j)
      ensures forall k :: 0 <= k < MAXFILE && k != NDIRECT + j ==> At(S(), ino, k) == At(old(S()), ino, k)
      ensures addr == 0 ==> FullMap(bits, n)
      ensures At(old(S()), ino, NDIRECT + j) != 0 ==> S() == old(S()) && logged == old(logged) && al == {}
      ensures MapLogged(old(logged), al, addr, IndOf(S(), ino))
      ensures |al| <= 1 + NewIndirect(old(S()), S(), ino) && Grown(old(S()), S(), al)
      ensures IndOf(old(S()), ino) != 0 ==> IndOf(S(), ino) == IndOf(old(S()), ino)
      ensures old(logged) <= logged && Covered(old(S()), S(), ino, logged, bmapstart)
    {
      hide FsOk, Extends, Covered, Grown, Bit, At, IndOf, Word, Maps, FullMap;
      MapsSum({}, {});
      al := {};
      ghost var s0 := S();
      Basics(s0, ino);
      CoveredSelf(s0, ino, logged, bmapstart);
      ExtendsSelf(s0, ino);
      GrownSame(s0, s0);
      var ind := inodes[ino].addrs[NDIRECT];
      if ind == 0 {
        ind := AllocIndirect(ino);
        if ind == 0 {
          return 0, {};
        }
        MapsOne(ind);
        al := {ind};
      }
      ghost var s1, l1 := S(), logged;
      SameKeys(s0, s1, ino);
      Basics(s1, ino);
      addr := Word(data[ind], j);
      if addr == 0 {
        addr := AllocEntry(ino, j);
        ExtendsTrans(s0, s1, S(), ino);
        CoveredTrans(s0, s1, S(), ino, l1, logged, bmapstart);
        GrownTrans(s0, s1, S(), al, One(addr));
        if addr != 0 {
          MapsOne(addr);
          MapsSum(al, {addr});
          Smaller(al, addr);
        } else {
          assert al + One(addr) == al;
        }
        al := al + One(addr);
      }
    }

    /** bmap(): the number of block bn, allocated if need be; 0 if the disk is full. */
    method Bmap(ino: nat, bn: nat) returns (addr: nat, ghost al: set<nat>)
      requires FsOk(S()) && ino in inodes && bn < MAXFILE
      modifies this
      ensures FsOk(S()) && Extends(old(S()), S(), ino) && addr == At(S(), ino, bn)
      ensures forall k :: 0 <= k < MAXFILE && k != bn ==> At(S(), ino, k) == At(old(S()), ino, k)
      ensures addr == 0 ==> FullMap(bits, n)
      ensures At(old(S()), ino, bn) != 0 ==> S() == old(S()) && logged == old(logged) && al == {}
      ensures MapLogged(old(logged), al, addr, IndOf(S(), ino))
      ensures |al| <= 1 + NewIndirect(old(S()), S(), ino) && Grown(old(S()), S(), al)
      ensures IndOf(old(S()), ino) != 0 ==> IndOf(S(), ino) == IndOf(old(S()), ino)
      ensures old(logged) <= logged && Covered(old(S()), S(), ino, logged, bmapstart)
    {
      hide FsOk, Extends, Covered, Grown, Bit, At, IndOf, Maps;
      MapsSum({}, {});
      al := {};
      ghost var s0 := S();
      Basics(s0, ino);
      CoveredSelf(s0, ino, logged, bmapstart);
      ExtendsSelf(s0, ino);
      GrownSame(s0, s0);
      if bn < NDIRECT {
        addr := inodes[ino].addrs[bn];
        if addr == 0 {
          addr := AllocDirect(ino, bn);
          MapsOne(addr);
          al := One(addr);
        }
        return;
      }
      addr, al := BmapIndirect(ino, bn - NDIRECT);
    }

    /** itrunc(): exactly the blocks of ino are freed, and no free block is freed. */
    method ITrunc(ino: nat)
      requires FsOk(S()) && ino in inodes
      modifies this
      ensures FsOk(S()) && Truncated(old(S()), S(), ino) && inodes[ino].size == 0 && Contents(S(), ino) == []
      ensures forall i :: i in inodes && i != ino ==> Contents(S(), i) == Contents(old(S()), i)
      ensures old(logged) <= logged && Covered(old(S()), S(), ino, logged, bmapstart) && ino / 16 + inodestart in logged
    {
      hide FsOk, At, IndOf, Bit, Gone, BitsGone, OfFile, Contents, Slice, Covered, Truncated, Disowned;
      ghost var s0 := S();
      Basics(s0, ino);
      FreeDirects(ino);
      var ind := inodes[ino].addrs[NDIRECT];
      if ind != 0 {
        FreeIndirect(ino, ind, s0);
      } else {
        NoIndirect(s0, bits, ino);
      }
      ghost var s, l := S(), logged;
      inodes := inodes[ino := inodes[ino].(size := 0)];
      logged := logged + {IBlock(ino)};
      owner := Disowned(owner, ino);
      CoveredStore(s, S(), ino, IBlock(ino), logged, bmapstart);
      CoveredTrans(s0, s, S(), ino, l, logged, bmapstart);
      assert inodes[ino].addrs == NoAddrs();
      TruncDone(s0, S(), ino);
    }

    /** The loop over the direct blocks. */
    method FreeDirects(ino: nat)
      requires FsOk(S()) && ino in inodes
      modifies this`bits, this`inodes, this`logged
      ensures BitsGone(old(S()), bits, ino, NDIRECT, 0, false) && ino in inodes && |inodes[ino].addrs| == NDIRECT + 1
      ensures inodes == old(inodes)[ino := old(inodes)[ino].(addrs := inodes[ino].addrs)]
      ensures inodes[ino].addrs[NDIRECT] == IndOf(old(S()), ino)
      ensures forall k :: 0 <= k < NDIRECT ==> inodes[ino].addrs[k] == 0
      ensures old(logged) <= logged && Covered(old(S()), S(), ino, logged, bmapstart)
    {
      hide FsOk, At, IndOf, Bit, Gone, BitsGone, Covered;
      ghost var s0 := S();
      Basics(s0, ino);
      BitsNone(s0, ino);
      CoveredSelf(s0, ino, logged, bmapstart);
      var i := 0;
      while i < NDIRECT
        invariant i <= NDIRECT && BitsGone(s0, bits, ino, i, 0, false) && ino in inodes
          && |inodes[ino].addrs| == NDIRECT + 1
        invariant inodes == s0.inodes[ino := s0.inodes[ino].(addrs := inodes[ino].addrs)]
        invariant forall k :: 0 <= k < i ==> inodes[ino].addrs[k] == 0
        invariant forall k :: i <= k <= NDIRECT ==> inodes[ino].addrs[k] == s0.inodes[ino].addrs[k]
        invariant old(logged) <= logged && Covered(s0, S(), ino, logged, bmapstart)
      {
        DirectNext(s0, bits, ino, i);
        if inodes[ino].addrs[i] != 0 {
          ghost var s, l, b := S(), logged, inodes[ino].addrs[i];
          BitInMap(bits, b);
          Bfree(inodes[ino].addrs[i]);
          inodes := inodes[ino := inodes[ino].(addrs := inodes[ino].addrs[i := 0])];
          CoveredFree(s, S(), ino, b, logged, bmapstart);
          CoveredTrans(s0, s, S(), ino, l, logged, bmapstart);
        }
        i := i + 1;
      }
    }

    /** The indirect block, with its entries. */
    method FreeIndirect(ino: nat, ind: nat, ghost s0: Fs)
      requires FsOk(s0) && ino in s0.inodes && ind == IndOf(s0, ino) != 0 && data == s0.data
      requires BitsGone(s0, bits, ino, NDIRECT, 0, false) && ino in inodes && |inodes[ino].addrs| == NDIRECT + 1
      requires Covered(s0, S(), ino, logged, bmapstart)
      modifies this`bits, this`inodes, this`logged
      ensures BitsGone(s0, bits, ino, NDIRECT, NINDIRECT, true)
      ensures inodes == old(inodes)[ino := old(inodes)[ino].(addrs := old(inodes)[ino].addrs[NDIRECT := 0])]
      ensures old(logged) <= logged && Covered(s0, S(), ino, logged, bmapstart)
    {
      hide FsOk, At, IndOf, Bit, Gone, BitsGone, Covered;
      ghost var s, l := S(), logged;
      FreeEntries(ino, ind, s0);
      CoveredTrans(s0, s, S(), ino, l, logged, bmapstart);
      IndirectNext(s0, bits, ino);
      BitInMap(bits, ind);
      s, l := S(), logged;
      Bfree(ind);
      inodes := inodes[ino := inodes[ino].(addrs := inodes[ino].addrs[NDIRECT := 0])];
      CoveredFree(s, S(), ino, ind, logged, bmapstart);
      CoveredTrans(s0, s, S(), ino, l, logged, bmapstart);
    }

    /** The loop over the entries of the indirect block. */
    method FreeEntries(ino: nat, ind: nat, ghost s0: Fs)
      requires FsOk(s0) && ino in s0.inodes && ind == IndOf(s0, ino) != 0 && data == s0.data
      requires BitsGone(s0, bits, ino, NDIRECT, 0, false)
      modifies this`bits, this`logged
      ensures BitsGone(s0, bits, ino, NDIRECT, NINDIRECT, false)
      ensures old(logged) <= logged && Covered(old(S()), S(), ino, logged, bmapstart)
    {
      hide FsOk, At, IndOf, Bit, Gone, BitsGone, Word, Covered;
      Basics(s0, ino);
      ghost var s1 := S();
      CoveredSelf(s1, ino, logged, bmapstart);
      var j := 0;
      while j < NINDIRECT
        invariant j <= NINDIRECT && BitsGone(s0, bits, ino, NDIRECT, j, false)
        invariant old(logged) <= logged && Covered(s1, S(), ino, logged, bmapstart)
      {
        EntryNext(s0, bits, ino, j);
        if Word(data[ind], j) != 0 {
          ghost var s, l, b := S(), logged, Word(data[ind], j);
          BitInMap(bits, b);
          Bfree(Word(data[ind], j));
          CoveredFree(s, S(), ino, b, logged, bmapstart);
          CoveredTrans(s1, s, S(), ino, l, logged, bmapstart);
        }
        j := j + 1;
      }
    }

    /** IBLOCK(ino, sb): there are 16 inodes to a block. */
    function IBlock(ino: nat): nat {
      ino / 16 + inodestart
    }

    /** readi(): the bytes that are there go to the caller, and nothing is allocated. The caller's memory
        takes `avail` bytes; a copy that goes further fails, after what there is room for. */
    method ReadI(ino: nat, off: nat, n: nat, avail: nat) returns (ret: int, r: seq<nat>)
      requires FsOk(S()) && ino in inodes
      modifies this
      ensures S() == old(S()) && logged == old(logged)
      ensures off > |Contents(S(), ino)| || off + n >= TWO32 ==> ret == 0 && r == []
      ensures off <= |Contents(S(), ino)| && off + n < TWO32 ==>
        off + |r| <= |Contents(S(), ino)| && |r| <= n && r == Contents(S(), ino)[off..off + |r|]
      ensures off <= |Contents(S(), ino)| && off + n < TWO32 ==>
        if ret == -1 then |r| == avail < n && off + avail < |Contents(S(), ino)|
        else ret == |r| <= avail && (|r| == n || off + |r| == |Contents(S(), ino)|)
    {
      hide FsOk, Extends, Byte, At, Chunk, Covered, Grown, Maps, MapLogged, IndOf, FullMap, NewIndirect,
        Contents;
      r := [];
      var sz := inodes[ino].size;
      ghost var s0 := S();
      Basics(s0, ino);
      SizeIs(s0, ino);
      if off > sz || off + n >= TWO32 {
        return 0, [];
      }
      var n' := if off + n > sz then sz - off else n;
      ghost var c := Contents(s0, ino);
      while |r| < n'
        invariant |r| <= n' && |r| <= avail && S() == s0 && logged == old(logged) && r == c[off..off + |r|]
        decreases n' - |r|
      {
        var a := off + |r|;
        HasAll(s0, ino, a);
        ghost var al;
        var addr;
        addr, al := Bmap(ino, a / BSIZE);
        if addr == 0 {
          break;
        }
        var m := Chunk(off, |r|, n');
        var k := if avail < |r| + m then avail - |r| else m;
        var part := CopyOut(ino, addr, a, k);
        Glue(c, off, a, a + k);
        r := r + part;
        if k < m {
          return -1, r;
        }
      }
      ret := |r|;
    }

    /** fileread() of an inode: newoff is the new file offset. */
    method FileRead(ino: nat, off: nat, n: nat, avail: nat) returns (ret: int, r: seq<nat>, newoff: nat)
      requires FsOk(S()) && ino in inodes
      modifies this
      ensures S() == old(S()) && logged == old(logged) && (ret >= 0 ==> ret == |r| && newoff == off + |r|)
      ensures ret == -1 ==> newoff == off && |r| == avail < n
      ensures off <= |Contents(S(), ino)| && off + n < TWO32 && avail >= n ==>
        && ret == |r| <= n && newoff <= |Contents(S(), ino)| && r == Contents(S(), ino)[off..newoff]
        && (|r| == n || newoff == |Contents(S(), ino)|)
      ensures off == |Contents(S(), ino)| ==> ret == 0
    {
      hide FsOk, Contents;
      ret, r := ReadI(ino, off, n, avail);
      newoff := off;
      if ret > 0 {
        newoff := off + ret;
      }
    }

    /** Reading on from the beginning, n bytes at a time, until there are none: the whole file. */
    method ReadAll(ino: nat, n: nat) returns (all: seq<nat>)
      requires FsOk(S()) && ino in inodes && 0 < n < TWO32
      modifies this
      ensures S() == old(S()) && logged == old(logged) && all == Contents(S(), ino)
    {
      hide FsOk, Contents;
      ghost var c := Contents(S(), ino);
      Basics(S(), ino);
      SizeIs(S(), ino);
      all := [];
      var off, ret := 0, 1;
      while ret > 0
        invariant S() == old(S()) && logged == old(logged) && off <= |c| && all == c[..off]
        invariant off == |c| || off + n < TWO32
        invariant ret <= 0 ==> off == |c|
        decreases |c| - off, ret
      {
        var r;
        ghost var was := off;
        ret, r, off := FileRead(ino, off, n, n);
        if was < |c| { Glue(c, 0, was, off); }
        all := all + r;
      }
    }

    /** k bytes from block addr, which is the one of byte a of the file. */
    method CopyOut(ino: nat, addr: nat, a: nat, k: nat) returns (part: seq<nat>)
      requires FsOk(S()) && ino in inodes && a < inodes[ino].size && a + k <= inodes[ino].size && a % BSIZE + k <= BSIZE
      requires addr == At(S(), ino, a / BSIZE)
      ensures a + k <= |Contents(S(), ino)| && part == Contents(S(), ino)[a..a + k]
    {
      hide FsOk, At, Contents;
      SliceInBlock(S(), ino, a, k);
      SizeIs(S(), ino);
      part := data[addr][a % BSIZE..a % BSIZE + k];
    }

    /** One iteration of writei()'s loop: as much of src[tot..] as fits in its block. The caller's memory
        supplies the first `avail` bytes of src; a copy that goes further fails, after those, and then
        log_write() is not reached. The blocks of the file hold the first p bytes of src in the end. */
    method WriteBlock(ino: nat, off: nat, src: seq<nat>, tot: nat, avail: nat, ghost s0: Fs)
      returns (m: nat, addr: nat, ghost p: nat, ghost al: set<nat>)
      requires FsOk(S()) && tot < |src| && off + |src| <= MAXFILE * BSIZE && Wrote(s0, S(), ino, off, src[..tot])
      modifies this
      ensures FsOk(S()) && tot + m <= p <= |src| && Wrote(s0, S(), ino, off, src[..p])
      ensures m == if addr == 0 || avail < tot + Chunk(off, tot, |src|) then 0 else Chunk(off, tot, |src|)
      ensures p == if addr == 0 || avail <= tot then tot else if m == 0 then avail else tot + m
      ensures addr == At(S(), ino, (off + tot) / BSIZE) && (addr == 0 ==> FullMap(bits, n))
      ensures MapLogged(old(logged), al, addr, IndOf(S(), ino))
      ensures Grown(old(S()), S(), al)
      ensures |al| <= (if At(old(S()), ino, (off + tot) / BSIZE) != 0 then 0 else 1) + NewIndirect(old(S()), S(), ino)
      ensures IndOf(old(S()), ino) != 0 ==> IndOf(S(), ino) == IndOf(old(S()), ino)
      ensures At(old(S()), ino, (off + tot) / BSIZE) != 0 ==> addr != 0 && (m == 0 ==> logged == old(logged))
      ensures old(logged) <= logged && Covered(old(S()), S(), ino, logged + Unlogged(addr, tot + m, p), bmapstart)
    {
      hide FsOk, Extends, Byte, At, IndOf, Wrote, FullMap, Covered, Grown, Maps, Chunk;
      ghost var s := S();
      WroteKeys(s0, s, ino, off, src[..tot]);
      var a := off + tot;
      addr, al := Bmap(ino, a / BSIZE);
      WroteExtends(s0, s, S(), ino, off, src[..tot]);
      ghost var s1 := S();
      SameKeys(s, s1, ino);
      m, p := 0, tot;
      if addr == 0 || avail <= tot {
        assert logged + Unlogged(addr, tot, tot) == logged;
        return;
      }
      m := Chunk(off, tot, |src|);
      if avail < tot + m {
        p := avail;
        Store(ino, off, src, tot, avail - tot, addr, s0);
        CoveredThen(s, s1, S(), ino, addr, logged, logged + {addr}, bmapstart);
        GrownThen(s, s1, S(), al);
        m := 0;
        return;
      }
      p := tot + m;
      Store(ino, off, src, tot, m, addr, s0);
      CoveredThen(s, s1, S(), ino, addr, logged, logged + {addr}, bmapstart);
      GrownThen(s, s1, S(), al);
      logged := logged + {addr};
      assert logged + Unlogged(addr, p, p) == logged;
    }

    /** The copy of k bytes of src into block addr. */
    method Store(ino: nat, off: nat, src: seq<nat>, tot: nat, k: nat, addr: nat, ghost s0: Fs)
      requires FsOk(S()) && ino in inodes && tot + k <= |src| && (off + tot) % BSIZE + k <= BSIZE
      requires (off + tot) / BSIZE < MAXFILE && addr != 0 && addr == At(S(), ino, (off + tot) / BSIZE)
      requires Wrote(s0, S(), ino, off, src[..tot])
      modifies this`data
      ensures FsOk(S()) && Wrote(s0, S(), ino, off, src[..tot + k]) && IndOf(S(), ino) == IndOf(old(S()), ino)
      ensures addr in old(data) && addr in data && data == old(data)[addr := data[addr]]
      ensures addr == At(S(), ino, (off + tot) / BSIZE)
    {
      hide FsOk, Byte, At, IndOf, Wrote;
      ghost var s1 := S();
      var a := off + tot;
      SlotData(s1, ino, a / BSIZE);
      assert src[..tot] + src[tot..tot + k] == src[..tot + k];
      WroteStore(s0, s1, ino, off, src[..tot], src[tot..tot + k]);
      StoredOk(s1, ino, a / BSIZE, Patched(data[addr], a % BSIZE, src[tot..tot + k]));
      data := data[addr := Patched(data[addr], a % BSIZE, src[tot..tot + k])];
      StoredInd(s1, ino, a / BSIZE, data[addr]);
      StoredAt(s1, ino, a / BSIZE, data[addr], ino, a / BSIZE);
    }

    /** The books after an iteration that began in state s. */
    lemma Round(s: Fs, ino: nat, off: nat, len: nat, tot: nat, m: nat, addr: nat, rounds: nat, allocs: nat, new_: nat,
                d: set<nat>, al: set<nat>, b: set<nat>, start: set<nat>, was: set<nat>)
      requires Books(off, len, tot, false, rounds, allocs, d, al, Maps(al), IndOf(s, ino), start, was) && tot < len
      requires (m == 0 || m == Chunk(off, tot, len)) && MapLogged(was, b, addr, IndOf(S(), ino))
      requires |b| <= new_ + NewIndirect(s, S(), ino) && new_ <= 1
      requires IndOf(s, ino) != 0 ==> IndOf(S(), ino) == IndOf(s, ino)
      requires tot == 0 && off % BSIZE != 0 ==> new_ == 0
      ensures Books(off, len, tot + m, m == 0, rounds + 1, allocs + new_, d + One(addr), al + b, Maps(al + b),
                    IndOf(S(), ino), start, logged)
    {
      hide Books, Maps, IndOf, Chunk;
      MapsSum(al, b);
      Ledger(off, len, tot, m, addr, rounds, allocs, new_, d, al, b, Maps(al), Maps(b), IndOf(s, ino),
        IndOf(S(), ino), start, was, logged);
    }

    /** One iteration, with what has been true since state s0, in which the loop began. */
    method WriteRound(ino: nat, off: nat, src: seq<nat>, tot: nat, avail: nat, ghost s0: Fs, ghost start: set<nat>,
                      ghost rounds: nat, ghost allocs: nat, ghost d: set<nat>, ghost al: set<nat>)
      returns (m: nat, ghost p: nat, ghost lost: set<nat>, ghost allocs': nat, ghost d': set<nat>, ghost al': set<nat>)
      requires FsOk(s0) && ino in s0.inodes && off <= s0.inodes[ino].size && off + |src| <= MAXFILE * BSIZE
      requires FsOk(S()) && tot < |src| && tot <= avail && Boundary(off, |src|, tot)
      requires Wrote(s0, S(), ino, off, src[..tot])
      requires Books(off, |src|, tot, false, rounds, allocs, d, al, Maps(al), IndOf(S(), ino), start, logged)
      requires Grown(s0, S(), al) && Covered(s0, S(), ino, logged, bmapstart)
      requires start <= logged && (tot == 0 ==> S() == s0 && logged == start)
      modifies this
      ensures FsOk(S()) && tot + m <= p <= |src| && tot + m <= avail && Boundary(off, |src|, tot + m)
      ensures Wrote(s0, S(), ino, off, src[..p]) && (m > 0 ==> p == tot + m)
      ensures m == 0 ==> Ended(FullMap(bits, n), Has(s0, ino, off + tot), off, |src|, tot, p, avail)
      ensures tot == 0 && m == 0 && Has(s0, ino, off) ==> logged == start
      ensures Books(off, |src|, tot + m, m == 0, rounds + 1, allocs', d', al', Maps(al'), IndOf(S(), ino), start,
                    logged)
      ensures Grown(s0, S(), al') && Covered(s0, S(), ino, logged + lost, bmapstart)
      ensures start <= logged && (lost == {} <==> p == tot + m) && lost <= {At(S(), ino, (off + tot + m) / BSIZE)}
    {
      hide FsOk, Byte, At, IndOf, Wrote, FullMap, Books, Blocks, One, Maps, Chunk, Covered, Grown, Has, Ended, Unlogged,
        MapLogged, NewIndirect, Boundary;
      ghost var s, was := S(), logged;
      FirstBlock(s0, ino, off);
      StillThere(s0, s, ino, off, src[..tot], off + tot);
      ChunkEnds(off, tot, |src|);
      var addr;
      ghost var b;
      m, addr, p, b := WriteBlock(ino, off, src, tot, avail, s0);
      lost := Unlogged(addr, tot + m, p);
      UnloggedNone(addr, tot + m, p);
      if m == 0 { EndsHere(FullMap(bits, n), Has(s0, ino, off + tot), addr, off, |src|, tot, p, avail); }
      ghost var new_ := if At(s, ino, (off + tot) / BSIZE) != 0 then 0 else 1;
      GrownTrans(s0, s, S(), al, b);
      CoveredTrans(s0, s, S(), ino, was, logged + lost, bmapstart);
      Round(s, ino, off, |src|, tot, m, addr, rounds, allocs, new_, d, al, b, start, was);
      allocs', d', al' := allocs + new_, d + One(addr), al + b;
    }

    /** The loop of writei(). What a failed copy has left in a block without log_write() is `lost`. */
    method WriteLoop(ino: nat, off: nat, src: seq<nat>, avail: nat)
      returns (tot: nat, ghost p: nat, ghost lost: set<nat>, ghost d: set<nat>, ghost al: set<nat>)
      requires FsOk(S()) && ino in inodes && off <= inodes[ino].size && off + |src| <= MAXFILE * BSIZE
      modifies this
      ensures FsOk(S()) && tot <= p <= |src| && Wrote(old(S()), S(), ino, off, src[..p])
      ensures Ended(FullMap(bits, n), Has(old(S()), ino, off + tot), off, |src|, tot, p, avail)
      ensures logged <= old(logged) + d + Maps(al) + One(IndOf(S(), ino))
      ensures Grown(old(S()), S(), al)
      ensures |d| <= Blocks(off, |src|) && |al| <= Blocks(off, |src|) + (if off % BSIZE != 0 && |src| > 0 then 0 else 1)
      ensures tot == 0 && Has(old(S()), ino, off) ==> logged == old(logged)
      ensures old(logged) <= logged && Covered(old(S()), S(), ino, logged + lost, bmapstart)
      ensures (lost == {} <==> p == tot) && lost <= {At(S(), ino, (off + tot) / BSIZE)}
    {
      hide FsOk, Byte, At, IndOf, Wrote, FullMap, Books, Blocks, One, Maps, Chunk, Covered, Grown, Has, Ended, Boundary;
      d, al, lost := {}, {}, {};
      ghost var s0 := S();
      WroteNone(s0, ino, off);
      assert src[..0] == [];
      tot, p := 0, 0;
      var stop := false;
      ghost var rounds: nat, allocs: nat := 0, 0;
      BooksNone(off, |src|, IndOf(s0, ino), logged);
      MapsSum({}, {});
      GrownSame(s0, s0);
      CoveredSelf(s0, ino, logged, bmapstart);
      Start(off, |src|);
      while tot < |src| && !stop
        invariant FsOk(S()) && tot <= p <= |src| && tot <= avail && Boundary(off, |src|, tot)
        invariant Wrote(s0, S(), ino, off, src[..p]) && (!stop ==> p == tot)
        invariant tot == 0 && !stop ==> S() == s0 && logged == old(logged)
        invariant stop ==> tot < |src| && Ended(FullMap(bits, n), Has(s0, ino, off + tot), off, |src|, tot, p, avail)
        invariant tot == 0 && Has(s0, ino, off) ==> logged == old(logged)
        invariant Books(off, |src|, tot, stop, rounds, allocs, d, al, Maps(al), IndOf(S(), ino), old(logged), logged)
        invariant Grown(s0, S(), al) && Covered(s0, S(), ino, logged + lost, bmapstart)
        invariant old(logged) <= logged && (lost == {} <==> p == tot) && lost <= {At(S(), ino, (off + tot) / BSIZE)}
        decreases |src| - tot, !stop
      {
        assert logged + lost == logged;
        var m;
        m, p, lost, allocs, d, al := WriteRound(ino, off, src, tot, avail, s0, old(logged), rounds, allocs, d, al);
        rounds := rounds + 1;
        stop := m == 0;
        tot := tot + m;
      }
      BooksEnd(off, |src|, tot, stop, rounds, allocs, d, al, Maps(al), IndOf(S(), ino), old(logged), logged);
      if !stop { AllWritten(FullMap(bits, n), Has(s0, ino, off + tot), off, |src|, avail); }
    }

    /** writei() */
    method WriteI(ino: nat, off: nat, src: seq<nat>, avail: nat)
      returns (r: int, ghost p: nat, ghost lost: set<nat>, ghost d: set<nat>, ghost al: set<nat>)
      requires FsOk(S()) && ino in inodes
      modifies this
      ensures FsOk(S()) && inodes.Keys == old(inodes).Keys
      ensures r == -1 <==> off > old(inodes)[ino].size || off + |src| > MAXFILE * BSIZE
      ensures r == -1 ==> S() == old(S()) && logged == old(logged) && lost == {}
      ensures r != -1 ==> 0 <= r <= p <= |src| && (lost == {} <==> p == r) && lost <= {At(S(), ino, (off + r) / BSIZE)}
      ensures r != -1 ==> Ended(FullMap(bits, n), Has(old(S()), ino, off + r), off, |src|, r, p, avail)
      ensures r != -1 ==> off <= |Contents(old(S()), ino)|
      ensures r != -1 ==> Contents(S(), ino) == Written(Contents(old(S()), ino), off, src[..p], r)
      ensures forall i :: i in old(inodes) && i != ino ==> Contents(S(), i) == Contents(old(S()), i)
      ensures r == 0 && Has(old(S()), ino, off) ==> logged == old(logged) + {IBlock(ino)}
      ensures logged <= old(logged) + d + Maps(al) + One(IndOf(S(), ino)) + {IBlock(ino)}
      ensures Grown(old(S()), S(), al)
      ensures |d| <= Blocks(off, |src|) && |al| <= Blocks(off, |src|) + (if off % BSIZE != 0 && |src| > 0 then 0 else 1)
      ensures old(logged) <= logged && Covered(old(S()), S(), ino, logged + lost, bmapstart)
      ensures r != -1 ==> IBlock(ino) in logged
    {
      hide FsOk, Byte, At, IndOf, Wrote, FullMap, Replaced, Contents, One, Maps, Blocks, Slice, Covered, Grown, Has,
        Ended;
      d, al, lost, p := {}, {}, {}, 0;
      ghost var s0 := S();
      assert logged + lost == logged;
      CoveredSelf(s0, ino, logged, bmapstart);
      MapsSum({}, {});
      GrownSame(s0, s0);
      Basics(s0, ino);
      var sz := inodes[ino].size;
      if off > sz || off + |src| >= TWO32 {
        return -1, 0, {}, {}, {};
      }
      if off + |src| > MAXFILE * BSIZE {
        return -1, 0, {}, {}, {};
      }
      var tot;
      tot, p, lost, d, al := WriteLoop(ino, off, src, avail);
      WroteKeys(s0, S(), ino, off, src[..p]);
      WroteContents(s0, S(), ino, off, src[..p], tot);
      ghost var t, l := S(), logged;
      if off + tot > inodes[ino].size {
        inodes := inodes[ino := inodes[ino].(size := off + tot)];
      }
      assert S() == Sized(t, ino, Max(s0.inodes[ino].size, off + tot));
      SizedInd(t, ino, Max(s0.inodes[ino].size, off + tot));
      logged := logged + {IBlock(ino)};
      CoveredStore(t, S(), ino, IBlock(ino), logged + lost, bmapstart);
      CoveredTrans(s0, t, S(), ino, l + lost, logged + lost, bmapstart);
      GrownThen(s0, t, S(), al);
      return tot, p, lost, d, al;
    }

    /** One chunk of filewrite(), between begin_op() and end_op(): it never logs more blocks
        than an operation may, and it logs all that it changes unless a copy fails in a block. */
    method WriteOp(ino: nat, off: nat, src: seq<nat>, avail: nat)
      returns (r: int, ghost p: nat, ghost lost: set<nat>, ghost al: set<nat>)
      requires FsOk(S()) && ino in inodes && |src| <= WRITEMAX
      modifies this
      ensures FsOk(S()) && inodes.Keys == old(inodes).Keys
      ensures r == -1 <==> off > old(inodes)[ino].size || off + |src| > MAXFILE * BSIZE
      ensures r == -1 ==> S() == old(S()) && lost == {}
      ensures r != -1 ==> 0 <= r <= p <= |src| && (lost == {} <==> p == r) && lost <= {At(S(), ino, (off + r) / BSIZE)}
      ensures r != -1 ==> Ended(FullMap(bits, n), Has(old(S()), ino, off + r), off, |src|, r, p, avail)
      ensures r != -1 ==> off <= |Contents(old(S()), ino)|
      ensures r != -1 ==> Contents(S(), ino) == Written(Contents(old(S()), ino), off, src[..p], r)
      ensures forall i :: i in old(inodes) && i != ino ==> Contents(S(), i) == Contents(old(S()), i)
      ensures Covered(old(S()), S(), ino, logged + lost, bmapstart) && (r != -1 ==> ino / 16 + inodestart in logged)
      ensures r == 0 && Has(old(S()), ino, off) ==> logged == {IBlock(ino)}
      ensures Grown(old(S()), S(), al) && |al| <= 4
      ensures |logged| <= MAXOPBLOCKS
      ensures off % BSIZE == 0 ==> |logged| <= MAXOPBLOCKS - 1
      ensures n <= BPB ==> |logged| <= MAXOPBLOCKS - 3
    {
      hide FsOk, Byte, At, IndOf, Wrote, FullMap, Replaced, Contents, Slice, Covered, Grown, Maps, Has, Ended;
      logged := {};
      ghost var d;
      r, p, lost, d, al := WriteI(ino, off, src, avail);
      ChunkBlocks(off, |src|);
      MapsSize(al);
      SetSize(logged, d, Maps(al), IndOf(S(), ino), IBlock(ino));
      if n <= BPB {
        assert Maps(al) <= {bmapstart} by { InFirstMap(old(S()), S(), al); }
        Within(Maps(al), {bmapstart});
      }
    }

    lemma InFirstMap(s: Fs, t: Fs, al: set<nat>)
      requires Grown(s, t, al) && s.n <= BPB
      ensures Maps(al) <= {bmapstart}
    {
      forall x | x in Maps(al) ensures x == bmapstart { var b :| b in al && x == BBlock(b); }
    }

    /** filewrite() of an inode: ret is what it returns, newoff the new file offset. */
    method FileWrite(ino: nat, off: nat, src: seq<nat>, avail: nat) returns (ret: int, newoff: nat, ghost p: nat)
      requires FsOk(S()) && ino in inodes
      modifies this
      ensures FsOk(S()) && inodes.Keys == old(inodes).Keys
      ensures off <= newoff <= off + p <= off + |src| && ret == if newoff == off + |src| then |src| else -1
      ensures newoff <= off + avail && (newoff < off + p ==> p == avail < |src|)
      ensures var c := Contents(old(S()), ino);
        if off <= |c| then Contents(S(), ino) == Written(c, off, src[..p], newoff - off)
        else newoff == off && p == 0 && Contents(S(), ino) == c
      ensures forall i :: i in old(inodes) && i != ino ==> Contents(S(), i) == Contents(old(S()), i)
      ensures ret == -1 ==>
        FullMap(bits, n) || avail < |src| || off > |Contents(old(S()), ino)| || off + |src| > MAXFILE * BSIZE
    {
      hide FsOk, FullMap, Written, Contents;
      ghost var c := Contents(S(), ino);
      newoff, p := off, 0;
      var i := 0;
      WrittenNone(c, off);
      while i < |src|
        invariant i <= |src| && i <= avail && p == i && newoff == off + i
        invariant FsOk(S()) && ino in inodes && inodes.Keys == old(inodes).Keys
        invariant WrittenTo(c, Contents(S(), ino), off, src, i)
        invariant forall k :: k in old(inodes) && k != ino ==> Contents(S(), k) == Contents(old(S()), k)
        decreases |src| - i
      {
        ghost var p1;
        var r, n1;
        r, n1, p1 := WriteNext(ino, off, src, avail, i, c);
        if r > 0 {
          newoff := newoff + r;
        }
        if r != n1 {
          p := if r >= 0 then i + p1 else i;
          return -1, newoff, p;
        }
        i := i + r;
        p := i;
      }
      return |src|, newoff, p;
    }

    /** The chunk of filewrite() from byte i of src on. */
    method WriteNext(ino: nat, off: nat, src: seq<nat>, avail: nat, i: nat, ghost c: seq<nat>)
      returns (r: int, n1: nat, ghost p: nat)
      requires FsOk(S()) && ino in inodes && i < |src| && i <= avail && WrittenTo(c, Contents(S(), ino), off, src, i)
      modifies this
      ensures FsOk(S()) && inodes.Keys == old(inodes).Keys
      ensures n1 == (if |src| - i > WRITEMAX then WRITEMAX else |src| - i) && -1 <= r <= n1
      ensures r == -1 ==>
        Contents(S(), ino) == old(Contents(S(), ino)) && (off > |c| || off + |src| > MAXFILE * BSIZE)
      ensures r >= 0 ==> off <= |c| && r <= p <= n1 && i + r <= avail && (p > r ==> i + p == avail < |src|)
      ensures r >= 0 ==> Contents(S(), ino) == Written(c, off, src[..i + p], i + r)
      ensures r >= 0 && r < n1 ==> FullMap(bits, n) || avail < |src|
      ensures forall k :: k in old(inodes) && k != ino ==> Contents(S(), k) == Contents(old(S()), k)
    {
      hide FsOk, Has, FullMap, Covered, Grown, Written, Ended, Contents;
      ghost var s := S();
      SizeIs(s, ino);
      n1 := if |src| - i > WRITEMAX then WRITEMAX else |src| - i;
      ghost var lost, al;
      r, p, lost, al := WriteOp(ino, off + i, src[i..i + n1], avail - i);
      if r >= 0 {
        WriteMore(c, Contents(s, ino), off, src, i, n1, p, r);
        EndedAt(FullMap(bits, n), Has(s, ino, off + i + r), off + i, n1, r, p, avail - i);
      }
    }
  }

  /** Contents c1 are those of c after the first i bytes of src. */
  ghost predicate WrittenTo(c: seq<nat>, c1: seq<nat>, off: nat, src: seq<nat>, i: nat) {
    i <= |src| && if i > 0 || off <= |c| then off <= |c| && c1 == Written(c, off, src[..i], i) else c1 == c
  }

  /** The block of a failed copy, if bytes from r to p - 1 have come into it. */
  function Unlogged(addr: nat, r: nat, p: nat): set<nat> {
    if p > r then {addr} else {}
  }

  lemma UnloggedNone(addr: nat, r: nat, p: nat)
    ensures (Unlogged(addr, r, p) == {} <==> p <= r) && Unlogged(addr, r, p) <= {addr}
  {
  }

  /** Writing stops only between blocks. */
  predicate Boundary(off: nat, len: nat, r: nat) {
    r == 0 || r == len || (off + r) % BSIZE == 0
  }

  lemma Start(off: nat, len: nat)
    ensures Boundary(off, len, 0) && Boundary(off, len, len)
  {
  }

  lemma ChunkEnds(off: nat, tot: nat, len: nat)
    requires tot <= len
    ensures Boundary(off, len, tot + Chunk(off, tot, len))
  {
  }

  /** How writei() ends after r bytes: all are written, or no block is free, or the next part of src is
      not supplied whole; and in the last case what is supplied of it is in the file's block. */
  predicate Ended(full: bool, had: bool, off: nat, len: nat, r: nat, p: nat, avail: nat) {
    && r <= avail && r <= p <= len && Boundary(off, len, r) && (p > r ==> p == avail < r + Chunk(off, r, len))
    && (r < len ==> full || avail < r + Chunk(off, r, len))
    && (r < len && (had || !full) ==> avail < r + Chunk(off, r, len) && p == Max(r, avail))
  }

  /** Contents c after src has been put at off and the size has taken in r bytes of it. */
  function Written(c: seq<nat>, off: nat, src: seq<nat>, r: nat): (w: seq<nat>)
    requires off <= |c| && r <= |src|
    ensures |w| == Max(|c|, off + r)
  {
    Replaced(c, off, src)[..Max(|c|, off + r)]
  }

  /** The file then holds src from off on, and everywhere else what it held. */
  lemma WrittenByte(c: seq<nat>, off: nat, src: seq<nat>, r: nat, k: nat)
    requires off <= |c| && r <= |src|
    ensures k < |Written(c, off, src, r)| <==> k < |c| || k < off + r
    ensures k < |Written(c, off, src, r)| && off <= k < off + |src| ==> Written(c, off, src, r)[k] == src[k - off]
    ensures k < |c| && !(off <= k < off + |src|) ==> Written(c, off, src, r)[k] == c[k]
  {
  }

  lemma EndsHere(full: bool, had: bool, addr: nat, off: nat, len: nat, r: nat, p: nat, avail: nat)
    requires r < len && r <= avail && Boundary(off, len, r)
    requires (addr == 0 || avail < r + Chunk(off, r, len)) && (addr == 0 ==> full)
    requires p == (if addr == 0 || avail <= r then r else avail) && (had ==> addr != 0)
    ensures Ended(full, had, off, len, r, p, avail)
  {
  }

  lemma AllWritten(full: bool, had: bool, off: nat, len: nat, avail: nat)
    requires len <= avail
    ensures Ended(full, had, off, len, len, len, avail)
  {
  }

  lemma EndedAt(full: bool, had: bool, off: nat, len: nat, r: nat, p: nat, avail: nat)
    requires Ended(full, had, off, len, r, p, avail)
    ensures r <= avail && r <= p <= len && (p > r ==> p == avail < len) && (r < len ==> full || avail < len)
  {
  }

  lemma WrittenNone(c: seq<nat>, off: nat)
    ensures off <= |c| ==> Written(c, off, [], 0) == c
  {
  }

  lemma Glue(c: seq<nat>, i: nat, j: nat, k: nat)
    requires i <= j <= k <= |c|
    ensures c[i..j] + c[j..k] == c[i..k]
  {
  }

  lemma SizeIs(s: Fs, ino: nat)
    requires ino in s.inodes
    ensures |Contents(s, ino)| == s.inodes[ino].size
  {
  }

  lemma StillThere(s0: Fs, s: Fs, ino: nat, off: nat, src: seq<nat>, k: nat)
    requires Wrote(s0, s, ino, off, src)
    ensures Has(s0, ino, k) ==> At(s, ino, k / BSIZE) != 0
  {
    if Has(s0, ino, k) { WroteHas(s0, s, ino, off, src, k); }
  }

  /** New bytes for block x after other changes. */
  lemma CoveredThen(s: Fs, t: Fs, u: Fs, ino: nat, x: nat, l: set<nat>, l': set<nat>, bmapstart: nat)
    requires Covered(s, t, ino, l, bmapstart) && l <= l' && x in l'
    requires u.bits == t.bits && u.inodes == t.inodes
    requires forall y :: y in t.data && y != x ==> y in u.data && u.data[y] == t.data[y]
    ensures Covered(s, u, ino, l', bmapstart)
  {
    hide Bit;
  }

  lemma DirectNext(s0: Fs, bits: seq<bv8>, ino: nat, i: nat)
    requires FsOk(s0) && ino in s0.inodes && i < NDIRECT && BitsGone(s0, bits, ino, i, 0, false)
    ensures var b := At(s0, ino, i);
      if b == 0 then BitsGone(s0, bits, ino, i + 1, 0, false)
      else Bit(bits, b) && BitsGone(s0, ClearBit(bits, b), ino, i + 1, 0, false)
  {
    var b := At(s0, ino, i);
    forall x | x in s0.owner && s0.owner[x] == Direct(ino, i) ensures x == b { AtPlace(s0, x); }
    if b != 0 {
      SlotData(s0, ino, i);
      FreeNext(s0, bits, ino, i, 0, false, i + 1, 0, false, b);
    } else {
      forall x | x in s0.owner ensures s0.owner[x] != Direct(ino, i) { AtPlace(s0, x); }
    }
  }

  lemma EntryNext(s0: Fs, bits: seq<bv8>, ino: nat, j: nat)
    requires FsOk(s0) && ino in s0.inodes && j < NINDIRECT && BitsGone(s0, bits, ino, NDIRECT, j, false)
    ensures var b := At(s0, ino, NDIRECT + j);
      if b == 0 then BitsGone(s0, bits, ino, NDIRECT, j + 1, false)
      else Bit(bits, b) && BitsGone(s0, ClearBit(bits, b), ino, NDIRECT, j + 1, false)
  {
    var b := At(s0, ino, NDIRECT + j);
    forall x | x in s0.owner && s0.owner[x] == Entry(ino, j) ensures x == b { AtPlace(s0, x); }
    if b != 0 {
      SlotData(s0, ino, NDIRECT + j);
      FreeNext(s0, bits, ino, NDIRECT, j, false, NDIRECT, j + 1, false, b);
    } else {
      forall x | x in s0.owner ensures s0.owner[x] != Entry(ino, j) { AtPlace(s0, x); }
    }
  }

  lemma IndirectNext(s0: Fs, bits: seq<bv8>, ino: nat)
    requires FsOk(s0) && ino in s0.inodes && IndOf(s0, ino) != 0 && BitsGone(s0, bits, ino, NDIRECT, NINDIRECT, false)
    ensures Bit(bits, IndOf(s0, ino)) && BitsGone(s0, ClearBit(bits, IndOf(s0, ino)), ino, NDIRECT, NINDIRECT, true)
  {
    assert InodeOk(s0, ino);
    forall x | x in s0.owner && s0.owner[x] == Indirect(ino) ensures x == IndOf(s0, ino) { AtPlace(s0, x); }
    FreeNext(s0, bits, ino, NDIRECT, NINDIRECT, false, NDIRECT, NINDIRECT, true, IndOf(s0, ino));
  }

  lemma NoIndirect(s0: Fs, bits: seq<bv8>, ino: nat)
    requires FsOk(s0) && ino in s0.inodes && IndOf(s0, ino) == 0 && BitsGone(s0, bits, ino, NDIRECT, 0, false)
    ensures BitsGone(s0, bits, ino, NDIRECT, NINDIRECT, true)
  {
    forall x | x in s0.owner ensures !(s0.owner[x].Entry? && s0.owner[x].ino == ino) && s0.owner[x] != Indirect(ino) {
      AtPlace(s0, x);
    }
  }

  lemma AllGone(s0: Fs, bits: seq<bv8>, ino: nat)
    requires FsOk(s0) && BitsGone(s0, bits, ino, NDIRECT, NINDIRECT, true)
    ensures |bits| == |s0.bits|
    ensures forall x :: x in s0.owner ==> (Bit(bits, x) <==> s0.owner[x] != Unused && !OfFile(s0.owner[x], ino))
  {
    forall x | x in s0.owner ensures Gone(s0.owner[x], ino, NDIRECT, NINDIRECT, true) <==> OfFile(s0.owner[x], ino) {
      AtPlace(s0, x);
    }
  }

  lemma TruncatedContents(s0: Fs, t: Fs, ino: nat, i: nat)
    requires Truncated(s0, t, ino) && i in t.inodes && i != ino
    ensures Contents(t, i) == Contents(s0, i)
  {
    forall k | 0 <= k < s0.inodes[i].size ensures Byte(t, i, k) == Byte(s0, i, k) {
      TruncatedAt(s0, t, ino, i, k / BSIZE);
    }
    SliceSame(s0, t, i, s0.inodes[i].size);
  }

  const MAXOPBLOCKS: nat := LogMachine.MAXOPBLOCKS
  const WRITEMAX: nat := (MAXOPBLOCKS - 1 - 1 - 2) / 2 * BSIZE

  lemma ChunkBlocks(off: nat, n: nat)
    requires n <= WRITEMAX
    ensures Blocks(off, n) <= if off % BSIZE == 0 then 3 else 4
    ensures n == 0 ==> Blocks(off, n) == 0
  {
  }

  lemma SetSize(l: set<nat>, d: set<nat>, bm: set<nat>, ind: nat, ib: nat)
    requires l <= d + bm + One(ind) + {ib}
    ensures |l| <= |d| + |bm| + 2
  {
    Within(l, d + bm + One(ind) + {ib});
    Sum(d, bm);
    Sum(d + bm, One(ind));
    Sum(d + bm + One(ind), {ib});
  }

  lemma Within(a: set<nat>, b: set<nat>)
    requires a <= b
    ensures |a| <= |b|
  {
    assert b == a + (b - a);
  }

  /** Writing on where the last write ended is one longer write. */
  lemma WriteMore(c: seq<nat>, c1: seq<nat>, off: nat, src: seq<nat>, i: nat, n1: nat, p: nat, r: nat)
    requires i + n1 <= |src| && r <= p <= n1 && off + i <= |c1|
    requires WrittenTo(c, c1, off, src, i)
    ensures off <= |c| && Written(c1, off + i, src[i..i + n1][..p], r) == Written(c, off, src[..i + p], i + r)
  {
    assert src[i..i + n1][..p] == src[i..i + p];
    assert c1 == Replaced(c, off, src[..i]);
    ReplaceMore(c, off, src[..i], src[i..i + p]);
    assert src[..i] + src[i..i + p] == src[..i + p];
  }

  lemma ReplaceMore(c: seq<nat>, off: nat, src: seq<nat>, more: seq<nat>)
    requires off <= |c|
    ensures Replaced(Replaced(c, off, src), off + |src|, more) == Replaced(c, off, src + more)
  {
  }

  lemma SizedInd(s: Fs, ino: nat, sz: nat)
    requires ino in s.inodes
    ensures IndOf(Sized(s, ino, sz), ino) == IndOf(s, ino)
    ensures forall k: nat :: At(Sized(s, ino, sz), ino, k) == At(s, ino, k)
  {
  }

  /** The blocks logged so far by writei(): `rounds` iterations have allocated `allocs` data blocks. */
  ghost predicate Account(off: nat, len: nat, tot: nat, full: bool, rounds: nat, allocs: nat, d: nat, al: nat,
                          inds: nat) {
    && d <= rounds && al <= allocs + inds && inds <= 1
    && allocs + (if off % BSIZE != 0 && rounds > 0 then 1 else 0) <= rounds <= Blocks(off, len)
    && (rounds == 0 ==> tot == 0)
    && (rounds > 0 && tot < len && !full ==> off % BSIZE + tot == rounds * BSIZE)
  }

  /** As Account, for the data blocks d, the allocated blocks al and the indirect block ind: with
      those of `start` and the bitmap blocks bm, no others are in the log. */
  ghost predicate Books(off: nat, len: nat, tot: nat, full: bool, rounds: nat, allocs: nat, d: set<nat>, al: set<nat>,
                        bm: set<nat>, ind: nat, start: set<nat>, logged: set<nat>) {
    && Account(off, len, tot, full, rounds, allocs, |d|, |al|, |One(ind)|)
    && logged <= start + d + bm + One(ind)
  }

  lemma BooksNone(off: nat, len: nat, ind: nat, start: set<nat>)
    ensures Books(off, len, 0, false, 0, 0, {}, {}, {}, ind, start, start)
  {
  }

  lemma AccountNext(off: nat, len: nat, tot: nat, m: nat, rounds: nat, allocs: nat, new_: nat,
                    d: nat, d': nat, al: nat, al': nat, b: nat, inds: nat, inds': nat)
    requires Account(off, len, tot, false, rounds, allocs, d, al, inds) && tot < len
    requires m == 0 || m == Chunk(off, tot, len)
    requires d' <= d + 1 && al' <= al + b && b <= new_ + (inds' - inds) && inds <= inds' <= 1 && new_ <= 1
    requires tot == 0 && off % BSIZE != 0 ==> new_ == 0
    ensures Account(off, len, tot + m, m == 0, rounds + 1, allocs + new_, d', al', inds')
  {
  }

  lemma Ledger(off: nat, len: nat, tot: nat, m: nat, addr: nat, rounds: nat, allocs: nat, new_: nat, d: set<nat>,
               al: set<nat>, b: set<nat>, bm: set<nat>, bm': set<nat>,
               ind: nat, ind': nat, start: set<nat>, was: set<nat>, now: set<nat>)
    requires Books(off, len, tot, false, rounds, allocs, d, al, bm, ind, start, was) && tot < len
    requires m == 0 || m == Chunk(off, tot, len)
    requires |b| <= new_ + (if ind == 0 && ind' != 0 then 1 else 0) && new_ <= 1 && (ind != 0 ==> ind' == ind)
    requires tot == 0 && off % BSIZE != 0 ==> new_ == 0
    requires now <= was + bm' + One(addr) + One(ind')
    ensures Books(off, len, tot + m, m == 0, rounds + 1, allocs + new_, d + One(addr), al + b, bm + bm', ind', start,
                  now)
  {
    Sum(d, One(addr));
    Sum(al, b);
    Ones(ind, ind', addr);
    AccountNext(off, len, tot, m, rounds, allocs, new_, |d|, |d + One(addr)|, |al|, |al + b|, |b|, |One(ind)|,
      |One(ind')|);
  }

  lemma BooksEnd(off: nat, len: nat, tot: nat, full: bool, rounds: nat, allocs: nat, d: set<nat>, al: set<nat>,
                 bm: set<nat>, ind: nat, start: set<nat>, logged: set<nat>)
    requires Books(off, len, tot, full, rounds, allocs, d, al, bm, ind, start, logged) && (tot < len ==> full)
    ensures |d| <= Blocks(off, len) && |al| <= Blocks(off, len) + (if off % BSIZE != 0 && len > 0 then 0 else 1)
    ensures logged <= start + d + bm + One(ind)
  {
  }

  lemma Ones(ind: nat, ind': nat, addr: nat)
    requires ind != 0 ==> ind' == ind
    ensures |One(ind)| <= |One(ind')| <= 1 && |One(addr)| <= 1 && One(ind) <= One(ind')
    ensures (if ind == 0 && ind' != 0 then 1 else 0) == |One(ind')| - |One(ind)|
  {
  }

  lemma Sum(s: set<nat>, t: set<nat>)
    ensures |s + t| <= |s| + |t|
  {
  }

  /** A write that starts inside a block starts in one that is there. */
  lemma FirstBlock(fs: Fs, ino: nat, off: nat)
    requires FsOk(fs) && ino in fs.inodes && off <= fs.inodes[ino].size
    ensures off % BSIZE != 0 ==> At(fs, ino, off / BSIZE) != 0
  {
    if off % BSIZE != 0 { HasAll(fs, ino, off - 1); }
  }

  lemma WroteKeys(s0: Fs, s: Fs, ino: nat, off: nat, src: seq<nat>)
    requires Wrote(s0, s, ino, off, src)
    ensures s.inodes.Keys == s0.inodes.Keys && ino in s.inodes && s.inodes[ino].size == s0.inodes[ino].size
  {
  }

  lemma StoredInd(s: Fs, ino: nat, bn: nat, bytes: Bytes)
    ensures IndOf(Stored(s, ino, bn, bytes), ino) == IndOf(s, ino)
  {
  }

  /** m bytes of a file that lie in one block. */
  lemma SliceInBlock(fs: Fs, ino: nat, a: nat, m: nat)
    requires FsOk(fs) && ino in fs.inodes && a < fs.inodes[ino].size
    requires a + m <= fs.inodes[ino].size && a % BSIZE + m <= BSIZE
    ensures var b := At(fs, ino, a / BSIZE);
      b in fs.data && |fs.data[b]| == BSIZE && fs.data[b][a % BSIZE..a % BSIZE + m] == Contents(fs, ino)[a..a + m]
  {
    HasAll(fs, ino, a);
    SlotData(fs, ino, a / BSIZE);
    hide FsOk;
    var b, c := At(fs, ino, a / BSIZE), Contents(fs, ino);
    forall k | a <= k < a + m ensures c[k] == fs.data[b][a % BSIZE + k - a] {
      InBlock(a, m, k);
      assert c[k - 0] == Byte(fs, ino, k);
    }
  }

  /** The number of blocks that n bytes from offset off touch. */
  function Blocks(off: nat, n: nat): nat {
    if n == 0 then 0 else (off % BSIZE + n - 1) / BSIZE + 1
  }

  /** How much of the bytes tot .. len - 1 goes into the block of the first of them. */
  function Chunk(off: nat, tot: nat, len: nat): (m: nat)
    requires tot <= len
    ensures tot + m <= len && (tot < len ==> m > 0) && (off + tot) % BSIZE + m <= BSIZE
  {
    if len - tot < BSIZE - (off + tot) % BSIZE then len - tot else BSIZE - (off + tot) % BSIZE
  }

  /** The block, if it is one. */
  function One(b: nat): set<nat> {
    if b == 0 then {} else {b}
  }

  /** 1 if ino has got an indirect block. */
  ghost function NewIndirect(fs: Fs, t: Fs, ino: nat): nat {
    if IndOf(fs, ino) == 0 && IndOf(t, ino) != 0 then 1 else 0
  }

  lemma SameKeys(fs: Fs, t: Fs, ino: nat)
    requires Extends(fs, t, ino) && ino in fs.inodes
    ensures ino in t.inodes && t.inodes[ino].size == fs.inodes[ino].size
  {
  }

  lemma Smaller(s: set<nat>, x: nat)
    ensures |s + {x}| <= |s| + 1
  {
  }
}
