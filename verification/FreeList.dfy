/**
 The free list of user/umalloc.c as a value: blocks in address order, the first of which is
 the empty block `base`. Addresses and sizes are in units of a header.
 */
module FreeList {
  datatype Block = Block(addr: nat, size: nat)

  function End(b: Block): nat {
    b.addr + b.size
  }

  /** Blocks are in address order, disjoint, and no block touches the next. */
  ghost predicate Apart(fl: seq<Block>) {
    forall i, j :: 0 <= i < j < |fl| ==> End(fl[i]) < fl[j].addr
  }

  ghost predicate IsFreeList(fl: seq<Block>, base: nat) {
    && |fl| > 0 && fl[0] == Block(base, 0) && Apart(fl)
    && forall i :: 1 <= i < |fl| ==> fl[i].size > 0
  }

  predicate Within(b: Block, a: nat) {
    b.addr <= a < End(b)
  }

  /** Unit a lies in one of the blocks lo .. hi - 1. */
  ghost predicate FreeIn(fl: seq<Block>, lo: nat, hi: nat, a: nat) {
    exists i :: lo <= i < hi && i < |fl| && Within(fl[i], a)
  }

  /** Unit a lies in a block of the list. */
  ghost predicate Free(fl: seq<Block>, a: nat) {
    FreeIn(fl, 0, |fl|, a)
  }

  /** Block b in place of the blocks m .. l - 1. */
  function Splice(fl: seq<Block>, m: nat, l: nat, b: Block): seq<Block>
    requires m <= l <= |fl|
  {
    fl[..m] + [b] + fl[l..]
  }

  lemma SpliceOk(fl: seq<Block>, base: nat, m: nat, l: nat, b: Block)
    requires IsFreeList(fl, base) && m <= l <= |fl|
    requires if m == 0 then b == Block(base, 0) else b.size > 0 && End(fl[m - 1]) < b.addr
    requires l < |fl| ==> End(b) < fl[l].addr
    ensures IsFreeList(Splice(fl, m, l, b), base)
  {
    var r := Splice(fl, m, l, b);
    forall i, j | 0 <= i < j < |r| ensures End(r[i]) < r[j].addr {
      assert i < m ==> r[i] == fl[i];
      assert i > m ==> r[i] == fl[i - m - 1 + l];
      assert j < m ==> r[j] == fl[j];
      assert j > m ==> r[j] == fl[j - m - 1 + l];
    }
  }

  lemma SpliceFree(fl: seq<Block>, m: nat, l: nat, b: Block, a: nat)
    requires m <= l <= |fl|
    ensures Free(Splice(fl, m, l, b), a) <==> FreeIn(fl, 0, m, a) || Within(b, a) || FreeIn(fl, l, |fl|, a)
  {
    var r := Splice(fl, m, l, b);
    if i :| 0 <= i < |r| && Within(r[i], a) {
      assert i < m ==> r[i] == fl[i];
      assert i > m ==> r[i] == fl[i - m - 1 + l];
    }
    assert r[m] == b;
    if i :| l <= i < |fl| && Within(fl[i], a) { assert r[i - l + m + 1] == fl[i]; }
    if i :| 0 <= i < m && Within(fl[i], a) { assert r[i] == fl[i]; }
  }

  /** Block b belongs between fl[k] and its successor. */
  ghost predicate Belongs(fl: seq<Block>, k: nat, b: Block) {
    k < |fl| && b.size > 0 && End(fl[k]) <= b.addr && (k + 1 < |fl| ==> End(b) <= fl[k + 1].addr)
  }

  predicate Touches(fl: seq<Block>, k: nat, b: Block) {
    k < |fl| && End(fl[k]) == b.addr
  }

  predicate Touched(fl: seq<Block>, k: nat, b: Block) {
    k < |fl| && End(b) == fl[k].addr
  }

  /** b joined with the blocks around it where they touch. */
  function Joined(fl: seq<Block>, k: nat, b: Block): Block
    requires k < |fl|
  {
    var low := if Touches(fl, k, b) then fl[k].size else 0;
    var high := if Touched(fl, k + 1, b) then fl[k + 1].size else 0;
    Block(if Touches(fl, k, b) then fl[k].addr else b.addr, low + b.size + high)
  }

  /** The list after free() of a block b that belongs after fl[k]. */
  function Insert(fl: seq<Block>, k: nat, b: Block): seq<Block>
    requires k < |fl|
  {
    Splice(fl, if Touches(fl, k, b) then k else k + 1, if Touched(fl, k + 1, b) then k + 2 else k + 1, Joined(fl, k, b))
  }

  lemma InsertOk(fl: seq<Block>, base: nat, k: nat, b: Block)
    requires IsFreeList(fl, base) && Belongs(fl, k, b) && b.addr > base
    ensures IsFreeList(Insert(fl, k, b), base)
  {
    SpliceOk(fl, base, if Touches(fl, k, b) then k else k + 1, if Touched(fl, k + 1, b) then k + 2
      else k + 1, Joined(fl, k, b));
  }

  lemma InsertFree(fl: seq<Block>, k: nat, b: Block, a: nat)
    requires Belongs(fl, k, b)
    ensures Free(Insert(fl, k, b), a) <==> Free(fl, a) || Within(b, a)
  {
    var m, l := if Touches(fl, k, b) then k else k + 1, if Touched(fl, k + 1, b) then k + 2 else k + 1;
    SpliceFree(fl, m, l, Joined(fl, k, b), a);
    assert Free(fl, a) <==> FreeIn(fl, 0, m, a) || FreeIn(fl, m, l, a) || FreeIn(fl, l, |fl|, a);
    assert Within(Joined(fl, k, b), a) <==> FreeIn(fl, m, l, a) || Within(b, a) by {
      assert Touches(fl, k, b) && Within(fl[k], a) ==> FreeIn(fl, m, l, a);
      assert Touched(fl, k + 1, b) && Within(fl[k + 1], a) ==> FreeIn(fl, m, l, a);
    }
  }

  /** The list after malloc() of n units from fl[k]: the block goes, or loses its end. */
  function Take(fl: seq<Block>, k: nat, n: nat): seq<Block>
    requires k < |fl| && n <= fl[k].size
  {
    if fl[k].size == n then fl[..k] + fl[k + 1..] else fl[k := Block(fl[k].addr, fl[k].size - n)]
  }

  function Taken(fl: seq<Block>, k: nat, n: nat): Block
    requires k < |fl| && n <= fl[k].size
  {
    Block(End(fl[k]) - n, n)
  }

  lemma TakeOk(fl: seq<Block>, base: nat, k: nat, n: nat)
    requires IsFreeList(fl, base) && k < |fl| && 0 < n <= fl[k].size
    ensures k > 0 && IsFreeList(Take(fl, k, n), base)
  {
  }

  /** Blocks of the list have no unit in common. */
  lemma OneBlock(fl: seq<Block>, i: nat, j: nat, a: nat)
    requires Apart(fl) && i < |fl| && j < |fl| && Within(fl[i], a) && Within(fl[j], a)
    ensures i == j
  {
  }

  lemma TakeFree(fl: seq<Block>, base: nat, k: nat, n: nat, a: nat)
    requires IsFreeList(fl, base) && k < |fl| && 0 < n <= fl[k].size
    ensures Free(Take(fl, k, n), a) <==> Free(fl, a) && !Within(Taken(fl, k, n), a)
  {
    hide Apart;
    if fl[k].size == n { TakeAllFree(fl, k, a); } else { TakePartFree(fl, k, n, a); }
  }

  /** The block goes. */
  lemma TakeAllFree(fl: seq<Block>, k: nat, a: nat)
    requires Apart(fl) && k < |fl|
    ensures Free(fl[..k] + fl[k + 1..], a) <==> Free(fl, a) && !Within(fl[k], a)
  {
    hide Apart;
    var r := fl[..k] + fl[k + 1..];
    if i :| 0 <= i < |r| && Within(r[i], a) {
      var j := if i < k then i else i + 1;
      assert r[i] == fl[j] && Within(fl[j], a);
      if Within(fl[k], a) { OneBlock(fl, j, k, a); }
    }
    if i :| 0 <= i < |fl| && Within(fl[i], a) && i != k {
      assert r[if i < k then i else i - 1] == fl[i];
    }
  }

  /** The block loses its end. */
  lemma TakePartFree(fl: seq<Block>, k: nat, n: nat, a: nat)
    requires Apart(fl) && k < |fl| && 0 < n < fl[k].size
    ensures Free(fl[k := Block(fl[k].addr, fl[k].size - n)], a) <==> Free(fl, a) && !Within(Taken(fl, k, n), a)
  {
    hide Apart;
    var r := fl[k := Block(fl[k].addr, fl[k].size - n)];
    if i :| 0 <= i < |r| && Within(r[i], a) {
      assert Within(fl[i], a);
      if Within(Taken(fl, k, n), a) { OneBlock(fl, i, k, a); }
    }
    if i :| 0 <= i < |fl| && Within(fl[i], a) && !Within(Taken(fl, k, n), a) {
      assert Within(r[i], a);
    }
  }
}
