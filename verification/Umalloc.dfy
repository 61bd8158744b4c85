/**
 malloc(), free() and morecore() of user/umalloc.c on headers in memory. Addresses are in
 units of a header (16 bytes); sbrk()'s answer is a parameter.
 */
module Umalloc {
  import opened Options
  import opened FreeList

  const UNIT: nat := 16
  const MINCORE: nat := 4096

  datatype Header = Header(ptr: nat, size: nat)


  /** Unit a lies in a block that malloc() has given out. */
  ghost predicate Live(live: map<nat, nat>, a: nat) {
    exists b :: b in live && Within(Block(b, live[b]), a)
  }

  /** Free blocks and live blocks partition the heap, and live blocks are disjoint. */
  ghost predicate Partition(fl: seq<Block>, live: map<nat, nat>, heap: set<nat>, base: nat) {
    && (forall a :: a in heap <==> Free(fl, a) || Live(live, a))
    && (forall a :: !(Free(fl, a) && Live(live, a)))
    && (forall b, c, a :: b in live && c in live && Within(Block(b, live[b]), a) && Within(Block(c, live[c]), a) ==>
      b == c)
    && (forall b :: b in live ==> live[b] > 0)
    && (forall a :: a in heap ==> a > base)
  }

  /** Index x of a ring of n, for x < 2n. */
  function Wrap(x: nat, n: nat): (r: nat)
    ensures n > 0 ==> r < n
  {
    if x < n then x else if x < 2 * n then x - n else 0
  }

  /** The headers in memory form the circular list fl. */
  ghost predicate Linked(mem: map<nat, Header>, fl: seq<Block>) {
    forall i :: 0 <= i < |fl| ==>
      fl[i].addr in mem && mem[fl[i].addr] == Header(fl[Wrap(i + 1, |fl|)].addr, fl[i].size)
  }

  /** b goes after fl[k]. */
  ghost predicate Between(fl: seq<Block>, k: nat, a: nat) {
    k < |fl| && fl[k].addr < a && (k + 1 < |fl| ==> a < fl[k + 1].addr)
  }

  lemma {:induction false} HasPlace(fl: seq<Block>, a: nat, n: nat) returns (k: nat)
    requires Apart(fl) && 0 < n <= |fl| && fl[0].addr < a && forall i :: 0 <= i < |fl| ==> fl[i].addr != a
    requires n < |fl| ==> a < fl[n].addr
    ensures Between(fl, k, a)
  {
    if fl[n - 1].addr < a { k := n - 1; } else { k := HasPlace(fl, a, n - 1); }
  }

  lemma LivePlace(fl: seq<Block>, live: map<nat, nat>, heap: set<nat>, base: nat, b: nat) returns (k: nat)
    requires IsFreeList(fl, base) && Partition(fl, live, heap, base) && b in live
    ensures Between(fl, k, b) && Belongs(fl, k, Block(b, live[b])) && b > base
    ensures forall i :: 0 <= i < |fl| ==> fl[i].addr != b
  {
    Outside(fl, live, heap, base, b, b);
    k := HasPlace(fl, b, |fl|);
    Outside(fl, live, heap, base, b, if k + 1 < |fl| then fl[k + 1].addr else b);
  }

  /** No unit of a live block lies in the list. */
  lemma Outside(fl: seq<Block>, live: map<nat, nat>, heap: set<nat>, base: nat, b: nat, a: nat)
    requires IsFreeList(fl, base) && Partition(fl, live, heap, base) && b in live && Within(Block(b, live[b]), b)
    ensures b > base && Live(live, b) && forall i :: 0 <= i < |fl| && Within(Block(b, live[b]), a) ==> !Within(fl[i], a)
    ensures forall i :: 0 <= i < |fl| ==> fl[i].addr != b && !Within(fl[i], b)
  {
    assert Live(live, b) && b in heap;
    assert Within(Block(b, live[b]), a) ==> Live(live, a);
    forall i | 0 <= i < |fl| ensures Within(Block(b, live[b]), a) ==> !Within(fl[i], a) {
      assert Within(fl[i], a) ==> Free(fl, a);
    }
    forall i | 0 <= i < |fl| ensures fl[i].addr != b && !Within(fl[i], b) {
      assert Within(fl[i], b) ==> Free(fl, b);
    }
  }

  /** free() gives the block's units to the list and takes nothing else from anyone. */
  lemma FreedPartition(fl: seq<Block>, live: map<nat, nat>, heap: set<nat>, base: nat, k: nat, b: nat)
    requires IsFreeList(fl, base) && Partition(fl, live, heap, base) && b in live && Belongs(fl, k, Block(b, live[b]))
    ensures Partition(Insert(fl, k, Block(b, live[b])), live - {b}, heap, base)
  {
    hide Insert;
    var fl', live' := Insert(fl, k, Block(b, live[b])), live - {b};
    forall a ensures (Free(fl', a) <==> Free(fl, a) || Within(Block(b, live[b]), a))
                  && (Live(live, a) <==> Live(live', a) || Within(Block(b, live[b]), a))
                  && !(Live(live', a) && Within(Block(b, live[b]), a))
    {
      InsertFree(fl, k, Block(b, live[b]), a);
      if c :| c in live && Within(Block(c, live[c]), a) {
        assert c != b ==> c in live' && Within(Block(c, live'[c]), a);
      }
    }
    hide Free, Live;
    forall c, d, a | c in live' && d in live' && Within(Block(c, live'[c]), a) && Within(Block(d, live'[d]), a)
      ensures c == d
    {
      assert Within(Block(c, live[c]), a) && Within(Block(d, live[d]), a);
    }
  }

  /** The writes of free(): first b takes its place before the successor of fl[k], or joins
      it; then fl[k] leads to b, or joins it. */
  function WithBlock(mem: map<nat, Header>, p: nat, b: nat): map<nat, Header>
    requires b in mem && p in mem && mem[p].ptr in mem && p != b
  {
    var h, q := mem[b], mem[p].ptr;
    var h' := if b + h.size == q then Header(mem[q].ptr, h.size + mem[q].size) else Header(q, h.size);
    if p + mem[p].size == b then mem[b := h'][p := Header(h'.ptr, mem[p].size + h'.size)]
    else mem[b := h'][p := Header(b, mem[p].size)]
  }

  lemma SpliceLinked(mem: map<nat, Header>, mem': map<nat, Header>, fl: seq<Block>, m: nat, l: nat, b: Block)
    requires Linked(mem, fl) && 0 < m <= l <= |fl|
    requires b.addr in mem' && mem'[b.addr] == Header(fl[Wrap(l, |fl|)].addr, b.size)
    requires fl[m - 1].addr in mem' && mem'[fl[m - 1].addr] == Header(b.addr, fl[m - 1].size)
    requires forall i :: (0 <= i < m - 1 || l <= i < |fl|) ==> fl[i].addr in mem' && mem'[fl[i].addr] == mem[fl[i].addr]
    ensures Linked(mem', Splice(fl, m, l, b))
  {
    var r := Splice(fl, m, l, b);
    SpliceAt(fl, m, l, b);
    hide Splice;
    forall i | 0 <= i < |r|
      ensures r[i].addr in mem' && mem'[r[i].addr] == Header(r[Wrap(i + 1, |r|)].addr, r[i].size)
    {
      if i > m { assert r[i] == fl[i - m - 1 + l]; }
    }
  }

  lemma SpliceAt(fl: seq<Block>, m: nat, l: nat, b: Block)
    requires 0 < m <= l <= |fl|
    ensures var r := Splice(fl, m, l, b);
      && |r| == m + 1 + |fl| - l && r[m] == b && (forall i :: 0 <= i < m ==> r[i] == fl[i])
      && forall i :: m < i < |r| ==> r[i] == fl[i - m - 1 + l]
  {
  }

  lemma Distinct(fl: seq<Block>, base: nat)
    requires IsFreeList(fl, base)
    ensures forall i, j :: 0 <= i < j < |fl| ==> fl[i].addr != fl[j].addr
    ensures forall i :: 0 <= i < |fl| ==> fl[i].addr >= base
  {
  }

  lemma InsertLinked(mem: map<nat, Header>, fl: seq<Block>, base: nat, k: nat, b: Block)
    requires IsFreeList(fl, base) && Linked(mem, fl) && Belongs(fl, k, b) && b.addr > base
    requires b.addr in mem && mem[b.addr].size == b.size && forall i :: 0 <= i < |fl| ==> fl[i].addr != b.addr
    ensures fl[k].addr in mem && mem[fl[k].addr].ptr in mem
      && Linked(WithBlock(mem, fl[k].addr, b.addr), Insert(fl, k, b))
  {
    Distinct(fl, base);
    assert Touches(fl, k, b) ==> k > 0;
    hide Apart, IsFreeList, Joined;
    var p, n := fl[k].addr, |fl|;
    var q := Wrap(k + 1, n);
    assert mem[p] == Header(fl[q].addr, fl[k].size) && fl[q].addr in mem;
    InsertWrites(mem, fl, k, b);
    var m, l := if Touches(fl, k, b) then k else k + 1, if Touched(fl, k + 1, b) then k + 2 else k + 1;
    SpliceLinked(mem, WithBlock(mem, p, b.addr), fl, m, l, Joined(fl, k, b));
  }

  /** What the writes of free() leave in the joined block, in its predecessor and in the others. */
  lemma InsertWrites(mem: map<nat, Header>, fl: seq<Block>, k: nat, b: Block)
    requires Linked(mem, fl) && Belongs(fl, k, b) && b.addr in mem && mem[b.addr].size == b.size
    requires forall i, j :: 0 <= i < j < |fl| ==> fl[i].addr != fl[j].addr
    requires (forall i :: 0 <= i < |fl| ==> fl[i].addr != b.addr) && (k + 1 == |fl| ==> fl[0].addr < b.addr)
    requires fl[k].addr in mem && mem[fl[k].addr].ptr in mem && (Touches(fl, k, b) ==> k > 0)
    ensures var mem', d := WithBlock(mem, fl[k].addr, b.addr), Joined(fl, k, b);
      var m, l := if Touches(fl, k, b) then k else k + 1, if Touched(fl, k + 1, b) then k + 2 else k + 1;
      && d.addr in mem' && mem'[d.addr] == Header(fl[Wrap(l, |fl|)].addr, d.size)
      && fl[m - 1].addr in mem' && mem'[fl[m - 1].addr] == Header(d.addr, fl[m - 1].size)
      && forall i :: (0 <= i < m - 1 || l <= i < |fl|) ==> fl[i].addr in mem' && mem'[fl[i].addr] == mem[fl[i].addr]
  {
    var q := Wrap(k + 1, |fl|);
    assert mem[fl[k].addr] == Header(fl[q].addr, fl[k].size);
    assert Touched(fl, k + 1, b) <==> End(b) == fl[q].addr;
    if Touches(fl, k, b) { assert mem[fl[k - 1].addr] == Header(fl[k].addr, fl[k - 1].size); }
  }

  /** The writes of malloc() when it takes n units of block p, whose predecessor is prev. */
  function WithoutUnits(mem: map<nat, Header>, prev: nat, p: nat, n: nat): map<nat, Header>
    requires prev in mem && p in mem && n <= mem[p].size
  {
    var h := mem[p];
    if h.size == n then mem[prev := Header(h.ptr, mem[prev].size)]
    else
      var m := mem[p := Header(h.ptr, h.size - n)];
      var t := p + (h.size - n);
      m[t := Header(if t in m then m[t].ptr else 0, n)]
  }

  lemma TakeAllLinked(mem: map<nat, Header>, fl: seq<Block>, k: nat)
    requires Linked(mem, fl) && 0 < k < |fl| && (forall i, j :: 0 <= i < j < |fl| ==> fl[i].addr != fl[j].addr)
    requires fl[k].addr in mem && fl[k - 1].addr in mem && mem[fl[k].addr].size == fl[k].size
    ensures Linked(WithoutUnits(mem, fl[k - 1].addr, fl[k].addr, fl[k].size), fl[..k] + fl[k + 1..])
  {
    assert mem[fl[k].addr] == Header(fl[Wrap(k + 1, |fl|)].addr, fl[k].size);
    var mem', r := WithoutUnits(mem, fl[k - 1].addr, fl[k].addr, fl[k].size), fl[..k] + fl[k + 1..];
    assert r[0] == fl[0];
    forall i | 0 <= i < |r| ensures r[i].addr in mem'
      && mem'[r[i].addr] == Header(r[Wrap(i + 1, |r|)].addr, r[i].size)
    {
      assert r[i] == if i < k then fl[i] else fl[i + 1];
      if i + 1 < |r| { assert r[i + 1] == if i + 1 < k then fl[i + 1] else fl[i + 2]; }
    }
  }

  lemma TakePartLinked(mem: map<nat, Header>, fl: seq<Block>, k: nat, n: nat)
    requires Linked(mem, fl) && 0 < k < |fl| && 0 < n < fl[k].size
      && (forall i, j :: 0 <= i < j < |fl| ==> fl[i].addr != fl[j].addr)
    requires fl[k].addr in mem && fl[k - 1].addr in mem && mem[fl[k].addr].size == fl[k].size
    requires forall i :: 0 <= i < |fl| ==> fl[i].addr != Taken(fl, k, n).addr
    ensures Linked(WithoutUnits(mem, fl[k - 1].addr, fl[k].addr, n), fl[k := Block(fl[k].addr, fl[k].size - n)])
  {
  }

  lemma TakeLinked(mem: map<nat, Header>, fl: seq<Block>, base: nat, k: nat, n: nat)
    requires IsFreeList(fl, base) && Linked(mem, fl) && 0 < k < |fl| && 0 < n <= fl[k].size
    ensures fl[k - 1].addr in mem && fl[k].addr in mem && mem[fl[k].addr].size == fl[k].size
    ensures var mem', t := WithoutUnits(mem, fl[k - 1].addr, fl[k].addr, n), Taken(fl, k, n).addr;
      Linked(mem', Take(fl, k, n)) && t in mem' && mem'[t].size == n
  {
    Distinct(fl, base);
    assert mem[fl[k].addr] == Header(fl[Wrap(k + 1, |fl|)].addr, fl[k].size);
    if fl[k].size == n {
      TakeAllLinked(mem, fl, k);
    } else {
      forall i | 0 <= i < |fl| ensures fl[i].addr != Taken(fl, k, n).addr {
        assert i > k ==> End(fl[k]) < fl[i].addr;
        assert i < k ==> End(fl[i]) < fl[k].addr;
      }
      hide Apart;
      TakePartLinked(mem, fl, k, n);
    }
  }

  lemma TakenPartition(fl: seq<Block>, live: map<nat, nat>, heap: set<nat>, base: nat, k: nat, n: nat)
    requires IsFreeList(fl, base) && Partition(fl, live, heap, base) && k < |fl| && 0 < n <= fl[k].size
    ensures var t := Taken(fl, k, n).addr; t !in live && Partition(Take(fl, k, n), live[t := n], heap, base)
  {
    hide Take;
    var fl', t := Take(fl, k, n), Taken(fl, k, n).addr;
    assert Within(fl[k], t) && Free(fl, t) && !Live(live, t);
    assert t in live ==> Within(Block(t, live[t]), t);
    var live' := live[t := n];
    forall a ensures (Free(fl, a) <==> Free(fl', a) || Within(Block(t, n), a))
      && !(Free(fl', a) && Within(Block(t, n), a))
                  && (Live(live', a) <==> Live(live, a) || Within(Block(t, n), a))
    {
      TakeFree(fl, base, k, n, a);
      if c :| c in live && Within(Block(c, live[c]), a) { assert c in live' && Within(Block(c, live'[c]), a); }
      assert t in live' && live'[t] == n;
    }
    forall c, a | c in live && Within(Block(c, live[c]), a) ensures !Within(Block(t, n), a) {
      assert Live(live, a) && !Free(fl, a);
    }
    hide Free, Live;
  }

  ghost function Region(p: nat, n: nat): set<nat> {
    set a: nat | p <= a < p + n && Within(Block(p, n), a)
  }

  /** A region from sbrk(), as a live block of its own. */
  lemma GrownPartition(fl: seq<Block>, live: map<nat, nat>, heap: set<nat>, base: nat, p: nat, n: nat)
    requires IsFreeList(fl, base) && Partition(fl, live, heap, base) && n > 0 && p > base
      && forall a :: a in heap ==> a < p
    ensures p !in live && Partition(fl, live[p := n], heap + Region(p, n), base)
  {
    assert p in live ==> Within(Block(p, live[p]), p) && Live(live, p);
    var live', heap' := live[p := n], heap + Region(p, n);
    forall a ensures Live(live', a) <==> Live(live, a) || Within(Block(p, n), a) {
      if c :| c in live && Within(Block(c, live[c]), a) { assert c in live' && Within(Block(c, live'[c]), a); }
      assert p in live' && live'[p] == n;
    }
    forall c, a | c in live && Within(Block(c, live[c]), a) ensures !Within(Block(p, n), a) {
      assert Live(live, a) && a in heap;
    }
    hide Free, Live;
  }

  /** The free list is in place and freep leads into it; live blocks have their headers. */
  ghost predicate Good(mem: map<nat, Header>, fl: seq<Block>, at: nat, live: map<nat, nat>, heap: set<nat>, base: nat,
                       freep: nat) {
    && base > 0 && IsFreeList(fl, base) && Linked(mem, fl) && Partition(fl, live, heap, base)
    && at < |fl| && fl[at].addr == freep
    && forall b :: b in live ==> b in mem && mem[b].size == live[b]
  }

  lemma FreedGood(mem: map<nat, Header>, fl: seq<Block>, at: nat, live: map<nat, nat>, heap: set<nat>, base: nat,
                  freep: nat, k: nat, b: nat)
    requires Good(mem, fl, at, live, heap, base, freep) && b in live && Belongs(fl, k, Block(b, live[b]))
    ensures fl[k].addr in mem && b in mem && mem[fl[k].addr].ptr in mem && fl[k].addr != b && mem[b].size == live[b]
    ensures Good(WithBlock(mem, fl[k].addr, b), Insert(fl, k, Block(b, live[b])), k, live - {b}, heap, base, fl[k].addr)
  {
    hide Partition, Insert, Belongs, Linked, IsFreeList;
    Outside(fl, live, heap, base, b, b) by { assert b in live && live[b] > 0 by { LiveSize(fl, live, heap, base, b); } }
    InsertOk(fl, base, k, Block(b, live[b]));
    InsertLinked(mem, fl, base, k, Block(b, live[b]));
    FreedPartition(fl, live, heap, base, k, b);
    BelongsAt(fl, k, Block(b, live[b]));
    InsertHead(fl, k, Block(b, live[b]));
    LiveApart(fl, live, heap, base, k);
  }

  lemma BelongsAt(fl: seq<Block>, k: nat, b: Block)
    requires Belongs(fl, k, b)
    ensures k < |fl|
  {
  }

  lemma LiveSize(fl: seq<Block>, live: map<nat, nat>, heap: set<nat>, base: nat, b: nat)
    requires Partition(fl, live, heap, base) && b in live
    ensures live[b] > 0
  {
  }

  lemma CutGood(mem: map<nat, Header>, fl: seq<Block>, at: nat, live: map<nat, nat>, heap: set<nat>, base: nat,
                freep: nat, k: nat, n: nat)
    requires Good(mem, fl, at, live, heap, base, freep) && 0 < k < |fl| && 0 < n <= fl[k].size
    ensures var p, q, t := fl[k].addr, fl[k - 1].addr, Taken(fl, k, n).addr;
      && p in mem && q in mem && mem[p].size == fl[k].size && t !in live
      && Good(WithoutUnits(mem, q, p, n), Take(fl, k, n), k - 1, live[t := n], heap, base, q)
  {
    TakeOk(fl, base, k, n);
    TakeLinked(mem, fl, base, k, n);
    TakenPartition(fl, live, heap, base, k, n);
    TakeApart(fl, live, heap, base, k, n);
    TakeHead(fl, k, n);
    hide Partition, IsFreeList, Linked, Take;
  }

  lemma GrownGood(mem: map<nat, Header>, fl: seq<Block>, at: nat, live: map<nat, nat>, heap: set<nat>, base: nat,
                  freep: nat, p: nat, h: Header)
    requires Good(mem, fl, at, live, heap, base, freep) && p > base && h.size > 0 && forall a :: a in heap ==> a < p
    ensures p !in live && Good(mem[p := h], fl, at, live[p := h.size], heap + Region(p, h.size), base, freep)
  {
    GrownPartition(fl, live, heap, base, p, h.size);
    CoreApart(fl, live, heap, base, p);
    hide Partition, IsFreeList;
  }

  lemma GoodPlace(mem: map<nat, Header>, fl: seq<Block>, at: nat, live: map<nat, nat>, heap: set<nat>, base: nat,
                  freep: nat, b: nat) returns (k: nat)
    requires Good(mem, fl, at, live, heap, base, freep) && b in live
    ensures Between(fl, k, b) && Belongs(fl, k, Block(b, live[b])) && b > base
    ensures IsFreeList(fl, base) && Linked(mem, fl) && at < |fl| && fl[at].addr == freep
  {
    k := LivePlace(fl, live, heap, base, b);
  }

  lemma GoodAt(mem: map<nat, Header>, fl: seq<Block>, at: nat, live: map<nat, nat>, heap: set<nat>, base: nat,
               freep: nat, k: nat)
    requires Good(mem, fl, at, live, heap, base, freep) && (k < |fl| || k == at)
    ensures k < |fl| && fl[k].addr in mem && mem[fl[k].addr] == Header(fl[Wrap(k + 1, |fl|)].addr, fl[k].size)
    ensures at < |fl| && fl[at].addr == freep && fl[k].addr >= base > 0
    ensures fl[k].size > 0 ==> k > 0
    ensures fl[k].addr == freep <==> k == at
  {
  }

  class Allocator {
    const base: nat
    var mem: map<nat, Header>
    var freep: nat
    ghost var fl: seq<Block>
    ghost var at: nat
    ghost var live: map<nat, nat>
    ghost var heap: set<nat>

    ghost predicate Ready()
      reads this
    {
      Good(mem, fl, at, live, heap, base, freep)
    }

    /** As Ready, or nothing has been asked for yet. */
    ghost predicate Valid()
      reads this
    {
      base > 0 && if freep == 0 then fl == [] && live == map[] && heap == {} else Ready()
    }

    constructor (base: nat)
      requires base > 0
      ensures Valid() && this.base == base && freep == 0
    {
      this.base, mem, freep := base, map[], 0;
      fl, at, live, heap := [], 0, map[], {};
    }

    /** The search loop of free(). */
    method Search(bp: nat, ghost k: nat) returns (p: nat)
      requires IsFreeList(fl, base) && Linked(mem, fl) && at < |fl| && fl[at].addr == freep && Between(fl, k, bp)
        && bp > base
      ensures p == fl[k].addr
    {
      hide IsFreeList;
      ghost var i: nat := at;
      p := freep;
      while !(bp > p && bp < mem[p].ptr)
        invariant i < |fl| && p == fl[i].addr && p in mem && mem[p] == Header(fl[Wrap(i + 1, |fl|)].addr, fl[i].size)
        decreases if i <= k then k - i else k - i + |fl|
      {
        Order(fl, base, k, bp, i);
        if p >= mem[p].ptr && (bp > p || bp < mem[p].ptr) {
          break;
        }
        p := mem[p].ptr;
        i := Wrap(i + 1, |fl|);
      }
      Order(fl, base, k, bp, i);
    }

    /** free() of a block that malloc() gave out. */
    method Free(ap: nat)
      requires Ready() && ap > 0 && ap - 1 in live
      modifies this
      ensures Ready() && heap == old(heap) && live == old(live) - {ap - 1}
      ensures Belongs(old(fl), at, Block(ap - 1, old(live)[ap - 1]))
        && fl == Insert(old(fl), at, Block(ap - 1, old(live)[ap - 1]))
    {
      hide Good, IsFreeList, Linked, Insert, Belongs;
      var bp := ap - 1;
      ghost var b := Block(bp, live[bp]);
      ghost var k := GoodPlace(mem, fl, at, live, heap, base, freep, bp);
      FreedGood(mem, fl, at, live, heap, base, freep, k, bp);
      var p := Search(bp, k);
      ghost var mem0 := mem;
      var q := mem[p].ptr;
      if bp + mem[bp].size == q {
        mem := mem[bp := Header(mem[q].ptr, mem[bp].size + mem[q].size)];
      } else {
        mem := mem[bp := Header(q, mem[bp].size)];
      }
      if p + mem[p].size == bp {
        mem := mem[p := Header(mem[bp].ptr, mem[p].size + mem[bp].size)];
      } else {
        mem := mem[p := Header(bp, mem[p].size)];
      }
      assert mem == WithBlock(mem0, p, bp);
      freep := p;
      fl, live, at := Insert(fl, k, b), live - {bp}, k;
    }

    /** morecore(): `brk` is the start of the region that sbrk() gives, if it gives one. */
    method MoreCore(nu: nat, brk: Option<nat>) returns (p: nat)
      requires Ready() && CoreOk(brk, heap, base)
      modifies this
      ensures Ready() && live == old(live) && (p == 0 <==> brk.None?) && (brk.Some? ==> p == freep)
      ensures brk.None? ==>
        fl == old(fl) && heap == old(heap) && freep == old(freep) && at == old(at) && mem == old(mem)
      ensures brk.Some? ==>
        && heap == old(heap) + Region(brk.value, if nu < 4096 then 4096 else nu)
        && UnitsAdded(old(fl), fl, Block(brk.value, CoreSize(nu))) && !TooSmall(fl, CoreSize(nu))
    {
      hide Good, Insert, Belongs, UnitsAdded, TooSmall, Region;
      if brk.None? {
        return 0;
      }
      var hp, n := brk.value, CoreSize(nu);
      var h := Header(if hp in mem then mem[hp].ptr else 0, n);
      GrownGood(mem, fl, at, live, heap, base, freep, hp, h);
      mem := mem[hp := h];
      live, heap := live[hp := n], heap + Region(hp, n);
      ghost var fl0 := fl;
      Free(hp + 1);
      assert live == old(live);
      InsertUnits(fl0, at, Block(hp, n));
      InsertBig(fl0, at, Block(hp, n));
      GoodAt(mem, fl, at, live, heap, base, freep, at);
      return freep;
    }

    /** morecore(), as malloc() sees it. */
    method Grow(nu: nat, brk: Option<nat>) returns (p: nat)
      requires Ready() && CoreOk(brk, heap, base)
      modifies this
      ensures Ready() && live == old(live) && (p == 0 <==> brk.None?)
      ensures p == 0 ==> fl == old(fl) && heap == old(heap) && freep == old(freep) && at == old(at) && mem == old(mem)
      ensures p != 0 ==> p == freep && heap == old(heap) + Region(brk.value, CoreSize(nu)) && !TooSmall(fl, nu)
    {
      hide Good, Region;
      p := MoreCore(nu, brk);
    }

    /** The found branch of malloc(): n units of block p, whose predecessor is prevp. */
    method Cut(prevp: nat, p: nat, n: nat, ghost k: nat) returns (r: nat)
      requires Ready() && 0 < k < |fl| && 0 < n <= fl[k].size && p == fl[k].addr && prevp == fl[k - 1].addr
      modifies this
      ensures Ready() && heap == old(heap) && fl == Take(old(fl), k, n)
      ensures r > 0 && r - 1 !in old(live) && live == old(live)[r - 1 := n]
    {
      hide Good, Take;
      CutGood(mem, fl, at, live, heap, base, freep, k, n);
      ghost var mem0 := mem;
      var t := p;
      if mem[p].size == n {
        mem := mem[prevp := Header(mem[p].ptr, mem[prevp].size)];
      } else {
        mem := mem[p := Header(mem[p].ptr, mem[p].size - n)];
        t := p + mem[p].size;
        mem := mem[t := Header(if t in mem then mem[t].ptr else 0, n)];
      }
      assert mem == WithoutUnits(mem0, prevp, p, n);
      freep := prevp;
      fl, live, at := Take(fl, k, n), live[t := n], k - 1;
      return t + 1;
    }

    /** malloc(): the address after the header of a new block, or 0; brk is sbrk()'s answer,
        for the one call of it that there may be. */
    method Malloc(nbytes: nat, brk: Option<nat>) returns (r: nat)
      requires Valid() && CoreOk(brk, heap, base)
      modifies this
      ensures Ready()
      ensures r == 0 ==>
        && brk.None? && live == old(live) && heap == old(heap)
          && fl == (if old(freep) == 0 then [Block(base, 0)] else old(fl))
        && TooSmall(fl, Units(nbytes))
      ensures r != 0 ==> r - 1 !in old(live) && live == old(live)[r - 1 := Units(nbytes)]
      ensures r != 0 && heap != old(heap) ==>
        && brk.Some? && heap == old(heap) + Region(brk.value, CoreSize(Units(nbytes)))
        && TooSmall(old(fl), Units(nbytes))
    {
      hide Good, Units, Region, TooSmall, CoreSize;
      var nunits := Units(nbytes);
      NoneSmall(nunits);
      if freep == 0 {
        FirstGood(mem, base);
        freep := base;
        mem := mem[base := Header(base, 0)];
        fl, at := [Block(base, 0)], 0;
      }
      r := FindFit(nunits, brk);
    }

    /** The search loop of malloc(), once there is a list. */
    method FindFit(nunits: nat, brk: Option<nat>) returns (r: nat)
      requires Ready() && CoreOk(brk, heap, base) && nunits > 0
      modifies this
      ensures Ready()
      ensures r == 0 ==> brk.None? && live == old(live) && heap == old(heap) && fl == old(fl) && TooSmall(fl, nunits)
      ensures r != 0 ==> r - 1 !in old(live) && live == old(live)[r - 1 := nunits]
      ensures r != 0 && heap != old(heap) ==>
        brk.Some? && heap == old(heap) + Region(brk.value, CoreSize(nunits)) && TooSmall(old(fl), nunits)
    {
      hide Good, Take, Scanned, Region, Wrap, TooSmall, CoreSize;
      var prevp := freep;
      ghost var grown := false;
      ghost var f: nat, s: nat := at, 0;
      GoodAt(mem, fl, at, live, heap, base, freep, at);
      ScanNone(fl, f, nunits);
      var p := mem[prevp].ptr;
      while true
        invariant Ready() && f == at < |fl| && s < |fl| && live == old(live)
        invariant prevp == fl[Wrap(f + s, |fl|)].addr && p == fl[Wrap(f + s + 1, |fl|)].addr
        invariant Scanned(fl, f, s, nunits)
        invariant !grown ==> fl == old(fl) && heap == old(heap)
        invariant grown ==> brk.Some? && heap == old(heap) + Region(brk.value, CoreSize(nunits))
        invariant grown ==> TooSmall(old(fl), nunits) && !TooSmall(fl, nunits)
        decreases !grown, |fl| - s
      {
        ghost var k := Wrap(f + s + 1, |fl|);
        WrapNext(f, s, |fl|);
        GoodAt(mem, fl, at, live, heap, base, freep, k);
        if mem[p].size >= nunits {
          r := Cut(prevp, p, nunits, k);
          return;
        }
        if p == freep {
          AllSmall(fl, f, s, nunits);
          p := Grow(nunits, brk);
          if p == 0 {
            return 0;
          }
          GoodAt(mem, fl, at, live, heap, base, freep, at);
          grown, f, s := true, at, 0;
          ScanNone(fl, f, nunits);
          prevp := p;
          p := mem[p].ptr;
        } else {
          ScanNext(fl, f, s, nunits);
          prevp := p;
          p := mem[p].ptr;
          s := s + 1;
        }
      }
    }
  }

  lemma NoneSmall(n: nat)
    ensures TooSmall([], n)
  {
  }

  lemma TakeHead(fl: seq<Block>, k: nat, n: nat)
    requires 0 < k < |fl| && n <= fl[k].size
    ensures k - 1 < |Take(fl, k, n)| && Take(fl, k, n)[k - 1] == fl[k - 1]
  {
  }

  /** Neither block header that malloc() writes belongs to a live block. */
  lemma TakeApart(fl: seq<Block>, live: map<nat, nat>, heap: set<nat>, base: nat, k: nat, n: nat)
    requires IsFreeList(fl, base) && Partition(fl, live, heap, base) && 0 < k < |fl| && 0 < n <= fl[k].size
    ensures fl[k].addr !in live && fl[k - 1].addr !in live && Taken(fl, k, n).addr !in live
  {
    forall b | b in live ensures b != fl[k].addr && b != fl[k - 1].addr && b != Taken(fl, k, n).addr {
      Outside(fl, live, heap, base, b, b);
    }
  }

  /** The header and the bytes, in units. */
  function Units(nbytes: nat): (n: nat)
    ensures n > 0 && nbytes + UNIT <= n * UNIT < nbytes + 2 * UNIT
  {
    (nbytes + UNIT - 1) / UNIT + 1
  }

  lemma FirstGood(mem: map<nat, Header>, base: nat)
    requires base > 0
    ensures Good(mem[base := Header(base, 0)], [Block(base, 0)], 0, map[], {}, base, base)
  {
  }

  /** No block has n units. */
  ghost predicate TooSmall(fl: seq<Block>, n: nat) {
    forall i :: 0 <= i < |fl| ==> fl[i].size < n
  }

  /** The s blocks that follow fl[f] round the ring are too small. */
  ghost predicate Scanned(fl: seq<Block>, f: nat, s: nat, n: nat) {
    forall i :: 0 <= i < |fl| && (f < i <= f + s || i + |fl| <= f + s) ==> fl[i].size < n
  }

  lemma WrapNext(f: nat, s: nat, n: nat)
    requires f < n && s < n
    ensures Wrap(f + s + 1, n) < n && (Wrap(f + s + 1, n) > 0 ==> Wrap(f + s, n) == Wrap(f + s + 1, n) - 1)
  {
  }

  lemma ScanNone(fl: seq<Block>, f: nat, n: nat)
    requires f < |fl|
    ensures Scanned(fl, f, 0, n) && Wrap(f, |fl|) == f
  {
  }

  /** The search has come round to where it started. */
  lemma AllSmall(fl: seq<Block>, f: nat, s: nat, n: nat)
    requires f < |fl| && s < |fl| && Scanned(fl, f, s, n) && Wrap(f + s + 1, |fl|) == f && fl[f].size < n
    ensures TooSmall(fl, n)
  {
  }

  lemma ScanNext(fl: seq<Block>, f: nat, s: nat, n: nat)
    requires f < |fl| && s < |fl| && Scanned(fl, f, s, n) && fl[Wrap(f + s + 1, |fl|)].size < n
    ensures Scanned(fl, f, s + 1, n)
    ensures Wrap(f + s + 1, |fl|) != f ==>
      s + 1 < |fl| && Wrap(Wrap(f + s + 1, |fl|) + 1, |fl|) == Wrap(f + s + 2, |fl|)
  {
  }

  function CoreSize(nu: nat): nat {
    if nu < MINCORE then MINCORE else nu
  }

  /** sbrk() gives units above `base` and above everything it gave before. */
  ghost predicate CoreOk(brk: Option<nat>, heap: set<nat>, base: nat) {
    brk.Some? ==> brk.value > base && forall a :: a in heap ==> a < brk.value
  }

  lemma CoreApart(fl: seq<Block>, live: map<nat, nat>, heap: set<nat>, base: nat, hp: nat)
    requires IsFreeList(fl, base) && Partition(fl, live, heap, base) && hp > base && forall a :: a in heap ==> a < hp
    ensures forall i :: 0 <= i < |fl| ==> fl[i].addr != hp
    ensures hp !in live
  {
    forall i | 0 <= i < |fl| ensures fl[i].addr != hp {
      assert i > 0 ==> Within(fl[i], fl[i].addr) && FreeList.Free(fl, fl[i].addr);
    }
    assert hp in live ==> Within(Block(hp, live[hp]), hp) && Live(live, hp);
  }

  lemma InsertBig(fl: seq<Block>, k: nat, b: Block)
    requires k < |fl|
    ensures !TooSmall(Insert(fl, k, b), b.size)
  {
    var m := if Touches(fl, k, b) then k else k + 1;
    assert Insert(fl, k, b)[m] == Joined(fl, k, b);
  }

  /** The list has the units of b in addition. */
  ghost predicate UnitsAdded(fl: seq<Block>, fl': seq<Block>, b: Block) {
    forall a :: FreeList.Free(fl', a) <==> FreeList.Free(fl, a) || Within(b, a)
  }

  lemma InsertUnits(fl: seq<Block>, k: nat, b: Block)
    requires Belongs(fl, k, b)
    ensures k < |fl| && UnitsAdded(fl, Insert(fl, k, b), b)
  {
    forall a: nat ensures FreeList.Free(Insert(fl, k, b), a) <==> FreeList.Free(fl, a) || Within(b, a) {
      InsertFree(fl, k, b, a);
    }
  }

  lemma InsertHead(fl: seq<Block>, k: nat, b: Block)
    requires k < |fl|
    ensures k < |Insert(fl, k, b)| && Insert(fl, k, b)[k].addr == fl[k].addr
  {
  }

  lemma LiveApart(fl: seq<Block>, live: map<nat, nat>, heap: set<nat>, base: nat, k: nat)
    requires IsFreeList(fl, base) && Partition(fl, live, heap, base) && k < |fl|
    ensures fl[k].addr !in live
  {
    forall b | b in live ensures b != fl[k].addr { Outside(fl, live, heap, base, b, b); }
  }

  /** Where the search of free() stops: only at the place where the block belongs. */
  lemma Order(fl: seq<Block>, base: nat, k: nat, b: nat, i: nat)
    requires IsFreeList(fl, base) && Between(fl, k, b) && i < |fl| && b > base
    ensures i < k ==> fl[i].addr < b && fl[i + 1].addr < b
    ensures i > k ==> b < fl[i].addr
    ensures i + 1 < |fl| ==> fl[i].addr < fl[i + 1].addr
    ensures fl[0].addr == base && (i > 0 ==> fl[i].addr > base)
  {
  }
}
