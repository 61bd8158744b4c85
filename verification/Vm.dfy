/**
 kernel/vm.c and kernel/kalloc.c: page-table pages written in place, over a pool of
 physical pages, with every out-of-memory exit.
 */
module Vm {
  import opened Sv39
  import opened VmState
  import opened VmFree
  import opened VmSpaces
  import opened VmCopy

  /** The flat map with n pages from v mapped to the physical pages from ppn. */
  ghost function MapRange(flat: map<nat, Pte>, v: nat, n: nat, ppn: nat, perm: set<Flag>): map<nat, Pte> {
    if n == 0 then flat else MapRange(flat, v, n - 1, ppn, perm)[v + n - 1 := Pte(ppn + n - 1, perm + {V})]
  }

  /** Pages that uvmalloc() adds: zeroed. */
  ghost function ZeroImage(perm: set<Flag>): nat -> Image {
    _ => Image(perm + {V}, Filled(0))
  }

  /** Page v + j is mapped to physical page ppn + j, and no other entry changes. */
  lemma {:induction false} MapRangeAt(flat: map<nat, Pte>, v: nat, n: nat, ppn: nat, perm: set<Flag>, x: nat)
    ensures var m := MapRange(flat, v, n, ppn, perm);
      if v <= x < v + n then x in m && m[x] == Pte(ppn + x - v, perm + {V})
      else (x in m <==> x in flat) && (x in m ==> m[x] == flat[x])
  {
    if n > 0 { MapRangeAt(flat, v, n - 1, ppn, perm, x); }
  }

  function Junk(p: nat): Page {
    Filled(0)
  }

  function Unclaimed(p: nat): Owner {
    Held
  }

  class Kernel {
    const first: nat
    const last: nat
    var freelist: seq<nat>
    var mem: Memory
    ghost var owner: Owners
    ghost var spaces: map<nat, Space>

    ghost function S(): Sys
      reads this
    {
      Sys(mem, owner, spaces)
    }

    ghost predicate Valid()
      reads this
    {
      PoolOk(first, last, freelist, S()) && SysOk(S())
    }

    /** kinit(): all pages go to the free list. */
    constructor (first: nat, last: nat)
      requires 0 < first <= last <= first + RAMPAGES
      ensures Valid() && this.first == first && this.last == last && spaces == map[]
      ensures forall p :: first <= p < last ==> p in owner && owner[p].Free?
    {
      this.first, this.last, freelist := first, last, [];
      mem := map p: nat | first <= p < last :: Junk(p);
      owner := map p: nat | first <= p < last :: Unclaimed(p);
      spaces := map[];
      new;
      FreeRange();
    }

    /** freerange() */
    method FreeRange()
      requires PoolOk(first, last, freelist, S()) && spaces == map[] && first <= last
      requires forall p :: first <= p < last ==> owner[p].Held?
      modifies this`freelist, this`mem, this`owner
      ensures Valid() && forall p :: first <= p < last ==> p in owner && owner[p].Free?
    {
      var p := first;
      while p < last
        invariant first <= p <= last && PoolOk(first, last, freelist, S()) && spaces == map[]
        invariant forall q :: first <= q < last ==> owner[q] == if q < p then Free else Held
      {
        Kfree(p);
        p := p + 1;
      }
    }

    /** kalloc(): the first free page, filled with junk, or 0. */
    method Kalloc() returns (p: nat)
      requires Valid()
      modifies this`freelist, this`mem, this`owner
      ensures Valid()
      ensures old(freelist) == [] ==> p == 0 && S() == old(S()) && freelist == []
      ensures old(freelist) != [] ==>
        && p == old(freelist)[0] && freelist == old(freelist)[1..] && p != 0
        && p in old(owner) && old(owner)[p].Free?
        && S() == Sys(old(mem)[p := Filled(5)], old(owner)[p := Held], old(spaces))
    {
      if freelist == [] {
        return 0;
      }
      p := freelist[0];
      assert p in freelist;
      GiveAway(S(), p, Filled(5), Held);
      freelist := freelist[1..];
      mem := mem[p := Filled(5)];
      owner := owner[p := Held];
      assert old(freelist) == [p] + freelist;
    }

    /** kfree(): fill with junk and put in front of the free list. */
    method Kfree(p: nat)
      requires PoolOk(first, last, freelist, S()) && first <= p < last && !owner[p].Free?
      modifies this`freelist, this`mem, this`owner
      ensures PoolOk(first, last, freelist, S())
      ensures freelist == [p] + old(freelist)
      ensures S() == Sys(old(mem)[p := Filled(1)], old(owner)[p := Free], old(spaces))
    {
      mem := mem[p := Filled(1)];
      owner := owner[p := Free];
      freelist := [p] + freelist;
    }

    /** walk(): the page and index of the level-0 entry for page v. */
    method Walk(r: nat, v: nat, alloc: bool) returns (found: bool, p: nat, i: nat)
      requires Valid() && r in spaces && v < MAXPAGES
      modifies this
      ensures Valid() && r in spaces && Grown(old(S()), S(), r)
      ensures !alloc ==> S() == old(S()) && freelist == old(freelist)
      ensures found ==> OnPath(spaces[r], r, v, 0, p) && i == PX(0, v)
      ensures !found && alloc ==> freelist == [] && |old(freelist)| < 2
      ensures |freelist| >= |old(freelist)| - 2
      ensures !found ==> v / NPTE !in spaces[r].low
    {
      hide SysOk, PoolOk, Kept, PX;
      var level := 2;
      p := r;
      GrownRefl(S(), r);
      while level > 0
        invariant 0 <= level <= 2
        invariant Valid() && r in spaces && Grown(old(S()), S(), r)
        invariant !alloc ==> S() == old(S()) && freelist == old(freelist)
        invariant OnPath(spaces[r], r, v, level, p) && |freelist| >= |old(freelist)| - (2 - level)
        decreases level
      {
        WalkStep(S(), r, v, level, p);
        var e := mem[p].pte[PX(level, v)];
        if V in e.flags {
          if Leaf(e) {
            assert false; // no superpages: a table page never links to a leaf above level 0
          }
          p := e.ppn;
        } else {
          if !alloc {
            return false, 0, 0;
          }
          ghost var s := S();
          p := AllocTable(r, v, level, p);
          KeptTrans(old(S()), s, S(), r);
          if p == 0 {
            return false, 0, 0;
          }
        }
        level := level - 1;
      }
      return true, p, PX(0, v);
    }

    /** The allocating step of walk(): a zeroed table page, linked from entry PX(level, v) of p. */
    method AllocTable(r: nat, v: nat, level: nat, p: nat) returns (q: nat)
      requires Valid() && r in spaces && v < MAXPAGES && OnPath(spaces[r], r, v, level, p) && 1 <= level <= 2
      requires if level == 2 then PX(2, v) !in spaces[r].mid else v / NPTE !in spaces[r].low
      modifies this
      ensures Valid() && r in spaces && Grown(old(S()), S(), r)
      ensures q == 0 ==> freelist == old(freelist) == [] && S() == old(S())
      ensures q != 0 ==> |freelist| == |old(freelist)| - 1
      ensures q != 0 ==> OnPath(spaces[r], r, v, level - 1, q)
    {
      hide SysOk, PoolOk, Kept, PX, OnPath;
      q := Kalloc();
      if q == 0 {
        GrownRefl(S(), r);
        return;
      }
      ghost var s, s' := S(), WithTable(S(), r, v, level, p, q);
      GrowTable(old(S()), s, s', r, v, level, p, q, mem[q]);
      mem := mem[q := ZeroTable()];
      mem := SetEntry(mem, p, PX(level, v), Pte(q, {V}));
      owner, spaces := s'.owner, s'.spaces;
      PoolFrame(first, last, freelist, s, s');
    }

    /** mappages(): n pages from v, to the physical pages from ppn. */
    method MapPages(r: nat, v: nat, n: nat, ppn: nat, perm: set<Flag>) returns (ok: bool)
      requires Valid() && r in spaces && 1 <= n && v + n <= MAXPAGES
      requires Leaf(Pte(ppn, perm))
      requires forall x :: v <= x < v + n ==> x !in spaces[r].flat
      modifies this
      ensures Valid() && r in spaces && Kept(old(S()), S(), r)
      ensures ok ==> spaces[r].flat == MapRange(old(spaces)[r].flat, v, n, ppn, perm)
      ensures !ok ==> exists m: nat :: m < n && spaces[r].flat == MapRange(old(spaces)[r].flat, v, m, ppn, perm)
      ensures |freelist| >= |old(freelist)| - 2 * n && (!ok ==> |old(freelist)| < 2 * n)
    {
      hide SysOk, PoolOk, Kept, PX, LeafFree;
      GrownRefl(S(), r);
      var a, pa := v, ppn;
      while true
        invariant v <= a < v + n && pa == ppn + (a - v)
        invariant Valid() && r in spaces && Kept(old(S()), S(), r)
        invariant spaces[r].flat == MapRange(old(spaces)[r].flat, v, a - v, ppn, perm)
        invariant |freelist| >= |old(freelist)| - 2 * (a - v)
        decreases v + n - a
      {
        ghost var s := S();
        var found, p, i := Walk(r, a, true);
        KeptTrans(old(S()), s, S(), r);
        if !found {
          return false;
        }
        MapRangeAt(old(spaces)[r].flat, v, a - v, ppn, perm, a);
        LeafEntry(S(), r, a, p);
        if V in mem[p].pte[i].flags {
          assert false; // panic: remap
        }
        UnmappedFree(S(), r, a, Pte(pa, perm + {V}));
        s := S();
        SetPte(r, a, p, i, Pte(pa, perm + {V}));
        KeptTrans(old(S()), s, S(), r);
        if a == v + n - 1 {
          break;
        }
        a := a + 1;
        pa := pa + 1;
      }
      return true;
    }

    /** `*pte = e` for a level-0 entry. */
    method SetPte(r: nat, v: nat, p: nat, i: nat, e: Pte)
      requires Valid() && r in spaces && v < MAXPAGES && OnPath(spaces[r], r, v, 0, p) && i == PX(0, v)
      requires ((V in e.flags && Leaf(e)) || e == NoPte) && LeafFree(S(), r, v, e)
      modifies this`mem, this`spaces
      ensures Valid() && r in spaces && Kept(old(S()), S(), r)
      ensures spaces[r] == Space(old(spaces)[r].mid, old(spaces)[r].low, WithLeaf(old(spaces)[r].flat, v, e))
    {
      hide SysOk, PoolOk, Kept, PX, LeafFree;
      LeafSetOk(S(), r, v, p, e);
      ghost var s, s' := S(), LeafSet(S(), r, v, p, e);
      mem := SetEntry(mem, p, i, e);
      spaces := s'.spaces;
      PoolFrame(first, last, freelist, s, s');
    }

    /** uvmunmap(): clear n entries from v; with doFree the pages go back to the free list. */
    method UvmUnmap(r: nat, v: nat, n: nat, doFree: bool)
      requires Valid() && r in spaces && v + n <= MAXPAGES
      requires forall x :: v <= x < v + n ==> x in spaces[r].flat
      requires if doFree then forall x :: v <= x < v + n ==> OwnsPage(S(), r, x) else v >= TRAPFRAME
      modifies this
      ensures Valid() && Released(old(S()), S(), r, v, v + n)
    {
      hide SysOk, PoolOk, Kept, PX, LeafFree, Released, OwnsPage;
      ReleasedNone(S(), r, v);
      var a := v;
      while a < v + n
        invariant v <= a <= v + n
        invariant Valid() && r in spaces && Released(old(S()), S(), r, v, a)
        invariant spaces[r].flat == Minus(old(spaces)[r].flat, v, a)
      {
        ghost var s := S();
        MappedOnPath(s, r, a);
        var found, p, i := Walk(r, a, false);
        if !found {
          assert false; // panic: walk
        }
        LeafEntry(s, r, a, p);
        var e := mem[p].pte[i];
        if V !in e.flags || e.flags == {V} {
          assert false; // panic: not mapped, or not a leaf
        }
        if doFree {
          ReleasedOwns(old(S()), s, r, v, a, a);
          FreePage(r, a, e.ppn);
        } else {
          UnmappedFree(s, r, a, NoPte);
        }
        ghost var t := S();
        SetPte(r, a, p, i, NoPte);
        ReleaseStep(old(S()), s, t, S(), r, v, a, Filled(1));
        a := a + 1;
      }
    }

    /** kfree() of the page that page v of r maps. */
    method FreePage(r: nat, v: nat, p: nat)
      requires Valid() && OwnsPage(S(), r, v) && p == spaces[r].flat[v].ppn
      modifies this`freelist, this`mem, this`owner
      ensures Valid() && LeafFree(S(), r, v, NoPte)
      ensures S() == Sys(old(mem)[p := Filled(1)], old(owner)[p := Free], old(spaces))
    {
      GivenBack(S(), r, v, Filled(1));
      GiveAway(S(), p, Filled(1), Free);
      hide SysOk, LeafFree;
      Kfree(p);
    }

    /** uvmdealloc() */
    method UvmDealloc(r: nat, oldsz: nat, newsz: nat) returns (sz: nat)
      requires Valid() && r in spaces && Pages(oldsz) <= TRAPFRAME
      requires forall x :: Pages(newsz) <= x < Pages(oldsz) ==> OwnsPage(S(), r, x)
      modifies this
      ensures Valid()
      ensures sz == if newsz < oldsz then newsz else oldsz
      ensures newsz >= oldsz ==> S() == old(S())
      ensures newsz < oldsz ==> Released(old(S()), S(), r, Pages(newsz), Pages(oldsz))
    {
      hide SysOk, PoolOk, Released, OwnsPage;
      if newsz >= oldsz {
        return oldsz;
      }
      if Pages(newsz) < Pages(oldsz) {
        forall x | Pages(newsz) <= x < Pages(oldsz) ensures x in spaces[r].flat {
          OwnsMapped(S(), r, x);
        }
        UvmUnmap(r, Pages(newsz), Pages(oldsz) - Pages(newsz), true);
      } else {
        ReleasedNone(S(), r, Pages(newsz));
      }
      return newsz;
    }

    /** One iteration of uvmalloc() or uvmcopy(): a new page, filled and mapped as page v of r. */
    method AllocPage(r: nat, v: nat, perm: set<Flag>, page: Page, ghost img: nat -> Image) returns (ok: bool)
      requires Valid() && r in spaces && v < TRAPFRAME && v !in spaces[r].flat && Leaf(Pte(0, perm))
      requires page.Data? && |page.bytes| == PGSIZE && img(v) == Image(perm + {V}, page)
      modifies this
      ensures Valid() && Alloced(old(S()), S(), r, v, if ok then v + 1 else v, img)
      ensures if ok then |freelist| >= |old(freelist)| - 3 else |old(freelist)| < 3
    {
      hide SysOk, PoolOk, OwnsPage, Alloced, Kept;
      var p := Kalloc();
      if p == 0 {
        AllocedNone(S(), r, v, img);
        return false;
      }
      GiveAway(S(), p, page, Held);
      assert owner[p := Held] == owner;
      ghost var s := S();
      mem := mem[p := page];
      ghost var t := S();
      assert t == Sys(old(mem)[p := page], old(owner)[p := Held], old(spaces));
      PoolFrame(first, last, freelist, s, t);
      ok := MapPages(r, v, 1, p, perm);
      HeldKept(t, S(), r, p);
      if !ok {
        AllocFails(old(S()), t, S(), r, v, p, page, img);
        GiveAway(S(), p, Filled(1), Free);
        InPool(first, last, freelist, S(), p);
        Kfree(p);
      } else {
        AllocStep(old(S()), t, S(), r, v, p, perm, page, img);
        AdoptOk(S(), r, v, p);
        s := S();
        owner := owner[p := User(r, v)];
        PoolFrame(first, last, freelist, s, S());
      }
    }

    /** uvmalloc(): grow r from oldsz to newsz bytes; `sz` is 0 on failure. */
    method UvmAlloc(r: nat, oldsz: nat, newsz: nat, xperm: set<Flag>) returns (sz: nat, ghost ok: bool)
      requires Valid() && IsProc(S(), r, Pages(oldsz))
      modifies this
      ensures Valid()
      ensures newsz < oldsz ==> ok && sz == oldsz && S() == old(S())
      ensures ok && oldsz <= newsz ==>
        && sz == newsz && IsProc(S(), r, Pages(newsz))
        && Alloced(old(S()), S(), r, Pages(oldsz), Pages(newsz), ZeroImage({R, U} + xperm))
      ensures !ok ==> sz == 0 && Grown(old(S()), S(), r) && IsProc(S(), r, Pages(oldsz))
      ensures oldsz <= newsz ==> if ok then |freelist| >= |old(freelist)| - 3 * (Pages(newsz) - Pages(oldsz))
                                 else |old(freelist)| < 3 * (Pages(newsz) - Pages(oldsz))
      ensures newsz < oldsz ==> freelist == old(freelist)
    {
      hide SysOk, PoolOk, Released, OwnsPage, Alloced, IsProc, Kept;
      if newsz < oldsz {
        return oldsz, true;
      }
      ghost var img := ZeroImage({R, U} + xperm);
      ghost var lo := Pages(oldsz);
      ProcFacts(S(), r, lo);
      AllocedNone(S(), r, lo, img);
      var a := Pages(oldsz);
      while a * PGSIZE < newsz
        invariant lo <= a <= Pages(newsz)
        invariant Valid() && r in spaces && Alloced(old(S()), S(), r, lo, a, img) && IsProc(S(), r, a)
        invariant |freelist| >= |old(freelist)| - 3 * (a - lo)
        decreases Pages(newsz) - a
      {
        ghost var s := S();
        ProcFits(first, last, freelist, s, r, a);
        ProcFacts(s, r, a);
        var got := AllocPage(r, a, {R, U} + xperm, Filled(0), img);
        AllocedTrans(old(S()), s, S(), r, lo, a, if got then a + 1 else a, img);
        AllocedProc(old(S()), S(), r, lo, if got then a + 1 else a, img);
        if !got {
          s := S();
          ProcOwns(s, r, a);
          assert Pages(a * PGSIZE) == a;
          var _ := UvmDealloc(r, a * PGSIZE, Pages(oldsz) * PGSIZE);
          if lo == a {
            ReleasedNone(s, r, lo);
          }
          AllocUndone(old(S()), s, S(), r, lo, a, img);
          GrownProc(old(S()), S(), r, lo);
          return 0, false;
        }
        a := a + 1;
      }
      return newsz, true;
    }

    /** freewalk() from the table page p, which is at `place` in the space sp of root r. */
    method FreeWalk(p: nat, ghost r: nat, ghost sp: Space, ghost place: Place)
      requires PoolOk(first, last, freelist, S()) && SubtreeOk(S(), r, sp, place) && InSpace(sp, place)
      requires p == PageAt(r, sp, place) && sp.flat == map[]
      modifies this`freelist, this`mem, this`owner
      ensures PoolOk(first, last, freelist, S()) && Freed(old(S()), S(), r, place)
      decreases Level(place), 1
    {
      assert mem.Keys == owner.Keys;
      hide PoolOk, SubtreeOk, Freed, FreedBelow, InSpace, Child, PlaceOk;
      ghost var s0 := S();
      NothingFreed(s0, r, sp, place);
      for i := 0 to NPTE
        invariant PoolOk(first, last, freelist, S())
        invariant FreedBelow(s0, S(), r, place, p, i)
        invariant IsTable(mem, p) && p in owner && forall j :: i <= j < NPTE ==> mem[p].pte[j] == s0.mem[p].pte[j]
        invariant mem.Keys == owner.Keys
      {
        FreeEntry(p, i, s0, r, sp, place);
      }
      LoopDone(s0, S(), r, sp, place, Filled(1));
      NotFree(s0, S(), r, sp, place);
      InPool(first, last, freelist, S(), p);
      Kfree(p);
    }

    /** One iteration of freewalk()'s loop. */
    method FreeEntry(p: nat, i: nat, ghost s0: Sys, ghost r: nat, ghost sp: Space, ghost place: Place)
      requires PoolOk(first, last, freelist, S()) && SubtreeOk(s0, r, sp, place) && InSpace(sp, place) && i < NPTE
      requires p == PageAt(r, sp, place) && sp.flat == map[] && s0.mem.Keys == s0.owner.Keys && mem.Keys == owner.Keys
      requires FreedBelow(s0, S(), r, place, p, i) && IsTable(s0.mem, p)
      requires IsTable(mem, p) && p in owner && forall j :: i <= j < NPTE ==> mem[p].pte[j] == s0.mem[p].pte[j]
      modifies this`freelist, this`mem, this`owner
      ensures PoolOk(first, last, freelist, S()) && FreedBelow(s0, S(), r, place, p, i + 1) && mem.Keys == owner.Keys
      ensures IsTable(mem, p) && p in owner && forall j :: i < j < NPTE ==> mem[p].pte[j] == s0.mem[p].pte[j]
      decreases Level(place), 0
    {
      hide PoolOk, SubtreeOk, Freed, FreedBelow, InSpace, Child, PlaceOk;
      EntryLeads(s0, r, sp, place, i);
      var pte := mem[p].pte[i];
      if V in pte.flags && !Leaf(pte) {
        var child := pte.ppn;
        ghost var s := S();
        ChildSubtree(s0, s, r, sp, place, i);
        FreeWalk(child, r, sp, Child(place, i));
        ghost var t := S();
        ParentKept(s0, s, t, r, sp, place, i);
        mem := SetEntry(mem, p, i, NoPte);
        ChildFreed(s0, s, t, S(), r, place, p, i, mem[p]);
        PoolSame(first, last, freelist, t, S());
      } else {
        if V in pte.flags {
          assert false; // panic: leaf
        }
        EntrySkipped(s0, S(), r, sp, place, i);
      }
    }

    /** uvmcreate(): the root of a new, empty space, or 0. */
    method UvmCreate() returns (r: nat)
      requires Valid()
      modifies this
      ensures Valid()
      ensures r == 0 ==> S() == old(S()) && freelist == old(freelist) == []
      ensures r != 0 ==>
        Built(old(S()), S(), r) && spaces[r] == Space(map[], map[], map[]) && |freelist| == |old(freelist)| - 1
    {
      hide SysOk, PoolOk, Built;
      r := Kalloc();
      if r == 0 {
        return;
      }
      NewSpaceOk(S(), r);
      NewSpaceBuilt(old(S()), r);
      ghost var s := S();
      mem := mem[r := ZeroTable()];
      owner := owner[r := Tab(r, Root)];
      spaces := spaces[r := Space(map[], map[], map[])];
      assert S() == Sys(old(mem)[r := ZeroTable()], old(owner)[r := Tab(r, Root)],
                        old(spaces)[r := Space(map[], map[], map[])]);
      PoolFrame(first, last, freelist, s, S());
    }

    /** uvmfree(): all user pages, then all table pages. */
    method UvmFree(r: nat, sz: nat)
      requires Valid() && IsProc(S(), r, Pages(sz))
      requires forall v :: v in spaces[r].flat ==> v < Pages(sz)
      modifies this
      ensures Valid() && Gone(old(S()), S(), r)
    {
      hide SysOk, PoolOk, OwnsPage, Gone, SubtreeOk;
      ghost var s := S();
      if sz > 0 {
        assert forall v :: 0 <= v < Pages(sz) ==> v in spaces[r].flat by {
          forall v | 0 <= v < Pages(sz) ensures v in spaces[r].flat { OwnsMapped(s, r, v); }
        }
        UvmUnmap(r, 0, Pages(sz), true);
      } else {
        ReleasedNone(s, r, 0);
      }
      hide Released, IsProc;
      ghost var t := S();
      assert t.spaces[r].flat == map[];
      SpaceSubtree(t, r);
      FreeWalk(r, r, spaces[r], Root);
      PoolKeys(first, last, freelist, S());
      DropSpace(t, S(), r);
      ghost var u := S();
      spaces := spaces - {r};
      PoolSame(first, last, freelist, u, S());
      ReleasedGone(s, t, S(), r, 0, Pages(sz));
    }

    /** One iteration of uvmcopy(): a copy of page i of `from`, as page i of `to`. */
    method CopyPage(from: nat, to: nat, i: nat, ghost s0: Sys) returns (ok: bool)
      requires Valid() && SysOk(s0) && from != to && i < TRAPFRAME && OwnsPage(s0, from, i)
      requires to in spaces && i !in spaces[to].flat && Alloced(s0, S(), to, 0, i, CopyImage(s0, from))
      modifies this
      ensures Valid() && Alloced(old(S()), S(), to, i, if ok then i + 1 else i, CopyImage(s0, from))
      ensures if ok then |freelist| >= |old(freelist)| - 3 else |old(freelist)| < 3
    {
      hide SysOk, PoolOk, OwnsPage, Alloced, Kept, CopyImage, PX, IsData;
      ghost var s := S();
      ghost var img := CopyImage(s0, from);
      AllocedOther(s0, s, to, 0, i, img, from, i);
      OwnsMapped(s, from, i);
      MappedOnPath(s, from, i);
      var found, p, j := Walk(from, i, false);
      if !found {
        assert false; // panic: pte should exist
      }
      LeafEntry(s, from, i, p);
      var pte := mem[p].pte[j];
      if V !in pte.flags {
        assert false; // panic: page not present
      }
      assert pte.flags + {V} == pte.flags;
      DataPage(s, pte.ppn);
      ok := AllocPage(to, i, pte.flags, mem[pte.ppn], img);
    }

    /** uvmcopy(): give `to` copies of all pages of `from`. */
    method UvmCopy(from: nat, to: nat, sz: nat) returns (ok: bool)
      requires Valid() && from != to && IsProc(S(), from, Pages(sz)) && IsProc(S(), to, 0)
      modifies this
      ensures Valid()
      ensures ok ==> IsProc(S(), to, Pages(sz)) && Alloced(old(S()), S(), to, 0, Pages(sz), CopyImage(old(S()), from))
      ensures !ok ==> Grown(old(S()), S(), to)
      ensures if ok then |freelist| >= |old(freelist)| - 3 * Pages(sz) else |old(freelist)| < 3 * Pages(sz)
    {
      hide SysOk, PoolOk, Released, OwnsPage, Alloced, IsProc, Kept, CopyImage;
      ghost var s0 := S();
      ghost var img := CopyImage(s0, from);
      ProcFacts(s0, from, Pages(sz));
      ProcFacts(s0, to, 0);
      ProcOwns(s0, from, Pages(sz));
      AllocedNone(s0, to, 0, img);
      var i := 0;
      while i * PGSIZE < sz
        invariant i <= Pages(sz)
        invariant Valid() && to in spaces && Alloced(s0, S(), to, 0, i, img) && IsProc(S(), to, i)
        invariant |freelist| >= |old(freelist)| - 3 * i
        decreases Pages(sz) - i
      {
        ghost var s := S();
        ProcFacts(s, to, i);
        var got := CopyPage(from, to, i, s0);
        AllocedTrans(s0, s, S(), to, 0, i, if got then i + 1 else i, img);
        AllocedProc(s0, S(), to, 0, if got then i + 1 else i, img);
        if !got {
          s := S();
          ProcOwns(s, to, i);
          forall x | 0 <= x < i ensures x in spaces[to].flat { OwnsMapped(s, to, x); }
          UvmUnmap(to, 0, i, true);
          AllocUndone(s0, s, S(), to, 0, i, img);
          return false;
        }
        i := i + 1;
      }
      return true;
    }

    /** uvmclear(): take page v away from user mode. */
    method UvmClear(r: nat, v: nat)
      requires Valid() && OwnsPage(S(), r, v) && v < TRAPFRAME
      modifies this
      ensures Valid() && Kept(old(S()), S(), r)
      ensures var e := old(spaces)[r].flat[v]; spaces[r].flat == old(spaces)[r].flat[v := Pte(e.ppn, e.flags - {U})]
    {
      hide SysOk, PoolOk, Kept, PX, LeafFree;
      ghost var s := S();
      MappedOnPath(s, r, v);
      var found, p, i := Walk(r, v, false);
      if !found {
        assert false; // panic: uvmclear
      }
      LeafEntry(s, r, v, p);
      var e := mem[p].pte[i];
      assert V in e.flags - {U};
      OnlyOwner(s, r, v, Pte(e.ppn, e.flags - {U}));
      SetPte(r, v, p, i, Pte(e.ppn, e.flags - {U}));
    }

    /** walkaddr(): the physical page of user page v, or 0. */
    method Walkaddr(r: nat, v: nat) returns (pa: nat)
      requires Valid() && r in spaces
      modifies this
      ensures Valid() && S() == old(S()) && freelist == old(freelist)
      ensures pa == if UserOk(S(), r, v) then spaces[r].flat[v].ppn else 0
    {
      hide SysOk, PoolOk, PX, Kept;
      if v >= MAXPAGES {
        return 0;
      }
      var found, p, i := Walk(r, v, false);
      if !found {
        Unreached(S(), r, v);
        return 0;
      }
      LeafEntry(S(), r, v, p);
      if V !in mem[p].pte[i].flags {
        return 0;
      }
      if U !in mem[p].pte[i].flags {
        return 0;
      }
      return mem[p].pte[i].ppn;
    }

    /** copyout(): write src at user address dst; `m` bytes were written. */
    method Copyout(r: nat, dst: nat, src: seq<nat>) returns (ok: bool, ghost m: nat)
      requires Valid() && r in spaces && UserOwned(S(), r)
      modifies this
      ensures Valid() && freelist == old(freelist) && m <= |src| && Written(old(S()), S(), r, dst, src[..m])
      ensures ok <==> m == |src|
      ensures forall a :: dst <= a < dst + m ==> ByteWritable(old(S()), r, a)
      ensures !ok ==> !ByteWritable(old(S()), r, dst + m)
    {
      hide SysOk, PoolOk, PX, Kept, UserOwned, OwnsPage, Written;
      ghost var s0 := S();
      WrittenNone(s0, r, dst);
      m := 0;
      var i := 0;
      while i < |src|
        invariant i == m <= |src| && freelist == old(freelist)
        invariant Valid() && r in spaces && Written(s0, S(), r, dst, src[..i])
        invariant owner == s0.owner && spaces == s0.spaces
        invariant forall a :: dst <= a < dst + i ==> ByteWritable(s0, r, a)
      {
        var v, o := (dst + i) / PGSIZE, (dst + i) % PGSIZE;
        if v >= MAXPAGES {
          return false, i;
        }
        var found, p, j := Walk(r, v, false);
        if !found {
          Unreached(S(), r, v);
          return false, i;
        }
        LeafEntry(S(), r, v, p);
        if W !in mem[p].pte[j].flags {
          return false, i;
        }
        var pa := Walkaddr(r, v);
        PageOwned(first, last, freelist, S(), s0, r, v);
        if pa == 0 {
          return false, i;
        }
        var n := if PGSIZE - o < |src| - i then PGSIZE - o else |src| - i;
        StorePage(r, dst, src, i, n, pa, s0);
        forall a | dst <= a < dst + i + n ensures ByteWritable(s0, r, a) {
          if a >= dst + i { SamePage(dst + i, a, n); }
        }
        i := i + n;
        m := i;
      }
      return true, i;
    }

    /** memmove() of n bytes of src, from index i, to user address dst + i. */
    method StorePage(r: nat, dst: nat, src: seq<nat>, i: nat, n: nat, pa: nat, ghost s0: Sys)
      requires Valid() && SysOk(s0) && i + n <= |src| && Written(s0, S(), r, dst, src[..i])
      requires (dst + i) % PGSIZE + n <= PGSIZE && pa in owner && owner[pa] == User(r, (dst + i) / PGSIZE)
      modifies this`mem
      ensures Valid() && Written(s0, S(), r, dst, src[..i + n])
    {
      hide PoolOk, SpaceOk;
      ghost var s := S();
      OwnerUnique(s, r, (dst + i) / PGSIZE, pa);
      assert s0.owner == owner;
      hide Written, SysOk;
      var o := (dst + i) % PGSIZE;
      var b := mem[pa].bytes;
      var b' := b[..o] + src[i..i + n] + b[o + n..];
      DataOk(s, pa, Data(b'));
      mem := mem[pa := Data(b')];
      WriteStep(s0, s, S(), r, dst, src, i, n, pa);
      PoolFrame(first, last, freelist, s, S());
    }

    /** copyin(): read n bytes at user address src. */
    method Copyin(r: nat, src: nat, n: nat) returns (ok: bool, dst: seq<nat>)
      requires Valid() && r in spaces && UserOwned(S(), r)
      modifies this
      ensures Valid() && S() == old(S()) && freelist == old(freelist)
      ensures ok <==> forall a :: src <= a < src + n ==> ByteOk(S(), r, a)
      ensures ok ==> dst == View(S(), r, src, n)
    {
      hide SysOk, PoolOk, UserOwned, OwnsPage, Byte;
      ghost var s := S();
      dst := [];
      while |dst| < n
        invariant |dst| <= n && Valid() && S() == s && freelist == old(freelist)
        invariant Fetched(s, r, src, dst)
        decreases n - |dst|
      {
        var i := |dst|;
        var v, o := (src + i) / PGSIZE, (src + i) % PGSIZE;
        var pa := Walkaddr(r, v);
        PageOwned(first, last, freelist, s, s, r, v);
        if pa == 0 {
          assert !ByteOk(s, r, src + i);
          return false, dst;
        }
        var m := if PGSIZE - o < n - i then PGSIZE - o else n - i;
        PageBytes(s, r, src + i, m);
        dst := dst + mem[pa].bytes[o..o + m];
      }
      return true, dst;
    }

    /** copyinstr(): read a string of at most `max` bytes, its NUL included. */
    method Copyinstr(r: nat, src: nat, max: nat) returns (ok: bool, dst: seq<nat>)
      requires Valid() && r in spaces && UserOwned(S(), r)
      modifies this
      ensures Valid() && S() == old(S()) && freelist == old(freelist)
      ensures ok <==> exists k: nat :: k < max && StringAt(S(), r, src, k)
      ensures ok ==> dst != [] && StringAt(S(), r, src, |dst| - 1) && dst == View(S(), r, src, |dst|)
    {
      hide SysOk, PoolOk, UserOwned, OwnsPage, Byte;
      ghost var s := S();
      dst := [];
      while |dst| < max
        invariant |dst| <= max && Valid() && S() == s && freelist == old(freelist)
        invariant Fetched(s, r, src, dst) && 0 !in dst
        decreases max - |dst|
      {
        var i := |dst|;
        var v, o := (src + i) / PGSIZE, (src + i) % PGSIZE;
        var pa := Walkaddr(r, v);
        PageOwned(first, last, freelist, s, s, r, v);
        if pa == 0 {
          assert !ByteOk(s, r, src + i);
          return false, dst;
        }
        var m := if PGSIZE - o < max - i then PGSIZE - o else max - i;
        PageBytes(s, r, src + i, m);
        var j := 0;
        while j < m
          invariant j <= m && |dst| == i + j && Valid() && S() == s && freelist == old(freelist)
          invariant Fetched(s, r, src, dst) && 0 !in dst
        {
          assert ByteOk(s, r, src + i + j);
          var c := mem[pa].bytes[o + j];
          dst := dst + [c];
          if c == 0 {
            assert StringAt(s, r, src, i + j);
            return true, dst;
          }
          j := j + 1;
        }
      }
      return false, dst;
    }
  }
}
