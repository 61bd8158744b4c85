/**
 The memory of processes: proc_pagetable(), proc_freepagetable() and growproc() of
 kernel/proc.c, and the memory side of fork().
 */
module ProcMemory {
  import opened Sv39
  import opened VmState
  import opened VmSpaces
  import opened VmCopy
  import opened Vm
  import opened VmViews

  /** proc_pagetable(): a space with the trampoline and trap-frame pages mapped, or 0. */
  method ProcPagetable(k: Kernel, trampoline: nat, trapframe: nat) returns (r: nat)
    requires k.Valid()
    modifies k
    ensures k.Valid()
    ensures r == 0 ==> Restored(old(k.S()), k.S())
    ensures r != 0 ==> Built(old(k.S()), k.S(), r) && FullProc(k.S(), r, 0)
    ensures r != 0 ==>
      k.spaces[r].flat == map[TRAMPOLINE := Pte(trampoline, {V, R, X}), TRAPFRAME := Pte(trapframe, {V, R, W})]
    ensures if r == 0 then |old(k.freelist)| < 5 else |k.freelist| >= |old(k.freelist)| - 5
  {
    hide SysOk, PoolOk, Built, Kept, Restored, Gone, Released;
    ghost var s0 := k.S();
    r := k.UvmCreate();
    if r == 0 {
      RestoredSame(s0);
      return;
    }
    BuiltIn(s0, k.S(), r);
    ghost var s := k.S();
    assert IsProc(s, r, 0);
    var ok := k.MapPages(r, TRAMPOLINE, 1, trampoline, {R, X});
    BuiltKept(s0, s, k.S(), r);
    if !ok {
      assert k.spaces[r].flat == map[];
      s := k.S();
      k.UvmFree(r, 0);
      BuiltGone(s0, s, k.S(), r);
      return 0;
    }
    s := k.S();
    assert {R, X} + {V} == {V, R, X} && {R, W} + {V} == {V, R, W};
    assert s.spaces[r].flat == map[TRAMPOLINE := Pte(trampoline, {V, R, X})];
    ok := k.MapPages(r, TRAPFRAME, 1, trapframe, {R, W});
    BuiltKept(s0, s, k.S(), r);
    if !ok {
      s := k.S();
      k.UvmUnmap(r, TRAMPOLINE, 1, false);
      BuiltReleased(s0, s, k.S(), r, TRAMPOLINE, TRAMPOLINE + 1);
      ReleasedFlat(s, k.S(), r, TRAMPOLINE, TRAMPOLINE + 1);
      s := k.S();
      k.UvmFree(r, 0);
      BuiltGone(s0, s, k.S(), r);
      return 0;
    }
  }

  /** proc_freepagetable() */
  method ProcFreePagetable(k: Kernel, r: nat, sz: nat)
    requires k.Valid() && FullProc(k.S(), r, Pages(sz))
    modifies k
    ensures k.Valid() && Gone(old(k.S()), k.S(), r)
  {
    hide SysOk, PoolOk, Gone, Released, OwnsPage;
    ghost var s := k.S();
    k.UvmUnmap(r, TRAMPOLINE, 1, false);
    ghost var t := k.S();
    ReleasedFlat(s, t, r, TRAMPOLINE, TRAMPOLINE + 1);
    ProcReleased(s, t, r, Pages(sz), TRAMPOLINE, TRAMPOLINE + 1);
    k.UvmUnmap(r, TRAPFRAME, 1, false);
    ghost var u := k.S();
    ReleasedFlat(t, u, r, TRAPFRAME, TRAPFRAME + 1);
    ProcReleased(t, u, r, Pages(sz), TRAPFRAME, TRAPFRAME + 1);
    k.UvmFree(r, sz);
    ReleasedGone(t, u, k.S(), r, TRAPFRAME, TRAPFRAME + 1);
    ReleasedGone(s, t, k.S(), r, TRAMPOLINE, TRAMPOLINE + 1);
  }

  /** growproc(): the new size of the process, or failure. */
  method GrowProc(k: Kernel, r: nat, sz: nat, n: int) returns (ok: bool, newsz: nat)
    requires k.Valid() && FullProc(k.S(), r, Pages(sz)) && sz < TWO64 && -0x8000_0000 <= n < 0x8000_0000
    modifies k
    ensures k.Valid() && FullProc(k.S(), r, Pages(newsz))
    ensures !ok ==> newsz == sz && Grown(old(k.S()), k.S(), r)
    ensures !ok ==> n > 0 && |old(k.freelist)| < 3 * (Pages(sz + n) - Pages(sz))
    ensures n > 0 && ok ==>
      newsz == sz + n && Alloced(old(k.S()), k.S(), r, Pages(sz), Pages(newsz), ZeroImage({R, U} + {W}))
    ensures n <= 0 ==> ok && newsz == if sz + n >= 0 then sz + n else sz
    ensures n <= 0 && newsz < sz ==> Released(old(k.S()), k.S(), r, Pages(newsz), Pages(sz))
    ensures n <= 0 && newsz == sz ==> k.S() == old(k.S())
    ensures n > 0 && ok ==> SameBytes(old(k.S()), r, k.S(), r, Pages(sz))
    ensures n > 0 && ok ==>
      forall a: nat :: Pages(sz) * PGSIZE <= a < Pages(newsz) * PGSIZE ==> FreshByte(k.S(), r, a)
    ensures newsz < sz ==> SameBytes(old(k.S()), r, k.S(), r, Pages(newsz))
    ensures newsz < sz ==>
      forall a: nat :: Pages(newsz) * PGSIZE <= a < Pages(sz) * PGSIZE ==> !ByteOk(k.S(), r, a)
  {
    hide SysOk, PoolOk, Alloced, Released, Kept, IsProc, OwnsPage, SameBytes, FreshByte, ByteOk;
    ghost var s := k.S();
    newsz := sz;
    if n > 0 {
      var sz1;
      ghost var grown;
      sz1, grown := k.UvmAlloc(r, sz, sz + n, {W});
      if sz1 == 0 {
        FullGrown(s, k.S(), r, Pages(sz));
        return false, sz;
      }
      FullAlloced(s, k.S(), r, Pages(sz), Pages(sz + n), ZeroImage({R, U} + {W}));
      GrownBytes(s, k.S(), r, Pages(sz), Pages(sz + n), {R, U} + {W});
      newsz := sz1;
    } else if n < 0 {
      ProcFacts(s, r, Pages(sz));
      ProcOwns(s, r, Pages(sz));
      // sz + n is computed in 64 bits: a shrink below zero wraps round and changes nothing
      newsz := k.UvmDealloc(r, sz, if sz + n >= 0 then sz + n else sz + n + TWO64);
      if newsz < sz {
        FullShrunk(s, k.S(), r, Pages(sz), Pages(newsz));
        ShrunkBytes(s, k.S(), r, Pages(newsz), Pages(sz));
      }
    }
    return true, newsz;
  }

  /** The memory side of fork(): a trap-frame page and a copy of the parent's space. */
  method ForkMemory(k: Kernel, parent: nat, sz: nat, trampoline: nat) returns (child: nat, trapframe: nat)
    requires k.Valid() && FullProc(k.S(), parent, Pages(sz))
    modifies k
    ensures k.Valid()
    ensures child == 0 ==> Restored(old(k.S()), k.S()) && |old(k.freelist)| < 6 + 3 * Pages(sz)
    ensures child != 0 ==> FullProc(k.S(), child, Pages(sz)) && FullProc(k.S(), parent, Pages(sz))
    ensures child != 0 ==> forall v :: 0 <= v < Pages(sz) ==> CopyOf(old(k.S()), parent, k.S(), child, v)
    ensures child != 0 ==> SameBytes(old(k.S()), parent, k.S(), child, Pages(sz))
    ensures child != 0 ==> trapframe in old(k.S()).owner && old(k.S()).owner[trapframe].Free?
    ensures child != 0 ==> Built(Hold(old(k.S()), trapframe, Filled(5), Held), k.S(), child)
  {
    hide SysOk, PoolOk, Alloced, Released, Kept, IsProc, OwnsPage, Built, Restored, Gone, CopyOf, CopyImage,
      SameBytes;
    ghost var s0 := k.S();
    ProcFacts(s0, parent, Pages(sz));
    trapframe := k.Kalloc();
    if trapframe == 0 {
      RestoredSame(s0);
      return 0, 0;
    }
    ghost var s1 := k.S();
    assert s1 == Hold(s0, trapframe, Filled(5), Held);
    HeldProc(s0, trapframe, Filled(5), parent, Pages(sz));
    child := ProcPagetable(k, trampoline, trapframe);
    if child == 0 {
      RestoredHolds(s1, k.S(), trapframe);
      GiveBack(k, trapframe);
      RestoredBack(s0, s1, k.S(), trapframe, Filled(5));
      return 0, 0;
    }
    ghost var s2 := k.S();
    BuiltProc(s1, s2, child, parent, Pages(sz));
    BuiltHolds(s1, s2, child, trapframe);
    var ok := k.UvmCopy(parent, child, sz);
    ghost var s3 := k.S();
    if !ok {
      FullGrown(s2, s3, child, 0);
      BuiltKept(s1, s2, s3, child);
      BuiltHolds(s1, s3, child, trapframe);
      BuiltBack(s0, s1, s3, trapframe, Filled(5), Filled(1), child);
      GiveBack(k, trapframe);
      HeldFull(s3, trapframe, Filled(1), child);
      ghost var s4 := k.S();
      ProcFreePagetable(k, child, 0);
      BuiltGone(s0, s4, k.S(), child);
      return 0, 0;
    }
    FullAlloced(s2, s3, child, 0, Pages(sz), CopyImage(s2, parent));
    BuiltAlloced(s1, s2, s3, child, 0, Pages(sz), CopyImage(s2, parent));
    BuiltFull(s0, s1, s3, trapframe, Filled(5), child, parent, Pages(sz));
    ProcOwns(s0, parent, Pages(sz));
    forall v | 0 <= v < Pages(sz) ensures CopyOf(s0, parent, s3, child, v) {
      AllocedCopies(s2, s3, parent, child, Pages(sz), v);
      CopyOfHeld(s0, s1, s2, trapframe, Filled(5), parent, child, v, s3);
    }
    CopiedBytes(s0, parent, s3, child, Pages(sz));
  }

  /** kfree() of a page that the kernel holds outside any address space. */
  method GiveBack(k: Kernel, p: nat)
    requires k.Valid() && p in k.owner && k.owner[p].Held?
    modifies k
    ensures k.Valid() && k.S() == Hold(old(k.S()), p, Filled(1), Free)
  {
    GiveAway(k.S(), p, Filled(1), Free);
    hide SysOk;
    k.Kfree(p);
  }
}
