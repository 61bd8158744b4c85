/**
 What the machine makes of the kernel's work: how the hardware translates addresses through the
 tables, and which bytes a process sees when its memory grows, shrinks or is copied.
 */
module VmViews {
  import opened Sv39
  import opened VmState
  import opened VmSpaces
  import opened VmCopy
  import opened Vm

  // ----- the hardware's walk -----

  datatype Walked = Fault | Entry(level: nat, pte: Pte)

  /** The part of page number v that is the index at `level`: nine bits each. */
  ghost function Vpn(level: nat, v: nat): (i: nat)
    ensures i < 512
  {
    if level == 2 then v / 0x4_0000 % 512 else if level == 1 then v / 0x200 % 512 else v % 512
  }

  /** Translation of page v from the table at physical page p of `level` (section 4.3.2 of the RISC-V
      Privileged Architecture manual): an entry that is not valid faults, a leaf ends the walk. */
  ghost function Translate(mem: Memory, p: nat, level: nat, v: nat): Walked
    requires level <= 2
    decreases level
  {
    if !IsTable(mem, p) then Fault else
    var e := mem[p].pte[Vpn(level, v)];
    if V !in e.flags || (R !in e.flags && W in e.flags) then Fault
    else if R in e.flags || X in e.flags then Entry(level, e)
    else if level == 0 then Fault
    else Translate(mem, e.ppn, level - 1, v)
  }

  lemma VpnIndex(v: nat)
    ensures Vpn(2, v) == PX(2, v) && Vpn(1, v) == PX(1, v) && Vpn(0, v) == PX(0, v)
  {
  }

  lemma TranslateRoot(mem: Memory, owner: Owners, r: nat, sp: Space, v: nat)
    requires RootOk(mem, owner, r, sp)
    ensures Translate(mem, r, 2, v) ==
      if PX(2, v) in sp.mid then Translate(mem, sp.mid[PX(2, v)], 1, v) else Fault
  {
    VpnIndex(v);
    hide PX, Vpn;
    assert mem[r].pte[PX(2, v)] == Link(sp.mid, 0 + PX(2, v));
  }

  lemma TranslateMid(mem: Memory, owner: Owners, r: nat, sp: Space, v: nat, k: nat)
    requires MidOk(mem, owner, r, sp, PX(2, v)) && k == PX(2, v) * NPTE + PX(1, v)
    ensures Translate(mem, sp.mid[PX(2, v)], 1, v) == if k in sp.low then Translate(mem, sp.low[k], 0, v) else Fault
  {
    VpnIndex(v);
    hide PX, Vpn;
    assert mem[sp.mid[PX(2, v)]].pte[PX(1, v)] == Link(sp.low, k);
  }

  lemma TranslateLow(mem: Memory, owner: Owners, r: nat, sp: Space, v: nat, k: nat)
    requires LowOk(mem, owner, r, sp, k) && v == k * NPTE + PX(0, v)
    requires v in sp.flat ==> (W in sp.flat[v].flags ==> R in sp.flat[v].flags)
    ensures Translate(mem, sp.low[k], 0, v) == if v in sp.flat then Entry(0, sp.flat[v]) else Fault
  {
    VpnIndex(v);
    hide PX, Vpn;
    assert EntryOk(mem[sp.low[k]].pte[PX(0, v)], sp.flat, v);
  }

  /** The hardware finds in the tables exactly the flat map that the kernel keeps. It reserves pages
      that can be written and not read. */
  lemma TranslateFlat(s: Sys, r: nat, v: nat)
    requires SysOk(s) && r in s.spaces && v < MAXPAGES
    requires v in s.spaces[r].flat ==> (W in s.spaces[r].flat[v].flags ==> R in s.spaces[r].flat[v].flags)
    ensures Translate(s.mem, r, 2, v) == if v in s.spaces[r].flat then Entry(0, s.spaces[r].flat[v]) else Fault
  {
    var sp, k := s.spaces[r], v / NPTE;
    Indices(v);
    assert SpaceOk(s.mem, s.owner, r, sp);
    hide PX, Translate, RootOk, MidOk;
    TranslateRoot(s.mem, s.owner, r, sp, v);
    if PX(2, v) in sp.mid {
      TranslateMid(s.mem, s.owner, r, sp, v, k);
      if k in sp.low {
        TranslateLow(s.mem, s.owner, r, sp, v, k);
      }
    }
  }

  // ----- bytes -----

  /** At address a, r' in s' sees what r sees in s, with the same access. */
  ghost predicate SameByte(s: Sys, r: nat, s': Sys, r': nat, a: nat) {
    && Byte(s', r', a) == Byte(s, r, a)
    && (ByteOk(s', r', a) <==> ByteOk(s, r, a)) && (ByteWritable(s', r', a) <==> ByteWritable(s, r, a))
  }

  ghost predicate SameBytes(s: Sys, r: nat, s': Sys, r': nat, n: nat) {
    forall a: nat :: a < n * PGSIZE ==> SameByte(s, r, s', r', a)
  }

  /** A byte that can be written and is zero. */
  ghost predicate FreshByte(s: Sys, r: nat, a: nat) {
    ByteOk(s, r, a) && ByteWritable(s, r, a) && Byte(s, r, a) == 0
  }

  lemma KeptByte(s: Sys, t: Sys, r: nat, r': nat, a: nat)
    requires r in s.spaces && r' in t.spaces
    requires var v := a / PGSIZE;
      && v in s.spaces[r].flat && v in t.spaces[r'].flat
      && s.spaces[r].flat[v].flags == t.spaces[r'].flat[v].flags
      && var p, q := s.spaces[r].flat[v].ppn, t.spaces[r'].flat[v].ppn;
      p in s.mem && q in t.mem && s.mem[p] == t.mem[q]
    ensures SameByte(s, r, t, r', a)
  {
  }

  lemma AllocedByte(s: Sys, t: Sys, r: nat, lo: nat, hi: nat, img: nat -> Image, a: nat)
    requires SysOk(s) && IsProc(s, r, lo) && Alloced(s, t, r, lo, hi, img) && a / PGSIZE < lo
    ensures SameByte(s, r, t, r, a)
  {
    hide SysOk;
    var v := a / PGSIZE;
    assert OwnsPage(s, r, v);
    var p := s.spaces[r].flat[v].ppn;
    OwnerUnique(s, r, v, p);
    assert v in Minus(t.spaces[r].flat, lo, hi);
    assert PageKept(s, t, p);
    KeptByte(s, t, r, r, a);
  }

  lemma ZeroByte(s: Sys, t: Sys, r: nat, lo: nat, hi: nat, perm: set<Flag>, a: nat)
    requires SysOk(s) && SysOk(t) && IsProc(s, r, lo) && Alloced(s, t, r, lo, hi, ZeroImage(perm))
    requires U in perm && W in perm && lo <= a / PGSIZE < hi
    ensures FreshByte(t, r, a)
  {
    hide SysOk;
    var v := a / PGSIZE;
    assert OwnsPage(t, r, v) && t.spaces[r].flat[v].flags == perm + {V};
    var p := t.spaces[r].flat[v].ppn;
    OwnerUnique(t, r, v, p);
    if s.owner[p] == t.owner[p] { OwnerUnique(s, r, v, p); }
    assert t.mem[p] == Filled(0);
  }

  /** A grown process sees its old memory as it was, and zeroes that it can write above that. */
  lemma GrownBytes(s: Sys, t: Sys, r: nat, lo: nat, hi: nat, perm: set<Flag>)
    requires SysOk(s) && SysOk(t) && IsProc(s, r, lo) && Alloced(s, t, r, lo, hi, ZeroImage(perm))
    requires U in perm && W in perm
    ensures SameBytes(s, r, t, r, lo) && forall a: nat :: lo * PGSIZE <= a < hi * PGSIZE ==> FreshByte(t, r, a)
  {
    hide SysOk, IsProc, Alloced, SameByte, FreshByte;
    forall a: nat | a < lo * PGSIZE ensures SameByte(s, r, t, r, a) {
      AllocedByte(s, t, r, lo, hi, ZeroImage(perm), a);
    }
    forall a: nat | lo * PGSIZE <= a < hi * PGSIZE ensures FreshByte(t, r, a) {
      ZeroByte(s, t, r, lo, hi, perm, a);
    }
  }

  lemma ReleasedByte(s: Sys, t: Sys, r: nat, lo: nat, hi: nat, a: nat)
    requires SysOk(s) && IsProc(s, r, hi) && Released(s, t, r, lo, hi) && lo <= hi
    ensures if a / PGSIZE < lo then SameByte(s, r, t, r, a) else a / PGSIZE < hi ==> !ByteOk(t, r, a)
  {
    hide SysOk;
    var v := a / PGSIZE;
    if v < lo {
      assert OwnsPage(s, r, v);
      var p := s.spaces[r].flat[v].ppn;
      OwnerUnique(s, r, v, p);
      assert PageKept(s, t, p);
      KeptByte(s, t, r, r, a);
    }
  }

  /** A process that has shrunk sees what is left as it was, and nothing of the rest. */
  lemma ShrunkBytes(s: Sys, t: Sys, r: nat, lo: nat, hi: nat)
    requires SysOk(s) && IsProc(s, r, hi) && Released(s, t, r, lo, hi) && lo <= hi
    ensures SameBytes(s, r, t, r, lo) && forall a: nat :: lo * PGSIZE <= a < hi * PGSIZE ==> !ByteOk(t, r, a)
  {
    hide SysOk, IsProc, Released, SameByte, ByteOk;
    forall a: nat ensures a < lo * PGSIZE ==> SameByte(s, r, t, r, a)
      ensures lo * PGSIZE <= a < hi * PGSIZE ==> !ByteOk(t, r, a)
    {
      ReleasedByte(s, t, r, lo, hi, a);
    }
  }

  /** A child sees at every address what its parent saw. */
  lemma CopiedBytes(s: Sys, r: nat, t: Sys, r': nat, n: nat)
    requires forall v :: 0 <= v < n ==> CopyOf(s, r, t, r', v)
    ensures SameBytes(s, r, t, r', n)
  {
    hide SameByte;
    forall a: nat | a < n * PGSIZE ensures SameByte(s, r, t, r', a) {
      assert CopyOf(s, r, t, r', a / PGSIZE);
      KeptByte(s, t, r, r', a);
    }
  }

  /** What one process writes, no other sees. */
  lemma WrittenApart(s: Sys, t: Sys, r: nat, dst: nat, src: seq<nat>, r': nat, a: nat)
    requires SysOk(s) && Written(s, t, r, dst, src) && r != r' && UserOwned(s, r')
    ensures SameByte(s, r', t, r', a)
  {
    hide SysOk;
    var v := a / PGSIZE;
    if UserOk(s, r', v) {
      assert OwnsPage(s, r', v);
      var p := s.spaces[r'].flat[v].ppn;
      OwnerUnique(s, r', v, p);
      KeptByte(s, t, r', r', a);
    }
  }
}
