/**
 The user's view of memory, byte by byte, and what copyout(), copyin() and copyinstr() of
 kernel/vm.c do to it.
 */
module VmCopy {
  import opened Sv39
  import opened VmState

  /** walkaddr() finds page v: it is mapped for user mode. */
  ghost predicate UserOk(s: Sys, r: nat, v: nat) {
    r in s.spaces && v < MAXPAGES && v in s.spaces[r].flat && U in s.spaces[r].flat[v].flags
  }

  /** The byte at address va can be read. */
  ghost predicate ByteOk(s: Sys, r: nat, va: nat) {
    UserOk(s, r, va / PGSIZE)
  }

  ghost predicate Writable(s: Sys, r: nat, v: nat) {
    UserOk(s, r, v) && W in s.spaces[r].flat[v].flags
  }

  ghost predicate ByteWritable(s: Sys, r: nat, va: nat) {
    Writable(s, r, va / PGSIZE)
  }

  /** Pages open to user mode are pages of the process. */
  ghost predicate UserOwned(s: Sys, r: nat) {
    forall v :: UserOk(s, r, v) ==> OwnsPage(s, r, v)
  }

  /** The byte that user code of r sees at address va. */
  ghost function Byte(s: Sys, r: nat, va: nat): nat {
    if UserOk(s, r, va / PGSIZE) && IsData(s.mem, s.spaces[r].flat[va / PGSIZE].ppn)
    then s.mem[s.spaces[r].flat[va / PGSIZE].ppn].bytes[va % PGSIZE] else 0
  }

  ghost function View(s: Sys, r: nat, va: nat, n: nat): (bs: seq<nat>)
    ensures |bs| == n && forall i :: 0 <= i < n ==> bs[i] == Byte(s, r, va + i)
  {
    if n == 0 then [] else View(s, r, va, n - 1) + [Byte(s, r, va + n - 1)]
  }

  /** A page at byte address `base`, after src has been written at address dst. */
  ghost function Overlay(bytes: seq<nat>, base: nat, dst: nat, src: seq<nat>): seq<nat> {
    seq(|bytes|, i requires 0 <= i < |bytes| =>
      if dst <= base + i < dst + |src| then src[base + i - dst] else bytes[i])
  }

  /** From s0 to s, src has been written at address dst of r, and nothing else has changed. */
  ghost predicate Written(s0: Sys, s: Sys, r: nat, dst: nat, src: seq<nat>) {
    && s.owner == s0.owner && s.spaces == s0.spaces && s.mem.Keys == s0.mem.Keys
    && forall p :: p in s0.mem ==>
         if p in s0.owner && s0.owner[p].User? && s0.owner[p].root == r && IsData(s0.mem, p)
         then s.mem[p] == Data(Overlay(s0.mem[p].bytes, s0.owner[p].v * PGSIZE, dst, src))
         else s.mem[p] == s0.mem[p]
  }

  lemma WrittenNone(s: Sys, r: nat, dst: nat)
    ensures Written(s, s, r, dst, [])
  {
  }

  lemma OverlayApart(bytes: seq<nat>, base: nat, dst: nat, src: seq<nat>, i: nat, n: nat)
    requires i + n <= |src| && (dst + i + n <= base || base + |bytes| <= dst + i)
    ensures Overlay(bytes, base, dst, src[..i]) == Overlay(bytes, base, dst, src[..i + n])
  {
  }

  lemma OverlayStep(bytes: seq<nat>, base: nat, dst: nat, src: seq<nat>, i: nat, n: nat)
    requires i + n <= |src| && base <= dst + i && dst + i + n <= base + |bytes|
    ensures var was, o := Overlay(bytes, base, dst, src[..i]), dst + i - base;
      was[..o] + src[i..i + n] + was[o + n..] == Overlay(bytes, base, dst, src[..i + n])
  {
  }

  /** memmove() of the next n bytes of src into the page of address dst + i. */
  lemma WriteStep(s0: Sys, s: Sys, s': Sys, r: nat, dst: nat, src: seq<nat>, i: nat, n: nat, p: nat)
    requires SysOk(s0) && i + n <= |src| && Written(s0, s, r, dst, src[..i])
    requires var v, o := (dst + i) / PGSIZE, (dst + i) % PGSIZE;
      && o + n <= PGSIZE && p in s0.owner && s0.owner[p] == User(r, v) && IsData(s.mem, p)
      && var b := s.mem[p].bytes;
      s' == Sys(s.mem[p := Data(b[..o] + src[i..i + n] + b[o + n..])], s.owner, s.spaces)
    ensures Written(s0, s', r, dst, src[..i + n])
  {
    hide SysOk, Overlay;
    var v, o := (dst + i) / PGSIZE, (dst + i) % PGSIZE;
    OwnerUnique(s0, r, v, p);
    forall q | q in s0.mem && q in s0.owner && s0.owner[q].User? && s0.owner[q].root == r && IsData(s0.mem, q)
      ensures s'.mem[q] == Data(Overlay(s0.mem[q].bytes, s0.owner[q].v * PGSIZE, dst, src[..i + n]))
    {
      var x := s0.owner[q].v;
      if q == p {
        OverlayStep(s0.mem[q].bytes, x * PGSIZE, dst, src, i, n);
      } else {
        OwnerUnique(s0, r, x, q);
        assert x != v;
        OverlayApart(s0.mem[q].bytes, x * PGSIZE, dst, src, i, n);
      }
    }
  }

  /** Writing bytes of a user page leaves every table as it was. */
  lemma DataOk(s: Sys, p: nat, page: Page)
    requires SysOk(s) && p in s.owner && s.owner[p].User? && page.Data? && |page.bytes| == PGSIZE
    ensures SysOk(Sys(s.mem[p := page], s.owner, s.spaces))
  {
    hide SpaceOk;
    var s' := Sys(s.mem[p := page], s.owner, s.spaces);
    forall r | r in s.spaces ensures SpaceOk(s'.mem, s'.owner, r, s.spaces[r]) {
      SpaceFrame(s.mem, s.owner, s'.mem, s'.owner, r, s.spaces[r]);
    }
    forall q | q in s'.owner ensures Backed(s', q) {
      assert Backed(s, q);
    }
  }

  /** The user sees exactly what was written, where it was written. */
  lemma WrittenView(s0: Sys, s: Sys, r: nat, dst: nat, src: seq<nat>, va: nat)
    requires SysOk(s0) && Written(s0, s, r, dst, src) && UserOwned(s0, r) && ByteOk(s0, r, va)
    ensures Byte(s, r, va) == if dst <= va < dst + |src| then src[va - dst] else Byte(s0, r, va)
  {
    hide SysOk;
    var v := va / PGSIZE;
    assert OwnsPage(s0, r, v);
    var p := s0.spaces[r].flat[v].ppn;
    OwnerUnique(s0, r, v, p);
    hide OwnsPage, UserOwned;
    assert va == v * PGSIZE + va % PGSIZE;
    assert s.mem[p] == Data(Overlay(s0.mem[p].bytes, v * PGSIZE, dst, src));
  }

  /** copyin() after copyout() gives the bytes back. */
  lemma CopyRoundTrip(s0: Sys, s: Sys, r: nat, dst: nat, src: seq<nat>)
    requires SysOk(s0) && Written(s0, s, r, dst, src) && UserOwned(s0, r)
    requires forall a :: dst <= a < dst + |src| ==> ByteOk(s0, r, a)
    ensures View(s, r, dst, |src|) == src
  {
    hide SysOk, Written, UserOwned, Byte;
    forall i | 0 <= i < |src| ensures Byte(s, r, dst + i) == src[i] {
      WrittenView(s0, s, r, dst, src, dst + i);
    }
  }

  lemma Unreached(s: Sys, r: nat, v: nat)
    requires SysOk(s) && r in s.spaces && v / NPTE !in s.spaces[r].low
    ensures v !in s.spaces[r].flat
  {
  }

  /** An address in page v is in page v, wherever it lies there. */
  lemma SamePage(a: nat, b: nat, n: nat)
    requires a <= b < a + n && a % PGSIZE + n <= PGSIZE
    ensures b / PGSIZE == a / PGSIZE && b % PGSIZE == a % PGSIZE + (b - a)
  {
  }

  /** A user page of s0 that s still has is in the pool, so it is not page 0. */
  lemma PageOwned(first: nat, last: nat, freelist: seq<nat>, s: Sys, s0: Sys, r: nat, v: nat)
    requires PoolOk(first, last, freelist, s) && s.owner == s0.owner && s.spaces == s0.spaces && UserOwned(s0, r)
    ensures UserOk(s, r, v) ==>
      var p := s.spaces[r].flat[v].ppn; p != 0 && p in s.owner && s.owner[p] == User(r, v) && UserOk(s0, r, v)
  {
    if UserOk(s, r, v) {
      assert UserOk(s0, r, v) && OwnsPage(s0, r, v);
    }
  }

  /** A NUL-terminated string of k bytes can be read at va. */
  ghost predicate StringAt(s: Sys, r: nat, va: nat, k: nat) {
    && (forall a :: va <= a <= va + k ==> ByteOk(s, r, a))
    && (forall a :: va <= a < va + k ==> Byte(s, r, a) != 0)
    && Byte(s, r, va + k) == 0
  }

  /** The bytes from address src on can be read, and `dst` holds them. */
  ghost predicate Fetched(s: Sys, r: nat, src: nat, dst: seq<nat>) {
    forall a :: src <= a < src + |dst| ==> ByteOk(s, r, a) && Byte(s, r, a) == dst[a - src]
  }

  lemma StringUnique(s: Sys, r: nat, va: nat, k: nat, l: nat)
    requires StringAt(s, r, va, k) && StringAt(s, r, va, l)
    ensures k == l
  {
  }

  /** What lies in the physical page of user page v is what the user sees there. */
  lemma PageBytes(s: Sys, r: nat, a: nat, n: nat)
    requires SysOk(s) && UserOwned(s, r) && UserOk(s, r, a / PGSIZE) && a % PGSIZE + n <= PGSIZE
    ensures var p, o := s.spaces[r].flat[a / PGSIZE].ppn, a % PGSIZE;
      && p in s.mem && s.mem[p].Data? && |s.mem[p].bytes| == PGSIZE
      && (forall x :: a <= x < a + n ==> ByteOk(s, r, x) && Byte(s, r, x) == s.mem[p].bytes[o + x - a])
  {
    hide SysOk;
    assert OwnsPage(s, r, a / PGSIZE);
    OwnerUnique(s, r, a / PGSIZE, s.spaces[r].flat[a / PGSIZE].ppn);
    hide UserOwned, OwnsPage;
    forall x | a <= x < a + n ensures x / PGSIZE == a / PGSIZE && x % PGSIZE == a % PGSIZE + x - a {
      SamePage(a, x, n);
    }
  }
}
