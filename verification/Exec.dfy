/**
 kernel/exec.c: exec() builds a new address space from a program file and an argument
 list, and either replaces the process's memory with it or gives every page back.
 */
module Exec {
  import opened Sv39
  import opened VmState
  import opened VmSpaces
  import opened VmCopy
  import opened Vm
  import opened ProcMemory
  import opened Program

  /** Page v of r holds its part of img. */
  ghost predicate PageShows(s: Sys, r: nat, v: nat, img: seq<nat>) {
    && OwnsPage(s, r, v) && (v + 1) * PGSIZE <= |img|
    && var p := s.spaces[r].flat[v].ppn; p in s.mem && s.mem[p] == Data(img[v * PGSIZE..(v + 1) * PGSIZE])
  }

  /** The first n pages of r hold img. */
  ghost predicate Shows(s: Sys, r: nat, n: nat, img: seq<nat>) {
    |img| == n * PGSIZE && forall v :: 0 <= v < n ==> PageShows(s, r, v, img)
  }

  /** The pages of r from 0 on are mapped with the flags fl. */
  ghost predicate Flagged(s: Sys, r: nat, fl: seq<set<Flag>>) {
    r in s.spaces && forall v :: 0 <= v < |fl| ==> v in s.spaces[r].flat && s.spaces[r].flat[v].flags == fl[v]
  }

  /** A space of n pages, holding img, has been built at r since s0. */
  ghost predicate Loading(s0: Sys, s: Sys, r: nat, n: nat, img: seq<nat>) {
    Built(s0, s, r) && FullProc(s, r, n) && Shows(s, r, n, img)
  }

  lemma ShowsAlloced(s: Sys, t: Sys, r: nat, n: nat, m: nat, img: seq<nat>, perm: set<Flag>)
    requires SysOk(s) && SysOk(t) && Shows(s, r, n, img) && IsProc(s, r, n) && n <= m
    requires Alloced(s, t, r, n, m, ZeroImage(perm))
    ensures Shows(t, r, m, img + Zeros((m - n) * PGSIZE))
  {
    hide SysOk;
    var img' := img + Zeros((m - n) * PGSIZE);
    forall v | 0 <= v < m ensures PageShows(t, r, v, img') {
      if v < n {
        assert PageShows(s, r, v, img);
        var p := s.spaces[r].flat[v].ppn;
        assert v in Minus(t.spaces[r].flat, n, m);
        assert PageKept(s, t, p);
        assert img'[v * PGSIZE..(v + 1) * PGSIZE] == img[v * PGSIZE..(v + 1) * PGSIZE];
      } else {
        assert OwnsPage(t, r, v);
        var p := t.spaces[r].flat[v].ppn;
        OwnerUnique(t, r, v, p);
        NewPage(s, t, r, n, m, perm, v, p);
        assert img'[v * PGSIZE..(v + 1) * PGSIZE] == Filled(0).bytes;
      }
    }
  }

  lemma NewPage(s: Sys, t: Sys, r: nat, n: nat, m: nat, perm: set<Flag>, v: nat, p: nat)
    requires SysOk(s) && IsProc(s, r, n) && n <= v < m
    requires Alloced(s, t, r, n, m, ZeroImage(perm)) && p in t.owner && t.owner[p] == User(r, v)
    ensures p in t.mem && t.mem[p] == Filled(0)
  {
  }

  lemma OverlayPatch(img: seq<nat>, v: nat, dst: nat, src: seq<nat>)
    requires (v + 1) * PGSIZE <= |img| && dst + |src| <= |img|
    ensures Overlay(img[v * PGSIZE..(v + 1) * PGSIZE], v * PGSIZE, dst, src)
         == Patch(img, dst, src)[v * PGSIZE..(v + 1) * PGSIZE]
  {
  }

  lemma ShowsWritten(s: Sys, t: Sys, r: nat, n: nat, img: seq<nat>, dst: nat, src: seq<nat>)
    requires SysOk(s) && Shows(s, r, n, img) && Written(s, t, r, dst, src) && dst + |src| <= |img|
    ensures Shows(t, r, n, Patch(img, dst, src))
  {
    hide SysOk, Overlay;
    forall v | 0 <= v < n ensures PageShows(t, r, v, Patch(img, dst, src)) {
      assert PageShows(s, r, v, img);
      OverlayPatch(img, v, dst, src);
    }
  }

  lemma FullWritten(s0: Sys, s: Sys, t: Sys, r: nat, n: nat, dst: nat, src: seq<nat>)
    requires Built(s0, s, r) && FullProc(s, r, n) && Written(s, t, r, dst, src)
    requires s.mem.Keys == s.owner.Keys
    ensures Built(s0, t, r) && FullProc(t, r, n)
  {
    forall v | 0 <= v < n ensures OwnsPage(t, r, v) { assert OwnsPage(s, r, v); }
    forall p | p in s0.owner
      ensures !Mine(s0.owner[p], r) && (PageKept(s0, t, p) || (s0.owner[p].Free? && Mine(t.owner[p], r)))
    {
      assert PageKept(s0, s, p) || (s0.owner[p].Free? && Mine(s.owner[p], r));
    }
  }

  lemma FullUserOwned(s: Sys, r: nat, n: nat)
    requires FullProc(s, r, n)
    ensures UserOwned(s, r) && r in s.spaces
  {
  }

  /** uvmclear() of the guard page. */
  lemma FullCleared(s0: Sys, s: Sys, t: Sys, r: nat, n: nat, img: seq<nat>, v: nat)
    requires Loading(s0, s, r, n, img) && v < n && Kept(s, t, r) && v in s.spaces[r].flat
    requires var e := s.spaces[r].flat[v]; t.spaces[r].flat == s.spaces[r].flat[v := Pte(e.ppn, e.flags - {U})]
    ensures Loading(s0, t, r, n, img) && r in t.spaces
  {
    BuiltKept(s0, s, t, r);
    hide Built;
    forall x | 0 <= x < n ensures PageShows(t, r, x, img) {
      assert PageShows(s, r, x, img);
      var p := s.spaces[r].flat[x].ppn;
      assert PageKept(s, t, p) || TakenAsTable(s, t, p, r) || OwnTable(s, t, p, r);
    }
    forall x | 0 <= x < n ensures OwnsPage(t, r, x) { assert PageShows(t, r, x, img); }
  }

  /** From s to t, the space at r is gone and one at r' has been built. */
  ghost predicate Swapped(s: Sys, t: Sys, r: nat, r': nat) {
    && s.owner.Keys == t.owner.Keys && r' in t.spaces && t.spaces == (s.spaces - {r})[r' := t.spaces[r']]
    && forall p :: p in s.owner ==>
         if Mine(s.owner[p], r) then t.owner[p].Free?
         else PageKept(s, t, p) || (s.owner[p].Free? && Mine(t.owner[p], r'))
  }

  lemma BuiltSwapped(s: Sys, t: Sys, u: Sys, r: nat, r': nat)
    requires Built(s, t, r') && Gone(t, u, r) && r in s.spaces
    ensures Swapped(s, u, r, r')
  {
  }

  lemma GoneKeeps(t: Sys, u: Sys, r: nat, r': nat, n: nat, img: seq<nat>)
    requires Gone(t, u, r) && r != r' && FullProc(t, r', n) && Shows(t, r', n, img)
    ensures FullProc(u, r', n) && Shows(u, r', n, img) && u.spaces[r'] == t.spaces[r']
  {
    forall v | 0 <= v < n ensures PageShows(u, r', v, img) && OwnsPage(u, r', v) {
      assert PageShows(t, r', v, img);
      var p := t.spaces[r'].flat[v].ppn;
      assert p in t.owner;
    }
  }

  lemma FlagsAlloced(s: Sys, t: Sys, r: nat, fl: seq<set<Flag>>, sz: nat, perm: set<Flag>)
    requires Flagged(s, r, fl) && |fl| <= Pages(sz) && Alloced(s, t, r, |fl|, Pages(sz), ZeroImage(perm))
    ensures Flagged(t, r, GrowFlags(fl, sz, perm))
  {
    forall v | 0 <= v < Pages(sz) ensures v in t.spaces[r].flat
      && t.spaces[r].flat[v].flags == GrowFlags(fl, sz, perm)[v]
    {
      if v < |fl| { assert v in Minus(t.spaces[r].flat, |fl|, Pages(sz)); } else { assert OwnsPage(t, r, v); }
    }
  }

  lemma FlagsSame(s: Sys, t: Sys, r: nat, fl: seq<set<Flag>>)
    requires Flagged(s, r, fl) && r in s.spaces && r in t.spaces && t.spaces[r] == s.spaces[r]
    ensures Flagged(t, r, fl)
  {
  }

  lemma WrittenSame(s: Sys, t: Sys, r: nat, dst: nat, src: seq<nat>)
    requires Written(s, t, r, dst, src)
    ensures t.owner == s.owner && t.spaces == s.spaces
    ensures forall fl :: Flagged(s, r, fl) ==> Flagged(t, r, fl)
  {
  }

  lemma ShowsLength(s: Sys, r: nat, n: nat, img: seq<nat>)
    requires Shows(s, r, n, img)
    ensures |img| == n * PGSIZE
  {
  }

  /** i bytes at offset off of the file have been read. */
  ghost predicate HasRead(file: seq<nat>, off: nat, got: seq<nat>) {
    got == [] || (off + |got| <= |file| && got == file[off..off + |got|])
  }

  lemma ReadChunk(file: seq<nat>, off: nat, got: seq<nat>, n: nat)
    requires |file| < TWO32 && off < TWO32 && HasRead(file, off, got) && n > 0
    ensures var bs := ReadI(file, (off + |got|) % TWO32, n);
      && |bs| <= n && (|bs| == n <==> off + |got| + n <= |file|)
      && (|bs| == n ==> HasRead(file, off, got + bs))
  {
  }

  lemma PageStart(va: nat, i: nat)
    requires va % PGSIZE == 0 && i % PGSIZE == 0
    ensures (va + i) % PGSIZE == 0
  {
  }

  /** loadseg(): the bytes of the file that could be read go to address va; all of them on
      success. The pages are there, so walkaddr() never fails. */
  method LoadSeg(k: Kernel, r: nat, va: nat, file: seq<nat>, off: nat, sz: nat) returns (ok: bool, got: seq<nat>)
    requires k.Valid() && r in k.spaces && UserOwned(k.S(), r) && va % PGSIZE == 0 && |file| < TWO32 && sz < TWO32
      && off < TWO32
    requires forall a :: va <= a < va + sz ==> ByteOk(k.S(), r, a)
    modifies k
    ensures k.Valid() && |got| <= sz && Written(old(k.S()), k.S(), r, va, got)
    ensures ok <==> off + sz <= |file| || sz == 0
    ensures ok ==> got == FileBytes(file, off, sz)
    ensures k.freelist == old(k.freelist)
  {
    hide SysOk, PoolOk, UserOwned, OwnsPage, Written, UserOk, ReadI;
    ghost var s0 := k.S();
    WrittenNone(s0, r, va);
    got := [];
    var i := 0;
    while i < sz
      invariant i % PGSIZE == 0 || i == sz
      invariant k.Valid() && r in k.spaces && k.owner == s0.owner && k.spaces == s0.spaces
        && k.freelist == old(k.freelist)
      invariant |got| == i <= sz && Written(s0, k.S(), r, va, got)
      invariant HasRead(file, off, got)
      decreases sz - i
    {
      PageStart(va, i);
      var v := (va + i) / PGSIZE;
      assert ByteOk(s0, r, va + i);
      UserSame(s0, k.S(), r, v);
      var pa := k.Walkaddr(r, v);
      PageOwned(k.first, k.last, k.freelist, k.S(), s0, r, v);
      if pa == 0 {
        assert false; // panic: loadseg: address should exist
      }
      var n := if sz - i < PGSIZE then sz - i else PGSIZE;
      ReadChunk(file, off, got, n);
      var bytes := ReadI(file, (off + i) % TWO32, n);
      var src := got + bytes;
      assert src[..i] == got && src[i..i + |bytes|] == bytes && src[..i + |bytes|] == src;
      k.StorePage(r, va, src, i, |bytes|, pa, s0);
      WrittenSame(s0, k.S(), r, va, src);
      got := src;
      if |bytes| != n {
        return false, got;
      }
      i := i + n;
    }
    return true, got;
  }

  lemma UserSame(s: Sys, t: Sys, r: nat, v: nat)
    requires s.spaces == t.spaces
    ensures UserOk(s, r, v) == UserOk(t, r, v)
  {
  }

  /** The space is sound and was built since s0, whatever it holds: `bad` can free it. */
  ghost predicate Half(s0: Sys, s: Sys, r: nat, n: nat) {
    Built(s0, s, r) && FullProc(s, r, n)
  }

  /** The checks on a program header, and the file is long enough for it. */
  ghost predicate Loadable(file: seq<nat>, h: ProgHdr) {
    h.load ==>
      && h.filesz <= h.memsz && h.vaddr + h.memsz < TWO64 && h.vaddr % PGSIZE == 0
      && (h.filesz == 0 || Offset(h) + h.filesz <= |file|)
  }

  /** One program header: uvmalloc() and loadseg(). */
  method LoadOne(k: Kernel, r: nat, file: seq<nat>, h: ProgHdr, sz: nat, ghost s0: Sys, ghost img: seq<nat>,
                 ghost fl: seq<set<Flag>>)
    returns (ok: bool, newsz: nat)
    requires k.Valid() && |file| < TWO32 && h.load
    requires Loading(s0, k.S(), r, Pages(sz), img) && Flagged(k.S(), r, fl) && |fl| == Pages(sz) && Open(fl)
    modifies k
    ensures k.Valid() && Half(s0, k.S(), r, Pages(newsz))
    ensures ok ==> Loadable(file, h) && newsz == Max(sz, h.vaddr + h.memsz)
    ensures ok ==> Flagged(k.S(), r, GrowFlags(fl, newsz, {R, U} + Perm(h)))
    ensures ok ==> Loading(s0, k.S(), r, Pages(newsz),
                           Patch(Grow(img, newsz), h.vaddr, FileBytes(file, Offset(h), h.filesz)))
    ensures var most := Max(sz, h.vaddr + h.memsz);
      if ok then most > 0 && |k.freelist| >= |old(k.freelist)| - 3 * (Pages(most) - Pages(sz))
      else !Loadable(file, h) || most == 0 || |old(k.freelist)| < 3 * (Pages(most) - Pages(sz))
  {
    hide SysOk, PoolOk, Alloced, Built, IsProc, OwnsPage, Shows, Flagged, UserOwned, Written, Kept, Patch, Grow,
      Pages, FileBytes, GrowFlags, Open, Perm;
    if h.memsz < h.filesz || h.vaddr + h.memsz >= TWO64 || h.vaddr % PGSIZE != 0 {
      return false, sz;
    }
    ghost var s := k.S();
    var sz1;
    ghost var enough;
    sz1, enough := k.UvmAlloc(r, sz, h.vaddr + h.memsz, Perm(h));
    ghost var t := k.S();
    if enough {
      GrowStep(s0, s, t, r, sz, h.vaddr + h.memsz, sz1, img, fl, {R, U} + Perm(h));
    } else {
      FullGrown(s, t, r, Pages(sz));
      BuiltKept(s0, s, t, r);
    }
    if sz1 == 0 {
      return false, sz;
    }
    FullUserOwned(t, r, Pages(sz1));
    UserBytes(t, r, sz1, h.vaddr, h.filesz, GrowFlags(fl, sz1, {R, U} + Perm(h)));
    ProcFits(k.first, k.last, k.freelist, t, r, Pages(sz1));
    NoTruncation(sz1, h.vaddr, h.filesz);
    var got;
    ok, got := LoadSeg(k, r, h.vaddr, file, h.off % TWO32, h.filesz % TWO32);
    newsz := sz1;
    SysKeys(t);
    FullWritten(s0, t, k.S(), r, Pages(sz1), h.vaddr, got);
    if ok {
      WrittenSame(t, k.S(), r, h.vaddr, got);
      ShowsLength(t, r, Pages(sz1), Grow(img, sz1));
      ShowsWritten(t, k.S(), r, Pages(sz1), Grow(img, sz1), h.vaddr, got);
    }
  }

  /** A segment is small enough for the 32-bit size that loadseg() takes. */
  lemma NoTruncation(sz: nat, va: nat, n: nat)
    requires Pages(sz) <= RAMPAGES && va + n <= sz
    ensures n % TWO32 == n && va + n <= Pages(sz) * PGSIZE
  {
  }

  lemma SysKeys(s: Sys)
    requires SysOk(s)
    ensures s.mem.Keys == s.owner.Keys
  {
  }

  /** uvmalloc() of a space under construction, also when it asks for no more than there is. */
  lemma GrowStep(s0: Sys, s: Sys, t: Sys, r: nat, sz: nat, want: nat, newsz: nat, img: seq<nat>, fl: seq<set<Flag>>,
                 perm: set<Flag>)
    requires SysOk(s) && SysOk(t) && Loading(s0, s, r, Pages(sz), img) && Flagged(s, r, fl) && |fl| == Pages(sz)
    requires want < sz ==> newsz == sz && t == s
    requires sz <= want ==>
      newsz == want && IsProc(t, r, Pages(want)) && Alloced(s, t, r, Pages(sz), Pages(want), ZeroImage(perm))
    ensures Loading(s0, t, r, Pages(newsz), Grow(img, newsz)) && Flagged(t, r, GrowFlags(fl, newsz, perm))
  {
    hide SysOk, Alloced, Built, IsProc, OwnsPage, PageShows, Flagged;
    if sz <= want {
      FullAlloced(s, t, r, Pages(sz), Pages(want), ZeroImage(perm));
      BuiltAlloced(s0, s, t, r, Pages(sz), Pages(want), ZeroImage(perm));
      ShowsAlloced(s, t, r, Pages(sz), Pages(want), img, perm);
      FlagsAlloced(s, t, r, fl, want, perm);
      assert Grow(img, newsz) == img + Zeros((Pages(want) - Pages(sz)) * PGSIZE);
    }
  }

  lemma UserBytes(s: Sys, r: nat, sz: nat, va: nat, n: nat, fl: seq<set<Flag>>)
    requires FullProc(s, r, Pages(sz)) && Flagged(s, r, fl) && |fl| >= Pages(sz) && Open(fl) && va + n <= sz
    ensures forall a :: va <= a < va + n ==> ByteOk(s, r, a)
  {
  }

  /** The program-loading loop; `truncated` when the file ends before the next header. */
  method LoadSegments(k: Kernel, r: nat, file: seq<nat>, phs: seq<ProgHdr>, truncated: bool, ghost s0: Sys)
    returns (ok: bool, sz: nat)
    requires k.Valid() && |file| < TWO32 && Loading(s0, k.S(), r, 0, [])
    modifies k
    ensures k.Valid() && Half(s0, k.S(), r, Pages(sz))
    ensures ok ==> !truncated && forall i :: 0 <= i < |phs| ==> Loadable(file, phs[i])
    ensures ok ==> sz == Size(phs, |phs|) && Loading(s0, k.S(), r, Pages(sz), Loaded(file, phs, |phs|))
    ensures ok ==> Flagged(k.S(), r, LoadedFlags(phs, |phs|)) && (forall i :: 0 <= i < |phs| ==> NotEmpty(phs, i))
    ensures if ok then |k.freelist| >= |old(k.freelist)| - 3 * Pages(sz)
            else truncated || (exists i :: 0 <= i < |phs| && !(Loadable(file, phs[i]) && NotEmpty(phs, i)))
                 || |old(k.freelist)| < 3 * Pages(Size(phs, |phs|))
  {
    LoadedNone(file, phs);
    hide SysOk, PoolOk, Loading, Half, Patch, Grow, Loadable, Pages, NotEmpty, Size, Loaded, LoadedFlags, GrowFlags,
      Open, Flagged, Perm;
    LoadingFlags(s0, k.S(), r, phs);
    sz := 0;
    for i := 0 to |phs|
      invariant k.Valid() && Flagged(k.S(), r, LoadedFlags(phs, i))
      invariant sz == Size(phs, i) && Loading(s0, k.S(), r, Pages(sz), Loaded(file, phs, i))
      invariant forall j :: 0 <= j < i ==> Loadable(file, phs[j]) && NotEmpty(phs, j)
      invariant |k.freelist| >= |old(k.freelist)| - 3 * Pages(sz)
    {
      SizeGrows(phs, i, i + 1);
      SizeGrows(phs, i + 1, |phs|);
      if phs[i].load {
        var done, newsz := LoadOne(k, r, file, phs[i], sz, s0, Loaded(file, phs, i), LoadedFlags(phs, i));
        sz := newsz;
        LoadedStep(file, phs, i);
        if !done {
          return false, sz;
        }
      } else {
        NotLoaded(file, phs, i);
      }
    }
    LoadingHalf(s0, k.S(), r, Pages(sz), Loaded(file, phs, |phs|));
    return !truncated, sz;
  }

  /** A segment that leaves the process without memory is refused. */
  ghost predicate NotEmpty(phs: seq<ProgHdr>, i: nat) {
    i < |phs| && (phs[i].load ==> Size(phs, i + 1) > 0)
  }

  lemma LoadedNone(file: seq<nat>, phs: seq<ProgHdr>)
    ensures Pages(0) == 0 && Size(phs, 0) == 0 && Loaded(file, phs, 0) == []
  {
  }

  lemma LoadingHalf(s0: Sys, s: Sys, r: nat, n: nat, img: seq<nat>)
    requires Loading(s0, s, r, n, img)
    ensures Half(s0, s, r, n)
  {
  }

  lemma LoadingFlags(s0: Sys, s: Sys, r: nat, phs: seq<ProgHdr>)
    requires Loading(s0, s, r, 0, [])
    ensures Flagged(s, r, LoadedFlags(phs, 0))
  {
  }

  lemma {:induction false} SizeGrows(phs: seq<ProgHdr>, i: nat, j: nat)
    requires i <= j <= |phs|
    ensures Size(phs, i) <= Size(phs, j) && Pages(Size(phs, i)) <= Pages(Size(phs, j))
    decreases j
  {
    if i < j { SizeGrows(phs, i, j - 1); }
  }

  lemma NotLoaded(file: seq<nat>, phs: seq<ProgHdr>, i: nat)
    requires i < |phs| && !phs[i].load
    ensures Loadable(file, phs[i]) && NotEmpty(phs, i) && Size(phs, i + 1) == Size(phs, i)
      && Loaded(file, phs, i + 1) == Loaded(file, phs, i)
    ensures LoadedFlags(phs, i + 1) == LoadedFlags(phs, i)
  {
  }

  lemma LoadedStep(file: seq<nat>, phs: seq<ProgHdr>, i: nat)
    requires i < |phs| && phs[i].load
    ensures Size(phs, i + 1) == Max(Size(phs, i), phs[i].vaddr + phs[i].memsz)
      && (NotEmpty(phs, i) <==> Size(phs, i + 1) > 0)
    ensures Loaded(file, phs, i + 1)
      == Patch(Grow(Loaded(file, phs, i), Size(phs, i + 1)), phs[i].vaddr,
               FileBytes(file, Offset(phs[i]), phs[i].filesz))
    ensures LoadedFlags(phs, i + 1) == GrowFlags(LoadedFlags(phs, i), Size(phs, i + 1), {R, U} + Perm(phs[i]))
  {
  }

  /** copyout() of bytes that lie within the space. */
  method Push(k: Kernel, r: nat, n: nat, at: nat, src: seq<nat>, ghost s0: Sys, ghost img: seq<nat>) returns (ok: bool)
    requires k.Valid() && Loading(s0, k.S(), r, n, img) && (n - USERSTACK) * PGSIZE <= at && at + |src| <= n * PGSIZE
    modifies k
    ensures k.Valid() && k.spaces == old(k.spaces) && Half(s0, k.S(), r, n)
    ensures if ok then Loading(s0, k.S(), r, n, Patch(img, at, src)) else !StackOpen(k.S(), r, n)
  {
    hide SysOk, PoolOk, Built, FullProc, Shows, Patch, UserOwned, Written, Writable, StackOpen;
    ghost var s := k.S();
    FullUserOwned(s, r, n);
    ghost var m;
    ok, m := k.Copyout(r, at, src);
    SysKeys(s);
    FullWritten(s0, s, k.S(), r, n, at, src[..m]);
    WrittenSame(s, k.S(), r, at, src[..m]);
    if ok {
      assert src[..m] == src;
      ShowsLength(s, r, n, img);
      ShowsWritten(s, k.S(), r, n, img, at, src);
    } else {
      StackCloses(s, k.S(), r, n, at + m);
    }
  }

  /** The pages of the stack can be written by the user. */
  ghost predicate StackOpen(s: Sys, r: nat, n: nat) {
    forall v :: n - USERSTACK <= v < n && 0 <= v ==> Writable(s, r, v)
  }

  lemma StackCloses(s: Sys, t: Sys, r: nat, n: nat, a: nat)
    requires s.spaces == t.spaces && (n - USERSTACK) * PGSIZE <= a < n * PGSIZE && !ByteWritable(s, r, a)
    ensures !StackOpen(t, r, n)
  {
    assert !Writable(t, r, a / PGSIZE);
  }

  lemma StackSame(s: Sys, t: Sys, r: nat, n: nat)
    requires s.spaces == t.spaces
    ensures StackOpen(s, r, n) == StackOpen(t, r, n)
  {
    forall v: nat ensures Writable(s, r, v) == Writable(t, r, v) {}
  }

  lemma PushedNone(img: seq<nat>, args: seq<seq<nat>>, top: int)
    ensures Pushed(img, args, 0) == img && ArgPtrs(top, args, 0) == []
  {
  }

  /** Pushes the argument strings and then the array of pointers to them, below the top of
      the stack at n * PGSIZE. */
  method PushArgs(k: Kernel, r: nat, n: nat, args: seq<seq<nat>>, ghost s0: Sys, ghost img: seq<nat>)
    returns (ok: bool, sp: nat)
    requires k.Valid() && Loading(s0, k.S(), r, n, img) && n >= USERSTACK + 1
    requires |args| != MAXARG && forall i :: 0 <= i < |args| ==> |args[i]| < PGSIZE
    modifies k
    ensures k.Valid() && k.spaces == old(k.spaces) && Half(s0, k.S(), r, n)
    ensures ok ==> |args| < MAXARG && sp == ArgvPtr(n * PGSIZE, args) && sp >= (n - USERSTACK) * PGSIZE
    ensures ok ==> Loading(s0, k.S(), r, n, Patch(Pushed(img, args, |args|), sp, Argv(n * PGSIZE, args)))
    ensures !ok ==> |args| > MAXARG || ArgvPtr(n * PGSIZE, args) < (n - USERSTACK) * PGSIZE || !StackOpen(k.S(), r, n)
  {
    hide SysOk, PoolOk, Built, FullProc, Shows, Patch, Align, Le64s, StackOpen, StackPtr, Pushed, ArgPtrs;
    ShowsLength(k.S(), r, n, img);
    StackTop(n * PGSIZE, args);
    PushedNone(img, args, n * PGSIZE);
    var ustack := new int[MAXARG];
    var top, stackbase := n * PGSIZE, (n - USERSTACK) * PGSIZE;
    sp := top;
    var argc := 0;
    while argc < |args|
      invariant argc <= |args| && argc <= MAXARG
      invariant k.Valid() && k.spaces == old(k.spaces) && Loading(s0, k.S(), r, n, Pushed(img, args, argc))
      invariant stackbase <= sp <= top && sp == StackPtr(top, args, argc)
      invariant ustack[..argc] == ArgPtrs(top, args, argc)
    {
      if argc >= MAXARG {
        return false, sp;
      }
      StackNext(top, args, argc);
      sp := Align(sp - (|args[argc]| + 1));
      if sp < stackbase {
        StackOver(top, args, argc + 1, stackbase);
        return false, sp;
      }
      PushedStep(img, args, argc + 1);
      var copied := Push(k, r, n, sp, args[argc] + [0], s0, Pushed(img, args, argc));
      if !copied {
        return false, sp;
      }
      ustack[argc] := sp;
      argc := argc + 1;
      assert ustack[..argc] == ustack[..argc - 1] + [sp];
    }
    ustack[argc] := 0;
    assert ustack[..argc + 1] == ustack[..argc] + [0];
    sp := Align(sp - (argc + 1) * 8);
    if sp < stackbase {
      return false, sp;
    }
    ok := Push(k, r, n, sp, Le64s(ustack[..argc + 1]), s0, Pushed(img, args, argc));
  }

  lemma ShowsNone(s: Sys, r: nat)
    ensures Shows(s, r, 0, [])
  {
  }

  lemma BuiltKeeps(s0: Sys, s: Sys, r': nat, r: nat, n: nat)
    requires Built(s0, s, r') && FullProc(s0, r, n)
    ensures r' != r && r in s0.spaces && FullProc(s, r, n)
  {
    BuiltProc(s0, s, r', r, n);
  }

  /** uvmclear() of the guard page leaves the flags that the stack is to have. */
  lemma Clears(s: Sys, t: Sys, u: Sys, r: nat, fl: seq<set<Flag>>)
    requires Flagged(s, r, fl) && Alloced(s, t, r, |fl|, |fl| + USERSTACK + 1, ZeroImage({R, U} + {W})) && r in u.spaces
    requires |fl| in t.spaces[r].flat
    requires var e := t.spaces[r].flat[|fl|]; u.spaces[r].flat == t.spaces[r].flat[|fl| := Pte(e.ppn, e.flags - {U})]
    ensures Flagged(u, r, fl + StackFlags())
  {
    var all := fl + StackFlags();
    forall v | 0 <= v < |all| ensures v in u.spaces[r].flat && u.spaces[r].flat[v].flags == all[v] {
      if v < |fl| { assert v in Minus(t.spaces[r].flat, |fl|, |all|); } else { assert OwnsPage(t, r, v); }
    }
  }

  /** The pages of the stack can be written. */
  lemma StackOpens(s: Sys, r: nat, fl: seq<set<Flag>>, n: nat)
    requires Flagged(s, r, fl + StackFlags()) && n == |fl| + USERSTACK + 1 <= MAXPAGES
    ensures StackOpen(s, r, n)
  {
  }

  /** The guard page and the stack, at the next page boundary. */
  method MakeStack(k: Kernel, r: nat, sz: nat, ghost s0: Sys, ghost img: seq<nat>, ghost fl: seq<set<Flag>>)
    returns (ok: bool, newsz: nat)
    requires k.Valid() && Loading(s0, k.S(), r, Pages(sz), img) && Flagged(k.S(), r, fl) && |fl| == Pages(sz)
    modifies k
    ensures k.Valid() && Half(s0, k.S(), r, Pages(newsz))
    ensures ok ==> newsz == (Pages(sz) + USERSTACK + 1) * PGSIZE && Flagged(k.S(), r, fl + StackFlags())
    ensures ok ==>
      Loading(s0, k.S(), r, Pages(newsz), img + Zeros((USERSTACK + 1) * PGSIZE)) && StackOpen(k.S(), r, Pages(newsz))
    ensures !ok ==> |old(k.freelist)| < 3 * (USERSTACK + 1)
  {
    hide SysOk, PoolOk, Alloced, Built, IsProc, OwnsPage, Shows, Flagged, Kept, StackOpen, StackFlags, GrowFlags;
    ghost var s := k.S();
    newsz := Pages(sz) * PGSIZE;
    var sz1;
    ghost var enough;
    sz1, enough := k.UvmAlloc(r, newsz, newsz + (USERSTACK + 1) * PGSIZE, {W});
    ghost var t := k.S();
    if enough {
      GrowStep(s0, s, t, r, newsz, newsz + (USERSTACK + 1) * PGSIZE, sz1, img, fl, {R, U} + {W});
      ShowsLength(s, r, Pages(sz), img);
    } else {
      FullGrown(s, t, r, Pages(sz));
      BuiltKept(s0, s, t, r);
    }
    if sz1 == 0 {
      return false, newsz;
    }
    newsz := sz1;
    ghost var n := Pages(newsz);
    ProcFacts(t, r, n);
    ProcOwns(t, r, n);
    OwnsMapped(t, r, n - USERSTACK - 1);
    k.UvmClear(r, newsz / PGSIZE - USERSTACK - 1);
    FullCleared(s0, t, k.S(), r, n, Grow(img, newsz), n - USERSTACK - 1);
    Clears(s, t, k.S(), r, fl);
    StackOpens(k.S(), r, fl, n);
    return true, newsz;
  }

  /** The `bad` exit: every page that was taken is given back. */
  method Bad(k: Kernel, r: nat, sz: nat, ghost s0: Sys)
    requires k.Valid() && Half(s0, k.S(), r, Pages(sz))
    modifies k
    ensures k.Valid() && Restored(s0, k.S())
  {
    hide SysOk, Built, FullProc, Restored, Gone;
    ghost var s := k.S();
    ProcFreePagetable(k, r, sz);
    BuiltGone(s0, s, k.S(), r);
  }

  /** What exec() demands of the program and its arguments. */
  ghost predicate CanRun(file: seq<nat>, phs: seq<ProgHdr>, truncated: bool, args: seq<seq<nat>>) {
    var top := (Pages(Size(phs, |phs|)) + USERSTACK + 1) * PGSIZE;
    && !truncated && (forall i :: 0 <= i < |phs| ==> Loadable(file, phs[i]) && NotEmpty(phs, i))
    && |args| < MAXARG && ArgvPtr(top, args) >= top - USERSTACK * PGSIZE
  }

  /** exec(), from the check of the ELF header on. */
  method Exec(k: Kernel, r: nat, sz: nat, trampoline: nat, trapframe: nat,
              file: seq<nat>, phs: seq<ProgHdr>, truncated: bool, args: seq<seq<nat>>)
    returns (ok: bool, newr: nat, newsz: nat, sp: nat)
    requires k.Valid() && FullProc(k.S(), r, Pages(sz)) && |file| < TWO32
    requires |args| != MAXARG && forall i :: 0 <= i < |args| ==> |args[i]| < PGSIZE
    modifies k
    ensures k.Valid()
    ensures !ok ==> Restored(old(k.S()), k.S())
    ensures ok ==> Swapped(old(k.S()), k.S(), r, newr) && FullProc(k.S(), newr, Pages(newsz))
    ensures ok ==> Shows(k.S(), newr, Pages(newsz), ExecImage(file, phs, args))
    ensures ok ==> newsz == (Pages(Size(phs, |phs|)) + USERSTACK + 1) * PGSIZE && sp == ArgvPtr(newsz, args)
    ensures ok ==> Flagged(k.S(), newr, ExecFlags(phs))
    ensures ok ==> Starts(ExecImage(file, phs, args), ExecFlags(phs), sp, file, phs, args)
    ensures ok ==> CanRun(file, phs, truncated, args)
    ensures !ok && CanRun(file, phs, truncated, args) ==>
              |old(k.freelist)| < 5 + 3 * (Pages(Size(phs, |phs|)) + USERSTACK + 1)
  {
    hide SysOk, PoolOk, Built, FullProc, Shows, Flagged, Patch, Restored, Gone, Swapped, ArgvPtr, Loaded,
      LoadedFlags, StackFlags, Argv, Pushed, StackOpen, Loadable, NotEmpty, Starts;
    newr, newsz, sp := 0, 0, 0;
    ghost var s0 := k.S();
    newr := ProcPagetable(k, trampoline, trapframe);
    if newr == 0 {
      return false, 0, 0, 0;
    }
    ShowsNone(k.S(), newr);
    ok, newsz := LoadSegments(k, newr, file, phs, truncated, s0);
    if !ok {
      Bad(k, newr, newsz, s0);
      return;
    }
    ghost var img := Loaded(file, phs, |phs|);
    ok, newsz := MakeStack(k, newr, newsz, s0, img, LoadedFlags(phs, |phs|));
    if !ok {
      Bad(k, newr, newsz, s0);
      return;
    }
    ghost var s := k.S();
    BuiltIn(s0, s, newr);
    ShowsLength(s, newr, Pages(newsz), img + Zeros((USERSTACK + 1) * PGSIZE));
    ok, sp := PushArgs(k, newr, newsz / PGSIZE, args, s0, img + Zeros((USERSTACK + 1) * PGSIZE));
    StackSame(s, k.S(), newr, Pages(newsz));
    if !ok {
      Bad(k, newr, newsz, s0);
      return;
    }
    ghost var t := k.S();
    BuiltKeeps(s0, t, newr, r, Pages(sz));
    ProcFreePagetable(k, r, sz);
    BuiltSwapped(s0, t, k.S(), r, newr);
    GoneKeeps(t, k.S(), r, newr, Pages(newsz), ExecImage(file, phs, args));
    FlagsSame(s, k.S(), newr, ExecFlags(phs));
    ProcFits(k.first, k.last, k.freelist, k.S(), newr, Pages(newsz));
    RunStarts(newsz, file, phs, truncated, args);
  }

  lemma RunStarts(sz: nat, file: seq<nat>, phs: seq<ProgHdr>, truncated: bool, args: seq<seq<nat>>)
    requires Pages(sz) <= RAMPAGES && CanRun(file, phs, truncated, args)
    requires sz == (Pages(Size(phs, |phs|)) + USERSTACK + 1) * PGSIZE
    ensures Starts(ExecImage(file, phs, args), ExecFlags(phs), ArgvPtr(sz, args), file, phs, args)
  {
    hide Starts, ExecImage, ExecFlags, ArgvPtr, Pages, Size;
    PagesHold(sz);
    forall i | 0 <= i < |phs| ensures HasBytes(file, phs[i]) { assert Loadable(file, phs[i]); }
    ExecStarts(file, phs, args);
  }
}
