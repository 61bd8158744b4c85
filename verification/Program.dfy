/**
 The memory that exec() of kernel/exec.c is to build from a program file and an argument
 list, as one run of bytes from address 0.
 */
module Program {
  import opened Sv39

  const TWO32: nat := 0x1_0000_0000
  const MAXARG: nat := 32
  const USERSTACK: nat := 1

  /** A program header; its fields are 64 bits wide. */
  datatype ProgHdr = ProgHdr(load: bool, off: nat, vaddr: nat, filesz: nat, memsz: nat, exec: bool, write: bool)

  /** flags2perm() */
  function Perm(h: ProgHdr): set<Flag> {
    (if h.exec then {X} else {}) + (if h.write then {W} else {})
  }

  /** loadseg() takes its file offset as a 32-bit number. */
  function Offset(h: ProgHdr): nat {
    h.off % TWO32
  }

  /** What readi() delivers of n bytes at offset off of a file. */
  function ReadI(file: seq<nat>, off: nat, n: nat): seq<nat> {
    if off > |file| || off + n >= TWO32 then []
    else if off + n <= |file| then file[off..off + n] else file[off..]
  }

  /** n bytes at offset off, when the file has them. */
  function FileBytes(file: seq<nat>, off: nat, n: nat): seq<nat> {
    if n > 0 && off + n <= |file| then file[off..off + n] else []
  }

  function Zeros(n: nat): seq<nat> {
    seq(n, _ => 0)
  }

  function Patch(img: seq<nat>, at: nat, src: seq<nat>): seq<nat> {
    if at + |src| <= |img| then img[..at] + src + img[at + |src|..] else img
  }

  /** uvmalloc() to sz bytes: whole zero pages are added. */
  function Grow(img: seq<nat>, sz: nat): seq<nat> {
    if |img| < Pages(sz) * PGSIZE then img + Zeros(Pages(sz) * PGSIZE - |img|) else img
  }

  function Max(a: nat, b: nat): nat {
    if a < b then b else a
  }

  /** The size of the process after the first k headers. */
  function Size(phs: seq<ProgHdr>, k: nat): nat
    requires k <= |phs|
  {
    if k == 0 then 0
    else if phs[k - 1].load then Max(Size(phs, k - 1), phs[k - 1].vaddr + phs[k - 1].memsz)
    else Size(phs, k - 1)
  }

  /** Its memory: every loaded segment lies over the ones before it. */
  function Loaded(file: seq<nat>, phs: seq<ProgHdr>, k: nat): seq<nat>
    requires k <= |phs|
  {
    if k == 0 then []
    else
      var was, h := Loaded(file, phs, k - 1), phs[k - 1];
      if h.load then Patch(Grow(was, Size(phs, k)), h.vaddr, FileBytes(file, Offset(h), h.filesz)) else was
  }

  /** Flags for pages that are open to user mode. */
  predicate Open(fl: seq<set<Flag>>) {
    forall v :: 0 <= v < |fl| ==> U in fl[v]
  }

  /** uvmalloc() to sz bytes with the permissions `perm`: the flags of the pages. */
  function GrowFlags(fl: seq<set<Flag>>, sz: nat, perm: set<Flag>): (r: seq<set<Flag>>)
    ensures |r| == Max(|fl|, Pages(sz))
    ensures Open(fl) && U in perm ==> Open(r)
  {
    if |fl| < Pages(sz) then fl + seq(Pages(sz) - |fl|, _ => perm + {V}) else fl
  }

  /** The flags of its pages: those of the first segment that reaches them. */
  function LoadedFlags(phs: seq<ProgHdr>, k: nat): (fl: seq<set<Flag>>)
    requires k <= |phs|
    ensures |fl| == Pages(Size(phs, k)) && Open(fl)
  {
    if k == 0 then []
    else if phs[k - 1].load then GrowFlags(LoadedFlags(phs, k - 1), Size(phs, k), {R, U} + Perm(phs[k - 1]))
    else LoadedFlags(phs, k - 1)
  }

  /** The flags of the guard page and of the stack. */
  function StackFlags(): (fl: seq<set<Flag>>)
    ensures |fl| == USERSTACK + 1
  {
    [{V, R, W}] + seq(USERSTACK, _ => {V, R, W, U})
  }

  /** The flags of all pages of the new process. */
  function ExecFlags(phs: seq<ProgHdr>): (fl: seq<set<Flag>>)
    ensures |fl| == Pages(Size(phs, |phs|)) + USERSTACK + 1
  {
    LoadedFlags(phs, |phs|) + StackFlags()
  }

  /** Of these, only the guard page below the stack is closed to user mode. */
  lemma OnlyGuardClosed(phs: seq<ProgHdr>, v: nat)
    requires v < |ExecFlags(phs)|
    ensures U in ExecFlags(phs)[v] <==> v != |ExecFlags(phs)| - USERSTACK - 1
    ensures v >= |ExecFlags(phs)| - USERSTACK ==> W in ExecFlags(phs)[v]
  {
  }

  /** The stack pointer after the first k argument strings have been pushed. */
  function StackPtr(top: int, args: seq<seq<nat>>, k: nat): int
    requires k <= |args|
  {
    if k == 0 then top else Align(StackPtr(top, args, k - 1) - |args[k - 1]| - 1)
  }

  function Align(a: int): (r: int)
    ensures a - 16 < r <= a && r % 16 == 0
  {
    a - a % 16
  }

  function Pushed(img: seq<nat>, args: seq<seq<nat>>, k: nat): seq<nat>
    requires k <= |args|
  {
    if k == 0 then img
    else if StackPtr(|img|, args, k) < 0 then img
    else Patch(Pushed(img, args, k - 1), StackPtr(|img|, args, k), args[k - 1] + [0])
  }

  function Le64(x: int): seq<nat> {
    seq(8, i requires 0 <= i < 8 => (x / Pow256(i)) % 256)
  }

  function Pow256(i: nat): nat
    ensures Pow256(i) > 0
  {
    if i == 0 then 1 else 256 * Pow256(i - 1)
  }

  /** An array of 64-bit numbers, as it lies in memory. */
  function Le64s(xs: seq<int>): (bs: seq<nat>)
    ensures |bs| == 8 * |xs|
  {
    if xs == [] then [] else Le64s(xs[..|xs| - 1]) + Le64(xs[|xs| - 1])
  }

  /** ustack[0 .. k - 1]: where the first k strings were put. */
  function ArgPtrs(top: int, args: seq<seq<nat>>, k: nat): seq<int>
    requires k <= |args|
  {
    seq(k, i requires 0 <= i < k => StackPtr(top, args, i + 1))
  }

  /** argv: the pointers to the strings, and a zero. */
  function Argv(top: int, args: seq<seq<nat>>): (bs: seq<nat>)
    ensures |bs| == 8 * (|args| + 1)
  {
    Le64s(ArgPtrs(top, args, |args|) + [0])
  }

  function ArgvPtr(top: int, args: seq<seq<nat>>): int {
    Align(StackPtr(top, args, |args|) - 8 * (|args| + 1))
  }

  /** The whole memory of the new process. */
  function ExecImage(file: seq<nat>, phs: seq<ProgHdr>, args: seq<seq<nat>>): seq<nat> {
    var img := Loaded(file, phs, |phs|) + Zeros((USERSTACK + 1) * PGSIZE);
    if ArgvPtr(|img|, args) < 0 then img
    else Patch(Pushed(img, args, |args|), ArgvPtr(|img|, args), Argv(|img|, args))
  }

  // ---- the strings and the pointers can be read back

  lemma {:induction false} StackDown(top: int, args: seq<seq<nat>>, j: nat, k: nat)
    requires j <= k <= |args|
    ensures StackPtr(top, args, k) <= StackPtr(top, args, j)
    ensures j < k ==> StackPtr(top, args, k) + |args[k - 1]| + 1 <= StackPtr(top, args, j)
    ensures j < k ==> StackPtr(top, args, k) % 16 == 0
    decreases k
  {
    hide Align;
    if j < k { StackDown(top, args, j, k - 1); }
  }

  lemma {:induction false} PushedLength(img: seq<nat>, args: seq<seq<nat>>, k: nat)
    requires k <= |args|
    ensures |Pushed(img, args, k)| == |img|
  {
    if k > 0 { PushedLength(img, args, k - 1); }
  }

  /** A later string never touches an earlier one. */
  lemma {:induction false} PushedKeeps(img: seq<nat>, args: seq<seq<nat>>, j: nat, k: nat)
    requires 0 < j <= k <= |args| && StackPtr(|img|, args, k) >= 0
    ensures ReadsBack(Pushed(img, args, k), StackPtr(|img|, args, j), args[j - 1])
    decreases k
  {
    hide Align, StackPtr, Pushed, Patch;
    var p, q := StackPtr(|img|, args, k), StackPtr(|img|, args, j);
    StackTop(|img|, args);
    StackDown(|img|, args, 0, j);
    StackDown(|img|, args, 0, k);
    StackDown(|img|, args, j, k);
    PushedLength(img, args, k - 1);
    PushedStep(img, args, k);
    if j < k {
      PushedKeeps(img, args, j, k - 1);
      PatchReads(Pushed(img, args, k - 1), p, args[k - 1] + [0], q, args[j - 1]);
    } else {
      PatchHolds(Pushed(img, args, k - 1), p, args[k - 1] + [0]);
    }
  }

  lemma PushedStep(img: seq<nat>, args: seq<seq<nat>>, k: nat)
    requires 0 < k <= |args| && StackPtr(|img|, args, k) >= 0
    ensures Pushed(img, args, k) == Patch(Pushed(img, args, k - 1), StackPtr(|img|, args, k), args[k - 1] + [0])
    ensures StackPtr(|img|, args, k) <= StackPtr(|img|, args, k - 1) && StackPtr(|img|, args, k) % 16 == 0
  {
  }

  /** What lies above a patch reads as before. */
  lemma PatchReads(img: seq<nat>, at: nat, src: seq<nat>, p: int, arg: seq<nat>)
    requires at + |src| <= p && ReadsBack(img, p, arg)
    ensures ReadsBack(Patch(img, at, src), p, arg)
  {
  }

  /** The new program finds each argument string, NUL-terminated, through the array at its
      stack pointer. */
  lemma ArgsReadable(file: seq<nat>, phs: seq<ProgHdr>, args: seq<seq<nat>>)
    requires ArgvPtr(|Loaded(file, phs, |phs|)| + (USERSTACK + 1) * PGSIZE, args) >= 0
    ensures var img, top := ExecImage(file, phs, args), |Loaded(file, phs, |phs|)| + (USERSTACK + 1) * PGSIZE;
      && |img| == top && Holds(img, ArgvPtr(top, args), Argv(top, args))
      && forall k :: 0 <= k < |args| ==> ReadsBack(img, StackPtr(top, args, k + 1), args[k])
  {
    hide Align, StackPtr, Pushed, Patch, Argv, Loaded, Holds, ReadsBack;
    var img := Loaded(file, phs, |phs|) + Zeros((USERSTACK + 1) * PGSIZE);
    StackDown(|img|, args, 0, |args|);
    StackTop(|img|, args);
    PushedLength(img, args, |args|);
    var was, at := Pushed(img, args, |args|), ArgvPtr(|img|, args);
    PatchHolds(was, at, Argv(|img|, args));
    forall k | 0 <= k < |args| ensures ReadsBack(ExecImage(file, phs, args), StackPtr(|img|, args, k + 1), args[k]) {
      StackDown(|img|, args, k + 1, |args|);
      PushedKeeps(img, args, k + 1, |args|);
      PatchReads(was, at, Argv(|img|, args), StackPtr(|img|, args, k + 1), args[k]);
    }
  }

  lemma StackTop(top: int, args: seq<seq<nat>>)
    ensures StackPtr(top, args, 0) == top
  {
  }

  ghost predicate Holds(img: seq<nat>, p: int, bytes: seq<nat>) {
    0 <= p && p + |bytes| <= |img| && img[p..p + |bytes|] == bytes
  }

  lemma PatchHolds(img: seq<nat>, at: nat, src: seq<nat>)
    requires at + |src| <= |img|
    ensures |Patch(img, at, src)| == |img| && Holds(Patch(img, at, src), at, src)
  {
  }

  ghost predicate ReadsBack(img: seq<nat>, p: int, arg: seq<nat>) {
    p % 16 == 0 && 0 <= p && p + |arg| + 1 <= |img| && img[p..p + |arg| + 1] == arg + [0]
  }

  // ---- what the program loads

  /** A load of n bytes at address a, the first byte lowest. */
  function Load(img: seq<nat>, a: int, n: nat): nat
    requires 0 <= a && a + n <= |img|
    decreases n
  {
    if n == 0 then 0 else img[a] + 256 * Load(img, a + 1, n - 1)
  }

  /** A uint64 in memory. */
  function Load64(img: seq<nat>, a: int): nat
    requires 0 <= a && a + 8 <= |img|
  {
    Load(img, a, 8)
  }

  lemma {:induction false} Gap(m: nat, q: nat, d: nat)
    requires d > 0
    ensures m * (q + d) >= m * q + m
  {
    if d > 1 { Gap(m, q, d - 1); }
  }

  lemma OneQuotient(m: nat, q: nat, r: nat, q': nat, r': nat)
    requires m * q + r == m * q' + r' && r < m && r' < m
    ensures q == q'
  {
    if q < q' {
      Gap(m, q, q' - q);
    } else if q' < q {
      Gap(m, q', q - q');
    }
  }

  lemma Quotient(y: nat, m: nat, q: nat, r: nat)
    requires m > 0 && y == m * q + r && r < m
    ensures y / m == q
  {
    OneQuotient(m, y / m, y % m, q, r);
  }

  lemma DivDiv(y: nat, m: nat)
    requires m > 0
    ensures y / 256 / m == y / (256 * m) && (y < 256 * m ==> y / 256 < m)
  {
    var u, v, w := y / 256 / m, y / 256 % m, y % 256;
    assert y / 256 == m * u + v;
    assert y == 256 * (m * u + v) + w && 256 * (m * u + v) == 256 * m * u + 256 * v;
    Quotient(y, 256 * m, u, 256 * v + w);
  }

  function Digit(y: int, j: nat): int {
    y / Pow256(j) % 256
  }

  /** The digits of y to base 256, lowest first, are loaded as y. */
  lemma {:induction false} LoadDigits(img: seq<nat>, a: int, n: nat, y: nat)
    requires 0 <= a && a + n <= |img| && y < Pow256(n)
    requires forall j :: 0 <= j < n ==> img[a + j] == Digit(y, j)
    ensures Load(img, a, n) == y
    decreases n
  {
    if n > 0 {
      DivDiv(y, Pow256(n - 1));
      forall j | 0 <= j < n - 1 ensures img[a + 1 + j] == Digit(y / 256, j) {
        DivDiv(y, Pow256(j));
        assert img[a + (j + 1)] == Digit(y, j + 1);
      }
      LoadDigits(img, a + 1, n - 1, y / 256);
      assert img[a + 0] == Digit(y, 0);
    }
  }

  lemma {:induction false} Le64sAt(xs: seq<int>, k: nat, a: nat, j: nat)
    requires k < |xs| && a == 8 * k && j < 8
    ensures Le64s(xs)[a + j] == Digit(xs[k], j)
    decreases |xs|
  {
    hide Digit, Le64;
    var last := |xs| - 1;
    if k < last {
      Le64sAt(xs[..last], k, a, j);
    } else {
      assert Le64s(xs)[a + j] == Le64(xs[last])[j];
      Le64At(xs[last], j);
    }
  }

  /** What lies in memory as an array of 64-bit numbers is loaded as those numbers. */
  lemma LoadEntry(img: seq<nat>, p: int, xs: seq<int>, k: nat, a: nat)
    requires Holds(img, p, Le64s(xs)) && k < |xs| && 0 <= xs[k] < TWO64 && a == 8 * k
    ensures 0 <= p && p + a + 8 <= |img| && Load64(img, p + a) == xs[k]
  {
    hide Le64s, Digit, Load64, Holds;
    forall j | 0 <= j < 8 ensures Le64s(xs)[a + j] == Digit(xs[k], j) { Le64sAt(xs, k, a, j); }
    LoadWord(img, p, Le64s(xs), a, xs[k]);
  }

  lemma LoadWord(img: seq<nat>, p: int, bs: seq<nat>, a: nat, x: nat)
    requires Holds(img, p, bs) && a + 8 <= |bs| && x < TWO64 && forall j :: 0 <= j < 8 ==> bs[a + j] == Digit(x, j)
    ensures 0 <= p && p + a + 8 <= |img| && Load64(img, p + a) == x
  {
    hide Digit, Holds, Load, Pow256;
    HoldsByte(img, p, bs, a + 7);
    forall j | 0 <= j < 8 ensures img[p + a + j] == Digit(x, j) { HoldsByte(img, p, bs, a + j); }
    EightDigits();
    LoadDigits(img, p + a, 8, x);
  }

  lemma HoldsByte(img: seq<nat>, p: int, bs: seq<nat>, i: nat)
    requires Holds(img, p, bs) && i < |bs|
    ensures 0 <= p && p + i < |img| && img[p + i] == bs[i]
  {
    assert img[p..p + |bs|][i] == bs[i];
  }

  lemma EightDigits()
    ensures Pow256(8) == TWO64
  {
    assert Pow256(4) == TWO32 && Pow256(8) == TWO32 * Pow256(4);
  }

  lemma Le64At(x: int, j: nat)
    requires j < 8
    ensures |Le64(x)| == 8 && Le64(x)[j] == Digit(x, j)
  {
  }

  /** At sp lies an array of pointers to the argument strings, each with its NUL, and a null pointer. */
  ghost predicate ArgvAt(img: seq<nat>, sp: int, args: seq<seq<nat>>) {
    && 0 <= sp && sp % 16 == 0 && sp + 8 * |args| + 8 <= |img| && Load64(img, sp + 8 * |args|) == 0
    && forall k :: 0 <= k < |args| ==> ReadsBack(img, Load64(img, sp + 8 * k), args[k])
  }

  /** The new program finds its arguments by loading from its stack. */
  lemma ArgvLoads(file: seq<nat>, phs: seq<ProgHdr>, args: seq<seq<nat>>)
    requires var top := |Loaded(file, phs, |phs|)| + (USERSTACK + 1) * PGSIZE;
      ArgvPtr(top, args) >= 0 && top <= TWO64
    ensures var top := |Loaded(file, phs, |phs|)| + (USERSTACK + 1) * PGSIZE;
      ArgvAt(ExecImage(file, phs, args), ArgvPtr(top, args), args)
  {
    hide Loaded, StackPtr, Le64s, Load64, ReadsBack, ExecImage, Pow256;
    var top, img := |Loaded(file, phs, |phs|)| + (USERSTACK + 1) * PGSIZE, ExecImage(file, phs, args);
    var sp, xs := ArgvPtr(top, args), ArgPtrs(top, args, |args|) + [0];
    ArgsReadable(file, phs, args);
    StackTop(top, args);
    forall k | 0 <= k <= |args| ensures sp + 8 * k + 8 <= |img| && Load64(img, sp + 8 * k) == xs[k] {
      if k < |args| {
        StackDown(top, args, 0, k + 1);
        StackDown(top, args, k + 1, |args|);
      }
      LoadEntry(img, sp, xs, k, 8 * k);
    }
    forall k | 0 <= k < |args| ensures ReadsBack(img, Load64(img, sp + 8 * k), args[k]) {
      assert xs[k] == StackPtr(top, args, k + 1);
    }
  }

  // ---- bytes and flags, by the program headers alone

  /** Address a gets a byte of the file through header h. */
  predicate InFile(h: ProgHdr, a: int) {
    h.load && h.vaddr <= a < h.vaddr + h.filesz
  }

  /** The file has what h is to load. */
  predicate HasBytes(file: seq<nat>, h: ProgHdr) {
    h.load ==> h.filesz <= h.memsz && (h.filesz == 0 || h.off % TWO32 + h.filesz <= |file|)
  }

  /** Byte x comes from the file through h. */
  predicate FromFile(file: seq<nat>, h: ProgHdr, a: int, x: nat) {
    var k := h.off % TWO32 + a - h.vaddr; 0 <= k < |file| && x == file[k]
  }

  /** None of the first n headers loads address a. */
  ghost predicate NoneIn(phs: seq<ProgHdr>, n: nat, a: int) {
    n <= |phs| && forall i :: 0 <= i < n ==> !InFile(phs[i], a)
  }

  /** Header i is the last of the first n that does. */
  ghost predicate LastIn(phs: seq<ProgHdr>, n: nat, a: int, i: nat) {
    i < n <= |phs| && InFile(phs[i], a) && forall j :: i < j < n ==> !InFile(phs[j], a)
  }

  /** Byte x is what the first n headers put at address a: the last of them that loads it, or zero. */
  ghost predicate LoadedAs(file: seq<nat>, phs: seq<ProgHdr>, n: nat, a: int, x: nat) {
    && (NoneIn(phs, n, a) ==> x == 0)
    && forall i: nat {:trigger LastIn(phs, n, a, i)} :: LastIn(phs, n, a, i) ==> FromFile(file, phs[i], a, x)
  }

  lemma PagesHold(a: nat)
    ensures a <= Pages(a) * PGSIZE < a + PGSIZE
  {
  }

  lemma PagesMore(a: nat, b: nat)
    requires a <= b
    ensures Pages(a) <= Pages(b) && Pages(a) * PGSIZE <= Pages(b) * PGSIZE
  {
  }

  lemma PatchAt(img: seq<nat>, at: nat, src: seq<nat>, a: nat)
    requires at + |src| <= |img|
    ensures |Patch(img, at, src)| == |img|
    ensures a < |img| ==> Patch(img, at, src)[a] == if at <= a < at + |src| then src[a - at] else img[a]
  {
  }

  lemma {:induction false} LoadedByte(file: seq<nat>, phs: seq<ProgHdr>, n: nat, a: nat)
    requires n <= |phs| && forall i :: 0 <= i < n ==> HasBytes(file, phs[i])
    ensures |Loaded(file, phs, n)| == Pages(Size(phs, n)) * PGSIZE
    ensures a < |Loaded(file, phs, n)| ==> LoadedAs(file, phs, n, a, Loaded(file, phs, n)[a])
    decreases n
  {
    hide Pages;
    if n == 0 {
      assert Pages(0) == 0 by { PagesNone(); }
    } else {
      LoadedByte(file, phs, n - 1, a);
      var h := phs[n - 1];
      if h.load {
        LoadedStep(file, phs, n, a);
      } else if a < |Loaded(file, phs, n)| {
        LoadedNext(file, phs, n, a, Loaded(file, phs, n)[a]);
      }
    }
  }

  lemma PagesNone()
    ensures Pages(0) == 0
  {
  }

  /** The memory after header n - 1, address by address. */
  lemma LoadedStep(file: seq<nat>, phs: seq<ProgHdr>, n: nat, a: nat)
    requires 0 < n <= |phs| && phs[n - 1].load && HasBytes(file, phs[n - 1])
    requires forall i :: 0 <= i < n - 1 ==> HasBytes(file, phs[i])
    requires |Loaded(file, phs, n - 1)| == Pages(Size(phs, n - 1)) * PGSIZE
    requires a < |Loaded(file, phs, n - 1)| ==> LoadedAs(file, phs, n - 1, a, Loaded(file, phs, n - 1)[a])
    ensures |Loaded(file, phs, n)| == Pages(Size(phs, n)) * PGSIZE
    ensures a < |Loaded(file, phs, n)| ==> LoadedAs(file, phs, n, a, Loaded(file, phs, n)[a])
  {
    hide Pages, Patch, LoadedAs, Grow, FileBytes, FromFile;
    var was, h, sz := Loaded(file, phs, n - 1), phs[n - 1], Size(phs, n);
    var grown, src := Grow(was, sz), FileBytes(file, Offset(h), h.filesz);
    PagesMore(Size(phs, n - 1), sz);
    PagesHold(sz);
    GrownTo(was, sz, a);
    SegmentAt(file, h, a);
    PatchAt(grown, h.vaddr, src, a);
    if a < |grown| {
      if a >= |was| { NotLoaded(file, phs, n - 1, a); }
      LoadedNext(file, phs, n, a, grown[a]);
    }
  }

  lemma GrownTo(img: seq<nat>, sz: nat, a: nat)
    requires |img| <= Pages(sz) * PGSIZE
    ensures |Grow(img, sz)| == Pages(sz) * PGSIZE
    ensures a < |Grow(img, sz)| ==> Grow(img, sz)[a] == if a < |img| then img[a] else 0
  {
    hide Pages;
  }

  lemma SegmentAt(file: seq<nat>, h: ProgHdr, a: nat)
    requires h.load && HasBytes(file, h)
    ensures var src := FileBytes(file, Offset(h), h.filesz);
      |src| == h.filesz && (InFile(h, a) ==> FromFile(file, h, a, src[a - h.vaddr]))
  {
  }

  /** Nothing has been loaded where there is no memory yet. */
  lemma NotLoaded(file: seq<nat>, phs: seq<ProgHdr>, n: nat, a: nat)
    requires n <= |phs| && Pages(Size(phs, n)) * PGSIZE <= a && forall i :: 0 <= i < n ==> HasBytes(file, phs[i])
    ensures LoadedAs(file, phs, n, a, 0)
  {
    PagesHold(Size(phs, n));
    hide Pages;
    forall i | 0 <= i < n ensures !InFile(phs[i], a) {
      if phs[i].load {
        assert HasBytes(file, phs[i]);
        SizeReaches(phs, n, i);
      }
    }
    assert NoneIn(phs, n, a) && forall i: nat :: !LastIn(phs, n, a, i);
  }

  lemma {:induction false} SizeReaches(phs: seq<ProgHdr>, n: nat, i: nat)
    requires i < n <= |phs| && phs[i].load
    ensures phs[i].vaddr + phs[i].memsz <= Size(phs, n)
    decreases n
  {
    if i < n - 1 { SizeReaches(phs, n - 1, i); }
  }

  lemma LoadedNext(file: seq<nat>, phs: seq<ProgHdr>, n: nat, a: nat, x: nat)
    requires 0 < n <= |phs| && LoadedAs(file, phs, n - 1, a, x)
    ensures !InFile(phs[n - 1], a) ==> LoadedAs(file, phs, n, a, x)
    ensures InFile(phs[n - 1], a) ==> forall y :: FromFile(file, phs[n - 1], a, y) ==> LoadedAs(file, phs, n, a, y)
  {
    hide FromFile, InFile;
    if !InFile(phs[n - 1], a) {
      forall i: nat | LastIn(phs, n, a, i) ensures FromFile(file, phs[i], a, x) { assert LastIn(phs, n - 1, a, i); }
      if NoneIn(phs, n, a) { assert NoneIn(phs, n - 1, a); }
    } else {
      forall i: nat | LastIn(phs, n, a, i) ensures i == n - 1 {}
    }
  }

  /** Page v gets memory through header h. */
  predicate Reaches(h: ProgHdr, v: int) {
    h.load && v < Pages(h.vaddr + h.memsz)
  }

  /** Header i is the first that reaches page v. */
  ghost predicate FirstTo(phs: seq<ProgHdr>, v: int, i: nat) {
    i < |phs| && Reaches(phs[i], v) && forall j :: 0 <= j < i ==> !Reaches(phs[j], v)
  }

  /** A page is open to user mode, to read, and to write or execute as the first header that reaches it says. */
  ghost predicate FlagsAs(phs: seq<ProgHdr>, v: int, fl: set<Flag>) {
    && V in fl && R in fl && U in fl
    && forall i: nat {:trigger FirstTo(phs, v, i)} :: FirstTo(phs, v, i) ==>
         (X in fl <==> phs[i].exec) && (W in fl <==> phs[i].write)
  }

  /** Before page v is there, no header has reached it. */
  lemma {:induction false} NotReached(phs: seq<ProgHdr>, n: nat, v: nat, i: nat)
    requires i < n <= |phs| && Pages(Size(phs, n)) <= v
    ensures !Reaches(phs[i], v)
  {
    hide Pages;
    if phs[i].load {
      SizeReaches(phs, n, i);
      PagesMore(phs[i].vaddr + phs[i].memsz, Size(phs, n));
    }
  }

  lemma {:induction false} FlagsFirst(phs: seq<ProgHdr>, n: nat, v: nat)
    requires n <= |phs| && v < |LoadedFlags(phs, n)|
    ensures FlagsAs(phs, v, LoadedFlags(phs, n)[v])
    decreases n
  {
    hide Pages, Size;
    SizeUp(phs, n, v);
    if v < |LoadedFlags(phs, n - 1)| {
      FlagsFirst(phs, n - 1, v);
    } else {
      forall i | 0 <= i < n - 1 ensures !Reaches(phs[i], v) { NotReached(phs, n - 1, v, i); }
      assert Reaches(phs[n - 1], v);
      forall i: nat | FirstTo(phs, v, i) ensures i == n - 1 {}
    }
  }

  lemma SizeUp(phs: seq<ProgHdr>, n: nat, v: nat)
    requires n <= |phs| && v < Pages(Size(phs, n))
    ensures n > 0 && Pages(Size(phs, n - 1)) <= Pages(Size(phs, n))
    ensures phs[n - 1].load && Pages(Size(phs, n - 1)) <= v ==> Reaches(phs[n - 1], v)
    ensures !phs[n - 1].load ==> Size(phs, n) == Size(phs, n - 1)
  {
    PagesNone();
    hide Pages;
    if n > 0 { PagesMore(Size(phs, n - 1), Size(phs, n)); }
  }

  /** Pushing strings changes nothing below the last of them. */
  lemma {:induction false} PushedBelow(img: seq<nat>, args: seq<seq<nat>>, k: nat, a: nat)
    requires k <= |args| && a < StackPtr(|img|, args, k) && a < |img|
    ensures |Pushed(img, args, k)| == |img| && Pushed(img, args, k)[a] == img[a]
    decreases k
  {
    hide Patch, Align, StackPtr;
    PushedLength(img, args, k);
    if k > 0 {
      PushedStep(img, args, k);
      PushedBelow(img, args, k - 1, a);
      PushedLength(img, args, k - 1);
      StackTop(|img|, args);
      StackDown(|img|, args, k - 1, k);
      StackDown(|img|, args, 0, k - 1);
      PatchAt(Pushed(img, args, k - 1), StackPtr(|img|, args, k), args[k - 1] + [0], a);
    }
  }

  /** Below the stack pointer, memory is what was loaded, and then zero. */
  lemma ExecBelow(file: seq<nat>, phs: seq<ProgHdr>, args: seq<seq<nat>>, a: nat)
    requires var img := Loaded(file, phs, |phs|) + Zeros((USERSTACK + 1) * PGSIZE);
      a < ArgvPtr(|img|, args) && a < |img|
    ensures |ExecImage(file, phs, args)| == |Loaded(file, phs, |phs|)| + (USERSTACK + 1) * PGSIZE
    ensures var was := Loaded(file, phs, |phs|);
      ExecImage(file, phs, args)[a] == if a < |was| then was[a] else 0
  {
    hide Patch, Align, StackPtr, Pushed, Loaded, Argv;
    var img := Loaded(file, phs, |phs|) + Zeros((USERSTACK + 1) * PGSIZE);
    StackTop(|img|, args);
    StackDown(|img|, args, 0, |args|);
    PushedBelow(img, args, |args|, a);
    PatchAt(Pushed(img, args, |args|), ArgvPtr(|img|, args), Argv(|img|, args), a);
  }

  /**
   What a program is to find when it starts, by its file, its headers and its arguments: its
   segments, zeroes up to the stack pointer, the arguments there, and pages with the access that
   the headers ask for, then the guard page and the stack.
   */
  ghost predicate Starts(img: seq<nat>, fl: seq<set<Flag>>, sp: nat, file: seq<nat>, phs: seq<ProgHdr>,
                         args: seq<seq<nat>>) {
    var n := Pages(Size(phs, |phs|));
    && |img| == (n + USERSTACK + 1) * PGSIZE && |fl| == n + USERSTACK + 1
    && (forall i :: 0 <= i < |phs| && phs[i].load ==> phs[i].vaddr + phs[i].memsz <= n * PGSIZE)
    && (n + 1) * PGSIZE <= sp && ArgvAt(img, sp, args)
    && (forall a: nat :: a < n * PGSIZE ==> LoadedAs(file, phs, |phs|, a, img[a]))
    && (forall a: nat :: n * PGSIZE <= a < sp && a < |img| ==> img[a] == 0)
    && (forall v: nat :: v < n ==> FlagsAs(phs, v, fl[v]))
    && U !in fl[n] && forall v :: n < v < |fl| ==> {V, R, W, U} <= fl[v]
  }

  lemma ExecStarts(file: seq<nat>, phs: seq<ProgHdr>, args: seq<seq<nat>>)
    requires forall i :: 0 <= i < |phs| ==> HasBytes(file, phs[i])
    requires var top := (Pages(Size(phs, |phs|)) + USERSTACK + 1) * PGSIZE;
      top <= TWO64 && ArgvPtr(top, args) >= top - USERSTACK * PGSIZE
    ensures var top := (Pages(Size(phs, |phs|)) + USERSTACK + 1) * PGSIZE;
      Starts(ExecImage(file, phs, args), ExecFlags(phs), ArgvPtr(top, args), file, phs, args)
  {
    hide Pages, Size, Loaded, LoadedFlags, ArgvPtr, ExecImage, ArgvAt, LoadedAs, FlagsAs;
    var n := Pages(Size(phs, |phs|));
    var top, img, fl := (n + USERSTACK + 1) * PGSIZE, ExecImage(file, phs, args), ExecFlags(phs);
    LoadedByte(file, phs, |phs|, 0);
    ArgvLoads(file, phs, args);
    ImageLength(file, phs, args);
    forall a: nat | a < n * PGSIZE ensures LoadedAs(file, phs, |phs|, a, img[a]) {
      LoadedByte(file, phs, |phs|, a);
      ExecBelow(file, phs, args, a);
    }
    forall a: nat | n * PGSIZE <= a < ArgvPtr(top, args) && a < |img| ensures img[a] == 0 {
      ExecBelow(file, phs, args, a);
    }
    forall v: nat | v < n ensures FlagsAs(phs, v, fl[v]) { FlagsFirst(phs, |phs|, v); }
    forall i | 0 <= i < |phs| && phs[i].load ensures phs[i].vaddr + phs[i].memsz <= n * PGSIZE {
      SegmentFits(phs, |phs|, i);
      PagesHold(Size(phs, |phs|));
    }
  }

  lemma {:induction false} SegmentFits(phs: seq<ProgHdr>, k: nat, i: nat)
    requires i < k <= |phs| && phs[i].load
    ensures phs[i].vaddr + phs[i].memsz <= Size(phs, k)
  {
    if i < k - 1 { SegmentFits(phs, k - 1, i); }
  }

  lemma ImageLength(file: seq<nat>, phs: seq<ProgHdr>, args: seq<seq<nat>>)
    requires ArgvPtr(|Loaded(file, phs, |phs|)| + (USERSTACK + 1) * PGSIZE, args) >= 0
    ensures |ExecImage(file, phs, args)| == |Loaded(file, phs, |phs|)| + (USERSTACK + 1) * PGSIZE
  {
    hide ExecImage, Loaded;
    ArgsReadable(file, phs, args);
  }

  // ---- one string more

  lemma StackNext(top: int, args: seq<seq<nat>>, k: nat)
    requires k < |args|
    ensures StackPtr(top, args, k + 1) == Align(StackPtr(top, args, k) - |args[k]| - 1)
    ensures ArgPtrs(top, args, k + 1) == ArgPtrs(top, args, k) + [StackPtr(top, args, k + 1)]
  {
  }

  /** Once a string does not fit, neither does the array of pointers. */
  lemma StackOver(top: int, args: seq<seq<nat>>, k: nat, base: int)
    requires k <= |args| && StackPtr(top, args, k) < base
    ensures ArgvPtr(top, args) < base
  {
    hide StackPtr;
    StackDown(top, args, k, |args|);
  }
}
