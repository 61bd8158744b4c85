/**
 The state that kernel/vm.c and kernel/kalloc.c work on, what keeps it sound, and lemmas
 for each way in which the code changes it. The map `owner` gives every page of the pool
 its one use: free, held by the kernel, table page of one space, or user page of one space.
 */
module VmState {
  import opened Sv39

  /** Memory with what its pages are used for. */
  datatype Sys = Sys(mem: Memory, owner: Owners, spaces: map<nat, Space>)

  ghost predicate SpacesOk(s: Sys) {
    forall r :: r in s.spaces ==> SpaceOk(s.mem, s.owner, r, s.spaces[r])
  }

  ghost predicate TabBacked(s: Sys, p: nat, r: nat, place: Place) {
    r in s.spaces &&
    match place
    case Root => p == r
    case Mid(i) => i in s.spaces[r].mid && s.spaces[r].mid[i] == p
    case Low(k) => k in s.spaces[r].low && s.spaces[r].low[k] == p
  }

  predicate IsData(mem: Memory, p: nat) {
    p in mem && mem[p].Data? && |mem[p].bytes| == PGSIZE
  }

  ghost predicate UserBacked(s: Sys, p: nat, r: nat, v: nat) {
    && r in s.spaces && v < TRAPFRAME && v in s.spaces[r].flat && s.spaces[r].flat[v].ppn == p
    && IsData(s.mem, p)
  }

  /** Every page said to be used by an address space is used there. */
  ghost predicate Backed(s: Sys, p: nat)
    requires p in s.owner
  {
    match s.owner[p]
    case Tab(r, place) => TabBacked(s, p, r, place)
    case User(r, v) => UserBacked(s, p, r, v)
    case _ => true
  }

  ghost predicate SysOk(s: Sys) {
    && SpacesOk(s)
    && s.mem.Keys == s.owner.Keys
    && forall p :: p in s.owner ==> Backed(s, p)
  }

  /** All pages keep their use and their contents, but table pages of r may have changed
      and free pages may have become table pages of r; no other space has changed. */
  ghost predicate Kept(s: Sys, s': Sys, r: nat) {
    && s.owner.Keys == s'.owner.Keys
    && (forall p :: p in s.owner ==> PageKept(s, s', p) || TakenAsTable(s, s', p, r) || OwnTable(s, s', p, r))
    && r in s.spaces && r in s'.spaces && s'.spaces == s.spaces[r := s'.spaces[r]]
    && Extends(s.spaces[r].low, s'.spaces[r].low)
  }

  ghost predicate Extends(low: map<nat, nat>, low': map<nat, nat>) {
    forall k :: k in low ==> k in low' && low'[k] == low[k]
  }

  /** As Kept, and the flat map of r is the same: s' only has more table pages. */
  ghost predicate Grown(s: Sys, s': Sys, r: nat) {
    Kept(s, s', r) && s'.spaces[r].flat == s.spaces[r].flat
  }

  ghost predicate PageKept(s: Sys, s': Sys, p: nat) {
    && p in s.owner && p in s'.owner && s'.owner[p] == s.owner[p]
    && (s.owner[p].Free? || (p in s.mem && p in s'.mem && s'.mem[p] == s.mem[p]))
  }

  ghost predicate TakenAsTable(s: Sys, s': Sys, p: nat, r: nat) {
    p in s.owner && s.owner[p].Free? && p in s'.owner && s'.owner[p].Tab? && s'.owner[p].root == r
  }

  ghost predicate OwnTable(s: Sys, s': Sys, p: nat, r: nat) {
    p in s.owner && p in s'.owner && s.owner[p] == s'.owner[p] && s.owner[p].Tab? && s.owner[p].root == r
  }

  lemma KeptTrans(s: Sys, t: Sys, u: Sys, r: nat)
    requires Kept(s, t, r) && Kept(t, u, r)
    ensures Kept(s, u, r)
  {
    forall p | p in s.owner
      ensures PageKept(s, u, p) || TakenAsTable(s, u, p, r) || OwnTable(s, u, p, r)
    {
      assert PageKept(s, t, p) || TakenAsTable(s, t, p, r) || OwnTable(s, t, p, r);
      assert PageKept(t, u, p) || TakenAsTable(t, u, p, r) || OwnTable(t, u, p, r);
    }
  }

  lemma GrownRefl(s: Sys, r: nat)
    requires r in s.spaces && SysOk(s)
    ensures Grown(s, s, r)
  {
  }

  /** A change to the space at r and to pages that no other space has as tables. */
  lemma OthersKept(s: Sys, s': Sys, r: nat)
    requires SpacesOk(s) && r in s'.spaces && SpaceOk(s'.mem, s'.owner, r, s'.spaces[r])
    requires forall q :: q in s'.spaces && q != r ==> q in s.spaces && s'.spaces[q] == s.spaces[q]
    requires forall p :: p in s.owner && s.owner[p].Tab? && s.owner[p].root != r ==> PageKept(s, s', p)
    ensures SpacesOk(s')
  {
    forall q | q in s'.spaces ensures SpaceOk(s'.mem, s'.owner, q, s'.spaces[q]) {
      if q != r {
        forall p | p in s.owner && s.owner[p].Tab? && s.owner[p].root == q && p in s.mem
          ensures PageKept(s, s', p) {}
        SpaceFrame(s.mem, s.owner, s'.mem, s'.owner, q, s.spaces[q]);
      }
    }
  }

  /** What walk() finds in entry PX(level, v) of the table it has reached. */
  lemma WalkStep(s: Sys, r: nat, v: nat, level: nat, p: nat)
    requires SysOk(s) && r in s.spaces && v < MAXPAGES && OnPath(s.spaces[r], r, v, level, p) && 1 <= level <= 2
    ensures IsTable(s.mem, p)
    ensures var e := s.mem[p].pte[PX(level, v)]; (V in e.flags && !Leaf(e)) || e == NoPte
    ensures s.mem[p].pte[PX(level, v)] == NoPte ==> v / NPTE !in s.spaces[r].low
    ensures s.mem[p].pte[PX(level, v)] == NoPte ==>
            if level == 2 then PX(2, v) !in s.spaces[r].mid else v / NPTE !in s.spaces[r].low
    ensures s.mem[p].pte[PX(level, v)] != NoPte ==>
            OnPath(s.spaces[r], r, v, level - 1, s.mem[p].pte[PX(level, v)].ppn)
  {
    Indices(v);
    assert SpaceOk(s.mem, s.owner, r, s.spaces[r]);
    if v / NPTE in s.spaces[r].low { assert LowOk(s.mem, s.owner, r, s.spaces[r], v / NPTE); }
    if level == 1 { assert MidOk(s.mem, s.owner, r, s.spaces[r], PX(2, v)); }
  }

  /** p is the table at `level` on the way from root r to page v. */
  ghost predicate OnPath(sp: Space, r: nat, v: nat, level: nat, p: nat) {
    if level == 2 then p == r
    else if level == 1 then PX(2, v) in sp.mid && p == sp.mid[PX(2, v)]
    else v / NPTE in sp.low && p == sp.low[v / NPTE]
  }

  /** The state after walk() hangs a zeroed table page q below p, the table at `level`. */
  ghost function WithTable(s: Sys, r: nat, v: nat, level: nat, p: nat, q: nat): Sys
    requires r in s.spaces
  {
    Sys(MemWithTable(s.mem, v, level, p, q),
        s.owner[q := Tab(r, if level == 2 then Mid(PX(2, v)) else Low(v / NPTE))],
        s.spaces[r := SpaceWithTable(s.spaces[r], v, level, q)])
  }

  ghost function SpaceWithTable(sp: Space, v: nat, level: nat, q: nat): Space {
    if level == 2 then Space(sp.mid[PX(2, v) := q], sp.low, sp.flat)
    else Space(sp.mid, sp.low[v / NPTE := q], sp.flat)
  }

  ghost function MemWithTable(mem: Memory, v: nat, level: nat, p: nat, q: nat): Memory {
    if p == q || !IsTable(mem, p) then mem
    else SetEntry(mem[q := ZeroTable()], p, PX(level, v), Pte(q, {V}))
  }

  lemma TableBacked(s: Sys, r: nat, v: nat, level: nat, p: nat, q: nat)
    requires r in s.spaces && s.mem.Keys == s.owner.Keys && IsTable(s.mem, p) && p in s.owner && s.owner[p].Tab?
    requires if level == 2 then PX(2, v) !in s.spaces[r].mid else v / NPTE !in s.spaces[r].low
    requires forall x :: x in s.owner ==> Backed(s, x)
    requires q in s.owner && s.owner[q].Held?
    ensures var s' := WithTable(s, r, v, level, p, q);
      s'.mem.Keys == s'.owner.Keys && forall x :: x in s'.owner ==> Backed(s', x)
  {
    hide PX;
    var s' := WithTable(s, r, v, level, p, q);
    forall x | x in s'.owner ensures Backed(s', x) {
      if x != q { assert Backed(s, x); }
    }
  }

  lemma GrowMid(s: Sys, r: nat, v: nat, q: nat)
    requires SpacesOk(s) && r in s.spaces && v < MAXPAGES && PX(2, v) !in s.spaces[r].mid
    requires q in s.owner && s.owner[q].Held? && s.mem.Keys == s.owner.Keys
    ensures IsTable(s.mem, r) && s.owner[r].Tab? && SpacesOk(WithTable(s, r, v, 2, r, q))
  {
    assert SpaceOk(s.mem, s.owner, r, s.spaces[r]) && s.owner[r].Tab? && s.owner[r].root == r;
    AddMid(s.mem, s.owner, r, s.spaces[r], PX(2, v), q);
    hide SpaceOk, PX;
    OthersKept(s, WithTable(s, r, v, 2, r, q), r);
  }

  lemma GrowLow(s: Sys, r: nat, v: nat, p: nat, q: nat)
    requires SpacesOk(s) && r in s.spaces && v < MAXPAGES && v / NPTE !in s.spaces[r].low
    requires OnPath(s.spaces[r], r, v, 1, p)
    requires q in s.owner && s.owner[q].Held? && s.mem.Keys == s.owner.Keys
    ensures IsTable(s.mem, p) && p in s.owner && s.owner[p].Tab? && SpacesOk(WithTable(s, r, v, 1, p, q))
  {
    Indices(v);
    assert SpaceOk(s.mem, s.owner, r, s.spaces[r]);
    assert MidOk(s.mem, s.owner, r, s.spaces[r], PX(2, v)) && s.owner[p].Tab? && s.owner[p].root == r;
    AddLow(s.mem, s.owner, r, s.spaces[r], v / NPTE, q);
    hide SpaceOk, PX;
    OthersKept(s, WithTable(s, r, v, 1, p, q), r);
  }

  lemma TableGrown(s0: Sys, s: Sys, r: nat, v: nat, level: nat, p: nat, q: nat, page: Page)
    requires r in s.spaces && 1 <= level <= 2 && (level == 1 ==> v / NPTE !in s.spaces[r].low)
    requires q in s0.owner && s0.owner[q].Free? && s0.mem.Keys == s0.owner.Keys
    requires s == Sys(s0.mem[q := page], s0.owner[q := Held], s0.spaces)
    requires p in s.owner && s.owner[p].Tab? && s.owner[p].root == r
    ensures Grown(s0, WithTable(s, r, v, level, p, q), r)
  {
    hide PX;
    var s' := WithTable(s, r, v, level, p, q);
    forall x | x in s0.owner
      ensures PageKept(s0, s', x) || TakenAsTable(s0, s', x, r) || OwnTable(s0, s', x, r)
    {
    }
  }

  lemma PathIsTab(s: Sys, r: nat, v: nat, level: nat, p: nat)
    requires SpacesOk(s) && r in s.spaces && v < MAXPAGES && 1 <= level <= 2 && OnPath(s.spaces[r], r, v, level, p)
    ensures IsTable(s.mem, p) && p in s.owner && s.owner[p].Tab? && s.owner[p].root == r
  {
    assert SpaceOk(s.mem, s.owner, r, s.spaces[r]);
    if level == 1 { assert MidOk(s.mem, s.owner, r, s.spaces[r], PX(2, v)); }
  }

  /** walk() hangs a new table page q, which was free in s0, below table p. */
  lemma GrowTable(s0: Sys, s: Sys, s': Sys, r: nat, v: nat, level: nat, p: nat, q: nat, page: Page)
    requires SysOk(s) && r in s.spaces && v < MAXPAGES && 1 <= level <= 2 && OnPath(s.spaces[r], r, v, level, p)
    requires if level == 2 then PX(2, v) !in s.spaces[r].mid else v / NPTE !in s.spaces[r].low
    requires q in s0.owner && s0.owner[q].Free? && SysOk(s0)
    requires s == Sys(s0.mem[q := page], s0.owner[q := Held], s0.spaces)
    requires s' == WithTable(s, r, v, level, p, q)
    ensures SysOk(s') && Grown(s0, s', r) && OnPath(s'.spaces[r], r, v, level - 1, q)
    ensures IsTable(s.mem, p) && p != q
  {
    hide PX, SpaceOk;
    PathIsTab(s, r, v, level, p);
    TableGrown(s0, s, r, v, level, p, q, page);
    TableBacked(s, r, v, level, p, q);
    hide Kept;
    if level == 2 { GrowMid(s, r, v, q); } else { GrowLow(s, r, v, p, q); }
  }

  ghost predicate Distinct(s: seq<nat>) {
    forall i, j :: 0 <= i < j < |s| ==> s[i] != s[j]
  }

  /** The pool is the pages first .. last-1; page 0 stands for the null pointer. */
  ghost predicate PoolOk(first: nat, last: nat, freelist: seq<nat>, s: Sys) {
    && 0 < first && last <= first + RAMPAGES
    && (forall p :: p in s.owner <==> first <= p < last)
    && s.mem.Keys == s.owner.Keys
    && Distinct(freelist)
    && (forall p :: p in freelist <==> p in s.owner && s.owner[p].Free?)
  }

  /** A page that is no table may be given away. */
  lemma GiveAway(s: Sys, p: nat, page: Page, o: Owner)
    requires SysOk(s) && p in s.owner && !s.owner[p].Tab? && (o.Held? || o.Free?)
    ensures SysOk(Sys(s.mem[p := page], s.owner[p := o], s.spaces))
  {
    var s' := Sys(s.mem[p := page], s.owner[p := o], s.spaces);
    forall r | r in s.spaces ensures SpaceOk(s'.mem, s'.owner, r, s.spaces[r]) {
      SpaceFrame(s.mem, s.owner, s'.mem, s'.owner, r, s.spaces[r]);
    }
    forall q | q in s'.owner ensures Backed(s', q) {
      if q != p { assert Backed(s, q); }
    }
  }

  /** The pool does not care what a page that is not free is used for. */
  lemma PoolFrame(first: nat, last: nat, freelist: seq<nat>, s: Sys, s': Sys)
    requires PoolOk(first, last, freelist, s) && s'.owner.Keys == s.owner.Keys && SysOk(s')
    requires forall p :: p in s.owner ==> (s.owner[p].Free? <==> s'.owner[p].Free?)
    ensures PoolOk(first, last, freelist, s')
  {
  }

  // ----- level-0 entries -----

  lemma LeafEntry(s: Sys, r: nat, v: nat, p: nat)
    requires SysOk(s) && r in s.spaces && v < MAXPAGES && OnPath(s.spaces[r], r, v, 0, p)
    ensures IsTable(s.mem, p) && EntryOk(s.mem[p].pte[PX(0, v)], s.spaces[r].flat, v)
    ensures p in s.owner && s.owner[p].Tab? && s.owner[p].root == r
  {
    Indices(v);
    assert SpaceOk(s.mem, s.owner, r, s.spaces[r]);
    assert LowOk(s.mem, s.owner, r, s.spaces[r], v / NPTE);
  }

  lemma MappedOnPath(s: Sys, r: nat, v: nat)
    requires SysOk(s) && r in s.spaces && v in s.spaces[r].flat
    ensures v / NPTE in s.spaces[r].low
  {
    assert SpaceOk(s.mem, s.owner, r, s.spaces[r]);
  }

  /** The state after entry e is written for page v of r, in the level-0 table p. */
  ghost function LeafSet(s: Sys, r: nat, v: nat, p: nat, e: Pte): Sys
    requires r in s.spaces && IsTable(s.mem, p)
  {
    Sys(SetEntry(s.mem, p, PX(0, v), e), s.owner,
        s.spaces[r := Space(s.spaces[r].mid, s.spaces[r].low, WithLeaf(s.spaces[r].flat, v, e))])
  }

  lemma LeafSetSpaces(s: Sys, r: nat, v: nat, p: nat, e: Pte)
    requires SpacesOk(s) && s.mem.Keys == s.owner.Keys
    requires r in s.spaces && v < MAXPAGES && OnPath(s.spaces[r], r, v, 0, p)
    requires IsTable(s.mem, p) && p in s.owner && s.owner[p].Tab? && s.owner[p].root == r
    requires (V in e.flags && Leaf(e)) || e == NoPte
    ensures SpacesOk(LeafSet(s, r, v, p, e))
  {
    Indices(v);
    assert SpaceOk(s.mem, s.owner, r, s.spaces[r]);
    SetLeaf(s.mem, s.owner, r, s.spaces[r], v, e);
    hide SpaceOk;
    OthersKept(s, LeafSet(s, r, v, p, e), r);
  }

  /** No page is owned as page v of r, or only the one that e still maps there. */
  ghost predicate LeafFree(s: Sys, r: nat, v: nat, e: Pte) {
    forall x :: x in s.owner && s.owner[x] == User(r, v) ==> e != NoPte && e.ppn == x
  }

  lemma LeafSetBacked(s: Sys, r: nat, v: nat, p: nat, e: Pte)
    requires r in s.spaces && s.mem.Keys == s.owner.Keys && forall x :: x in s.owner ==> Backed(s, x)
    requires IsTable(s.mem, p) && p in s.owner && s.owner[p].Tab? && s.owner[p].root == r && LeafFree(s, r, v, e)
    ensures var s' := LeafSet(s, r, v, p, e);
      Kept(s, s', r) && s'.mem.Keys == s'.owner.Keys && forall x :: x in s'.owner ==> Backed(s', x)
  {
    hide PX;
    var s' := LeafSet(s, r, v, p, e);
    forall x | x in s'.owner ensures Backed(s', x) {
      assert Backed(s, x);
    }
    forall x | x in s.owner ensures PageKept(s, s', x) || OwnTable(s, s', x, r) {
    }
  }

  lemma LeafSetOk(s: Sys, r: nat, v: nat, p: nat, e: Pte)
    requires SysOk(s) && r in s.spaces && v < MAXPAGES && OnPath(s.spaces[r], r, v, 0, p)
    requires ((V in e.flags && Leaf(e)) || e == NoPte) && LeafFree(s, r, v, e)
    ensures IsTable(s.mem, p) && SysOk(LeafSet(s, r, v, p, e)) && Kept(s, LeafSet(s, r, v, p, e), r)
  {
    hide SpaceOk, PX, Kept, LeafFree;
    LeafEntry(s, r, v, p);
    LeafSetSpaces(s, r, v, p, e);
    LeafSetBacked(s, r, v, p, e);
  }

  /** An entry not in the flat map belongs to no user page. */
  lemma UnmappedFree(s: Sys, r: nat, v: nat, e: Pte)
    requires SysOk(s) && (v >= TRAPFRAME || (r in s.spaces && v !in s.spaces[r].flat))
    ensures LeafFree(s, r, v, e)
  {
    forall x | x in s.owner ensures s.owner[x] != User(r, v) {
      assert Backed(s, x);
    }
  }

  // ----- user pages -----

  /** Page v of r is mapped to a page that belongs to it. */
  ghost predicate OwnsPage(s: Sys, r: nat, v: nat) {
    && r in s.spaces && v in s.spaces[r].flat
    && var p := s.spaces[r].flat[v].ppn; p in s.owner && s.owner[p] == User(r, v)
  }

  /** The user pages of r are exactly the first n virtual pages, and each has its own page. */
  ghost predicate IsProc(s: Sys, r: nat, n: nat) {
    && r in s.spaces && n <= TRAPFRAME
    && (forall v :: 0 <= v < n ==> OwnsPage(s, r, v))
    && (forall v :: v in s.spaces[r].flat && v < TRAPFRAME ==> v < n)
  }

  ghost predicate InRange(o: Owner, r: nat, lo: nat, hi: nat) {
    o.User? && o.root == r && lo <= o.v < hi
  }

  /** The pages of r from lo to hi - 1 have become free; all others keep their use, and all
      that are not table pages of r keep their contents. */
  ghost predicate Released(s: Sys, s': Sys, r: nat, lo: nat, hi: nat) {
    && s.owner.Keys == s'.owner.Keys
    && (forall p :: p in s.owner ==>
          if InRange(s.owner[p], r, lo, hi) then s'.owner[p].Free? else PageKept(s, s', p) || OwnTable(s, s', p, r))
    && r in s.spaces && r in s'.spaces && s'.spaces == s.spaces[r := s'.spaces[r]]
    && s'.spaces[r].mid == s.spaces[r].mid && s'.spaces[r].low == s.spaces[r].low
    && s'.spaces[r].flat == Minus(s.spaces[r].flat, lo, hi)
  }

  ghost function Minus(flat: map<nat, Pte>, lo: nat, hi: nat): map<nat, Pte> {
    map x | x in flat && !(lo <= x < hi) :: flat[x]
  }

  lemma ReleasedNone(s: Sys, r: nat, lo: nat)
    requires SysOk(s) && r in s.spaces
    ensures Released(s, s, r, lo, lo)
  {
  }

  /** Only the page that maps v is owned as page v. */
  lemma OwnerUnique(s: Sys, r: nat, v: nat, x: nat)
    requires SysOk(s) && x in s.owner && s.owner[x] == User(r, v)
    ensures OwnsPage(s, r, v) && s.spaces[r].flat[v].ppn == x && v < TRAPFRAME && IsData(s.mem, x)
  {
    assert Backed(s, x);
  }

  /** One iteration of uvmunmap(): page `a` gives back its page, if it owns one, and its
      entry is cleared. */
  lemma ReleaseStep(s0: Sys, s: Sys, t: Sys, u: Sys, r: nat, lo: nat, a: nat, page: Page)
    requires Released(s0, s, r, lo, a) && lo <= a && SysOk(s) && a in s.spaces[r].flat
    requires var p := s.spaces[r].flat[a].ppn;
      || (OwnsPage(s, r, a) && t == Sys(s.mem[p := page], s.owner[p := Free], s.spaces))
      || (a >= TRAPFRAME && t == s)
    requires Kept(t, u, r) && u.owner == t.owner
    requires u.spaces[r] == Space(s.spaces[r].mid, s.spaces[r].low, s.spaces[r].flat - {a})
    ensures Released(s0, u, r, lo, a + 1)
  {
    hide SysOk;
    assert Minus(s0.spaces[r].flat, lo, a) - {a} == Minus(s0.spaces[r].flat, lo, a + 1);
    forall x | x in s0.owner
      ensures if InRange(s0.owner[x], r, lo, a + 1) then u.owner[x].Free?
              else PageKept(s0, u, x) || OwnTable(s0, u, x, r)
    {
      assert PageKept(t, u, x) || TakenAsTable(t, u, x, r) || OwnTable(t, u, x, r);
      if s.owner[x] == User(r, a) { OwnerUnique(s, r, a, x); }
    }
  }

  lemma ReleasedOwns(s0: Sys, s: Sys, r: nat, lo: nat, a: nat, v: nat)
    requires Released(s0, s, r, lo, a) && OwnsPage(s0, r, v) && !(lo <= v < a)
    ensures OwnsPage(s, r, v)
  {
    var p := s0.spaces[r].flat[v].ppn;
    assert PageKept(s0, s, p) || OwnTable(s0, s, p, r);
  }

  lemma OwnsMapped(s: Sys, r: nat, v: nat)
    requires OwnsPage(s, r, v)
    ensures r in s.spaces && v in s.spaces[r].flat
  {
  }

  /** Once page v has given back the page it maps, no page is owned as page v. */
  lemma GivenBack(s: Sys, r: nat, v: nat, page: Page)
    requires SysOk(s) && OwnsPage(s, r, v)
    ensures var p := s.spaces[r].flat[v].ppn;
      LeafFree(Sys(s.mem[p := page], s.owner[p := Free], s.spaces), r, v, NoPte)
  {
    hide SysOk;
    forall x | x in s.owner && s.owner[x] == User(r, v) ensures x == s.spaces[r].flat[v].ppn {
      OwnerUnique(s, r, v, x);
    }
  }

  // ----- growing a process -----

  /** What a new page is to hold, and with which flags it is to be mapped. */
  datatype Image = Image(flags: set<Flag>, page: Page)

  /** From s0 to s, r has grown by the pages lo .. hi - 1, each as `img` says. */
  ghost predicate Alloced(s0: Sys, s: Sys, r: nat, lo: nat, hi: nat, img: nat -> Image) {
    && s0.owner.Keys == s.owner.Keys
    && (forall p :: p in s0.owner ==>
          || PageKept(s0, s, p) || TakenAsTable(s0, s, p, r) || OwnTable(s0, s, p, r)
          || (s0.owner[p].Free? && InRange(s.owner[p], r, lo, hi) && p in s.mem && s.mem[p] == img(s.owner[p].v).page))
    && r in s0.spaces && r in s.spaces && s.spaces == s0.spaces[r := s.spaces[r]]
    && Extends(s0.spaces[r].low, s.spaces[r].low)
    && Minus(s.spaces[r].flat, lo, hi) == s0.spaces[r].flat
    && (forall v :: lo <= v < hi ==> OwnsPage(s, r, v) && s.spaces[r].flat[v].flags == img(v).flags)
  }

  lemma AllocedNone(s: Sys, r: nat, lo: nat, img: nat -> Image)
    requires SysOk(s) && r in s.spaces
    ensures Alloced(s, s, r, lo, lo, img)
  {
    assert Minus(s.spaces[r].flat, lo, lo) == s.spaces[r].flat;
  }

  /** A held page that is mapped at page v of r may become that user page. */
  lemma AdoptOk(s: Sys, r: nat, v: nat, p: nat)
    requires SysOk(s) && r in s.spaces && v < TRAPFRAME && v in s.spaces[r].flat && s.spaces[r].flat[v].ppn == p
    requires p in s.owner && s.owner[p].Held? && IsData(s.mem, p)
    ensures SysOk(Sys(s.mem, s.owner[p := User(r, v)], s.spaces))
  {
    var s' := Sys(s.mem, s.owner[p := User(r, v)], s.spaces);
    forall q | q in s.spaces ensures SpaceOk(s'.mem, s'.owner, q, s.spaces[q]) {
      SpaceFrame(s.mem, s.owner, s'.mem, s'.owner, q, s.spaces[q]);
    }
    hide SpaceOk;
    forall x | x in s'.owner ensures Backed(s', x) {
      assert Backed(s, x);
    }
  }

  /** kalloc() and filling of page p, then mapping it as page v, then owning it. */
  lemma AllocStep(s: Sys, t: Sys, u: Sys, r: nat, v: nat, p: nat, perm: set<Flag>, page: Page, img: nat -> Image)
    requires SysOk(s) && r in s.spaces && v !in s.spaces[r].flat && p in s.owner && s.owner[p].Free?
    requires t == Sys(s.mem[p := page], s.owner[p := Held], s.spaces)
    requires Kept(t, u, r) && u.spaces[r].flat == s.spaces[r].flat[v := Pte(p, perm + {V})]
    requires img(v) == Image(perm + {V}, page)
    ensures Alloced(s, Sys(u.mem, u.owner[p := User(r, v)], u.spaces), r, v, v + 1, img)
  {
    hide SysOk;
    var w := Sys(u.mem, u.owner[p := User(r, v)], u.spaces);
    assert PageKept(t, u, p);
    forall x | x in s.owner && x != p
      ensures PageKept(s, w, x) || TakenAsTable(s, w, x, r) || OwnTable(s, w, x, r)
    {
      assert PageKept(t, u, x) || TakenAsTable(t, u, x, r) || OwnTable(t, u, x, r);
    }
    assert Minus(w.spaces[r].flat, v, v + 1) == s.spaces[r].flat;
    assert OwnsPage(w, r, v);
  }

  /** When mapping fails, page p goes back to the free list. */
  lemma AllocFails(s: Sys, t: Sys, u: Sys, r: nat, v: nat, p: nat, page: Page, img: nat -> Image)
    requires SysOk(s) && r in s.spaces && p in s.owner && s.owner[p].Free?
    requires t == Sys(s.mem[p := page], s.owner[p := Held], s.spaces)
    requires Grown(t, u, r)
    ensures Alloced(s, Sys(u.mem[p := Filled(1)], u.owner[p := Free], u.spaces), r, v, v, img)
  {
    hide SysOk;
    var w := Sys(u.mem[p := Filled(1)], u.owner[p := Free], u.spaces);
    forall x | x in s.owner && x != p
      ensures PageKept(s, w, x) || TakenAsTable(s, w, x, r) || OwnTable(s, w, x, r)
    {
      assert PageKept(t, u, x) || TakenAsTable(t, u, x, r) || OwnTable(t, u, x, r);
    }
    assert Minus(w.spaces[r].flat, v, v) == s.spaces[r].flat;
  }

  lemma AllocedTrans(s0: Sys, s: Sys, w: Sys, r: nat, lo: nat, v: nat, hi: nat, img: nat -> Image)
    requires Alloced(s0, s, r, lo, v, img) && Alloced(s, w, r, v, hi, img) && lo <= v <= hi
    ensures Alloced(s0, w, r, lo, hi, img)
  {
    forall x | lo <= x < hi ensures OwnsPage(w, r, x) && w.spaces[r].flat[x].flags == img(x).flags {
      if x < v {
        assert OwnsPage(s, r, x) && x in Minus(w.spaces[r].flat, v, hi);
      }
    }
    assert Minus(w.spaces[r].flat, lo, hi) == Minus(Minus(w.spaces[r].flat, v, hi), lo, v);
  }

  /** Growing and then releasing the same pages leaves the flat map as it was; the only
      pages not given back are table pages of r. */
  lemma AllocUndone(s0: Sys, s: Sys, s': Sys, r: nat, lo: nat, hi: nat, img: nat -> Image)
    requires Alloced(s0, s, r, lo, hi, img) && Released(s, s', r, lo, hi)
    requires SysOk(s0) && forall v :: lo <= v < hi ==> v !in s0.spaces[r].flat
    ensures Grown(s0, s', r)
  {
    hide SysOk;
    forall x | x in s0.owner ensures !InRange(s0.owner[x], r, lo, hi) {
      if s0.owner[x].User? && s0.owner[x].root == r {
        OwnerUnique(s0, r, s0.owner[x].v, x);
      }
    }
    forall x | x in s0.owner
      ensures PageKept(s0, s', x) || TakenAsTable(s0, s', x, r) || OwnTable(s0, s', x, r)
    {
    }
  }

  lemma AllocedProc(s0: Sys, s: Sys, r: nat, lo: nat, hi: nat, img: nat -> Image)
    requires IsProc(s0, r, lo) && Alloced(s0, s, r, lo, hi, img) && lo <= hi <= TRAPFRAME
    ensures IsProc(s, r, hi)
  {
    forall v | 0 <= v < hi ensures OwnsPage(s, r, v) {
      if v < lo {
        assert OwnsPage(s0, r, v) && v in Minus(s.spaces[r].flat, lo, hi);
      }
    }
    forall v | v in s.spaces[r].flat && !(lo <= v < hi) ensures v in s0.spaces[r].flat {
      assert v in Minus(s.spaces[r].flat, lo, hi);
    }
  }

  // ----- a process never outgrows physical memory -----

  ghost function PhysPage(s: Sys, r: nat, v: nat): nat
    requires OwnsPage(s, r, v)
  {
    s.spaces[r].flat[v].ppn
  }

  /** The physical pages of the first n virtual pages are n different pages. */
  ghost function PhysPages(s: Sys, r: nat, n: nat): (ps: set<nat>)
    requires forall v :: 0 <= v < n ==> OwnsPage(s, r, v)
    ensures forall p :: p in ps ==> p in s.owner && s.owner[p].User? && s.owner[p].v < n
    ensures |ps| == n
  {
    if n == 0 then {} else PhysPages(s, r, n - 1) + {PhysPage(s, r, n - 1)}
  }

  lemma {:induction false} IntervalSize(ps: set<nat>, lo: nat, hi: nat)
    requires lo <= hi && forall p :: p in ps ==> lo <= p < hi
    ensures |ps| <= hi - lo
    decreases hi - lo
  {
    if lo == hi {
      assert ps == {};
    } else {
      IntervalSize(ps - {lo}, lo + 1, hi);
    }
  }

  /** So a process has fewer pages than there are virtual pages below the trap frame. */
  lemma ProcFits(first: nat, last: nat, freelist: seq<nat>, s: Sys, r: nat, n: nat)
    requires PoolOk(first, last, freelist, s) && IsProc(s, r, n)
    ensures n <= RAMPAGES < TRAPFRAME
  {
    var ps := PhysPages(s, r, n);
    if first <= last {
      IntervalSize(ps, first, last);
    } else {
      assert ps == {};
    }
  }

  lemma ProcFacts(s: Sys, r: nat, n: nat)
    requires IsProc(s, r, n)
    ensures r in s.spaces && n <= TRAPFRAME
    ensures forall v :: n <= v < TRAPFRAME ==> v !in s.spaces[r].flat
  {
  }

  lemma ProcOwns(s: Sys, r: nat, n: nat)
    requires IsProc(s, r, n)
    ensures forall v :: 0 <= v < n ==> OwnsPage(s, r, v)
  {
  }

  lemma GrownProc(s: Sys, s': Sys, r: nat, n: nat)
    requires Grown(s, s', r) && IsProc(s, r, n)
    ensures IsProc(s', r, n)
  {
    forall v | 0 <= v < n ensures OwnsPage(s', r, v) {
      assert OwnsPage(s, r, v);
      var p := s.spaces[r].flat[v].ppn;
      assert PageKept(s, s', p) || TakenAsTable(s, s', p, r) || OwnTable(s, s', p, r);
    }
  }

  lemma HeldKept(s: Sys, s': Sys, r: nat, p: nat)
    requires Kept(s, s', r) && p in s.owner && s.owner[p].Held?
    ensures PageKept(s, s', p)
  {
    assert PageKept(s, s', p) || TakenAsTable(s, s', p, r) || OwnTable(s, s', p, r);
  }

  lemma InPool(first: nat, last: nat, freelist: seq<nat>, s: Sys, p: nat)
    requires PoolOk(first, last, freelist, s) && p in s.owner
    ensures first <= p < last
  {
  }

  lemma PoolSame(first: nat, last: nat, freelist: seq<nat>, s: Sys, s': Sys)
    requires PoolOk(first, last, freelist, s) && s'.owner == s.owner && s'.mem.Keys == s.mem.Keys
    ensures PoolOk(first, last, freelist, s')
  {
  }

  lemma PoolKeys(first: nat, last: nat, freelist: seq<nat>, s: Sys)
    requires PoolOk(first, last, freelist, s)
    ensures s.mem.Keys == s.owner.Keys
  {
  }

  // ----- copying a process -----

  /** The pages of r in s, as they are to appear in a copy. */
  ghost function CopyImage(s: Sys, r: nat): nat -> Image {
    (v: nat) => if OwnsPage(s, r, v) && s.spaces[r].flat[v].ppn in s.mem
         then Image(s.spaces[r].flat[v].flags, s.mem[s.spaces[r].flat[v].ppn]) else Image({}, Filled(0))
  }

  /** While another space r1 grows, page v of r stays as it was. */
  lemma AllocedOther(s0: Sys, s: Sys, r1: nat, lo: nat, hi: nat, img: nat -> Image, r: nat, v: nat)
    requires SysOk(s0) && Alloced(s0, s, r1, lo, hi, img) && r != r1 && OwnsPage(s0, r, v)
    ensures OwnsPage(s, r, v) && s.spaces[r] == s0.spaces[r]
    ensures var p := s.spaces[r].flat[v].ppn;
      IsData(s.mem, p) && s.mem[p] == s0.mem[p] && CopyImage(s0, r)(v) == Image(s.spaces[r].flat[v].flags, s.mem[p])
  {
    var p := s0.spaces[r].flat[v].ppn;
    OwnerUnique(s0, r, v, p);
    assert p in s0.owner;
  }

  lemma DataPage(s: Sys, p: nat)
    requires IsData(s.mem, p)
    ensures p in s.mem && s.mem[p].Data? && |s.mem[p].bytes| == PGSIZE
  {
  }

  lemma OnlyOwner(s: Sys, r: nat, v: nat, e: Pte)
    requires SysOk(s) && OwnsPage(s, r, v) && e.ppn == s.spaces[r].flat[v].ppn && e != NoPte
    ensures LeafFree(s, r, v, e)
  {
    hide SysOk;
    forall x | x in s.owner && s.owner[x] == User(r, v) ensures x == e.ppn {
      OwnerUnique(s, r, v, x);
    }
  }
}
