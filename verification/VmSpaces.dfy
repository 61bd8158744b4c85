/**
 Making and unmaking whole address spaces: after any number of changes to a space made
 since s0, freeing it gives back every page it took, so that s0's uses are restored.
 */
module VmSpaces {
  import opened Sv39
  import opened VmState
  import opened VmFree

  ghost predicate Mine(o: Owner, r: nat) {
    (o.Tab? || o.User?) && o.root == r
  }

  /** From s0 to s, a space at r has been built from pages that were free. */
  ghost predicate Built(s0: Sys, s: Sys, r: nat) {
    && s0.owner.Keys == s.owner.Keys
    && (forall p :: p in s0.owner ==>
          && !Mine(s0.owner[p], r)
          && (PageKept(s0, s, p) || (s0.owner[p].Free? && Mine(s.owner[p], r))))
    && r !in s0.spaces && r in s.spaces && s.spaces == s0.spaces[r := s.spaces[r]]
  }

  /** From s to s', the space at r is gone and all its pages are free. */
  ghost predicate Gone(s: Sys, s': Sys, r: nat) {
    && s.owner.Keys == s'.owner.Keys && s'.spaces == s.spaces - {r}
    && forall p :: p in s.owner ==> if Mine(s.owner[p], r) then s'.owner[p].Free? else PageKept(s, s', p)
  }

  /** Every page has the use it had, and what is in use has the contents it had. */
  ghost predicate Restored(s: Sys, s': Sys) {
    && s.owner == s'.owner && s.spaces == s'.spaces
    && forall p :: p in s.owner ==> PageKept(s, s', p)
  }

  lemma BuiltGone(s0: Sys, s: Sys, s': Sys, r: nat)
    requires Built(s0, s, r) && Gone(s, s', r)
    ensures Restored(s0, s')
  {
  }

  lemma BuiltKept(s0: Sys, s: Sys, t: Sys, r: nat)
    requires Built(s0, s, r) && Kept(s, t, r)
    ensures Built(s0, t, r)
  {
  }

  lemma BuiltAlloced(s0: Sys, s: Sys, t: Sys, r: nat, lo: nat, hi: nat, img: nat -> Image)
    requires Built(s0, s, r) && Alloced(s, t, r, lo, hi, img)
    ensures Built(s0, t, r)
  {
  }

  lemma BuiltReleased(s0: Sys, s: Sys, t: Sys, r: nat, lo: nat, hi: nat)
    requires Built(s0, s, r) && Released(s, t, r, lo, hi)
    ensures Built(s0, t, r)
  {
  }

  /** uvmcreate(): a zeroed page becomes the root of an empty space. */
  lemma NewSpaceOk(s: Sys, p: nat)
    requires SysOk(s) && p in s.owner && s.owner[p].Held?
    ensures p !in s.spaces
    ensures SysOk(Sys(s.mem[p := ZeroTable()], s.owner[p := Tab(p, Root)], s.spaces[p := Space(map[], map[], map[])]))
  {
    assert forall r :: r in s.spaces ==> SpaceOk(s.mem, s.owner, r, s.spaces[r]);
    var s' := Sys(s.mem[p := ZeroTable()], s.owner[p := Tab(p, Root)], s.spaces[p := Space(map[], map[], map[])]);
    forall r | r in s'.spaces ensures SpaceOk(s'.mem, s'.owner, r, s'.spaces[r]) {
      if r != p { SpaceFrame(s.mem, s.owner, s'.mem, s'.owner, r, s.spaces[r]); }
    }
    hide SpaceOk;
    forall x | x in s'.owner ensures Backed(s', x) {
      if x != p { assert Backed(s, x); }
    }
  }

  lemma NewSpaceBuilt(s0: Sys, p: nat)
    requires SysOk(s0) && p in s0.owner && s0.owner[p].Free? && p !in s0.spaces
    ensures Built(s0, Sys(s0.mem[p := ZeroTable()], s0.owner[p := Tab(p, Root)],
                          s0.spaces[p := Space(map[], map[], map[])]), p)
  {
  }

  /** freewalk() from the root of a space where nothing is mapped. */
  lemma DropSpace(s: Sys, t: Sys, r: nat)
    requires SysOk(s) && r in s.spaces && s.spaces[r].flat == map[] && Freed(s, t, r, Root)
    requires t.mem.Keys == t.owner.Keys
    ensures SysOk(Sys(t.mem, t.owner, t.spaces - {r})) && Gone(s, Sys(t.mem, t.owner, t.spaces - {r}), r)
  {
    hide SpaceOk;
    var u := Sys(t.mem, t.owner, t.spaces - {r});
    forall p | p in s.owner ensures if Mine(s.owner[p], r) then u.owner[p].Free? else PageKept(s, u, p) {
      assert Backed(s, p);
    }
    forall q | q in u.spaces ensures SpaceOk(u.mem, u.owner, q, u.spaces[q]) {
      SpaceFrame(s.mem, s.owner, u.mem, u.owner, q, s.spaces[q]);
    }
    forall p | p in u.owner ensures Backed(u, p) {
      assert Backed(s, p);
    }
  }

  /** Releasing user pages of a space before it goes is part of its going. */
  lemma ReleasedGone(s: Sys, t: Sys, u: Sys, r: nat, lo: nat, hi: nat)
    requires Released(s, t, r, lo, hi) && Gone(t, u, r)
    ensures Gone(s, u, r)
  {
  }

  /** User pages 0 .. n - 1 and the two pages at the top of memory are mapped, nothing else. */
  ghost predicate FullProc(s: Sys, r: nat, n: nat) {
    && IsProc(s, r, n)
    && TRAMPOLINE in s.spaces[r].flat && TRAPFRAME in s.spaces[r].flat
    && forall v :: v in s.spaces[r].flat ==> v < TRAPFRAME || (v < MAXPAGES && U !in s.spaces[r].flat[v].flags)
  }

  lemma FullAlloced(s: Sys, t: Sys, r: nat, lo: nat, hi: nat, img: nat -> Image)
    requires FullProc(s, r, lo) && Alloced(s, t, r, lo, hi, img) && lo <= hi && IsProc(t, r, hi)
    ensures FullProc(t, r, hi)
  {
    hide IsProc;
    ProcFacts(t, r, hi);
    forall v | v in s.spaces[r].flat ensures v in t.spaces[r].flat && t.spaces[r].flat[v] == s.spaces[r].flat[v] {
      assert v in Minus(t.spaces[r].flat, lo, hi);
    }
    forall v | v in t.spaces[r].flat && v >= hi ensures v in s.spaces[r].flat {
      assert v in Minus(t.spaces[r].flat, lo, hi);
    }
  }

  lemma FullShrunk(s: Sys, t: Sys, r: nat, n: nat, lo: nat)
    requires FullProc(s, r, n) && Released(s, t, r, lo, n) && lo <= n
    ensures FullProc(t, r, lo)
  {
    ProcShrunk(s, t, r, n, lo);
  }

  lemma ProcReleased(s: Sys, t: Sys, r: nat, n: nat, lo: nat, hi: nat)
    requires IsProc(s, r, n) && Released(s, t, r, lo, hi) && lo >= n
    ensures IsProc(t, r, n)
  {
    forall v | 0 <= v < n ensures OwnsPage(t, r, v) {
      ReleasedOwns(s, t, r, lo, hi, v);
    }
  }

  lemma ProcShrunk(s: Sys, t: Sys, r: nat, n: nat, lo: nat)
    requires IsProc(s, r, n) && Released(s, t, r, lo, n) && lo <= n
    ensures IsProc(t, r, lo)
  {
    forall v | 0 <= v < lo ensures OwnsPage(t, r, v) {
      ReleasedOwns(s, t, r, lo, n, v);
    }
  }

  lemma RestoredSame(s: Sys)
    requires SysOk(s)
    ensures Restored(s, s)
  {
  }

  lemma BuiltIn(s0: Sys, s: Sys, r: nat)
    requires Built(s0, s, r)
    ensures r in s.spaces
  {
  }

  lemma ReleasedFlat(s: Sys, t: Sys, r: nat, lo: nat, hi: nat)
    requires Released(s, t, r, lo, hi)
    ensures r in s.spaces && r in t.spaces && t.spaces[r].flat == Minus(s.spaces[r].flat, lo, hi)
  {
  }

  lemma FullGrown(s: Sys, t: Sys, r: nat, n: nat)
    requires FullProc(s, r, n) && Grown(s, t, r)
    ensures FullProc(t, r, n)
  {
    GrownProc(s, t, r, n);
  }

  /** Page v of r' in s' is a page of its own with the flags and bytes of page v of r in s. */
  ghost predicate CopyOf(s: Sys, r: nat, s': Sys, r': nat, v: nat) {
    && OwnsPage(s, r, v) && OwnsPage(s', r', v)
    && s'.spaces[r'].flat[v].flags == s.spaces[r].flat[v].flags
    && var p, p' := s.spaces[r].flat[v].ppn, s'.spaces[r'].flat[v].ppn;
      p in s.mem && p' in s'.mem && s'.mem[p'] == s.mem[p]
  }

  lemma AllocedCopies(s: Sys, t: Sys, r: nat, r': nat, n: nat, v: nat)
    requires SysOk(s) && SysOk(t) && Alloced(s, t, r', 0, n, CopyImage(s, r)) && IsProc(s, r, n) && IsProc(s, r', 0)
      && v < n
    ensures CopyOf(s, r, t, r', v)
  {
    hide SysOk;
    assert OwnsPage(s, r, v) && OwnsPage(t, r', v);
    var p := s.spaces[r].flat[v].ppn;
    OwnerUnique(s, r, v, p);
    var p' := t.spaces[r'].flat[v].ppn;
    OwnerUnique(t, r', v, p');
    if s.owner[p'] == t.owner[p'] { OwnerUnique(s, r', v, p'); }
    assert t.mem[p'] == CopyImage(s, r)(v).page;
  }

  /** The state in which page p is held, or has been given back. */
  ghost function Hold(s: Sys, p: nat, page: Page, o: Owner): Sys {
    Sys(s.mem[p := page], s.owner[p := o], s.spaces)
  }

  lemma CopyOfHeld(s0: Sys, s: Sys, t: Sys, p: nat, page: Page, r: nat, r': nat, v: nat, u: Sys)
    requires p in s0.owner && s0.owner[p].Free? && s == Hold(s0, p, page, Held) && Built(s, t, r')
    requires CopyOf(t, r, u, r', v) && r != r' && OwnsPage(s0, r, v)
    ensures CopyOf(s0, r, u, r', v)
  {
  }

  /** A space built while page p was held: giving p back, it is built from s0. */
  lemma BuiltBack(s0: Sys, s: Sys, t: Sys, p: nat, page: Page, page': Page, r: nat)
    requires p in s0.owner && s0.owner[p].Free? && s == Hold(s0, p, page, Held) && Built(s, t, r)
    ensures Built(s0, Hold(t, p, page', Free), r)
  {
  }

  lemma BuiltProc(s: Sys, t: Sys, r': nat, r: nat, n: nat)
    requires Built(s, t, r') && IsProc(s, r, n)
    ensures r != r' && IsProc(t, r, n)
  {
    forall v | 0 <= v < n ensures OwnsPage(t, r, v) {
      assert OwnsPage(s, r, v);
      assert PageKept(s, t, s.spaces[r].flat[v].ppn);
    }
  }

  lemma BuiltHolds(s: Sys, t: Sys, r: nat, p: nat)
    requires Built(s, t, r) && p in s.owner && s.owner[p].Held?
    ensures p in t.owner && t.owner[p].Held?
  {
  }

  lemma HeldProc(s: Sys, p: nat, page: Page, r: nat, n: nat)
    requires SysOk(s) && p in s.owner && (s.owner[p].Free? || s.owner[p].Held?) && IsProc(s, r, n)
    ensures forall o :: IsProc(Hold(s, p, page, o), r, n)
  {
    forall o ensures IsProc(Hold(s, p, page, o), r, n) {
      forall v | 0 <= v < n ensures OwnsPage(Hold(s, p, page, o), r, v) {
        assert OwnsPage(s, r, v);
      }
    }
  }

  lemma HeldFull(s: Sys, p: nat, page: Page, r: nat)
    requires SysOk(s) && p in s.owner && s.owner[p].Held? && FullProc(s, r, 0)
    ensures FullProc(Hold(s, p, page, Free), r, 0)
  {
  }

  lemma RestoredHolds(s: Sys, t: Sys, p: nat)
    requires Restored(s, t) && p in s.owner && s.owner[p].Held?
    ensures p in t.owner && t.owner[p].Held?
  {
  }

  lemma RestoredBack(s0: Sys, s: Sys, t: Sys, p: nat, page: Page)
    requires p in s0.owner && s0.owner[p].Free? && s == Hold(s0, p, page, Held)
    requires exists u :: Restored(s, u) && t == Hold(u, p, Filled(1), Free)
    ensures Restored(s0, t)
  {
  }

  lemma BuiltFull(s0: Sys, s: Sys, t: Sys, p: nat, page: Page, r': nat, r: nat, n: nat)
    requires SysOk(s0) && p in s0.owner && s0.owner[p].Free? && s == Hold(s0, p, page, Held)
    requires Built(s, t, r') && FullProc(s0, r, n)
    ensures FullProc(t, r, n)
  {
    HeldProc(s0, p, page, r, n);
    BuiltProc(s, t, r', r, n);
  }
}
