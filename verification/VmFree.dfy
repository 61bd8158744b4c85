/**
 Freeing an address space: which table pages freewalk() reaches from a place in the tree,
 and why each of them goes back to the free list exactly once.
 */
module VmFree {
  import opened Sv39
  import opened VmState

  /** `q` is `place` itself or lies below it. */
  ghost predicate Under(place: Place, q: Place) {
    match place
    case Root => true
    case Mid(i) => q == place || (q.Low? && q.key / NPTE == i)
    case Low(_) => q == place
  }

  /** The entry of the table at `place` through which a place below it is reached. */
  ghost function Via(place: Place, q: Place): nat {
    match (place, q)
    case (Root, Mid(i)) => i
    case (Root, Low(k)) => k / NPTE
    case (Mid(_), Low(k)) => k % NPTE
    case _ => NPTE
  }

  ghost function Child(place: Place, i: nat): Place {
    match place
    case Root => Mid(i)
    case Mid(j) => Low(j * NPTE + i)
    case Low(k) => Low(k)
  }

  function Level(place: Place): nat {
    match place
    case Root => 2
    case Mid(_) => 1
    case Low(_) => 0
  }

  ghost predicate InSpace(sp: Space, place: Place) {
    match place
    case Root => true
    case Mid(i) => i in sp.mid
    case Low(k) => k in sp.low
  }

  ghost function PageAt(r: nat, sp: Space, place: Place): nat
    requires InSpace(sp, place)
  {
    match place
    case Root => r
    case Mid(i) => sp.mid[i]
    case Low(k) => sp.low[k]
  }

  ghost predicate PlaceOk(s: Sys, r: nat, sp: Space, place: Place) {
    match place
    case Root => RootOk(s.mem, s.owner, r, sp)
    case Mid(i) => MidOk(s.mem, s.owner, r, sp, i)
    case Low(k) => LowOk(s.mem, s.owner, r, sp, k)
  }

  /** The tables from `place` down are as sp says. */
  ghost predicate SubtreeOk(s: Sys, r: nat, sp: Space, place: Place) {
    && (forall q :: Under(place, q) && InSpace(sp, q) ==> PlaceOk(s, r, sp, q))
    && (forall p :: p in s.owner && InTree(s.owner[p], r, place) ==>
          InSpace(sp, s.owner[p].place) && PageAt(r, sp, s.owner[p].place) == p)
  }

  ghost predicate InTree(o: Owner, r: nat, place: Place) {
    o.Tab? && o.root == r && Under(place, o.place)
  }

  /** Pages below `place` reached through entries before the i-th are free; all others,
      but for the contents of page p, are as before. */
  ghost predicate FreedBelow(s: Sys, s': Sys, r: nat, place: Place, p: nat, i: nat) {
    && s.owner.Keys == s'.owner.Keys && s.spaces == s'.spaces
    && forall x :: x in s.owner ==>
         if InTree(s.owner[x], r, place) && Via(place, s.owner[x].place) < i then s'.owner[x].Free?
         else if x == p then s'.owner[x] == s.owner[x] else PageKept(s, s', x)
  }

  /** The table pages from `place` down are free; all others are as before. */
  ghost predicate Freed(s: Sys, s': Sys, r: nat, place: Place) {
    && s.owner.Keys == s'.owner.Keys && s.spaces == s'.spaces
    && forall x :: x in s.owner ==> if InTree(s.owner[x], r, place) then s'.owner[x].Free? else PageKept(s, s', x)
  }

  lemma SpaceSubtree(s: Sys, r: nat)
    requires SysOk(s) && r in s.spaces
    ensures SubtreeOk(s, r, s.spaces[r], Root)
  {
  }

  /** What freewalk() finds in entry i of the table at `place`, when nothing is mapped. */
  lemma EntryLeads(s: Sys, r: nat, sp: Space, place: Place, i: nat)
    requires SubtreeOk(s, r, sp, place) && InSpace(sp, place) && sp.flat == map[] && i < NPTE
    ensures var p := PageAt(r, sp, place);
      && IsTable(s.mem, p) && p in s.owner && s.owner[p] == Tab(r, place)
      && var e := s.mem[p].pte[i];
      if !place.Low? && InSpace(sp, Child(place, i))
      then e == Pte(PageAt(r, sp, Child(place, i)), {V})
      else e == NoPte
  {
  }

  lemma UnderChild(place: Place, i: nat, q: Place)
    requires !place.Low? && i < NPTE
    ensures Under(Child(place, i), q) <==> Under(place, q) && Via(place, q) == i
  {
  }

  /** A page of the tree other than the one at `place` is reached through an entry whose
      child table exists. */
  lemma ViaExists(s: Sys, r: nat, sp: Space, place: Place, x: nat)
    requires SubtreeOk(s, r, sp, place) && InSpace(sp, place)
    requires x in s.owner && InTree(s.owner[x], r, place) && x != PageAt(r, sp, place)
    ensures !place.Low? && Via(place, s.owner[x].place) < NPTE
    ensures InSpace(sp, Child(place, Via(place, s.owner[x].place)))
  {
    var q := s.owner[x].place;
    assert PlaceOk(s, r, sp, q);
    if q.Low? && place.Root? { assert PlaceOk(s, r, sp, Mid(q.key / NPTE)); }
  }

  lemma ChildSubtree(s0: Sys, s: Sys, r: nat, sp: Space, place: Place, i: nat)
    requires SubtreeOk(s0, r, sp, place) && InSpace(sp, place) && !place.Low? && i < NPTE
    requires FreedBelow(s0, s, r, place, PageAt(r, sp, place), i)
    ensures SubtreeOk(s, r, sp, Child(place, i)) && Level(Child(place, i)) < Level(place)
  {
    var child := Child(place, i);
    forall q | Under(child, q) && InSpace(sp, q) ensures PlaceOk(s, r, sp, q) {
      UnderChild(place, i, q);
      assert PlaceOk(s0, r, sp, q);
      var x := PageAt(r, sp, q);
      assert x in s0.owner && s0.owner[x] == Tab(r, q) && q != place;
      assert PlaceOk(s0, r, sp, place);
      assert PageKept(s0, s, x);
    }
    forall x | x in s.owner && InTree(s.owner[x], r, child)
      ensures InSpace(sp, s.owner[x].place) && PageAt(r, sp, s.owner[x].place) == x
    {
      UnderChild(place, i, s.owner[x].place);
    }
  }

  /** One iteration of freewalk()'s loop over an entry that leads to a table. */
  lemma ChildFreed(s0: Sys, s: Sys, t: Sys, u: Sys, r: nat, place: Place, p: nat, i: nat, page: Page)
    requires FreedBelow(s0, s, r, place, p, i) && !place.Low? && i < NPTE
    requires p in s0.owner && s0.owner[p] == Tab(r, place)
    requires Freed(s, t, r, Child(place, i))
    requires u == Sys(t.mem[p := page], t.owner, t.spaces)
    ensures FreedBelow(s0, u, r, place, p, i + 1)
  {
    forall x | x in s0.owner
      ensures if InTree(s0.owner[x], r, place) && Via(place, s0.owner[x].place) < i + 1 then u.owner[x].Free?
              else if x == p then u.owner[x] == s0.owner[x] else PageKept(s0, u, x)
    {
      if s.owner[x].Tab? { UnderChild(place, i, s.owner[x].place); }
      if s0.owner[x].Tab? { UnderChild(place, i, s0.owner[x].place); }
    }
  }

  /** One iteration over an entry that is not valid. */
  lemma EntrySkipped(s0: Sys, s: Sys, r: nat, sp: Space, place: Place, i: nat)
    requires SubtreeOk(s0, r, sp, place) && InSpace(sp, place) && i < NPTE
    requires FreedBelow(s0, s, r, place, PageAt(r, sp, place), i)
    requires place.Low? || !InSpace(sp, Child(place, i))
    ensures FreedBelow(s0, s, r, place, PageAt(r, sp, place), i + 1)
  {
  }

  lemma LoopDone(s0: Sys, s: Sys, r: nat, sp: Space, place: Place, page: Page)
    requires SubtreeOk(s0, r, sp, place) && InSpace(sp, place)
    requires FreedBelow(s0, s, r, place, PageAt(r, sp, place), NPTE)
    ensures var p := PageAt(r, sp, place);
      Freed(s0, Sys(s.mem[p := page], s.owner[p := Free], s.spaces), r, place)
  {
    assert PlaceOk(s0, r, sp, place);
    var p := PageAt(r, sp, place);
    var u := Sys(s.mem[p := page], s.owner[p := Free], s.spaces);
    forall x | x in s0.owner
      ensures if InTree(s0.owner[x], r, place) then u.owner[x].Free? else PageKept(s0, u, x)
    {
      if x != p && InTree(s0.owner[x], r, place) { ViaExists(s0, r, sp, place, x); }
    }
  }

  lemma NothingFreed(s: Sys, r: nat, sp: Space, place: Place)
    requires SubtreeOk(s, r, sp, place) && InSpace(sp, place) && s.mem.Keys == s.owner.Keys
    ensures FreedBelow(s, s, r, place, PageAt(r, sp, place), 0)
    ensures IsTable(s.mem, PageAt(r, sp, place)) && PageAt(r, sp, place) in s.owner
  {
  }

  /** Freeing a child does not touch the table that leads to it. */
  lemma ParentKept(s0: Sys, s: Sys, t: Sys, r: nat, sp: Space, place: Place, i: nat)
    requires SubtreeOk(s0, r, sp, place) && InSpace(sp, place) && !place.Low? && i < NPTE
    requires FreedBelow(s0, s, r, place, PageAt(r, sp, place), i) && Freed(s, t, r, Child(place, i))
    ensures PageKept(s, t, PageAt(r, sp, place)) && t.owner[PageAt(r, sp, place)] == Tab(r, place)
  {
  }

  lemma NotFree(s0: Sys, s: Sys, r: nat, sp: Space, place: Place)
    requires SubtreeOk(s0, r, sp, place) && InSpace(sp, place)
    requires FreedBelow(s0, s, r, place, PageAt(r, sp, place), NPTE)
    ensures PageAt(r, sp, place) in s.owner && s.owner[PageAt(r, sp, place)] == Tab(r, place)
  {
  }
}
