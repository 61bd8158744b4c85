/**
 The states that create(), sys_link(), sys_unlink() and iput() of kernel/sysfile.c and
 kernel/fs.c lead to, and the proof that each keeps the tree and the link counts.
 */
module DirSteps {
  import opened DirTree

  function SetSlot(es: seq<Entry>, s: nat, e: Entry): (r: seq<Entry>)
    ensures s <= |es| ==> s < |r| && r[s] == e && |es| <= |r| <= |es| + 1
    ensures forall t :: 0 <= t < |es| && t != s ==> t < |r| && r[t] == es[t]
  {
    if s < |es| then es[s := e] else es + [e]
  }

  /** dirlink() may put `name` at slot s of d: the slot is free and the name is new. */
  ghost predicate CanAdd(fs: FS, d: nat, s: nat, name: string) {
    && Live(fs, d) && s <= |fs.inodes[d].entries| && FreeSlot(fs.inodes[d].entries, s)
    && NotThere(fs.inodes[d].entries, name)
  }

  ghost predicate FreeSlot(es: seq<Entry>, s: nat) {
    s < |es| ==> es[s].inum == 0
  }

  ghost predicate NotThere(es: seq<Entry>, name: string) {
    forall t :: 0 <= t < |es| && es[t].inum != 0 ==> es[t].name != name
  }

  function Entered(fs: FS, d: nat, s: nat, e: Entry): map<nat, Inode>
    requires d in fs.inodes
  {
    fs.inodes[d := fs.inodes[d].(entries := SetSlot(fs.inodes[d].entries, s, e))]
  }

  // ---- sys_link()

  /** The first half of sys_link(): i's count is raised before its new entry exists. */
  function LinkBegun(fs: FS, i: nat): FS
    requires i in fs.inodes
  {
    FS(fs.inodes[i := fs.inodes[i].(nlink := fs.inodes[i].nlink + 1)], fs.linking + multiset{i})
  }

  /** Its second half: the entry is written. */
  function Linked(fs: FS, i: nat, d: nat, s: nat, name: string): FS
    requires d in fs.inodes
  {
    FS(Entered(fs, d, s, Entry(i, name)), fs.linking - multiset{i})
  }

  function Less(n: nat): nat {
    if n == 0 then 0 else n - 1
  }

  /** Its `bad` exit. */
  function LinkUndone(fs: FS, i: nat): FS
    requires i in fs.inodes
  {
    FS(fs.inodes[i := fs.inodes[i].(nlink := Less(fs.inodes[i].nlink))], fs.linking - multiset{i})
  }

  /** Live directories and their entries are the same in both, and what they name has the same kind. */
  ghost predicate SameDirs(fs: FS, fs': FS) {
    forall d {:trigger SameDir(fs, fs', d)} :: SameDir(fs, fs', d)
  }

  ghost predicate SameDir(fs: FS, fs': FS, d: nat) {
    && (d in fs.inodes <==> d in fs'.inodes)
    && (Live(fs, d) || Live(fs', d) ==> d in fs.inodes && d in fs'.inodes && fs'.inodes[d] == fs.inodes[d])
    && (Dead(fs', d) ==> d in fs.inodes && fs'.inodes[d] == fs.inodes[d])
    && (d in fs.inodes && Refs(fs, d) != {} ==> fs'.inodes[d].kind == fs.inodes[d].kind)
  }

  lemma SameRefs(fs: FS, fs': FS, x: nat)
    requires SameDirs(fs, fs')
    ensures Refs(fs', x) == Refs(fs, x)
  {
    forall d: nat, s: nat ensures (d, s) in Refs(fs', x) <==> (d, s) in Refs(fs, x) { assert SameDir(fs, fs', d); }
  }

  lemma SameDirOk(fs: FS, fs': FS, depth: map<nat, nat>, d: nat)
    requires SameDirs(fs, fs') && DirOk(fs, d) && DepthOk(fs, depth, d) && Live(fs, d)
    ensures DirOk(fs', d) && DepthOk(fs', depth, d)
  {
    assert SameDir(fs, fs', d) && SameDir(fs, fs', Parent(fs, d));
    forall s | 2 <= s < |fs'.inodes[d].entries| && fs'.inodes[d].entries[s].inum != 0
      ensures TargetOk(fs', d, fs'.inodes[d].entries[s].inum)
    {
      assert (d, s) in Refs(fs, fs.inodes[d].entries[s].inum);
      assert SameDir(fs, fs', fs'.inodes[d].entries[s].inum);
    }
  }

  lemma SameChild(fs: FS, fs': FS, d: nat)
    requires SameDirs(fs, fs') && ChildOk(fs, d) && Live(fs, d)
    ensures ChildOk(fs', d)
  {
    assert SameDir(fs, fs', d) && SameDir(fs, fs', Parent(fs, d));
    var s :| 2 <= s && Names(fs, Parent(fs, d), s, d);
    assert Names(fs', Parent(fs', d), s, d);
    forall t | Names(fs', Parent(fs', d), t, d) ensures Names(fs, Parent(fs, d), t, d) {}
  }

  /** If no live directory changes, the tree is kept; the counts have to be shown. */
  lemma SameTree(fs: FS, fs': FS, depth: map<nat, nat>)
    requires Inv(fs, depth) && SameDirs(fs, fs')
    requires forall i {:trigger CountOk(fs', i)} :: i in fs'.inodes ==> CountOk(fs', i)
    requires forall i :: i in fs'.linking ==> i in fs'.inodes && fs'.inodes[i].kind in {File, Device}
    ensures Inv(fs', depth)
  {
    hide DirOk, DepthOk, ChildOk, CountOk, SameDirs;
    forall d ensures SameDir(fs, fs', d) { SameAt(fs, fs', d); }
    forall d | Dead(fs', d) ensures DeadOk(fs', d) {
      assert SameDir(fs, fs', d) && DeadOk(fs, d) && SameDir(fs, fs', fs.inodes[d].entries[1].inum);
    }
    forall d | Live(fs', d) ensures DirOk(fs', d) && DepthOk(fs', depth, d) {
      assert SameDir(fs, fs', d) && DirOk(fs, d) && DepthOk(fs, depth, d);
      SameDirOk(fs, fs', depth, d);
    }
    forall d | Live(fs', d) && d != ROOTINO ensures ChildOk(fs', d) {
      assert SameDir(fs, fs', d) && ChildOk(fs, d);
      SameChild(fs, fs', d);
    }
    assert SameDir(fs, fs', ROOTINO) && SameDir(fs, fs', 0);
  }

  lemma SameAt(fs: FS, fs': FS, d: nat)
    requires SameDirs(fs, fs')
    ensures SameDir(fs, fs', d)
  {
  }

  lemma LinkBegunOk(fs: FS, depth: map<nat, nat>, i: nat)
    requires Inv(fs, depth) && i in fs.inodes && fs.inodes[i].kind in {File, Device}
    ensures Inv(LinkBegun(fs, i), depth)
  {
    var fs' := LinkBegun(fs, i);
    forall x | x in fs'.inodes ensures CountOk(fs', x) {
      assert CountOk(fs, x);
      SameRefs(fs, fs', x);
    }
    SameTree(fs, fs', depth);
  }

  lemma LinkUndoneOk(fs: FS, depth: map<nat, nat>, i: nat)
    requires Inv(fs, depth) && i in fs.linking
    ensures i in fs.inodes && fs.inodes[i].nlink > 0 && Inv(LinkUndone(fs, i), depth)
  {
    hide DirOk, DepthOk, ChildOk, DeadOk, Refs;
    assert CountOk(fs, i);
    var fs' := LinkUndone(fs, i);
    forall x | x in fs'.inodes ensures CountOk(fs', x) {
      assert CountOk(fs, x);
      SameRefs(fs, fs', x);
    }
    SameTree(fs, fs', depth);
  }

  /** Only the entries of d change, and only at slot s, which was free and now names i. */
  lemma AddedRefs(fs: FS, fs': FS, i: nat, d: nat, s: nat, name: string, x: nat)
    requires Live(fs, d) && s <= |fs.inodes[d].entries| && FreeSlot(fs.inodes[d].entries, s) && i != 0
    requires name != "." && fs'.inodes == Entered(fs, d, s, Entry(i, name))
    ensures Refs(fs', x) == if x == i then Refs(fs, x) + {(d, s)} else Refs(fs, x)
    ensures (d, s) !in Refs(fs, x)
  {
  }

  lemma AddedDir(fs: FS, fs': FS, i: nat, d: nat, s: nat, name: string, e: nat)
    requires CanAdd(fs, d, s, name) && DirOk(fs, d) && DirOk(fs, e) && Live(fs, e) && TargetOk(fs, d, i)
    requires i in fs.inodes && i != 0 && 0 !in fs.inodes && fs'.inodes == Entered(fs, d, s, Entry(i, name))
    ensures DirOk(fs', e)
  {
    var es := fs'.inodes[e].entries;
    assert forall x :: Live(fs', x) == Live(fs, x);
    assert s >= 2;
    forall t | 2 <= t < |es| && es[t].inum != 0 ensures TargetOk(fs', e, es[t].inum) {
      if e == d && t == s { } else { assert TargetOk(fs, e, fs.inodes[e].entries[t].inum); }
    }
    if e == d { AddedUnique(fs.inodes[d].entries, s, Entry(i, name)); }
  }

  lemma AddedUnique(es: seq<Entry>, s: nat, e: Entry)
    requires UniqueNames(es) && s <= |es| && NotThere(es, e.name)
    ensures UniqueNames(SetSlot(es, s, e))
  {
  }

  lemma AddedChild(fs: FS, fs': FS, i: nat, d: nat, s: nat, name: string, x: nat)
    requires Live(fs, d) && s <= |fs.inodes[d].entries| && FreeSlot(fs.inodes[d].entries, s)
    requires fs'.inodes == Entered(fs, d, s, Entry(i, name)) && ChildOk(fs, x) && x != i && s >= 2
    ensures ChildOk(fs', x)
  {
    assert Parent(fs', x) == Parent(fs, x);
    var t :| 2 <= t && Names(fs, Parent(fs, x), t, x);
    assert Names(fs', Parent(fs', x), t, x);
    forall t | Names(fs', Parent(fs', x), t, x) ensures Names(fs, Parent(fs, x), t, x) {}
  }

  lemma SlotAfterDots(fs: FS, d: nat, s: nat)
    requires DirOk(fs, d) && 0 !in fs.inodes && FreeSlot(fs.inodes[d].entries, s)
    ensures s >= 2 && d in fs.inodes && fs.inodes[d].entries[0] == Entry(d, ".") && d != 0
    ensures |fs.inodes[d].entries| >= 2
  {
  }

  lemma LinkedOk(fs: FS, depth: map<nat, nat>, i: nat, d: nat, s: nat, name: string)
    requires Inv(fs, depth) && CanAdd(fs, d, s, name) && i in fs.linking
    ensures Inv(Linked(fs, i, d, s, name), depth)
  {
    hide DirOk, DepthOk, ChildOk, CountOk, TargetOk, Refs;
    var fs' := Linked(fs, i, d, s, name);
    assert DirOk(fs, d);
    FileTarget(fs, d, i);
    SlotAfterDots(fs, d, s);
    forall e | Live(fs', e) ensures DirOk(fs', e) && DepthOk(fs', depth, e) {
      assert Live(fs, e) && DirOk(fs, e) && DepthOk(fs, depth, e);
      AddedDir(fs, fs', i, d, s, name, e);
      AddedDepth(fs, fs', depth, i, d, s, name, e);
    }
    forall e | Live(fs', e) && e != ROOTINO ensures ChildOk(fs', e) {
      assert Live(fs, e) && ChildOk(fs, e);
      AddedChild(fs, fs', i, d, s, name, e);
    }
    forall x | x in fs'.inodes ensures CountOk(fs', x) {
      assert CountOk(fs, x);
      AddedRefs(fs, fs', i, d, s, name, x);
      AddedCount(fs, fs', i, d, s, x);
    }
    forall e | Dead(fs', e) ensures DeadOk(fs', e) { assert DeadOk(fs, e); }
    AddedDepth(fs, fs', depth, i, d, s, name, ROOTINO);
  }

  lemma FileTarget(fs: FS, d: nat, i: nat)
    requires i in fs.inodes && fs.inodes[i].kind in {File, Device}
    ensures TargetOk(fs, d, i)
  {
  }

  lemma AddedDepth(fs: FS, fs': FS, depth: map<nat, nat>, i: nat, d: nat, s: nat, name: string, e: nat)
    requires Live(fs, d) && s >= 2 && fs'.inodes == Entered(fs, d, s, Entry(i, name)) && |fs.inodes[d].entries| >= 2
    ensures Parent(fs', e) == Parent(fs, e) && (DepthOk(fs, depth, e) ==> DepthOk(fs', depth, e))
  {
  }

  lemma AddedCount(fs: FS, fs': FS, i: nat, d: nat, s: nat, x: nat)
    requires CountOk(fs, x) && x in fs'.inodes && i in fs.linking && fs'.linking == fs.linking - multiset{i}
    requires fs'.inodes[x].nlink == fs.inodes[x].nlink && fs'.inodes[x].kind == fs.inodes[x].kind
    requires fs.inodes[x].kind == Free ==> fs'.inodes[x] == fs.inodes[x]
    requires Refs(fs', x) == if x == i then Refs(fs, x) + {(d, s)} else Refs(fs, x)
    requires (d, s) !in Refs(fs, x)
    ensures CountOk(fs', x)
  {
  }

  // ---- iput() of an inode without links, and ialloc()

  function Reclaimed(fs: FS, i: nat): FS {
    FS(fs.inodes[i := FreeInode], fs.linking)
  }

  lemma ReclaimedOk(fs: FS, depth: map<nat, nat>, i: nat)
    requires Inv(fs, depth) && i in fs.inodes && fs.inodes[i].nlink == 0
    ensures Inv(Reclaimed(fs, i), depth)
  {
    var fs' := Reclaimed(fs, i);
    assert CountOk(fs, i);
    forall d ensures SameDir(fs, fs', d) {
      if d == i && fs.inodes[i].kind == Free { FreeUnnamed(fs, depth, i); }
    }
    forall x | x in fs'.inodes ensures CountOk(fs', x) {
      assert CountOk(fs, x);
      SameRefs(fs, fs', x);
    }
    SameTree(fs, fs', depth);
  }

  lemma FreeUnnamed(fs: FS, depth: map<nat, nat>, i: nat)
    requires Inv(fs, depth) && i in fs.inodes && fs.inodes[i].kind == Free
    ensures Refs(fs, i) == {} && i !in fs.linking
  {
    assert CountOk(fs, i);
    forall p | p in Refs(fs, i) ensures false { NamedInUse(fs, depth, p.0, p.1, i); }
  }

  lemma NamedInUse(fs: FS, depth: map<nat, nat>, d: nat, s: nat, i: nat)
    requires Inv(fs, depth) && Names(fs, d, s, i)
    ensures i in fs.inodes && fs.inodes[i].kind != Free
  {
    assert DirOk(fs, d);
  }

  /** create() of a file, up to its dirlink(): the inode has its count, and no entry yet. */
  function Allocated(fs: FS, i: nat, kind: Kind): FS {
    FS(fs.inodes[i := Inode(kind, 1, [])], fs.linking + multiset{i})
  }

  lemma AllocatedOk(fs: FS, depth: map<nat, nat>, i: nat, kind: Kind)
    requires Inv(fs, depth) && i in fs.inodes && fs.inodes[i].kind == Free && kind in {File, Device}
    ensures Inv(Allocated(fs, i, kind), depth)
  {
    var fs' := Allocated(fs, i, kind);
    FreeUnnamed(fs, depth, i);
    forall x | x in fs'.inodes ensures CountOk(fs', x) {
      assert CountOk(fs, x);
      SameRefs(fs, fs', x);
    }
    SameTree(fs, fs', depth);
  }

  // ---- create() of a directory

  function CreatedDir(fs: FS, i: nat, d: nat, s: nat, name: string): FS
    requires d in fs.inodes
  {
    FS(fs.inodes[i := Inode(Dir, 1, [Entry(i, "."), Entry(d, "..")])]
         [d := Inode(Dir, fs.inodes[d].nlink + 1, SetSlot(fs.inodes[d].entries, s, Entry(i, name)))], fs.linking)
  }

  lemma CreatedRefs(fs: FS, i: nat, d: nat, s: nat, name: string, x: nat)
    requires CanAdd(fs, d, s, name) && i in fs.inodes && fs.inodes[i].kind == Free && i != 0 && d != 0 && name != "."
    ensures Refs(CreatedDir(fs, i, d, s, name), x) ==
      if x == i then Refs(fs, i) + {(d, s)} else if x == d then Refs(fs, d) + {(i, 1)} else Refs(fs, x)
    ensures (i, 1) !in Refs(fs, x) && (d, s) !in Refs(fs, x)
  {
    var fs' := CreatedDir(fs, i, d, s, name);
    forall e: nat, t: nat
      ensures (e, t) in Refs(fs', x) <==>
        (e, t) in Refs(fs, x) || (x == i && (e, t) == (d, s)) || (x == d && (e, t) == (i, 1))
    {}
  }

  lemma CreatedDirOk(fs: FS, i: nat, d: nat, s: nat, name: string, e: nat)
    requires CanAdd(fs, d, s, name) && DirOk(fs, d) && i in fs.inodes && fs.inodes[i].kind == Free && 0 !in fs.inodes
    requires e == i || (Live(fs, e) && DirOk(fs, e)) 
    requires i != ROOTINO
    ensures DirOk(CreatedDir(fs, i, d, s, name), e)
  {
    var fs' := CreatedDir(fs, i, d, s, name);
    var es := fs'.inodes[e].entries;
    assert s >= 2;
    forall t | 2 <= t < |es| && es[t].inum != 0 ensures TargetOk(fs', e, es[t].inum) {
      if e == d && t == s { } else { assert TargetOk(fs, e, fs.inodes[e].entries[t].inum); }
    }
    if e == d { AddedUnique(fs.inodes[d].entries, s, Entry(i, name)); }
  }

  lemma CreatedChild(fs: FS, i: nat, d: nat, s: nat, name: string, e: nat)
    requires CanAdd(fs, d, s, name) && DirOk(fs, d) && i in fs.inodes && fs.inodes[i].kind == Free && 0 !in fs.inodes
    requires Refs(fs, i) == {} && (e == i || (Live(fs, e) && ChildOk(fs, e)))
    ensures ChildOk(CreatedDir(fs, i, d, s, name), e)
  {
    var fs' := CreatedDir(fs, i, d, s, name);
    assert s >= 2;
    CreatedShape(fs, i, d, s, name, e);
    if e == i {
      assert Names(fs', d, s, i);
      forall t | t >= 2 && Names(fs', d, t, i) ensures t == s {
        assert t != s ==> (d, t) in Refs(fs, i);
      }
    } else {
      var t :| 2 <= t && Names(fs, Parent(fs, e), t, e);
      assert Names(fs', Parent(fs', e), t, e);
      forall t | t >= 2 && Names(fs', Parent(fs', e), t, e) ensures Names(fs, Parent(fs, e), t, e) {}
    }
  }

  lemma CreatedShape(fs: FS, i: nat, d: nat, s: nat, name: string, x: nat)
    requires CanAdd(fs, d, s, name) && DirOk(fs, d) && 0 !in fs.inodes && i in fs.inodes && fs.inodes[i].kind == Free
    ensures var fs' := CreatedDir(fs, i, d, s, name);
      && fs'.linking == fs.linking && (x in fs'.inodes <==> x in fs.inodes)
      && (Live(fs', x) <==> Live(fs, x) || x == i) && (Dead(fs', x) ==> Dead(fs, x) && x != i && x != d)
      && (x in fs.inodes && x != i && x != d ==> fs'.inodes[x] == fs.inodes[x])
      && (x == i ==> fs'.inodes[x].nlink == 1 && fs'.inodes[x].kind == Dir)
      && (x == d ==> fs'.inodes[x].nlink == fs.inodes[x].nlink + 1 && fs.inodes[x].kind == fs'.inodes[x].kind == Dir)
      && Parent(fs', x) == if x == i then d else Parent(fs, x)
  {
  }

  lemma CreatedCounts(fs: FS, depth: map<nat, nat>, i: nat, d: nat, s: nat, name: string)
    requires Inv(fs, depth) && CanAdd(fs, d, s, name) && i in fs.inodes && fs.inodes[i].kind == Free
    ensures var fs' := CreatedDir(fs, i, d, s, name);
      forall x {:trigger CountOk(fs', x)} :: x in fs'.inodes ==> CountOk(fs', x)
  {
    assert DirOk(fs, d);
    SlotAfterDots(fs, d, s);
    FreeUnnamed(fs, depth, i);
    hide DirOk, CountOk, TargetOk, Refs, CreatedDir, Parent, Live;
    var fs' := CreatedDir(fs, i, d, s, name);
    forall x | x in fs'.inodes ensures CountOk(fs', x) {
      CreatedShape(fs, i, d, s, name, x);
      assert CountOk(fs, x);
      CreatedRefs(fs, i, d, s, name, x);
      CreatedCount(fs, fs', i, d, s, x);
    }
  }

  lemma CreatedDirTree(fs: FS, depth: map<nat, nat>, i: nat, d: nat, s: nat, name: string)
    requires Inv(fs, depth) && CanAdd(fs, d, s, name) && i in fs.inodes && fs.inodes[i].kind == Free
    ensures d in depth && Inv(CreatedDir(fs, i, d, s, name), depth[i := depth[d] + 1])
  {
    assert DirOk(fs, d) && DepthOk(fs, depth, d);
    SlotAfterDots(fs, d, s);
    FreeUnnamed(fs, depth, i);
    assert i != ROOTINO && !Live(fs, i);
    hide DirOk, ChildOk, CountOk, TargetOk, Refs, Live, Dead, CreatedDir;
    var fs', depth' := CreatedDir(fs, i, d, s, name), depth[i := depth[d] + 1];
    forall e | Live(fs', e) ensures DirOk(fs', e) && DepthOk(fs', depth', e) {
      CreatedShape(fs, i, d, s, name, e);
      assert e != i ==> DirOk(fs, e) && DepthOk(fs, depth, e);
      CreatedDirOk(fs, i, d, s, name, e);
      if e != i { ParentLive(fs, e); }
    }
    forall e | Live(fs', e) && e != ROOTINO ensures ChildOk(fs', e) {
      CreatedShape(fs, i, d, s, name, e);
      assert e != i ==> ChildOk(fs, e);
      CreatedChild(fs, i, d, s, name, e);
    }
    CreatedCounts(fs, depth, i, d, s, name);
    forall e | Dead(fs', e) ensures DeadOk(fs', e) {
      CreatedShape(fs, i, d, s, name, e);
      assert DeadOk(fs, e);
    }
    CreatedShape(fs, i, d, s, name, ROOTINO);
    CreatedShape(fs, i, d, s, name, 0);
    forall x | x in fs'.linking ensures x in fs'.inodes && fs'.inodes[x].kind in {File, Device} {
      CreatedShape(fs, i, d, s, name, x);
    }
  }

  lemma ParentLive(fs: FS, e: nat)
    requires DirOk(fs, e)
    ensures Live(fs, Parent(fs, e))
  {
  }

  lemma CreatedCount(fs: FS, fs': FS, i: nat, d: nat, s: nat, x: nat)
    requires CountOk(fs, x) && x in fs'.inodes && fs'.linking == fs.linking && i != d && Refs(fs, i) == {}
      && i !in fs.linking
    requires x in fs'.inodes && x in fs.inodes
    requires x == i ==> fs'.inodes[x].nlink == 1 && fs'.inodes[x].kind == Dir
    requires x == d ==> fs'.inodes[x].nlink == fs.inodes[x].nlink + 1 && fs.inodes[x].kind == fs'.inodes[x].kind == Dir
    requires x != i && x != d ==> fs'.inodes[x] == fs.inodes[x]
    requires Refs(fs', x) ==
      if x == i then Refs(fs, i) + {(d, s)} else if x == d then Refs(fs, d) + {(i, 1)} else Refs(fs, x)
    requires (i, 1) !in Refs(fs, x)
    ensures CountOk(fs', x)
  {
  }

  // ---- sys_unlink()

  const NoEntry := Entry(0, "")

  function Target(fs: FS, d: nat, s: nat): nat {
    if d in fs.inodes && s < |fs.inodes[d].entries| then fs.inodes[d].entries[s].inum else 0
  }

  /** The entry at slot s of d is cleared, and the counts of what it named, and of d if that
      was a directory, go down. */
  function Unlinked(fs: FS, d: nat, s: nat): FS
    requires d in fs.inodes && s < |fs.inodes[d].entries| && Target(fs, d, s) in fs.inodes
  {
    var i := Target(fs, d, s);
    var n := fs.inodes[d];
    FS(fs.inodes
         [d := Inode(Dir, if fs.inodes[i].kind == Dir then Less(n.nlink) else n.nlink, n.entries[s := NoEntry])]
         [i := fs.inodes[i].(nlink := Less(fs.inodes[i].nlink))], fs.linking)
  }

  /** What sys_unlink() may remove: not "." or "..", and no directory that has entries. */
  ghost predicate CanRemove(fs: FS, d: nat, s: nat) {
    && 2 <= s && Names(fs, d, s, Target(fs, d, s))
    && var i := Target(fs, d, s); i in fs.inodes && (fs.inodes[i].kind == Dir ==> Empty(fs.inodes[i].entries))
  }

  /** The panic of sys_unlink() is unreachable: what is named has a link. */
  lemma NamedLinked(fs: FS, depth: map<nat, nat>, d: nat, s: nat)
    requires Inv(fs, depth) && 2 <= s && Names(fs, d, s, Target(fs, d, s))
    ensures var i := Target(fs, d, s); i in fs.inodes && fs.inodes[i].nlink > 0 && i != d && fs.inodes[i].kind != Free
    ensures fs.inodes[d].entries[s].name != "."
  {
    var i := Target(fs, d, s);
    assert DirOk(fs, d) && TargetOk(fs, d, i) && CountOk(fs, i);
    assert (d, s) in Refs(fs, i);
    assert DepthOk(fs, depth, d);
  }

  lemma FileRefs(fs: FS, d: nat, s: nat, x: nat)
    requires CanRemove(fs, d, s) && var i := Target(fs, d, s);
      i != d && fs.inodes[i].kind != Dir && fs.inodes[i].nlink > 0
    requires fs.inodes[d].entries[s].name != "."
    ensures Refs(Unlinked(fs, d, s), x) == if x == Target(fs, d, s) then Refs(fs, x) - {(d, s)} else Refs(fs, x)
    ensures x == Target(fs, d, s) ==> (d, s) in Refs(fs, x)
  {
  }

  lemma FileDirOk(fs: FS, d: nat, s: nat, e: nat)
    requires CanRemove(fs, d, s) && var i := Target(fs, d, s);
      i != d && fs.inodes[i].kind in {File, Device} && fs.inodes[i].nlink > 0
    requires DirOk(fs, e) && Live(fs, e)
    ensures DirOk(Unlinked(fs, d, s), e) && Parent(Unlinked(fs, d, s), e) == Parent(fs, e)
  {
    var fs' := Unlinked(fs, d, s);
    assert forall x :: Live(fs', x) == Live(fs, x);
    forall t | 2 <= t < |fs'.inodes[e].entries| && fs'.inodes[e].entries[t].inum != 0
      ensures TargetOk(fs', e, fs'.inodes[e].entries[t].inum)
    {
      assert TargetOk(fs, e, fs.inodes[e].entries[t].inum);
    }
  }

  lemma FileChildOk(fs: FS, d: nat, s: nat, e: nat)
    requires CanRemove(fs, d, s) && var i := Target(fs, d, s);
      i != d && fs.inodes[i].kind in {File, Device} && fs.inodes[i].nlink > 0
    requires ChildOk(fs, e) && Live(fs, e)
    ensures ChildOk(Unlinked(fs, d, s), e)
  {
    var fs' := Unlinked(fs, d, s);
    assert Parent(fs', e) == Parent(fs, e);
    var t :| 2 <= t && Names(fs, Parent(fs, e), t, e);
    assert Names(fs', Parent(fs', e), t, e);
    forall t | Names(fs', Parent(fs', e), t, e) ensures Names(fs, Parent(fs, e), t, e) {}
  }

  lemma FileShape(fs: FS, d: nat, s: nat, x: nat)
    requires CanRemove(fs, d, s) && var i := Target(fs, d, s);
      i != d && fs.inodes[i].kind in {File, Device} && fs.inodes[i].nlink > 0
    ensures var fs', i := Unlinked(fs, d, s), Target(fs, d, s);
      && fs'.linking == fs.linking && (x in fs'.inodes <==> x in fs.inodes) && Live(fs', x) == Live(fs, x)
      && (x in fs.inodes ==>
        && fs'.inodes[x].kind == fs.inodes[x].kind
        && fs'.inodes[x].nlink == (if x == i then fs.inodes[x].nlink - 1 else fs.inodes[x].nlink)
        && (fs.inodes[x].kind == Free ==> fs'.inodes[x] == fs.inodes[x]))
  {
  }

  lemma FileDead(fs: FS, depth: map<nat, nat>, d: nat, s: nat, e: nat)
    requires CanRemove(fs, d, s) && var i := Target(fs, d, s);
      i != d && fs.inodes[i].kind in {File, Device} && fs.inodes[i].nlink > 0
    requires Inv(fs, depth) && Dead(Unlinked(fs, d, s), e)
    ensures DeadOk(Unlinked(fs, d, s), e)
  {
    assert DeadOk(fs, e);
  }

  lemma UnlinkedFileOk(fs: FS, depth: map<nat, nat>, d: nat, s: nat)
    requires Inv(fs, depth) && CanRemove(fs, d, s) && fs.inodes[Target(fs, d, s)].kind != Dir
    requires var i := Target(fs, d, s); i != d && fs.inodes[i].nlink > 0
    ensures Inv(Unlinked(fs, d, s), depth)
  {
    NamedLinked(fs, depth, d, s);
    hide DirOk, ChildOk, CountOk, TargetOk, Refs, Unlinked, Live;
    var fs', i := Unlinked(fs, d, s), Target(fs, d, s);
    forall e | Live(fs', e) ensures DirOk(fs', e) && DepthOk(fs', depth, e) {
      FileShape(fs, d, s, e);
      assert DirOk(fs, e) && DepthOk(fs, depth, e);
      FileDirOk(fs, d, s, e);
    }
    forall e | Live(fs', e) && e != ROOTINO ensures ChildOk(fs', e) {
      FileShape(fs, d, s, e);
      assert ChildOk(fs, e);
      FileChildOk(fs, d, s, e);
    }
    forall x | x in fs'.inodes ensures CountOk(fs', x) {
      FileShape(fs, d, s, x);
      assert CountOk(fs, x);
      FileRefs(fs, d, s, x);
      FileCount(fs, fs', i, (d, s), x);
    }
    forall e | Dead(fs', e) ensures DeadOk(fs', e) { FileDead(fs, depth, d, s, e); }
    FileShape(fs, d, s, ROOTINO);
    FileShape(fs, d, s, 0);
    assert DirOk(fs, ROOTINO);
    FileDirOk(fs, d, s, ROOTINO);
    forall x | x in fs'.linking ensures x in fs'.inodes && fs'.inodes[x].kind in {File, Device} {
      FileShape(fs, d, s, x);
    }
  }

  lemma FileCount(fs: FS, fs': FS, i: nat, p: (nat, nat), x: nat)
    requires CountOk(fs, x) && x in fs'.inodes && fs'.linking == fs.linking
    requires fs.inodes[x].kind == fs'.inodes[x].kind && (x == i ==> p in Refs(fs, x) && fs.inodes[x].kind != Free)
    requires Refs(fs', x) == if x == i then Refs(fs, x) - {p} else Refs(fs, x)
    requires fs'.inodes[x].nlink == if x == i then fs.inodes[x].nlink - 1 else fs.inodes[x].nlink
    requires fs.inodes[x].kind == Free ==> fs'.inodes[x] == fs.inodes[x]
    ensures CountOk(fs', x)
  {
  }

  /** A directory without entries has no subdirectory. */
  lemma NoChild(fs: FS, depth: map<nat, nat>, i: nat, e: nat)
    requires Inv(fs, depth) && Live(fs, i) && i != ROOTINO && Empty(fs.inodes[i].entries) && Live(fs, e)
    ensures Parent(fs, e) != i
  {
    if e != ROOTINO { assert ChildOk(fs, e); }
  }

  /** Nothing but its entry in d names an empty directory i. */
  lemma EmptyRefs(fs: FS, depth: map<nat, nat>, d: nat, s: nat)
    requires Inv(fs, depth) && CanRemove(fs, d, s) && Live(fs, Target(fs, d, s))
    ensures Refs(fs, Target(fs, d, s)) == {(d, s)} && fs.inodes[Target(fs, d, s)].nlink == 1
    ensures Target(fs, d, s) != ROOTINO && Parent(fs, Target(fs, d, s)) == d
  {
    var i := Target(fs, d, s);
    OneName(fs, depth, d, s, i);
    NamedLinked(fs, depth, d, s);
    forall e: nat, t: nat | (e, t) in Refs(fs, i) ensures (e, t) == (d, s) {
      assert DirOk(fs, e);
      if t >= 2 { OneName(fs, depth, e, t, i); } else { NoChild(fs, depth, i, e); }
    }
    assert (d, s) in Refs(fs, i);
    assert CountOk(fs, i);
  }

  /** d is named by the ".." of i and by something else. */
  lemma TwoRefs(fs: FS, depth: map<nat, nat>, d: nat, i: nat)
    requires Inv(fs, depth) && Live(fs, d) && Live(fs, i) && i != d && i != ROOTINO && Parent(fs, i) == d
    ensures fs.inodes[d].nlink >= 2 && (i, 1) in Refs(fs, d)
  {
    assert DirOk(fs, i) && DirOk(fs, d) && CountOk(fs, d);
    assert (i, 1) in Refs(fs, d);
    var other: (nat, nat);
    if d == ROOTINO {
      other := (d, 1);
    } else {
      assert ChildOk(fs, d);
      var t :| 2 <= t && Names(fs, Parent(fs, d), t, d);
      assert DirOk(fs, Parent(fs, d));
      other := (Parent(fs, d), t);
    }
    assert other in Refs(fs, d);
    assert {(i, 1), other} <= Refs(fs, d);
    Larger({(i, 1), other}, Refs(fs, d));
  }

  lemma Larger<T>(a: set<T>, b: set<T>)
    requires a <= b
    ensures |a| <= |b|
  {
    if a != {} {
      var x :| x in a;
      Larger(a - {x}, b - {x});
    }
  }

  /** The facts about an empty directory i at slot s of d that its removal rests on. */
  ghost predicate Removable(fs: FS, d: nat, s: nat) {
    && CanRemove(fs, d, s) && fs.inodes[d].nlink >= 2
    && var i := Target(fs, d, s);
    && Live(fs, i) && i != d && i != ROOTINO && fs.inodes[i].nlink == 1 && DirOk(fs, i) && Parent(fs, i) == d
    && Refs(fs, i) == {(d, s)} && (i, 1) in Refs(fs, d) && fs.inodes[d].entries[s].name != "."
  }

  lemma IsRemovable(fs: FS, depth: map<nat, nat>, d: nat, s: nat)
    requires Inv(fs, depth) && CanRemove(fs, d, s) && fs.inodes[Target(fs, d, s)].kind == Dir
    ensures Removable(fs, d, s)
  {
    var i := Target(fs, d, s);
    NamedLinked(fs, depth, d, s);
    EmptyRefs(fs, depth, d, s);
    TwoRefs(fs, depth, d, i);
    assert DirOk(fs, i);
  }

  lemma DirShape(fs: FS, d: nat, s: nat, x: nat)
    requires Removable(fs, d, s)
    ensures var fs', i := Unlinked(fs, d, s), Target(fs, d, s);
      && fs'.linking == fs.linking && (x in fs'.inodes <==> x in fs.inodes)
      && Live(fs', x) == (Live(fs, x) && x != i)
      && (x in fs.inodes && x != d && x != i ==> fs'.inodes[x] == fs.inodes[x])
      && (x == d || x == i ==> fs'.inodes[x].nlink == fs.inodes[x].nlink - 1 && fs'.inodes[x].kind == Dir)
      && Parent(fs', x) == Parent(fs, x)
  {
  }

  lemma DirRefs(fs: FS, d: nat, s: nat, x: nat)
    requires Removable(fs, d, s)
    ensures Refs(Unlinked(fs, d, s), x) ==
      if x == Target(fs, d, s) then {} else if x == d then Refs(fs, d) - {(Target(fs, d, s), 1)} else Refs(fs, x)
  {
    var fs', i := Unlinked(fs, d, s), Target(fs, d, s);
    forall e: nat, t: nat
      ensures (e, t) in Refs(fs', x) <==> (e, t) in Refs(fs, x) && x != i && !(x == d && (e, t) == (i, 1))
    {
      if x == i {
        assert (e, t) in Refs(fs, i) <==> (e, t) == (d, s);
      } else if e == i {
        assert (e, t) in Refs(fs, x) ==> t == 1;
      } else {
        assert Live(fs', e) == Live(fs, e);
      }
    }
  }

  lemma DirDirOk(fs: FS, d: nat, s: nat, e: nat)
    requires Removable(fs, d, s) && Live(fs, e) && DirOk(fs, e) && e != Target(fs, d, s)
      && Parent(fs, e) != Target(fs, d, s)
    ensures DirOk(Unlinked(fs, d, s), e)
  {
    var fs', i := Unlinked(fs, d, s), Target(fs, d, s);
    DirShape(fs, d, s, Parent(fs, e));
    forall t | 2 <= t < |fs'.inodes[e].entries| && fs'.inodes[e].entries[t].inum != 0
      ensures TargetOk(fs', e, fs'.inodes[e].entries[t].inum)
    {
      var x := fs'.inodes[e].entries[t].inum;
      assert TargetOk(fs, e, fs.inodes[e].entries[t].inum);
      assert x == i ==> (e, t) in Refs(fs, i);
      DirShape(fs, d, s, x);
    }
  }

  lemma DirChildOk(fs: FS, d: nat, s: nat, e: nat)
    requires Removable(fs, d, s) && Live(fs, e) && ChildOk(fs, e) && e != Target(fs, d, s)
      && Parent(fs, e) != Target(fs, d, s)
    ensures ChildOk(Unlinked(fs, d, s), e)
  {
    var fs' := Unlinked(fs, d, s);
    DirShape(fs, d, s, e);
    var t :| 2 <= t && Names(fs, Parent(fs, e), t, e);
    DirShape(fs, d, s, Parent(fs, e));
    assert Names(fs', Parent(fs', e), t, e);
    forall t | Names(fs', Parent(fs', e), t, e) ensures Names(fs, Parent(fs, e), t, e) {}
  }

  lemma UnlinkedDirOk(fs: FS, depth: map<nat, nat>, d: nat, s: nat)
    requires Inv(fs, depth) && CanRemove(fs, d, s) && fs.inodes[Target(fs, d, s)].kind == Dir
    requires var i := Target(fs, d, s); i != d && fs.inodes[i].nlink > 0
    ensures Inv(Unlinked(fs, d, s), depth)
  {
    IsRemovable(fs, depth, d, s);
    var fs', i := Unlinked(fs, d, s), Target(fs, d, s);
    assert Live(fs, i) && i != ROOTINO && Live(fs, d);
    hide DirOk, ChildOk, CountOk, TargetOk, Refs, Unlinked, Live, Removable, CanRemove, Empty;
    forall e | Live(fs', e) ensures DirOk(fs', e) && DepthOk(fs', depth, e) {
      DirShape(fs, d, s, e);
      assert DirOk(fs, e) && DepthOk(fs, depth, e);
      RemovableParent(fs, depth, d, s, e);
      DirDirOk(fs, d, s, e);
    }
    forall e | Live(fs', e) && e != ROOTINO ensures ChildOk(fs', e) {
      DirShape(fs, d, s, e);
      assert ChildOk(fs, e);
      RemovableParent(fs, depth, d, s, e);
      DirChildOk(fs, d, s, e);
    }
    forall x | x in fs'.inodes ensures CountOk(fs', x) {
      DirShape(fs, d, s, x);
      assert CountOk(fs, x);
      DirCount(fs, d, s, x);
    }
    forall e | Dead(fs', e) ensures DeadOk(fs', e) { DirDead(fs, depth, d, s, e); }
    DirShape(fs, d, s, ROOTINO);
    DirShape(fs, d, s, 0);
    forall x | x in fs'.linking ensures x in fs'.inodes && fs'.inodes[x].kind in {File, Device} {
      DirShape(fs, d, s, x);
      IsDir(fs, d);
      IsDir(fs, i);
    }
  }

  lemma DirDead(fs: FS, depth: map<nat, nat>, d: nat, s: nat, e: nat)
    requires Inv(fs, depth) && Removable(fs, d, s) && Dead(Unlinked(fs, d, s), e)
    ensures DeadOk(Unlinked(fs, d, s), e)
  {
    if e != Target(fs, d, s) { assert DeadOk(fs, e); }
  }

  lemma IsDir(fs: FS, d: nat)
    requires Live(fs, d)
    ensures d in fs.inodes && fs.inodes[d].kind == Dir
  {
  }

  lemma RemovableParent(fs: FS, depth: map<nat, nat>, d: nat, s: nat, e: nat)
    requires Inv(fs, depth) && Removable(fs, d, s) && Live(fs, e)
    ensures Parent(fs, e) != Target(fs, d, s)
  {
    NoChild(fs, depth, Target(fs, d, s), e);
  }

  lemma DirCount(fs: FS, d: nat, s: nat, x: nat)
    requires Removable(fs, d, s) && CountOk(fs, x)
    ensures CountOk(Unlinked(fs, d, s), x)
  {
    DirShape(fs, d, s, x);
    DirRefs(fs, d, s, x);
  }
}
