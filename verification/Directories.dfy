/**
 create(), sys_link() and sys_unlink() of kernel/sysfile.c, with dirlookup(), dirlink(),
 isdirempty(), ialloc() and the freeing side of iput(), on the inode table in place.
 */
module Directories {
  import opened DirTree
  import opened DirSteps

  /** dirlookup(): the first entry with that name. */
  method DirLookup(es: seq<Entry>, name: string) returns (found: bool, off: nat)
    ensures found ==> off < |es| && es[off].inum != 0 && es[off].name == name
    ensures found ==> forall t :: 0 <= t < off && es[t].inum != 0 ==> es[t].name != name
    ensures found ==> es[off].inum == Named(es, name)
    ensures found <==> !NotThere(es, name)
  {
    off := 0;
    while off < |es|
      invariant off <= |es|
      invariant forall t :: 0 <= t < off && es[t].inum != 0 ==> es[t].name != name
    {
      if es[off].inum != 0 && es[off].name == name {
        NamedFirst(es, name, off);
        return true, off;
      }
      off := off + 1;
    }
    return false, 0;
  }

  /** The inode that `name` leads to, or 0. */
  function Named(es: seq<Entry>, name: string): (i: nat)
    ensures i == 0 <==> NotThere(es, name)
    ensures i != 0 ==> Entry(i, name) in es
  {
    if |es| == 0 then 0 else if es[0].inum != 0 && es[0].name == name then es[0].inum else Named(es[1..], name)
  }

  lemma {:induction false} NamedFirst(es: seq<Entry>, name: string, off: nat)
    requires off < |es| && es[off].inum != 0 && es[off].name == name
    requires forall t :: 0 <= t < off && es[t].inum != 0 ==> es[t].name != name
    ensures Named(es, name) == es[off].inum
  {
    if off > 0 { NamedFirst(es[1..], name, off - 1); }
  }

  /** Inode i is the first that is free. */
  predicate IsFirst(fs: FS, i: nat) {
    i in fs.inodes && fs.inodes[i].kind == Free && forall j :: j in fs.inodes && j < i ==> fs.inodes[j].kind != Free
  }

  predicate NoneFree(fs: FS) {
    forall j :: j in fs.inodes ==> fs.inodes[j].kind != Free
  }

  /** The first unused slot, or the end. */
  function FirstFree(es: seq<Entry>): (s: nat)
    ensures s <= |es| && FreeSlot(es, s) && forall t :: 0 <= t < s ==> es[t].inum != 0
  {
    if |es| == 0 || es[0].inum == 0 then 0 else FirstFree(es[1..]) + 1
  }

  lemma FirstFreeUnique(es: seq<Entry>, s: nat)
    requires s <= |es| && FreeSlot(es, s) && forall t :: 0 <= t < s ==> es[t].inum != 0
    ensures s == FirstFree(es)
  {
  }

  method IsDirEmpty(es: seq<Entry>) returns (empty: bool)
    ensures empty <==> Empty(es)
  {
    var off := 2;
    while off < |es|
      invariant off >= 2 && forall t :: 2 <= t < off && t < |es| ==> es[t].inum == 0
    {
      if es[off].inum != 0 {
        return false;
      }
      off := off + 1;
    }
    return true;
  }

  /** create() of inode i under `name` in directory d, at slot s. */
  function Created(fs: FS, i: nat, d: nat, s: nat, name: string, kind: Kind): FS
    requires d in fs.inodes
  {
    if kind == Dir then CreatedDir(fs, i, d, s, name)
    else FS(Entered(FS(fs.inodes[i := Inode(kind, 1, [])], fs.linking), d, s, Entry(i, name)), fs.linking)
  }

  /** sys_unlink() of `name` in d removes the entry at slot s. */
  ghost predicate Removes(fs: FS, d: nat, s: nat, name: string) {
    name != "." && name != ".." && CanRemove(fs, d, s) && fs.inodes[d].entries[s].name == name
  }

  function FreshInode(i: nat): Inode {
    if i == ROOTINO then Inode(Dir, 1, [Entry(ROOTINO, "."), Entry(ROOTINO, "..")]) else FreeInode
  }

  function FreshFs(ninodes: nat): FS {
    FS(map i: nat | 1 <= i < ninodes :: FreshInode(i), multiset{})
  }

  lemma FreshRefs(ninodes: nat, i: nat)
    requires ninodes > ROOTINO
    ensures Refs(FreshFs(ninodes), i) == if i == ROOTINO then {(ROOTINO, 1)} else {}
  {
  }

  lemma FreshOk(ninodes: nat)
    requires ninodes > ROOTINO
    ensures Inv(FreshFs(ninodes), map[ROOTINO := 0])
  {
    hide Refs;
    var fs := FreshFs(ninodes);
    assert forall d :: Live(fs, d) || Dead(fs, d) ==> d == ROOTINO;
    assert !Dead(fs, ROOTINO);
    assert DirOk(fs, ROOTINO) && DepthOk(fs, map[ROOTINO := 0], ROOTINO);
    forall i | i in fs.inodes ensures CountOk(fs, i) { FreshRefs(ninodes, i); }
  }

  /** The numbers of inodes: 0 is none. */
  function Numbers(n: nat): set<nat> {
    set i: nat | 1 <= i < n && InodeNumber(i)
  }

  predicate InodeNumber(i: nat) {
    i != 0
  }

  class Inodes {
    const ninodes: nat
    var inodes: map<nat, Inode>
    ghost var linking: multiset<nat>
    ghost var depth: map<nat, nat>

    ghost function Fs(): FS
      reads this
    {
      FS(inodes, linking)
    }

    /** mkfs: a root directory, and nothing else in use. */
    constructor (ninodes: nat)
      requires ninodes > ROOTINO
      ensures Valid() && this.ninodes == ninodes && Fs() == FreshFs(ninodes)
    {
      this.ninodes := ninodes;
      inodes := FreshFs(ninodes).inodes;
      linking := multiset{};
      depth := map[ROOTINO := 0];
      new;
      FreshOk(ninodes);
      assert inodes.Keys == Numbers(ninodes);
    }

    ghost predicate Valid()
      reads this
    {
      Inv(Fs(), depth) && Numbered()
    }

    ghost predicate Numbered()
      reads this
    {
      inodes.Keys == Numbers(ninodes)
    }

    /** dirlink(): fails when the name is there, or when a new slot is needed and the disk is
        `full`. */
    method DirLink(d: nat, name: string, i: nat, full: bool) returns (ok: bool)
      requires d in inodes
      modifies this`inodes
      ensures var es := old(inodes)[d].entries;
        ok <==> NotThere(es, name) && (full ==> FirstFree(es) < |es|)
      ensures ok ==> inodes == Entered(old(Fs()), d, FirstFree(old(inodes)[d].entries), Entry(i, name))
      ensures !ok ==> inodes == old(inodes)
    {
      var es := inodes[d].entries;
      var found, _ := DirLookup(es, name);
      if found {
        return false;
      }
      var off := 0;
      while off < |es| && es[off].inum != 0
        invariant off <= |es| && forall t :: 0 <= t < off ==> es[t].inum != 0
      {
        off := off + 1;
      }
      FirstFreeUnique(es, off);
      if off == |es| && full {
        return false;
      }
      inodes := inodes[d := inodes[d].(entries := SetSlot(es, off, Entry(i, name)))];
      return true;
    }

    /** ialloc(): the first free inode, or 0. */
    method IAlloc(kind: Kind) returns (i: nat)
      requires Numbered()
      modifies this`inodes
      ensures (i == 0 <==> NoneFree(old(Fs()))) && (i == 0 ==> inodes == old(inodes))
      ensures i != 0 ==> IsFirst(old(Fs()), i) && inodes == old(inodes)[i := Inode(kind, 0, [])]
    {
      i := 1;
      while i < ninodes
        invariant 1 <= i && inodes == old(inodes)
        invariant forall j :: j in inodes && j < i ==> inodes[j].kind != Free
      {
        assert InodeNumber(i) && i in inodes.Keys;
        if inodes[i].kind == Free {
          inodes := inodes[i := Inode(kind, 0, [])];
          return;
        }
        i := i + 1;
      }
      return 0;
    }

    /** iput() of the last reference to an inode without links. */
    method Reclaim(i: nat)
      requires Valid() && i in inodes && inodes[i].nlink == 0
      modifies this
      ensures Valid() && depth == old(depth) && linking == old(linking)
      ensures inodes == old(inodes)[i := Inode(Free, 0, [])]
    {
      ReclaimedOk(Fs(), depth, i);
      inodes := inodes[i := FreeInode];
    }

    /** sys_link(), up to the unlocking of the inode. */
    method LinkBegin(i: nat) returns (ok: bool)
      requires Valid() && i in inodes && inodes[i].kind != Free
      modifies this
      ensures Valid() && depth == old(depth)
      ensures ok <==> old(inodes)[i].kind != Dir
      ensures Fs() == if ok then LinkBegun(old(Fs()), i) else old(Fs())
    {
      if inodes[i].kind == Dir {
        return false;
      }
      LinkBegunOk(Fs(), depth, i);
      inodes := inodes[i := inodes[i].(nlink := inodes[i].nlink + 1)];
      linking := linking + multiset{i};
      return true;
    }

    /** The rest of sys_link(): d is the directory the new path leads to, if there is one. */
    method LinkEnd(i: nat, found: bool, d: nat, name: string, full: bool) returns (ok: bool)
      requires Valid() && i in linking && (found ==> d in inodes && inodes[d].kind == Dir)
      modifies this
      ensures Numbered() && depth == old(depth) && ((ok ==> Live(old(Fs()), d)) ==> Valid())
      ensures ok <==> found && var es := old(inodes)[d].entries; NotThere(es, name) && (full ==> FirstFree(es) < |es|)
      ensures i in old(inodes) && Fs() == if ok then Linked(old(Fs()), i, d, FirstFree(old(inodes)[d].entries), name)
                                          else LinkUndone(old(Fs()), i)
    {
      hide Inv, NotThere, FirstFree, Linked, LinkUndone, Live;
      LinkUndoneOk(Fs(), depth, i);
      ok := false;
      if found {
        ok := LinkIn(i, d, name, full);
      }
      if !ok {
        LinkBad(i);
      }
    }

    /** The dirlink() of sys_link(). */
    method LinkIn(i: nat, d: nat, name: string, full: bool) returns (ok: bool)
      requires Valid() && i in linking && d in inodes && inodes[d].kind == Dir
      modifies this`inodes, this`linking
      ensures Numbered() && ((ok ==> Live(old(Fs()), d)) ==> Valid())
      ensures (ok <==> var es := old(inodes)[d].entries; NotThere(es, name) && (full ==> FirstFree(es) < |es|))
      ensures Fs() == if ok then Linked(old(Fs()), i, d, FirstFree(old(inodes)[d].entries), name) else old(Fs())
    {
      hide Inv, NotThere, FirstFree, Entered, Live;
      ghost var fs := Fs();
      if Live(fs, d) { LinkReady(fs, depth, i, d, name); }
      ok := DirLink(d, name, i, full);
      if ok {
        EnteredKeys(fs, d, FirstFree(fs.inodes[d].entries), Entry(i, name));
        linking := linking - multiset{i};
      }
    }

    /** The `bad` exit of sys_link(). */
    method LinkBad(i: nat)
      requires Valid() && i in linking
      modifies this`inodes, this`linking
      ensures Valid() && i in old(inodes) && Fs() == LinkUndone(old(Fs()), i)
    {
      hide Inv;
      LinkUndoneOk(Fs(), depth, i);
      inodes := inodes[i := inodes[i].(nlink := inodes[i].nlink - 1)];
      linking := linking - multiset{i};
    }

    /** The "." and ".." entries of a new directory r in d. */
    method MakeDots(r: nat, d: nat, full0: bool, full1: bool) returns (ok: bool)
      requires r in inodes && r != 0 && inodes[r].entries == []
      modifies this`inodes
      ensures ok <==> !full0 && !full1
      ensures ok ==> inodes == old(inodes)[r := old(inodes)[r].(entries := [Entry(r, "."), Entry(d, "..")])]
      ensures r in inodes && inodes == old(inodes)[r := inodes[r]]
    {
      ok := DirLink(r, ".", r, full0);
      if ok {
        assert inodes[r].entries == [Entry(r, ".")];
        ok := DirLink(r, "..", d, full1);
        assert ok ==> inodes[r].entries == [Entry(r, "."), Entry(d, "..")];
      }
    }

    /** create(): the inode that has `name` in d, now or before; 0 when it fails. `full` says
        which of the three directory writes find no disk block. */
    method Create(d: nat, name: string, kind: Kind, full: (bool, bool, bool)) returns (r: nat)
      requires Valid() && d in inodes && inodes[d].kind == Dir && kind != Free
      modifies this
      ensures Numbered() && linking == old(linking) && (inodes == old(inodes) || Live(old(Fs()), d) ==> Valid())
      ensures var es := old(inodes)[d].entries; !NotThere(es, name) ==>
        inodes == old(inodes) && Named(es, name) in inodes &&
        r == if kind == File && inodes[Named(es, name)].kind in {File, Device} then Named(es, name) else 0
      ensures var es := old(inodes)[d].entries; NotThere(es, name) ==>
        if r == 0 then inodes == old(inodes)
        else IsFirst(old(Fs()), r) && Fs() == Created(old(Fs()), r, d, FirstFree(es), name, kind)
      ensures NotThere(old(inodes)[d].entries, name) ==> (r == 0 <==> (NoneFree(old(Fs()))
          || (kind == Dir && (full.0 || full.1))
          || (full.2 && FirstFree(old(inodes)[d].entries) == |old(inodes)[d].entries|)))
    {
      hide Inv, DirOk, Refs, NotThere, FirstFree, SetSlot, CanAdd, Named, Created, IsFirst, NoneFree;
      ghost var fs := Fs();
      var es := inodes[d].entries;
      var found, off := DirLookup(es, name);
      if found {
        InUse(fs, depth, d, off);
        r := es[off].inum;
        if kind == File && inodes[r].kind in {File, Device} {
          return;
        }
        return 0;
      }
      r := IAlloc(kind);
      if r == 0 {
        return;
      }
      Canonical(fs, depth, r);
      NoZero(fs, depth);
      if Live(fs, d) { CreateReady(fs, depth, r, d, name, kind); }
      var ok := Make(r, d, name, kind, full, fs);
      CreatedKeys(fs, r, d, FirstFree(es), name, kind);
      if !ok {
        return 0;
      }
      if Live(fs, d) && kind == Dir {
        depth := depth[r := depth[d] + 1];
      }
    }

    /** create() from its inode r on, which ialloc() has just taken. */
    method Make(r: nat, d: nat, name: string, kind: Kind, full: (bool, bool, bool), ghost fs: FS) returns (ok: bool)
      requires d in fs.inodes && fs.inodes[d].kind == Dir && NotThere(fs.inodes[d].entries, name) && 0 !in fs.inodes
      requires r in fs.inodes && fs.inodes[r] == FreeInode && inodes == fs.inodes[r := Inode(kind, 0, [])]
      modifies this`inodes
      ensures var s := FirstFree(fs.inodes[d].entries);
        inodes == if ok then Created(fs, r, d, s, name, kind).inodes else fs.inodes
      ensures ok <==>
        !(kind == Dir && (full.0 || full.1)) && (full.2 ==> FirstFree(fs.inodes[d].entries) < |fs.inodes[d].entries|)
    {
      hide NotThere, FirstFree, SetSlot;
      ghost var es := fs.inodes[d].entries;
      inodes := inodes[r := inodes[r].(nlink := 1)];
      ok := true;
      if kind == Dir {
        ok := MakeDots(r, d, full.0, full.1);
      }
      if ok {
        assert inodes[d].entries == es;
        ok := DirLink(d, name, r, full.2);
      }
      if !ok {
        // de-allocate the inode: iput() frees it, since it has no links
        inodes := inodes[r := FreeInode];
        assert inodes == fs.inodes;
        return;
      }
      if kind == Dir {
        inodes := inodes[d := inodes[d].(nlink := inodes[d].nlink + 1)];
      }
    }

    /** The writes of sys_unlink(). */
    method Remove(d: nat, off: nat)
      requires Valid() && CanRemove(Fs(), d, off)
      modifies this`inodes
      ensures Valid() && Fs() == Unlinked(old(Fs()), d, off)
    {
      var i := inodes[d].entries[off].inum;
      NamedLinked(Fs(), depth, d, off);
      if inodes[i].kind == Dir {
        UnlinkedDirOk(Fs(), depth, d, off);
        IsRemovable(Fs(), depth, d, off);
      } else {
        UnlinkedFileOk(Fs(), depth, d, off);
      }
      hide Inv, Refs, DirOk;
      inodes := inodes[d := inodes[d].(entries := inodes[d].entries[off := NoEntry])];
      if inodes[i].kind == Dir {
        inodes := inodes[d := inodes[d].(nlink := inodes[d].nlink - 1)];
      }
      inodes := inodes[i := inodes[i].(nlink := inodes[i].nlink - 1)];
      assert inodes == Unlinked(old(Fs()), d, off).inodes;
    }

    /** sys_unlink(): d is the directory the path leads to. */
    method Unlink(d: nat, name: string) returns (ok: bool, ghost s: nat)
      requires Valid() && d in inodes && inodes[d].kind == Dir
      modifies this
      ensures Valid() && depth == old(depth)
      ensures ok ==> Removes(old(Fs()), d, s, name) && Fs() == Unlinked(old(Fs()), d, s)
      ensures !ok ==> Fs() == old(Fs()) && forall t :: !Removes(Fs(), d, t, name)
    {
      hide Inv, Refs, DirOk;
      s := 0;
      if name == "." || name == ".." {
        return false, 0;
      }
      var es := inodes[d].entries;
      var found, off := DirLookup(es, name);
      if !found {
        return false, 0;
      }
      FoundPlace(Fs(), depth, d, off);
      NamedLinked(Fs(), depth, d, off);
      var i := es[off].inum;
      if inodes[i].nlink < 1 {
        assert false; // panic: unlink: nlink < 1
      }
      if inodes[i].kind == Dir {
        var empty := IsDirEmpty(inodes[i].entries);
        if !empty {
          OnlySlot(Fs(), depth, d, off);
          return false, 0;
        }
      }
      Remove(d, off);
      return true, off;
    }
  }

  lemma OnlySlot(fs: FS, depth: map<nat, nat>, d: nat, s: nat)
    requires Inv(fs, depth) && Names(fs, d, s, Target(fs, d, s))
    ensures forall t: nat :: Names(fs, d, t, Target(fs, d, t)) && t != s ==>
      fs.inodes[d].entries[t].name != fs.inodes[d].entries[s].name
  {
    assert DirOk(fs, d);
  }

  /** An entry with a name other than "." and ".." lies beyond the first two slots, in a live
      directory. */
  lemma FoundPlace(fs: FS, depth: map<nat, nat>, d: nat, off: nat)
    requires Inv(fs, depth) && d in fs.inodes && fs.inodes[d].kind == Dir && off < |fs.inodes[d].entries|
    requires fs.inodes[d].entries[off].inum != 0 && fs.inodes[d].entries[off].name !in {".", ".."}
    ensures off >= 2 && Names(fs, d, off, Target(fs, d, off))
  {
    assert Dead(fs, d) ==> DeadOk(fs, d);
    assert Live(fs, d) ==> DirOk(fs, d);
  }

  lemma CreateReady(fs: FS, depth: map<nat, nat>, i: nat, d: nat, name: string, kind: Kind)
    requires Inv(fs, depth) && Live(fs, d) && i in fs.inodes && fs.inodes[i].kind == Free && kind != Free
    requires NotThere(fs.inodes[d].entries, name)
    ensures d in depth && i != 0 && i != d
    ensures Inv(Created(fs, i, d, FirstFree(fs.inodes[d].entries), name, kind),
                if kind == Dir then depth[i := depth[d] + 1] else depth)
  {
    hide Inv;
    CreatedOk(fs, depth, i, d, FirstFree(fs.inodes[d].entries), name, kind);
    NoZero(fs, depth);
  }

  lemma NoZero(fs: FS, depth: map<nat, nat>)
    requires Inv(fs, depth)
    ensures 0 !in fs.inodes
  {
  }

  lemma LinkReady(fs: FS, depth: map<nat, nat>, i: nat, d: nat, name: string)
    requires Inv(fs, depth) && i in fs.linking && Live(fs, d)
    ensures d in fs.inodes
    ensures var es := fs.inodes[d].entries; NotThere(es, name) ==> Inv(Linked(fs, i, d, FirstFree(es), name), depth)
  {
    hide Inv;
    if NotThere(fs.inodes[d].entries, name) { LinkedOk(fs, depth, i, d, FirstFree(fs.inodes[d].entries), name); }
  }

  lemma CreatedKeys(fs: FS, i: nat, d: nat, s: nat, name: string, kind: Kind)
    requires d in fs.inodes && i in fs.inodes
    ensures var t := Created(fs, i, d, s, name, kind); t.inodes.Keys == fs.inodes.Keys && t.linking == fs.linking
  {
  }

  lemma EnteredKeys(fs: FS, d: nat, s: nat, e: Entry)
    requires d in fs.inodes
    ensures Entered(fs, d, s, e).Keys == fs.inodes.Keys
  {
  }

  /** Entries lead to inodes; those of a live directory to inodes in use. */
  lemma InUse(fs: FS, depth: map<nat, nat>, d: nat, off: nat)
    requires Inv(fs, depth) && d in fs.inodes && fs.inodes[d].kind == Dir
    requires off < |fs.inodes[d].entries| && fs.inodes[d].entries[off].inum != 0
    ensures var i := fs.inodes[d].entries[off].inum; i in fs.inodes && (Live(fs, d) ==> fs.inodes[i].kind != Free)
  {
    if Live(fs, d) {
      NamedInUse(fs, depth, d, off, fs.inodes[d].entries[off].inum);
    } else {
      assert Dead(fs, d) && DeadOk(fs, d);
    }
  }

  lemma Canonical(fs: FS, depth: map<nat, nat>, i: nat)
    requires Inv(fs, depth) && i in fs.inodes && fs.inodes[i].kind == Free
    ensures fs.inodes[i] == FreeInode
  {
    assert CountOk(fs, i);
  }

  // ---- create() and sys_link() keep the tree exactly when they are given a live directory

  lemma CreatedOk(fs: FS, depth: map<nat, nat>, i: nat, d: nat, s: nat, name: string, kind: Kind)
    requires Inv(fs, depth) && CanAdd(fs, d, s, name) && i in fs.inodes && fs.inodes[i].kind == Free && kind != Free
    ensures d in depth
    ensures Inv(Created(fs, i, d, s, name, kind), if kind == Dir then depth[i := depth[d] + 1] else depth)
  {
    CreatedDirTree(fs, depth, i, d, s, name);
    if kind != Dir {
      var t := Allocated(fs, i, kind);
      AllocatedOk(fs, depth, i, kind);
      LinkedOk(t, depth, i, d, s, name);
      assert fs.linking + multiset{i} - multiset{i} == fs.linking;
      assert Linked(t, i, d, s, name) == Created(fs, i, d, s, name, kind);
    }
  }

  /** Slot s of directory d, live or not, is free and `name` is new there. */
  ghost predicate HasRoom(fs: FS, d: nat, s: nat, name: string) {
    && d in fs.inodes && fs.inodes[d].kind == Dir && s <= |fs.inodes[d].entries|
    && FreeSlot(fs.inodes[d].entries, s) && NotThere(fs.inodes[d].entries, name)
  }

  lemma CreateKeepsIff(fs: FS, depth: map<nat, nat>, i: nat, d: nat, s: nat, name: string, kind: Kind)
    requires Inv(fs, depth) && HasRoom(fs, d, s, name) && i in fs.inodes && fs.inodes[i].kind == Free && kind != Free
    ensures (exists depth' :: Inv(Created(fs, i, d, s, name, kind), depth')) <==> fs.inodes[d].nlink > 0
  {
    if fs.inodes[d].nlink > 0 {
      CreatedOk(fs, depth, i, d, s, name, kind);
    } else {
      assert DeadOk(fs, d);
      forall depth' ensures !Inv(Created(fs, i, d, s, name, kind), depth') {
        if kind == Dir {
          RevivedOrphan(fs, depth, i, d, s, name);
        } else {
          UncountedFile(fs, depth, i, d, s, name, kind);
        }
      }
    }
  }

  lemma NamedCounted(fs: FS, depth: map<nat, nat>, d: nat, s: nat, i: nat)
    requires Inv(fs, depth) && s >= 2 && Names(fs, d, s, i)
    ensures (d, s) in Refs(fs, i)
  {
    assert DirOk(fs, d);
  }

  /** A directory made in a removed one brings that back to life, with no entry for it in its parent. */
  lemma RevivedOrphan(fs: FS, depth: map<nat, nat>, i: nat, d: nat, s: nat, name: string)
    requires Inv(fs, depth) && HasRoom(fs, d, s, name) && i in fs.inodes && fs.inodes[i].kind == Free && Dead(fs, d)
      && DeadOk(fs, d)
    ensures var fs' := CreatedDir(fs, i, d, s, name); Live(fs', d) && d != ROOTINO && !ChildOk(fs', d)
  {
    var fs', q := CreatedDir(fs, i, d, s, name), Parent(fs, d);
    assert CountOk(fs, d);
    forall t | t >= 2 ensures !Names(fs', q, t, d) {
      if Names(fs, q, t, d) { NamedCounted(fs, depth, q, t, d); }
    }
  }

  /** A file made in a removed directory has a link that no live directory holds. */
  lemma UncountedFile(fs: FS, depth: map<nat, nat>, i: nat, d: nat, s: nat, name: string, kind: Kind)
    requires Inv(fs, depth) && HasRoom(fs, d, s, name) && i in fs.inodes && fs.inodes[i].kind == Free && Dead(fs, d)
    requires kind in {File, Device}
    ensures !CountOk(Created(fs, i, d, s, name, kind), i) && i in Created(fs, i, d, s, name, kind).inodes
  {
    var fs' := Created(fs, i, d, s, name, kind);
    FreeUnnamed(fs, depth, i);
    DeadRefs(fs, fs', d, i);
  }

  lemma DeadRefs(fs: FS, fs': FS, d: nat, i: nat)
    requires !Live(fs, d) && !Live(fs', d)
    requires forall e :: e != d ==> Live(fs', e) == Live(fs, e) && (Live(fs, e) ==> fs'.inodes[e] == fs.inodes[e])
    ensures Refs(fs', i) == Refs(fs, i)
  {
  }

  lemma LinkKeepsIff(fs: FS, depth: map<nat, nat>, i: nat, d: nat, s: nat, name: string)
    requires Inv(fs, depth) && HasRoom(fs, d, s, name) && i in fs.linking
    ensures (exists depth' :: Inv(Linked(fs, i, d, s, name), depth')) <==> fs.inodes[d].nlink > 0
  {
    if fs.inodes[d].nlink > 0 {
      LinkedOk(fs, depth, i, d, s, name);
    } else {
      var fs' := Linked(fs, i, d, s, name);
      assert CountOk(fs, i);
      DeadRefs(fs, fs', d, i);
      assert !CountOk(fs', i);
    }
  }

  // ---- runs that end in such a directory

  /** mkdir a, on a disk with four inodes. */
  method OneDirectory() returns (t: Inodes)
    ensures fresh(t) && t.Valid() && t.ninodes == 4 && t.linking == multiset{}
    ensures ROOTINO in t.inodes && 2 in t.inodes && 3 in t.inodes && t.inodes[3] == FreeInode
    ensures t.inodes[ROOTINO] == Inode(Dir, 2, [Entry(ROOTINO, "."), Entry(ROOTINO, ".."), Entry(2, "a")])
    ensures t.inodes[2] == Inode(Dir, 1, [Entry(2, "."), Entry(ROOTINO, "..")])
  {
    t := new Inodes(4);
    hide Inv;
    ghost var fs := t.Fs();
    assert fs.inodes[2].kind == Free && fs.inodes[3].kind == Free && FirstFree(fs.inodes[ROOTINO].entries) == 2;
    var d := t.Create(ROOTINO, "a", Dir, (false, false, false));
  }

  /** Then rmdir a, by a process that still has it as its current directory. */
  method RemovedDirectory() returns (t: Inodes, d: nat)
    ensures fresh(t) && t.Valid() && t.ninodes == 4 && Dead(t.Fs(), d) && t.inodes[3] == FreeInode
    ensures d == 2 && t.inodes[d].entries == [Entry(d, "."), Entry(ROOTINO, "..")]
    ensures Live(t.Fs(), ROOTINO) && t.inodes[ROOTINO].entries == [Entry(ROOTINO, "."), Entry(ROOTINO, ".."), NoEntry]
  {
    hide Inv;
    t := OneDirectory();
    d := 2;
    assert Removes(t.Fs(), ROOTINO, 2, "a");
    var ok, s := t.Unlink(ROOTINO, "a");
  }

  /** create() there of a file leaves a link that no live directory holds. */
  method FileInRemoved() returns (t: Inodes, i: nat)
    ensures i in t.inodes && !CountOk(t.Fs(), i) && forall depth :: !Inv(t.Fs(), depth)
  {
    var d;
    t, d := RemovedDirectory();
    ghost var fs, depth := t.Fs(), t.depth;
    assert fs.inodes[3].kind == Free && NotThere(fs.inodes[d].entries, "f");
    i := t.Create(d, "f", File, (false, false, false));
    UncountedFile(fs, depth, i, d, FirstFree(fs.inodes[d].entries), "f", File);
  }

  /** create() there of a directory brings it back, with no entry in its parent. */
  method DirectoryInRemoved() returns (t: Inodes, d: nat)
    ensures Live(t.Fs(), d) && d != ROOTINO && !ChildOk(t.Fs(), d) && forall depth :: !Inv(t.Fs(), depth)
  {
    t, d := RemovedDirectory();
    ghost var fs, depth := t.Fs(), t.depth;
    assert fs.inodes[3].kind == Free && NotThere(fs.inodes[d].entries, "f");
    var i := t.Create(d, "f", Dir, (false, false, false));
    assert Dead(fs, d) && DeadOk(fs, d);
    RevivedOrphan(fs, depth, i, d, FirstFree(fs.inodes[d].entries), "f");
  }

  /** A file in the root beside it. */
  method FileBeside() returns (t: Inodes, d: nat, i: nat)
    ensures fresh(t) && t.Valid() && i in t.inodes && t.inodes[i].kind == File && d in t.inodes && Dead(t.Fs(), d)
    ensures t.inodes[d].entries == [Entry(d, "."), Entry(ROOTINO, "..")]
  {
    t, d := RemovedDirectory();
    ghost var fs := t.Fs();
    assert fs.inodes[3].kind == Free && NotThere(fs.inodes[ROOTINO].entries, "f");
    i := t.Create(ROOTINO, "f", File, (false, false, false));
    hide Inv;
    assert t.inodes[d] == fs.inodes[d];
  }

  /** sys_link() of that file to a name in the removed directory: the second half of it. */
  method LinkInRemoved() returns (t: Inodes, i: nat)
    ensures i in t.inodes && forall depth :: !Inv(t.Fs(), depth)
  {
    hide Inv, Created, Linked, LinkUndone;
    var d;
    t, d, i := FileBeside();
    var begun := t.LinkBegin(i);
    ghost var fs, depth := t.Fs(), t.depth;
    assert fs.inodes[d].entries == [Entry(d, "."), Entry(ROOTINO, "..")];
    ghost var s := FirstFree(fs.inodes[d].entries);
    var ok := t.LinkEnd(i, true, d, "g", false);
    LinkKeepsIff(fs, depth, i, d, s, "g");
  }
}
