/**
 The directory structure of the file system as kernel/fs.c and kernel/sysfile.c keep it:
 inodes with link counts, directories as arrays of entries, and the in-flight sys_link()
 calls that have raised a count and not yet written their entry.
 */
module DirTree {
  const ROOTINO: nat := 1

  datatype Kind = Free | Dir | File | Device

  /** A directory entry; it is unused when inum is 0. */
  datatype Entry = Entry(inum: nat, name: string)

  datatype Inode = Inode(kind: Kind, nlink: nat, entries: seq<Entry>)

  const FreeInode := Inode(Free, 0, [])

  datatype FS = FS(inodes: map<nat, Inode>, linking: multiset<nat>)

  /** A directory that is still part of the tree. */
  predicate Live(fs: FS, d: nat) {
    d in fs.inodes && fs.inodes[d].kind == Dir && fs.inodes[d].nlink > 0
  }

  /** Slot s of live directory d names inode i. */
  predicate Names(fs: FS, d: nat, s: nat, i: nat) {
    Live(fs, d) && s < |fs.inodes[d].entries| && fs.inodes[d].entries[s].inum == i && i != 0
  }

  /** The entries that count towards i's link count: all that name it, but for ".". */
  ghost function Refs(fs: FS, i: nat): set<(nat, nat)> {
    set d: nat, s: nat | d in fs.inodes && s < |fs.inodes[d].entries|
      && Names(fs, d, s, i) && fs.inodes[d].entries[s].name != "." :: (d, s)
  }

  function Parent(fs: FS, d: nat): nat {
    if d in fs.inodes && |fs.inodes[d].entries| >= 2 then fs.inodes[d].entries[1].inum else 0
  }

  ghost predicate UniqueNames(es: seq<Entry>) {
    forall s, t :: 0 <= s < t < |es| && es[s].inum != 0 && es[t].inum != 0 ==> es[s].name != es[t].name
  }

  /** "." and ".." come first, names are unique, and entries lead to inodes in use. */
  ghost predicate DirOk(fs: FS, d: nat) {
    d in fs.inodes && var es := fs.inodes[d].entries;
    && |es| >= 2 && es[0] == Entry(d, ".") && es[1].name == ".." && Live(fs, es[1].inum) && d != 0
    && UniqueNames(es)
    && forall s :: 2 <= s < |es| && es[s].inum != 0 ==> TargetOk(fs, d, es[s].inum)
  }

  /** What an entry of d other than "." and ".." may lead to: a file, or a subdirectory of d. */
  ghost predicate TargetOk(fs: FS, d: nat, x: nat) {
    && x in fs.inodes && fs.inodes[x].kind != Free
    && (fs.inodes[x].kind == Dir ==> Live(fs, x) && x != ROOTINO && Parent(fs, x) == d)
  }

  /** Directory x has one entry in the directory its ".." leads to. */
  ghost predicate ChildOk(fs: FS, x: nat) {
    && (exists s :: 2 <= s && Names(fs, Parent(fs, x), s, x))
    && forall s, t :: 2 <= s && 2 <= t && Names(fs, Parent(fs, x), s, x) && Names(fs, Parent(fs, x), t, x) ==> s == t
  }

  ghost predicate CountOk(fs: FS, i: nat) {
    i in fs.inodes &&
    if fs.inodes[i].kind == Free then fs.inodes[i] == FreeInode && fs.linking[i] == 0
    else fs.inodes[i].nlink == |Refs(fs, i)| + fs.linking[i]
  }

  /** x is one deeper than the directory its ".." leads to; the root is at depth 0. */
  ghost predicate DepthOk(fs: FS, depth: map<nat, nat>, x: nat) {
    && x in depth && Parent(fs, x) in depth
    && depth[x] == if x == ROOTINO then 0 else depth[Parent(fs, x)] + 1
  }

  /** A directory that sys_unlink() has removed and whose inode is still in use. */
  predicate Dead(fs: FS, d: nat) {
    d in fs.inodes && fs.inodes[d].kind == Dir && fs.inodes[d].nlink == 0
  }

  /** isdirempty() */
  predicate Empty(es: seq<Entry>) {
    forall t :: 2 <= t < |es| ==> es[t].inum == 0
  }

  ghost predicate DeadOk(fs: FS, d: nat) {
    d in fs.inodes && var es := fs.inodes[d].entries;
    |es| >= 2 && es[0] == Entry(d, ".") && es[1].name == ".." && es[1].inum in fs.inodes && es[1].inum !in {0, d}
    && Empty(es)
  }

  ghost predicate Inv(fs: FS, depth: map<nat, nat>) {
    && Live(fs, ROOTINO) && Parent(fs, ROOTINO) == ROOTINO && 0 !in fs.inodes
    && (forall d {:trigger DirOk(fs, d)} :: Live(fs, d) ==> DirOk(fs, d))
    && (forall d {:trigger DeadOk(fs, d)} :: Dead(fs, d) ==> DeadOk(fs, d))
    && (forall d {:trigger DepthOk(fs, depth, d)} :: Live(fs, d) ==> DepthOk(fs, depth, d))
    && (forall d {:trigger ChildOk(fs, d)} :: Live(fs, d) && d != ROOTINO ==> ChildOk(fs, d))
    && (forall i {:trigger CountOk(fs, i)} :: i in fs.inodes ==> CountOk(fs, i))
    && (forall i :: i in fs.linking ==> i in fs.inodes && fs.inodes[i].kind in {File, Device})
  }

  // ---- what the invariant means

  /** Following ".." n times. */
  function Up(fs: FS, x: nat, n: nat): nat
    decreases n
  {
    if n == 0 then x else Up(fs, Parent(fs, x), n - 1)
  }

  /** From every live directory, ".." leads to the root in as many steps as its depth. */
  lemma {:induction false} Rooted(fs: FS, depth: map<nat, nat>, x: nat)
    requires Inv(fs, depth) && Live(fs, x)
    ensures x in depth && Up(fs, x, depth[x]) == ROOTINO
    decreases if x in depth then depth[x] else 0
  {
    assert DirOk(fs, x) && DepthOk(fs, depth, x);
    if x != ROOTINO {
      Rooted(fs, depth, Parent(fs, x));
    }
  }

  /** No directory lies below itself. */
  lemma {:induction false} NoCycle(fs: FS, depth: map<nat, nat>, x: nat, n: nat)
    requires Inv(fs, depth) && Live(fs, x) && x != ROOTINO && n > 0
    ensures Up(fs, x, n) != x
  {
    UpDepth(fs, depth, x, n);
  }

  lemma {:induction false} UpDepth(fs: FS, depth: map<nat, nat>, x: nat, n: nat)
    requires Inv(fs, depth) && Live(fs, x)
    ensures Live(fs, Up(fs, x, n)) && Up(fs, x, n) in depth && x in depth && depth[Up(fs, x, n)] <= depth[x]
    ensures n > 0 && x != ROOTINO ==> depth[Up(fs, x, n)] < depth[x]
    decreases n
  {
    assert DirOk(fs, x) && DepthOk(fs, depth, x);
    if n > 0 { UpDepth(fs, depth, Parent(fs, x), n - 1); }
  }

  /** A directory below the root is named by exactly one entry besides its own "." and the ".."s of
      its subdirectories, and that entry is in its parent. */
  lemma OneName(fs: FS, depth: map<nat, nat>, d: nat, s: nat, x: nat)
    requires Inv(fs, depth) && Live(fs, x) && Names(fs, d, s, x) && s >= 2
    ensures x != ROOTINO && d == Parent(fs, x) && forall t :: t >= 2 && Names(fs, d, t, x) ==> t == s
  {
    assert DirOk(fs, d) && TargetOk(fs, d, x);
    assert ChildOk(fs, x);
  }
}
