/**
 What names lead to, before and after: create() makes one name lead to a new inode, link one to an
 old one, unlink makes one lead nowhere, and no other name in any directory changes.
 */
module DirNames {
  import opened DirTree
  import opened DirSteps
  import opened Directories

  /** In directory d, the name n leads to inode i. */
  ghost predicate Leads(fs: FS, d: nat, n: string, i: nat) {
    i != 0 && d in fs.inodes && Entry(i, n) in fs.inodes[d].entries
  }

  lemma SlotLeads(es: seq<Entry>, s: nat, e: Entry, f: Entry)
    requires s <= |es| && FreeSlot(es, s) && f.inum != 0
    ensures f in SetSlot(es, s, e) <==> f in es || f == e
  {
    var r := SetSlot(es, s, e);
    if f in es {
      var k :| 0 <= k < |es| && es[k] == f;
      assert k != s && r[k] == f;
    }
    if f in r {
      var k :| 0 <= k < |r| && r[k] == f;
      assert k != s ==> k < |es|;
    }
    assert r[s] == e;
  }

  /** A new name leads to the new inode and every other name where it led; a new directory has "." and
      ".." alone; and the link counts are one for the new inode and one more for the parent of a directory. */
  lemma CreateLeads(fs: FS, i: nat, d: nat, s: nat, name: string, kind: Kind, e: nat, n: string, j: nat)
    requires HasRoom(fs, d, s, name) && i in fs.inodes && fs.inodes[i] == FreeInode && kind != Free && 0 !in fs.inodes
    requires j != 0
    ensures var t := Created(fs, i, d, s, name, kind);
      && (e != i ==> (Leads(t, e, n, j) <==> Leads(fs, e, n, j) || (e == d && n == name && j == i)))
      && (Leads(t, i, n, j) <==> kind == Dir && ((n == "." && j == i) || (n == ".." && j == d)))
      && t.inodes.Keys == fs.inodes.Keys && t.inodes[i].kind == kind && t.inodes[i].nlink == 1
      && (e in fs.inodes && e != i ==> t.inodes[e].kind == fs.inodes[e].kind)
      && (e in fs.inodes && e != i ==> t.inodes[e].nlink == fs.inodes[e].nlink + if e == d && kind == Dir then 1 else 0)
  {
    hide SetSlot;
    SlotLeads(fs.inodes[d].entries, s, Entry(i, name), Entry(j, n));
    assert 0 !in fs.inodes && i != d;
  }

  /** A new link leads to the inode and every other name where it led. */
  lemma LinkLeads(fs: FS, i: nat, d: nat, s: nat, name: string, e: nat, n: string, j: nat)
    requires HasRoom(fs, d, s, name) && i in fs.inodes && 0 !in fs.inodes && j != 0
    ensures var t := Linked(fs, i, d, s, name);
      && (Leads(t, e, n, j) <==> Leads(fs, e, n, j) || (e == d && n == name && j == i))
      && t.inodes.Keys == fs.inodes.Keys
      && (e in fs.inodes ==> t.inodes[e].kind == fs.inodes[e].kind && t.inodes[e].nlink == fs.inodes[e].nlink)
  {
    hide SetSlot;
    SlotLeads(fs.inodes[d].entries, s, Entry(i, name), Entry(j, n));
  }

  /** Before that the count has gone up by one, and if the link fails it goes down again: all is as it was. */
  lemma LinkUndoes(fs: FS, i: nat)
    requires i in fs.inodes
    ensures LinkBegun(fs, i).inodes == fs.inodes[i := fs.inodes[i].(nlink := fs.inodes[i].nlink + 1)]
    ensures LinkUndone(LinkBegun(fs, i), i) == fs
  {
    assert fs.linking + multiset{i} - multiset{i} == fs.linking;
    assert fs.inodes[i := fs.inodes[i]] == fs.inodes;
  }

  /** A removed name leads nowhere and every other name where it led; the inode has one link less, and so
      has the parent of a removed directory. */
  lemma UnlinkLeads(fs: FS, depth: map<nat, nat>, d: nat, s: nat, name: string, e: nat, n: string, j: nat)
    requires Inv(fs, depth) && Removes(fs, d, s, name) && j != 0
    ensures var i, t := Target(fs, d, s), Unlinked(fs, d, s);
      && i != d && Leads(fs, d, name, i) && (Leads(t, e, n, j) <==> Leads(fs, e, n, j) && !(e == d && n == name))
      && t.inodes.Keys == fs.inodes.Keys
      && (e in fs.inodes ==> t.inodes[e].kind == fs.inodes[e].kind)
      && (e in fs.inodes ==>
            t.inodes[e].nlink ==
            fs.inodes[e].nlink - if e == i || (e == d && fs.inodes[i].kind == Dir) then 1 else 0)
  {
    hide Refs;
    NamedLinked(fs, depth, d, s);
    assert DirOk(fs, d) && CountOk(fs, d);
    var i, es := Target(fs, d, s), fs.inodes[d].entries;
    if fs.inodes[i].kind == Dir { TwoLinks(fs, depth, d, s); }
    ClearedLeads(es, s, Entry(j, n));
  }

  lemma TwoLinks(fs: FS, depth: map<nat, nat>, d: nat, s: nat)
    requires Inv(fs, depth) && CanRemove(fs, d, s) && fs.inodes[Target(fs, d, s)].kind == Dir
    ensures fs.inodes[d].nlink >= 2
  {
    hide Inv;
    IsRemovable(fs, depth, d, s);
  }

  lemma ClearedLeads(es: seq<Entry>, s: nat, f: Entry)
    requires s < |es| && es[s].inum != 0 && UniqueNames(es) && f.inum != 0
    ensures f in es[s := NoEntry] <==> f in es && f.name != es[s].name
  {
    var r := es[s := NoEntry];
    if f in r {
      var k :| 0 <= k < |r| && r[k] == f;
      assert es[k] == f && k != s;
    }
    if f in es && f.name != es[s].name {
      var k :| 0 <= k < |es| && es[k] == f;
      assert r[k] == f;
    }
  }

  /** No name in directory d but "." and ".." leads anywhere. */
  ghost predicate OnlyDots(fs: FS, d: nat) {
    forall n, j {:trigger Leads(fs, d, n, j)} :: Leads(fs, d, n, j) ==> n == "." || n == ".."
  }

  lemma EmptyDots(fs: FS, depth: map<nat, nat>, i: nat)
    requires Inv(fs, depth) && Live(fs, i)
    ensures Empty(fs.inodes[i].entries) <==> OnlyDots(fs, i)
  {
    assert DirOk(fs, i);
    var es := fs.inodes[i].entries;
    if OnlyDots(fs, i) {
      forall t | 2 <= t < |es| ensures es[t].inum == 0 {
        if es[t].inum != 0 {
          assert es[t] == Entry(es[t].inum, es[t].name) && es[t] in es;
          assert Leads(fs, i, es[t].name, es[t].inum);
        }
      }
    }
  }

  lemma BeyondDots(fs: FS, depth: map<nat, nat>, d: nat, s: nat)
    requires Inv(fs, depth) && d in fs.inodes && fs.inodes[d].kind == Dir
    requires s < |fs.inodes[d].entries| && fs.inodes[d].entries[s].name !in {".", ".."}
    ensures 2 <= s && (fs.inodes[d].entries[s].inum != 0 ==> Live(fs, d))
  {
    assert if fs.inodes[d].nlink > 0 then DirOk(fs, d) else DeadOk(fs, d);
  }

  /** sys_unlink() removes a name if and only if it is neither "." nor "..", it leads to something, and if
      that is a directory nothing but the dots is in it. */
  lemma RemovesIff(fs: FS, depth: map<nat, nat>, d: nat, name: string)
    requires Inv(fs, depth) && d in fs.inodes && fs.inodes[d].kind == Dir
    ensures (exists s: nat :: Removes(fs, d, s, name)) <==>
      && name != "." && name != ".."
      && exists i :: Leads(fs, d, name, i) && i in fs.inodes && (fs.inodes[i].kind == Dir ==> OnlyDots(fs, i))
  {
    hide Inv, Refs, OnlyDots, Empty;
    if s: nat :| Removes(fs, d, s, name) {
      NamedLinked(fs, depth, d, s);
      var i := Target(fs, d, s);
      if fs.inodes[i].kind == Dir { EmptyDots(fs, depth, i); }
      assert fs.inodes[d].entries[s] == Entry(i, name);
      assert Leads(fs, d, name, i);
    }
    if i :| name != "." && name != ".." && Leads(fs, d, name, i) && i in fs.inodes
            && (fs.inodes[i].kind == Dir ==> OnlyDots(fs, i)) {
      var es := fs.inodes[d].entries;
      var s :| 0 <= s < |es| && es[s] == Entry(i, name);
      BeyondDots(fs, depth, d, s);
      NamedLinked(fs, depth, d, s);
      if fs.inodes[i].kind == Dir { EmptyDots(fs, depth, i); }
      assert Removes(fs, d, s, name);
    }
  }

  /** What dirlookup() finds is where the name leads. */
  lemma LookupLeads(fs: FS, depth: map<nat, nat>, d: nat, n: string, j: nat)
    requires Inv(fs, depth) && Live(fs, d) && j != 0
    ensures Leads(fs, d, n, j) <==> Named(fs.inodes[d].entries, n) == j
  {
    assert DirOk(fs, d);
    var es, i := fs.inodes[d].entries, Named(fs.inodes[d].entries, n);
    if Entry(j, n) in es {
      var k :| 0 <= k < |es| && es[k] == Entry(j, n);
      var m :| 0 <= m < |es| && es[m] == Entry(i, n);
      assert k == m;
    }
  }
}
