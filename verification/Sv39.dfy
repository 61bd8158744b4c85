/**
 Sv39 page tables (section 4.4 of the RISC-V Privileged Architecture manual, version 1.12)
 as kernel/vm.c uses them, and what it means for a tree of table pages to stand for a flat
 map from virtual page numbers to page-table entries.
 */
module Sv39 {
  const TWO64: nat := 0x1_0000_0000_0000_0000
  const PGSIZE: nat := 4096
  const NPTE: nat := 512
  /** Virtual pages below MAXVA, which is one bit less than Sv39 allows. */
  const MAXPAGES: nat := 0x400_0000
  const TRAMPOLINE: nat := MAXPAGES - 1
  const TRAPFRAME: nat := MAXPAGES - 2
  /** Physical pages between KERNBASE and PHYSTOP: 128 megabytes. */
  const RAMPAGES: nat := 0x8000

  /** Pages in a process of sz bytes: PGROUNDUP(sz) / PGSIZE. */
  function Pages(sz: nat): nat {
    (sz + PGSIZE - 1) / PGSIZE
  }

  datatype Flag = V | R | W | X | U | G | A | D

  datatype Pte = Pte(ppn: nat, flags: set<Flag>)

  const NoPte := Pte(0, {})

  predicate Leaf(e: Pte) {
    R in e.flags || W in e.flags || X in e.flags
  }

  /** A physical page: a page-table page, or a page of bytes. */
  datatype Page = Table(pte: seq<Pte>) | Data(bytes: seq<nat>)

  type Memory = map<nat, Page>

  function ZeroTable(): Page {
    Table(seq(NPTE, _ => NoPte))
  }

  /** A page of bytes that memset() has filled. */
  function Filled(byte: nat): Page {
    Data(seq(PGSIZE, _ => byte))
  }

  /** PX(level, va) for the page number v of va. */
  function PX(level: nat, v: nat): (i: nat)
    ensures i < NPTE
  {
    if level == 0 then v % NPTE else if level == 1 then v / NPTE % NPTE else v / (NPTE * NPTE) % NPTE
  }

  predicate IsTable(mem: Memory, p: nat) {
    p in mem && mem[p].Table? && |mem[p].pte| == NPTE
  }

  function SetEntry(mem: Memory, p: nat, i: nat, e: Pte): Memory
    requires IsTable(mem, p) && i < NPTE
  {
    mem[p := Table(mem[p].pte[i := e])]
  }

  // ----- address spaces -----

  /** The place of a table page in the tree of its root: `key` is a page number / 512. */
  datatype Place = Root | Mid(i: nat) | Low(key: nat)

  /** What a page of the pool is used for. */
  datatype Owner =
    | Free
    | Held                           // allocated, and not part of any address space
    | Tab(root: nat, place: Place)   // table page of the address space at `root`
    | User(root: nat, v: nat)        // memory of that address space at virtual page v

  type Owners = map<nat, Owner>

  /**
   One address space: which page is the level-1 table of each level-2 index, which is the
   level-0 table of each page number / 512, and the flat map that the tree stands for.
   */
  datatype Space = Space(mid: map<nat, nat>, low: map<nat, nat>, flat: map<nat, Pte>)

  /** The entry that leads to the table for `key`, if there is one. */
  function Link(tables: map<nat, nat>, key: nat): Pte {
    if key in tables then Pte(tables[key], {V}) else NoPte
  }

  ghost predicate OwnsTable(mem: Memory, owner: Owners, p: nat, r: nat, place: Place) {
    IsTable(mem, p) && p in owner && owner[p] == Tab(r, place)
  }

  /** The entries of a table page hold what the maps of the space say. */
  ghost predicate LinkRow(pte: seq<Pte>, tables: map<nat, nat>, base: nat) {
    |pte| == NPTE && forall j :: 0 <= j < NPTE ==> pte[j] == Link(tables, base + j)
  }

  ghost predicate LeafRow(pte: seq<Pte>, flat: map<nat, Pte>, base: nat) {
    |pte| == NPTE && forall j :: 0 <= j < NPTE ==> EntryOk(pte[j], flat, base + j)
  }

  /** The level-0 entry for page v: valid just when the flat map has v, and then a leaf. */
  ghost predicate EntryOk(e: Pte, flat: map<nat, Pte>, v: nat) {
    if v in flat then e == flat[v] && V in e.flags && Leaf(e) else e == NoPte
  }

  ghost predicate RootOk(mem: Memory, owner: Owners, r: nat, sp: Space) {
    OwnsTable(mem, owner, r, r, Root) && LinkRow(mem[r].pte, sp.mid, 0)
  }

  ghost predicate MidOk(mem: Memory, owner: Owners, r: nat, sp: Space, i: nat) {
    && i in sp.mid && i < NPTE && OwnsTable(mem, owner, sp.mid[i], r, Mid(i))
    && LinkRow(mem[sp.mid[i]].pte, sp.low, i * NPTE)
  }

  ghost predicate LowOk(mem: Memory, owner: Owners, r: nat, sp: Space, k: nat) {
    && k in sp.low && k / NPTE in sp.mid && OwnsTable(mem, owner, sp.low[k], r, Low(k))
    && LeafRow(mem[sp.low[k]].pte, sp.flat, k * NPTE)
  }

  /** The tree at root r stands for sp.flat. */
  ghost predicate SpaceOk(mem: Memory, owner: Owners, r: nat, sp: Space) {
    && RootOk(mem, owner, r, sp)
    && (forall i :: i in sp.mid ==> MidOk(mem, owner, r, sp, i))
    && (forall k :: k in sp.low ==> LowOk(mem, owner, r, sp, k))
    && (forall v :: v in sp.flat ==> v / NPTE in sp.low)
  }

  /** An address space depends on its own table pages only. */
  lemma SpaceFrame(mem: Memory, owner: Owners, mem': Memory, owner': Owners, r: nat, sp: Space)
    requires SpaceOk(mem, owner, r, sp)
    requires forall p :: p in owner && owner[p].Tab? && owner[p].root == r && p in mem ==>
               p in owner' && owner'[p] == owner[p] && p in mem' && mem'[p] == mem[p]
    ensures SpaceOk(mem', owner', r, sp)
  {
  }

  /** The indices that walk() uses, as parts of the page number. */
  lemma Indices(v: nat)
    requires v < MAXPAGES
    ensures PX(2, v) == v / NPTE / NPTE && v / NPTE == PX(2, v) * NPTE + PX(1, v)
    ensures v == v / NPTE * NPTE + PX(0, v)
  {
  }

  // ----- one row of entries -----

  lemma EmptyLinkRow(tables: map<nat, nat>, i: nat)
    requires forall k :: k in tables ==> k / NPTE != i
    ensures LinkRow(ZeroTable().pte, tables, i * NPTE)
  {
  }

  lemma EmptyLeafRow(flat: map<nat, Pte>, k: nat)
    requires forall v :: v in flat ==> v / NPTE != k
    ensures LeafRow(ZeroTable().pte, flat, k * NPTE)
  {
  }

  lemma LinkRowAdd(pte: seq<Pte>, tables: map<nat, nat>, i: nat, k: nat, p: nat)
    requires LinkRow(pte, tables, i * NPTE)
    ensures k / NPTE == i ==> LinkRow(pte[k % NPTE := Pte(p, {V})], tables[k := p], i * NPTE)
    ensures k / NPTE != i ==> LinkRow(pte, tables[k := p], i * NPTE)
  {
  }

  ghost function WithLeaf(flat: map<nat, Pte>, v: nat, e: Pte): map<nat, Pte> {
    if e == NoPte then flat - {v} else flat[v := e]
  }

  lemma LeafRowSet(pte: seq<Pte>, flat: map<nat, Pte>, k: nat, v: nat, e: Pte)
    requires LeafRow(pte, flat, k * NPTE) && ((V in e.flags && Leaf(e)) || e == NoPte)
    ensures v / NPTE == k ==> LeafRow(pte[v % NPTE := e], WithLeaf(flat, v, e), k * NPTE)
    ensures v / NPTE != k ==> LeafRow(pte, WithLeaf(flat, v, e), k * NPTE)
  {
  }

  // ----- the three ways in which the kernel changes a tree -----

  /** Writing a level-0 entry changes the flat map at that page and nowhere else. */
  lemma SetLeaf(mem: Memory, owner: Owners, r: nat, sp: Space, v: nat, e: Pte)
    requires SpaceOk(mem, owner, r, sp) && v / NPTE in sp.low
    requires (V in e.flags && Leaf(e)) || e == NoPte
    ensures IsTable(mem, sp.low[v / NPTE])
    ensures SpaceOk(SetEntry(mem, sp.low[v / NPTE], v % NPTE, e), owner, r, sp.(flat := WithLeaf(sp.flat, v, e)))
  {
    var key := v / NPTE;
    assert LowOk(mem, owner, r, sp, key);
    var mem' := SetEntry(mem, sp.low[key], v % NPTE, e);
    var sp' := sp.(flat := WithLeaf(sp.flat, v, e));
    forall i | i in sp.mid ensures MidOk(mem', owner, r, sp', i) {
      assert MidOk(mem, owner, r, sp, i);
    }
    forall k | k in sp.low ensures LowOk(mem', owner, r, sp', k) {
      assert LowOk(mem, owner, r, sp, k);
      LeafRowSet(mem[sp.low[k]].pte, sp.flat, k, v, e);
    }
  }

  /** Hanging an empty level-1 table below the root keeps the flat map. */
  lemma AddMid(mem: Memory, owner: Owners, r: nat, sp: Space, i: nat, p: nat)
    requires SpaceOk(mem, owner, r, sp) && i < NPTE && i !in sp.mid && p in owner && !owner[p].Tab?
    ensures var mem' := SetEntry(mem[p := ZeroTable()], r, i, Pte(p, {V}));
      SpaceOk(mem', owner[p := Tab(r, Mid(i))], r, sp.(mid := sp.mid[i := p]))
  {
    var mem' := SetEntry(mem[p := ZeroTable()], r, i, Pte(p, {V}));
    var owner' := owner[p := Tab(r, Mid(i))];
    var sp' := sp.(mid := sp.mid[i := p]);
    LinkRowAdd(mem[r].pte, sp.mid, 0, i, p);
    forall k | k in sp.low ensures k / NPTE != i && LowOk(mem', owner', r, sp', k) {
      assert LowOk(mem, owner, r, sp, k);
    }
    EmptyLinkRow(sp.low, i);
    forall j | j in sp'.mid ensures MidOk(mem', owner', r, sp', j) {
      if j != i { assert MidOk(mem, owner, r, sp, j); }
    }
  }

  /** Hanging an empty level-0 table below a level-1 table keeps the flat map. */
  lemma AddLow(mem: Memory, owner: Owners, r: nat, sp: Space, k: nat, p: nat)
    requires SpaceOk(mem, owner, r, sp) && k / NPTE in sp.mid && k !in sp.low && p in owner && !owner[p].Tab?
    ensures IsTable(mem[p := ZeroTable()], sp.mid[k / NPTE])
    ensures var mem' := SetEntry(mem[p := ZeroTable()], sp.mid[k / NPTE], k % NPTE, Pte(p, {V}));
      SpaceOk(mem', owner[p := Tab(r, Low(k))], r, sp.(low := sp.low[k := p]))
  {
    assert MidOk(mem, owner, r, sp, k / NPTE);
    var mem' := SetEntry(mem[p := ZeroTable()], sp.mid[k / NPTE], k % NPTE, Pte(p, {V}));
    var owner' := owner[p := Tab(r, Low(k))];
    var sp' := sp.(low := sp.low[k := p]);
    EmptyLeafRow(sp.flat, k);
    forall j | j in sp.mid ensures MidOk(mem', owner', r, sp', j) {
      assert MidOk(mem, owner, r, sp, j);
      LinkRowAdd(mem[sp.mid[j]].pte, sp.low, j, k, p);
    }
    forall j | j in sp'.low ensures LowOk(mem', owner', r, sp', j) {
      if j != k { assert LowOk(mem, owner, r, sp, j); }
    }
  }
}
