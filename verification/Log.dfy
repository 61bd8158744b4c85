/**
 kernel/log.c in its own form: `struct log` updated in place over the buffer cache, with the
 loops of commit() and recover_from_log(). `history` records the disk after each block write.
 A method that panics in bget() for want of buffers says so and promises nothing else.
 */
module Log {
  import opened LogMachine
  import opened LogDisks
  import opened LogCache
  import Bio

  /** Some buffer, or two, could be recycled. */
  ghost predicate Spare(bufs: seq<Bio.Buf>) {
    exists i :: 0 <= i < |bufs| && bufs[i].refcnt == 0
  }

  ghost predicate TwoSpare(bufs: seq<Bio.Buf>) {
    exists i, j :: 0 <= i < j < |bufs| && bufs[i].refcnt == 0 && bufs[j].refcnt == 0
  }

  /** No buffer has more references than before. */
  ghost predicate NoMore(bufs: seq<Bio.Buf>, bufs': seq<Bio.Buf>) {
    |bufs| == |bufs'| && forall i :: 0 <= i < |bufs| ==> bufs'[i].refcnt <= bufs[i].refcnt
  }

  lemma NoMoreSelf(bufs: seq<Bio.Buf>)
    ensures NoMore(bufs, bufs)
  {
  }

  lemma NoMoreTrans(bufs: seq<Bio.Buf>, bufs': seq<Bio.Buf>, bufs'': seq<Bio.Buf>)
    requires NoMore(bufs, bufs') && NoMore(bufs', bufs'')
    ensures NoMore(bufs, bufs'')
  {
  }

  lemma OneSpare(bufs: seq<Bio.Buf>)
    ensures TwoSpare(bufs) ==> Spare(bufs)
  {
  }

  lemma AllSpare(bufs: seq<Bio.Buf>)
    requires |bufs| >= 2 && forall b :: 0 <= b < |bufs| ==> bufs[b].refcnt == 0
    ensures TwoSpare(bufs)
  {
    assert bufs[0].refcnt == bufs[1].refcnt == 0;
  }

  lemma SpareKept(bufs: seq<Bio.Buf>, bufs': seq<Bio.Buf>)
    requires NoMore(bufs, bufs')
    ensures (Spare(bufs) ==> Spare(bufs')) && (TwoSpare(bufs) ==> TwoSpare(bufs'))
  {
  }

  /** Buffers a and b have one more reference each, and nothing else has changed but their blocks. */
  ghost predicate OneMore(bufs: seq<Bio.Buf>, bufs': seq<Bio.Buf>, a: nat, b: nat) {
    && |bufs| == |bufs'| && a < |bufs| && b < |bufs|
    && bufs'[a].refcnt == bufs[a].refcnt + 1 && bufs'[b].refcnt == bufs[b].refcnt + 1
    && forall i :: 0 <= i < |bufs| && i != a && i != b ==> bufs'[i] == bufs[i]
  }

  /** If every buffer is in use once a is taken, there were not two to take. */
  lemma NoneSpare(bufs: seq<Bio.Buf>, bufs': seq<Bio.Buf>, a: nat)
    requires a < |bufs| == |bufs'| && bufs' == bufs[a := bufs'[a]] && !Spare(bufs')
    ensures !TwoSpare(bufs)
  {
    forall i, j | 0 <= i < j < |bufs| ensures bufs[i].refcnt > 0 || bufs[j].refcnt > 0 {
      assert bufs'[i].refcnt > 0 && bufs'[j].refcnt > 0;
    }
  }

  lemma DistinctNext(lh: seq<nat>, x: nat)
    requires Distinct(lh)
    ensures x !in lh ==> Distinct(lh + [x])
  {
  }

  lemma AllListed(dirty: map<nat, Block>, lh: seq<nat>)
    requires forall x :: x in dirty <==> x in lh
    ensures dirty - SetOf(lh) == map[]
  {
  }

  class Log {
    const g: Geometry
    const dev: nat
    const cache: Bio.Cache
    // struct log
    var n: nat
    const block: array<nat>
    var outstanding: nat
    var committing: bool
    ghost var held: seq<nat>
    ghost var touched: set<nat>
    ghost var dirty: map<nat, Block>
    ghost var disk: Disk
    ghost var history: seq<Disk>

    ghost function U(): Uses
      reads this
    {
      Uses(dev, held, touched, dirty)
    }

    /** Cache and disk agree with what the log has pinned. */
    ghost predicate Bound()
      reads this, cache
    {
      && cache.Linked() && |cache.bufs| == cache.nbuf
      && Tied(cache.bufs, cache.disk, U()) && OnDisk(cache.disk, dev, disk)
    }

    /** Buffer b has block x. */
    ghost predicate Has(b: nat, x: nat)
      reads cache
    {
      b < |cache.bufs| && cache.bufs[b].valid && Bio.KeyOf(cache.bufs[b]) == (dev, x)
    }

    /** What a reader of block x is to see. */
    ghost function Value(x: nat): Block
      reads this
    {
      if x in dirty then dirty[x] else if x in disk then disk[x] else []
    }

    /** The assignments of initlog(), when no buffer is in use. */
    constructor (g: Geometry, dev: nat, cache: Bio.Cache, ghost disk: Disk)
      requires cache.Valid() && dev != 0 && OnDisk(cache.disk, dev, disk)
      requires forall b :: 0 <= b < cache.nbuf ==> cache.bufs[b].refcnt == 0
      ensures this.g == g && this.dev == dev && this.cache == cache && fresh(block) && block.Length == LOGSIZE
      ensures Bound() && n == 0 && outstanding == 0 && !committing && dirty == map[] && touched == {}
      ensures this.disk == disk && history == []
    {
      this.g, this.dev, this.cache := g, dev, cache;
      n, block := 0, new nat[LOGSIZE];
      outstanding, committing := 0, false;
      held, touched, dirty := seq(cache.nbuf, _ => 0), {}, map[];
      this.disk, history := disk, [];
      new;
      TiedFirst(cache.bufs, cache.disk, dev);
    }

    /** The list holds the blocks that are pinned, each once. */
    ghost predicate Listed()
      reads this, block
    {
      n <= block.Length == LOGSIZE && Distinct(block[..n]) && forall x :: x in dirty <==> x in block[..n]
    }

    /** bread() */
    method Bread(x: nat) returns (panic: bool, b: nat)
      requires Bound() && x in disk
      modifies cache`bufs, this`held
      ensures Bound() && (panic <==> !old(cache.Available(dev, x)))
      ensures panic ==> cache.bufs == old(cache.bufs) && held == old(held)
      ensures !panic ==> Has(b, x) && b < |old(held)| == |old(cache.bufs)| && held == old(held)[b := old(held)[b] + 1]
      ensures !panic ==>
        cache.bufs == old(cache.bufs)[b := cache.bufs[b]] && cache.bufs[b].refcnt == old(cache.bufs)[b].refcnt + 1
      ensures !panic && old(cache.bufs)[b].refcnt > 0 ==> old(Bio.KeyOf(cache.bufs[b]) == (dev, x))
      ensures !panic && b !in touched ==> cache.bufs[b].data == Value(x)
      ensures !panic && old(Quiet(cache.bufs, touched, (dev, x))) ==> b !in touched
    {
      hide Tied, Bio.Latest, Bio.Cache.Linked;
      TiedSettled(cache.bufs, cache.disk, U());
      ghost var bufs, u := cache.bufs, U();
      panic, b := cache.Bread(dev, x);
      if panic {
        return;
      }
      TiedAt(bufs, cache.disk, u, b);
      TiedRead(bufs, cache.disk, u, b, cache.bufs[b], x);
      held := held[b := held[b] + 1];
    }

    /** The holder of buffer b changes its bytes. */
    method Change(b: nat, data: Block)
      requires Bound() && b < |held| == |cache.bufs| && held[b] > 0 && cache.bufs[b].valid && cache.bufs[b].dev == dev
      modifies cache`bufs, this`touched
      ensures Bound() && touched == old(touched) + {b}
      ensures cache.bufs == old(cache.bufs)[b := old(cache.bufs)[b].(data := data)]
    {
      hide Tied, Bio.Latest, Bio.Cache.Linked;
      TiedSettled(cache.bufs, cache.disk, U());
      TiedAt(cache.bufs, cache.disk, U(), b);
      ghost var bufs, u := cache.bufs, U();
      cache.Change(b, data);
      touched := touched + {b};
      TiedOne(bufs, cache.disk, u, U(), b, cache.bufs[b]);
    }

    /** bwrite() of buffer b, which has block x. */
    method Bwrite(b: nat, x: nat)
      requires Bound() && Has(b, x) && b < |held| && held[b] > 0 && (x in dirty ==> cache.bufs[b].data == dirty[x])
      modifies cache`disk, this`disk, this`history, this`touched
      ensures Bound() && touched == old(touched) - {b}
      ensures disk == old(disk)[x := cache.bufs[b].data] && history == old(history) + [disk]
    {
      hide Tied, Bio.Latest, Bio.Cache.Linked;
      TiedSettled(cache.bufs, cache.disk, U());
      TiedWrite(cache.bufs, cache.disk, U(), b);
      cache.Bwrite(b);
      touched, disk := touched - {b}, disk[x := cache.bufs[b].data];
      history := history + [disk];
    }

    /** brelse() of a buffer that its holder is done with: what was changed has been passed to
        log_write() or bwrite(). So the cache never lets go of bytes that the disk does not have. */
    method Brelse(b: nat)
      requires Bound() && b < |held| == |cache.bufs| && held[b] > 0 && b !in touched
      modifies cache, this`held
      ensures Bound() && held == old(held)[b := old(held)[b] - 1] && cache.disk == old(cache.disk)
      ensures old(cache.bufs)[b].refcnt > 0
      ensures cache.bufs == old(cache.bufs)[b := old(cache.bufs)[b].(refcnt := old(cache.bufs)[b].refcnt - 1)]
    {
      hide Tied, Bio.Latest, Bio.Cache.Linked;
      TiedSettled(cache.bufs, cache.disk, U());
      TiedAt(cache.bufs, cache.disk, U(), b);
      ghost var bufs, u := cache.bufs, U();
      cache.Brelse(b);
      held := held[b := held[b] - 1];
      TiedOne(bufs, cache.disk, u, U(), b, cache.bufs[b]);
    }

    /** write_head(): it can panic only when every buffer is in use. */
    method WriteHead() returns (panic: bool)
      requires Bound() && touched == {}
      requires n <= block.Length && g.start in disk && n < |disk[g.start]| && g.start !in dirty
      modifies cache, this`held, this`touched, this`disk, this`history
      ensures panic ==> !old(Spare(cache.bufs))
      ensures !panic ==> Bound() && touched == {} && held == old(held) && NoMore(old(cache.bufs), cache.bufs)
      ensures !panic ==> disk == HeadDisk(g, old(disk), block[..n]) && history == old(history) + [disk]
    {
      hide Tied, OnDisk, Bio.Latest, Bio.Cache.Linked;
      ghost var was := disk[g.start];
      var b;
      panic, b := Bread(g.start);
      if panic {
        return;
      }
      var hb := cache.bufs[b].data;
      hb := hb[0 := n];
      for i := 0 to n
        invariant hb == [n] + block[..i] + was[1 + i..]
      {
        hb := hb[1 + i := block[i]];
      }
      Change(b, hb);
      Bwrite(b, g.start);
      Brelse(b);
    }

    /** bread() of two blocks. A pinned block needs no buffer. */
    method ReadPair(x: nat, y: nat) returns (panic: bool, a: nat, b: nat)
      requires Bound() && touched == {} && x in disk && y in disk && x != y
      modifies cache`bufs, this`held
      ensures panic ==> !old(TwoSpare(cache.bufs)) && (y in dirty ==> !old(Spare(cache.bufs)))
      ensures !panic ==> Bound() && a != b && Has(a, x) && Has(b, y) && a < |old(held)| && b < |old(held)|
      ensures !panic ==>
        |old(held)| == |old(cache.bufs)| && held == old(held)[a := old(held)[a] + 1][b := old(held)[b] + 1]
      ensures !panic ==> cache.bufs[a].data == Value(x) && cache.bufs[b].data == Value(y)
      ensures !panic ==> OneMore(old(cache.bufs), cache.bufs, a, b)
    {
      hide Tied, OnDisk, Bio.Latest, Bio.Cache.Linked;
      b := 0;
      panic, a := Bread(x);
      if panic {
        return;
      }
      ghost var bufs := cache.bufs;
      if y in dirty { DirtyCached(cache.bufs, cache.disk, U(), disk, y); }
      panic, b := Bread(y);
      if panic {
        NoneSpare(old(cache.bufs), bufs, a);
      }
    }

    /** One iteration of write_log(). The cache block is pinned, so only the log block may need a
        buffer. */
    method CopyOne(tail: nat) returns (panic: bool)
      requires Bound() && touched == {} && tail < n <= block.Length && block[tail] in dirty
      requires g.start + tail + 1 in disk && g.start + tail + 1 !in dirty
      modifies cache, this`held, this`touched, this`disk, this`history
      ensures panic ==> !old(Spare(cache.bufs))
      ensures !panic ==> Bound() && touched == {} && held == old(held) && NoMore(old(cache.bufs), cache.bufs)
      ensures !panic ==> disk == old(disk)[g.start + tail + 1 := dirty[block[tail]]] && history == old(history) + [disk]
    {
      hide Tied, OnDisk, Bio.Latest, Bio.Cache.Linked;
      DirtyCached(cache.bufs, cache.disk, U(), disk, block[tail]);
      var to, from;
      panic, to, from := ReadPair(g.start + tail + 1, block[tail]);
      if panic {
        return;
      }
      Change(to, cache.bufs[from].data);
      Bwrite(to, g.start + tail + 1);
      Brelse(from);
      Brelse(to);
    }

    method WriteLog() returns (panic: bool)
      requires Bound() && touched == {} && n <= block.Length && (forall j :: 0 <= j < n ==> block[..n][j] in dirty)
      requires SlotsOnDisk(g, disk, n) && forall x :: g.start < x <= g.start + n ==> x !in dirty
      modifies cache, this`held, this`touched, this`disk, this`history
      ensures panic ==> !old(Spare(cache.bufs))
      ensures !panic ==> Bound() && touched == {} && held == old(held) && NoMore(old(cache.bufs), cache.bufs)
      ensures !panic ==> disk == CopyDisk(g, old(disk), dirty, block[..n], n)
      ensures !panic ==> history == old(history) + CopyTrace(g, old(disk), dirty, block[..n], n)
    {
      hide Tied, OnDisk, Bio.Cache.Linked, NoMore, Spare;
      ghost var lh := block[..n];
      NoMoreSelf(cache.bufs);
      panic := false;
      var tail := 0;
      while tail < n
        invariant tail <= n && Bound() && touched == {} && held == old(held) && NoMore(old(cache.bufs), cache.bufs)
        invariant disk == CopyDisk(g, old(disk), dirty, lh, tail)
        invariant history == old(history) + CopyTrace(g, old(disk), dirty, lh, tail)
      {
        assert block[tail] == lh[tail];
        CopyKeepsHead(g, old(disk), dirty, lh, tail);
        SpareKept(old(cache.bufs), cache.bufs);
        ghost var bufs := cache.bufs;
        panic := CopyOne(tail);
        if panic {
          return;
        }
        NoMoreTrans(old(cache.bufs), bufs, cache.bufs);
        tail := tail + 1;
      }
    }

    /** One iteration of install_trans(). In commit() the home block is pinned. */
    method InstallOne(tail: nat, recovering: bool) returns (panic: bool)
      requires Bound() && touched == {} && tail < n <= block.Length && block[tail] in disk
        && block[tail] != g.start + tail + 1
      requires g.start + tail + 1 in disk && g.start + tail + 1 !in dirty
      requires if recovering then dirty == map[]
               else block[tail] in dirty && dirty[block[tail]] == disk[g.start + tail + 1]
      modifies cache, this`held, this`touched, this`disk, this`history, this`dirty
      ensures panic ==> if recovering then !old(TwoSpare(cache.bufs)) else !old(Spare(cache.bufs))
      ensures !panic ==> Bound() && touched == {} && held == old(held) && NoMore(old(cache.bufs), cache.bufs)
      ensures !panic ==>
        disk == old(disk)[block[tail] := old(disk)[g.start + tail + 1]] && history == old(history) + [disk]
      ensures !panic ==> dirty == if recovering then old(dirty) else old(dirty) - {block[tail]}
    {
      hide Tied, OnDisk, Bio.Latest, Bio.Cache.Linked;
      var lbuf, dbuf;
      panic, lbuf, dbuf := ReadPair(g.start + tail + 1, block[tail]);
      if panic {
        return;
      }
      Change(dbuf, cache.bufs[lbuf].data);
      Bwrite(dbuf, block[tail]);
      if !recovering {
        Bunpin(dbuf, block[tail]);
      }
      Brelse(lbuf);
      Brelse(dbuf);
    }

    /** bunpin() of a buffer whose bytes are on the disk. */
    method Bunpin(b: nat, x: nat)
      requires Bound() && Has(b, x) && x in dirty && b !in touched && x in disk && disk[x] == dirty[x]
      modifies cache`bufs, this`dirty
      ensures Bound() && dirty == old(dirty) - {x} && old(cache.bufs)[b].refcnt > 0
      ensures cache.bufs == old(cache.bufs)[b := old(cache.bufs)[b].(refcnt := old(cache.bufs)[b].refcnt - 1)]
    {
      hide Tied, Bio.Latest, Bio.Cache.Linked;
      TiedSettled(cache.bufs, cache.disk, U());
      TiedAt(cache.bufs, cache.disk, U(), b);
      ghost var bufs, u := cache.bufs, U();
      cache.Bunpin(b);
      dirty := dirty - {x};
      TiedOne(bufs, cache.disk, u, U(), b, cache.bufs[b]);
    }

    method InstallTrans(recovering: bool) returns (panic: bool)
      requires Bound() && touched == {} && n <= block.Length && SlotsOnDisk(g, disk, n) && Outside(g, disk, block[..n])
      requires forall x :: g.start < x <= g.start + n ==> x !in dirty
      requires if recovering then dirty == map[] else Distinct(block[..n]) && Slotted(g, disk, dirty, block[..n], 0)
      modifies cache, this`held, this`touched, this`disk, this`history, this`dirty
      ensures panic ==> if recovering then !old(TwoSpare(cache.bufs)) else !old(Spare(cache.bufs))
      ensures !panic ==> Bound() && touched == {} && held == old(held) && NoMore(old(cache.bufs), cache.bufs)
      ensures !panic ==> disk == InstallDisk(g, old(disk), block[..n], n)
      ensures !panic ==> history == old(history) + InstallTrace(g, old(disk), block[..n], n)
      ensures !panic ==> dirty == if recovering then old(dirty) else old(dirty) - SetOf(block[..n])
    {
      hide Tied, OnDisk, SetOf, Bio.Cache.Linked, NoMore, Spare, TwoSpare, Outside, Slotted, SlotsOnDisk, Distinct;
      ghost var lh, d := block[..n], disk;
      NoMoreSelf(cache.bufs);
      panic := false;
      var tail := 0;
      SetOfNone(dirty);
      assert lh[..0] == [];
      while tail < n
        invariant tail <= n && Bound() && touched == {} && held == old(held) && NoMore(old(cache.bufs), cache.bufs)
        invariant disk == InstallDisk(g, d, lh, tail)
        invariant history == old(history) + InstallTrace(g, d, lh, tail)
        invariant dirty == if recovering then old(dirty) else old(dirty) - SetOf(lh[..tail])
        invariant !recovering ==> Slotted(g, disk, dirty, lh, tail)
      {
        assert block[tail] == lh[tail];
        InstallFacts(g, d, lh, tail);
        SpareKept(old(cache.bufs), cache.bufs);
        SetOfNext(lh, tail, old(dirty));
        if !recovering { InstallSlots(g, disk, dirty, lh, tail); }
        ghost var bufs := cache.bufs;
        panic := InstallOne(tail, recovering);
        if panic {
          return;
        }
        NoMoreTrans(old(cache.bufs), bufs, cache.bufs);
        tail := tail + 1;
      }
      assert lh[..n] == lh;
    }

    method ReadHead() returns (panic: bool)
      requires Bound() && touched == {} && g.start in disk && g.start !in dirty
      requires |disk[g.start]| > 0 && disk[g.start][0] < |disk[g.start]| && disk[g.start][0] <= block.Length
      modifies cache, this`held, this`n, block
      ensures panic ==> !old(Spare(cache.bufs))
      ensures !panic ==> Bound() && held == old(held) && NoMore(old(cache.bufs), cache.bufs)
      ensures !panic ==> n <= block.Length && block[..n] == DecodeHead(disk[g.start])
    {
      hide Tied, OnDisk, Bio.Latest, Bio.Cache.Linked;
      var b;
      panic, b := Bread(g.start);
      if panic {
        return;
      }
      var lh := cache.bufs[b].data;
      n := lh[0];
      for i := 0 to n
        invariant block[..i] == lh[1..1 + i]
        modifies block
      {
        block[i] := lh[1 + i];
      }
      Brelse(b);
    }

    /** The end shared by commit() and recover_from_log(): install, forget, clear the header. */
    method InstallAndClear(recovering: bool) returns (panic: bool)
      requires Bound() && touched == {} && n <= block.Length
      requires Installable(g, disk, block[..n]) && Outside(g, disk, block[..n])
        && forall x :: g.start <= x <= g.start + n ==> x !in dirty
      requires if recovering then dirty == map[] else Distinct(block[..n]) && Slotted(g, disk, dirty, block[..n], 0)
      modifies cache, this`held, this`touched, this`n, this`disk, this`history, this`dirty
      ensures panic ==> if recovering then !old(TwoSpare(cache.bufs)) else !old(Spare(cache.bufs))
      ensures !panic ==> Bound() && touched == {} && held == old(held) && NoMore(old(cache.bufs), cache.bufs) && n == 0
      ensures !panic ==> disk == ClearedDisk(g, old(disk), old(block[..n]))
      ensures !panic ==> history == old(history) + RecoverTrace(g, old(disk), old(block[..n]))
      ensures !panic ==> dirty == if recovering then old(dirty) else old(dirty) - SetOf(old(block[..n]))
    {
      hide Tied, OnDisk, SetOf, Bio.Cache.Linked, NoMore, Spare, TwoSpare;
      hide Slotted, SlotsOnDisk, Outside, Distinct, Installable, InstallDisk, ClearedDisk, RecoverTrace;
      InstalledHead(g, disk, block[..n]);
      OneSpare(cache.bufs);
      panic := InstallTrans(recovering);
      if panic {
        return;
      }
      SpareKept(old(cache.bufs), cache.bufs);
      n := 0;
      assert block[..0] == [];
      ghost var bufs := cache.bufs;
      panic := WriteHead();
      if !panic { NoMoreTrans(old(cache.bufs), bufs, cache.bufs); }
    }

    /** commit(): it can panic only when every buffer is in use. */
    method Commit() returns (panic: bool)
      requires Bound() && touched == {} && n <= block.Length && CommitReady(g, disk, dirty, block[..n])
      modifies cache, this`held, this`touched, this`n, this`disk, this`history, this`dirty
      ensures panic ==> !old(Spare(cache.bufs))
      ensures !panic ==> Bound() && touched == {} && held == old(held) && NoMore(old(cache.bufs), cache.bufs)
      ensures !panic ==> n == 0 && dirty == old(dirty) - SetOf(old(block[..n]))
      ensures !panic && old(n) == 0 ==> disk == old(disk) && history == old(history)
      ensures !panic && old(n) > 0 ==> history == old(history) + CommitTrace(g, old(disk), old(dirty), old(block[..n]))
      ensures !panic && old(n) > 0 ==>
        disk == ClearedDisk(g, CommittedDisk(g, old(disk), old(dirty), old(block[..n])), old(block[..n]))
    {
      hide Tied, OnDisk, SetOf, Bio.Cache.Linked, NoMore, Spare, Slotted, Outside, Distinct, CopyTrace, RecoverTrace,
        ClearedDisk;
      NoMoreSelf(cache.bufs);
      panic := false;
      SetOfNone(dirty);
      if n > 0 {
        panic := WriteToLog();
        if panic {
          return;
        }
        SpareKept(old(cache.bufs), cache.bufs);
        ghost var bufs := cache.bufs;
        panic := InstallAndClear(false);
        if !panic { NoMoreTrans(old(cache.bufs), bufs, cache.bufs); }
      } else {
        assert block[..n] == [];
      }
    }

    /** write_log() and the write_head() that makes the transaction durable. */
    method WriteToLog() returns (panic: bool)
      requires Bound() && touched == {} && n <= block.Length && CommitReady(g, disk, dirty, block[..n])
      modifies cache, this`held, this`touched, this`disk, this`history
      ensures panic ==> !old(Spare(cache.bufs))
      ensures !panic ==> Bound() && touched == {} && held == old(held) && NoMore(old(cache.bufs), cache.bufs)
      ensures !panic ==> disk == CommittedDisk(g, old(disk), dirty, block[..n])
      ensures !panic ==> history == old(history) + CopyTrace(g, old(disk), dirty, block[..n], n) + [disk]
      ensures !panic ==> Slotted(g, disk, dirty, block[..n], 0) && Outside(g, disk, block[..n])
    {
      hide Tied, OnDisk, Bio.Cache.Linked;
      CopyKeepsHead(g, disk, dirty, block[..n], n);
      forall x | x in dirty ensures x in disk { DirtyCached(cache.bufs, cache.disk, U(), disk, x); }
      CommitSlots(g, disk, dirty, block[..n]);
      panic := WriteLog();
      if panic {
        return;
      }
      SpareKept(old(cache.bufs), cache.bufs);
      panic := WriteHead();
    }

    method RecoverFromLog() returns (panic: bool)
      requires Bound() && touched == {} && dirty == map[] && RecoverReady(g, disk) && block.Length == LOGSIZE
      modifies cache, this`held, this`touched, this`n, this`disk, this`history, this`dirty, block
      ensures panic ==> !old(TwoSpare(cache.bufs))
      ensures !panic ==> Bound() && touched == {} && held == old(held) && n == 0 && dirty == map[]
      ensures !panic ==> disk == RecoveredDisk(g, old(disk)) && history == old(history) + RecoveredTrace(g, old(disk))
    {
      hide Tied, OnDisk, Bio.Cache.Linked, Spare, TwoSpare, NoMore, RecoverReady, RecoveredDisk, RecoveredTrace;
      ReadyInstallable(g, disk);
      OneSpare(cache.bufs);
      panic := ReadHead();
      if panic {
        return;
      }
      SpareKept(old(cache.bufs), cache.bufs);
      panic := InstallAndClear(true);
    }

    /** initlog(), when no buffer is in use: the log is recovered before anything else. */
    static method InitLog(g: Geometry, dev: nat, cache: Bio.Cache, ghost disk: Disk) returns (log: Log)
      requires cache.Valid() && cache.nbuf >= 2 && dev != 0 && OnDisk(cache.disk, dev, disk) && RecoverReady(g, disk)
      requires forall b :: 0 <= b < cache.nbuf ==> cache.bufs[b].refcnt == 0
      modifies cache
      ensures fresh(log) && log.g == g && log.dev == dev && log.cache == cache
      ensures log.Bound() && log.Listed() && log.n == 0 && log.outstanding == 0 && !log.committing && log.touched == {}
      ensures log.disk == RecoveredDisk(g, disk) && log.history == RecoveredTrace(g, disk)
    {
      hide Tied, OnDisk, RecoverReady, RecoveredDisk, RecoveredTrace, Bio.Cache.Linked, TwoSpare;
      log := new Log(g, dev, cache, disk);
      AllSpare(cache.bufs);
      var panic := log.RecoverFromLog();
    }

    /** One pass of begin_op()'s loop: either the operation is admitted, or it sleeps. */
    method BeginOp() returns (admitted: bool)
      modifies this`outstanding
      ensures admitted <==> !committing && n + (old(outstanding) + 1) * MAXOPBLOCKS <= LOGSIZE
      ensures outstanding == if admitted then old(outstanding) + 1 else old(outstanding)
    {
      if committing {
        return false;
      } else if n + (outstanding + 1) * MAXOPBLOCKS > LOGSIZE {
        return false;
      } else {
        outstanding := outstanding + 1;
        return true;
      }
    }

    /** end_op(): the last operation to end commits the transaction. By then every operation has
        passed what it changed to log_write(). */
    method EndOp() returns (panic: bool)
      requires Bound() && Listed() && outstanding > 0 && !committing && (outstanding == 1 ==> touched == {})
      requires CommitReady(g, disk, dirty, block[..n])
      modifies cache, this`held, this`touched, this`n, this`disk, this`history, this`dirty, this`outstanding,
        this`committing
      ensures panic ==> outstanding == 0 && !old(Spare(cache.bufs))
      ensures outstanding == old(outstanding) - 1
      ensures !panic ==> Bound() && Listed() && !committing && held == old(held) && touched == old(touched)
      ensures outstanding > 0 || (!panic && old(n) == 0) ==> disk == old(disk) && history == old(history)
      ensures outstanding > 0 ==> n == old(n) && dirty == old(dirty) && cache.bufs == old(cache.bufs)
      ensures !panic && outstanding == 0 ==> n == 0 && dirty == map[]
      ensures !panic && outstanding == 0 && old(n) > 0 ==>
        history == old(history) + CommitTrace(g, old(disk), old(dirty), old(block[..n]))
    {
      hide Tied, OnDisk, SetOf, CommitReady, CommitTrace, Spare, Bio.Cache.Linked;
      panic := false;
      var doCommit := false;
      outstanding := outstanding - 1;
      if outstanding == 0 {
        doCommit := true;
        committing := true;
      }
      if doCommit {
        AllListed(dirty, block[..n]);
        panic := Commit();
        committing := false;
      }
    }

    /** log_write() of buffer b, which has block x: it is pinned, once, with the bytes it has now. */
    method LogWrite(b: nat, x: nat) returns (panic: bool)
      requires Bound() && Listed() && g.nlog >= 1 && Has(b, x) && b < |held| && held[b] > 0
      modifies cache`bufs, this`n, this`dirty, this`touched, block
      ensures Bound() && Listed() && (panic <==> old(n) >= Limit(g) || outstanding < 1)
      ensures panic ==> n == old(n) && dirty == old(dirty) && touched == old(touched) && block[..] == old(block[..])
      ensures panic ==> cache.bufs == old(cache.bufs)
      ensures !panic ==> dirty == old(dirty)[x := cache.bufs[b].data] && touched == old(touched) - {b}
      ensures !panic ==> block[..n] == if x in old(block[..n]) then old(block[..n]) else old(block[..n]) + [x]
      ensures !panic ==> cache.bufs == old(cache.bufs)[b := old(cache.bufs)[b].(refcnt := cache.bufs[b].refcnt)]
      ensures !panic ==> cache.bufs[b].refcnt == old(cache.bufs)[b].refcnt + if x in old(dirty) then 0 else 1
    {
      hide Tied, OnDisk, Bio.Latest, Bio.Cache.Linked;
      if n >= LOGSIZE || n >= g.nlog - 1 {
        return true;
      }
      if outstanding < 1 {
        return true;
      }
      var i := 0;
      while i < n && block[i] != x
        invariant i <= n && x !in block[..i]
      {
        i := i + 1;
      }
      if i < n { assert block[..n][i] == x; } else { assert block[..i] == block[..n]; }
      ghost var lh := block[..n];
      block[i] := x;
      assert block[..n] == lh && (i == n ==> block[..n + 1] == lh + [x]);
      DistinctNext(lh, x);
      Pin(b, x, i == n);
      if i == n {
        n := n + 1;
      }
      panic := false;
    }

    /** The bpin() of log_write(), for a block that is not yet in the log. */
    method Pin(b: nat, x: nat, fresh_: bool)
      requires Bound() && Has(b, x) && b < |held| && held[b] > 0 && (fresh_ <==> x !in dirty)
      modifies cache`bufs, this`dirty, this`touched
      ensures Bound() && dirty == old(dirty)[x := cache.bufs[b].data] && touched == old(touched) - {b}
      ensures var old_ := old(cache.bufs);
        cache.bufs == old_[b := old_[b].(refcnt := old_[b].refcnt + if fresh_ then 1 else 0)]
    {
      hide Tied, OnDisk, Bio.Latest, Bio.Cache.Linked;
      TiedSettled(cache.bufs, cache.disk, U());
      TiedAt(cache.bufs, cache.disk, U(), b);
      ghost var bufs, u := cache.bufs, U();
      if fresh_ {
        cache.Bpin(b);
      }
      dirty, touched := dirty[x := cache.bufs[b].data], touched - {b};
      assert cache.bufs == bufs[b := cache.bufs[b]];
      TiedOne(bufs, cache.disk, u, U(), b, cache.bufs[b]);
    }

    /** bread() and brelse(): whatever is pinned, held or recycled, a block that nobody is changing
        reads as it was last logged, or else as it is on the disk. */
    method ReadBlock(x: nat) returns (panic: bool, data: Block)
      requires Bound() && x in disk && Quiet(cache.bufs, touched, (dev, x))
      modifies cache, this`held
      ensures panic <==> !old(cache.Available(dev, x))
      ensures Bound() && (!panic ==> held == old(held) && data == Value(x))
    {
      hide Tied, OnDisk, Bio.Latest, Bio.Cache.Linked;
      data := [];
      var b;
      panic, b := Bread(x);
      if panic {
        return;
      }
      data := cache.bufs[b].data;
      Brelse(b);
    }

    /** Every home block that nobody is changing reads as the file system of LogMachine sees it. */
    lemma ReadsAsView(s: State, x: nat)
      requires Bound() && s.disk == disk && s.dirty == dirty && DiskOk(g, disk) && Home(g, x)
      requires Quiet(cache.bufs, touched, (dev, x))
      ensures x in View(g, s) && Bio.Latest(cache.bufs, cache.disk, (dev, x)) == View(g, s)[x] == Value(x)
    {
      LatestIsView(g, s, cache.bufs, cache.disk, U(), x);
    }

    /** The typical use of log_write(): read a block, change it, log it, release it. */
    method Update(x: nat, data: Block) returns (panic: bool)
      requires Bound() && Listed() && g.nlog >= 1 && x in disk && Quiet(cache.bufs, touched, (dev, x))
      modifies cache, this`held, this`n, this`dirty, this`touched, block
      ensures panic <==> !old(cache.Available(dev, x)) || old(n) >= Limit(g) || outstanding < 1
      ensures !panic ==> Bound() && Listed() && held == old(held) && touched == old(touched)
      ensures !panic ==> dirty == old(dirty)[x := data] && Value(x) == data
      ensures !panic ==> block[..n] == if x in old(block[..n]) then old(block[..n]) else old(block[..n]) + [x]
    {
      hide Tied, OnDisk, Bio.Latest, Bio.Cache.Linked;
      var b;
      panic, b := Bread(x);
      if panic {
        return;
      }
      Change(b, data);
      panic := LogWrite(b, x);
      if panic {
        return;
      }
      Brelse(b);
    }
  }
}
