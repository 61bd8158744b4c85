/**
 What becomes of one process over every run of the machine from boot: an exit is reaped once and
 frees the entry, a sleeper sleeps until it is woken, a kill stays, a fork makes a child, and
 wait() fails only for want of children.
 */
module ProcLives {
  import opened Options
  import opened ProcMachine
  import opened ProcSteps
  import opened ProcRuns

  /** What a step of thread i does to an entry x, which was p and becomes q. */
  predicate Moves(i: nat, e: Step, x: nat, p: Proc, q: Proc) {
    && (p.state == UNUSED && q.state != UNUSED ==> e == Fork(ForkTake(x)))
    && (p.state != ZOMBIE && q.state == ZOMBIE ==> e == Exit(WakeParentNext) && i == x)
    && (p.state == ZOMBIE && q.state != ZOMBIE ==> e == Wait(WaitReap) && q.state == UNUSED)
    && (p.killed && !q.killed ==> q.state == UNUSED)
  }

  /** Whether an entry that sleeps on another channel goes on sleeping there. */
  predicate Dreams(i: nat, e: Step, x: nat, p: Proc, q: Proc) {
    p.state == SLEEPING && p.chan.OtherChan? ==>
      if i == x && (e == Doze(Wakeup(p.chan.n)) || e == Doze(Kill)) then q.state == RUNNABLE
      else q.state == SLEEPING && q.chan == p.chan
  }

  predicate Lives(i: nat, e: Step, x: nat, p: Proc, q: Proc) {
    Moves(i, e, x, p, q) && Dreams(i, e, x, p, q)
  }

  lemma ForkLives(e: ForkStep, i: nat, p: Proc, o: nat, q: Proc, wait: Option<nat>, init: nat, n: nat, alert: bool)
    requires Single(i, p, wait, init, n) && Single(o, q, wait, init, n) && Couple(i, p, o, q, init, alert)
    requires ForkGuard(e, p, q, wait) && o == ForkOther(e, i, p)
    ensures Lives(i, Fork(e), i, p, ForkSelf(e, p, o)) && Lives(i, Fork(e), o, q, ForkChild(e, i, q))
  {
  }

  lemma ExitLives(e: ExitStep, i: nat, p: Proc, o: nat, q: Proc, wait: Option<nat>, init: nat, n: nat)
    requires Single(i, p, wait, init, n) && (o == i ==> q == p)
    requires ExitGuard(e, i, p, o, q, wait, init, n) && o == ExitOther(e, i, p, n)
    ensures Lives(i, Exit(e), i, p, ExitSelf(e, i, p, q, n))
    ensures o != i ==> Lives(i, Exit(e), o, q, ExitPeer(e, i, p, q, init))
  {
  }

  lemma WaitLives(e: WaitStep, i: nat, p: Proc, o: nat, q: Proc, wait: Option<nat>, init: nat, n: nat)
    requires Single(i, p, wait, init, n) && (o == i ==> q == p)
    requires o != i && p.pc == WaitFound(o) ==> q.state == ZOMBIE
    requires WaitGuard(e, i, p, q, wait, n) && o == WaitOther(e, i, p, n)
    ensures Lives(i, Wait(e), i, p, WaitSelf(e, i, p, q)) && (o != i ==> Lives(i, Wait(e), o, q, WaitPeer(e, i, q)))
  {
  }

  lemma SleepLives(e: SleepStep, i: nat, p: Proc, wait: Option<nat>, init: nat, n: nat)
    requires Single(i, p, wait, init, n) && SleepGuard(e, p)
    ensures Lives(i, Doze(e), i, p, SleepSelf(e, i, p))
  {
  }

  lemma SchedLives(e: SchedStep, i: nat, p: Proc, cpu: Cpu, wait: Option<nat>, init: nat, n: nat)
    requires Single(i, p, wait, init, n) && SchedGuard(e, i, p, cpu)
    ensures Lives(i, Sched(e), i, p, SchedSelf(e, i, p))
  {
  }

  lemma SameLives(i: nat, e: Step, x: nat, p: Proc)
    requires i != x
    ensures Lives(i, e, x, p, p)
  {
  }

  /** The entries after a step. */
  lemma Entries(s: Machine, i: nat, e: Step, x: nat)
    requires Enabled(s, i, e) && x < |s.procs|
    ensures i < |s.procs| && Other(s, i, e) < |s.procs| && |Apply(s, i, e).procs| == |s.procs|
    ensures x != i && x != Other(s, i, e) ==> Apply(s, i, e).procs[x] == s.procs[x]
    ensures Apply(s, i, e).init == s.init
  {
  }

  lemma ForkEntries(s: Machine, i: nat, f: ForkStep)
    requires Enabled(s, i, Fork(f)) && Inv(s)
    ensures var o, t := Other(s, i, Fork(f)), Apply(s, i, Fork(f));
      && o != i && t.procs[i] == ForkSelf(f, s.procs[i], o) && t.procs[o] == ForkChild(f, i, s.procs[o])
      && ForkGuard(f, s.procs[i], s.procs[o], s.wait) && o == ForkOther(f, i, s.procs[i])
  {
    hide Inv, Single;
    At(s, i);
    At(s, Other(s, i, Fork(f)));
    ForkApart(f, i, s.procs[i], Other(s, i, Fork(f)), s.procs[Other(s, i, Fork(f))], s.wait, s.init, |s.procs|);
  }

  lemma ExitEntries(s: Machine, i: nat, x: ExitStep)
    requires Enabled(s, i, Exit(x))
    ensures var o, t := Other(s, i, Exit(x)), Apply(s, i, Exit(x));
      && t.procs[i] == ExitSelf(x, i, s.procs[i], s.procs[o], |s.procs|)
      && (o != i ==> t.procs[o] == ExitPeer(x, i, s.procs[i], s.procs[o], s.init))
      && ExitGuard(x, i, s.procs[i], o, s.procs[o], s.wait, s.init, |s.procs|)
      && o == ExitOther(x, i, s.procs[i], |s.procs|)
  {
    hide ExitSelf, ExitPeer, ExitGuard, ExitOther;
  }

  lemma WaitEntries(s: Machine, i: nat, w: WaitStep)
    requires Enabled(s, i, Wait(w))
    ensures var o, t := Other(s, i, Wait(w)), Apply(s, i, Wait(w));
      && t.procs[i] == WaitSelf(w, i, s.procs[i], s.procs[o]) && (o != i ==> t.procs[o] == WaitPeer(w, i, s.procs[o]))
      && WaitGuard(w, i, s.procs[i], s.procs[o], s.wait, |s.procs|) && o == WaitOther(w, i, s.procs[i], |s.procs|)
  {
    hide WaitSelf, WaitPeer, WaitGuard, WaitOther;
  }

  /** Every step of a reachable state does to every entry what Lives says. */
  lemma StepLives(s: Machine, i: nat, e: Step, x: nat)
    requires Inv(s) && Enabled(s, i, e) && x < |s.procs|
    ensures Lives(i, e, x, s.procs[x], Apply(s, i, e).procs[x])
  {
    hide Inv, Lives, Apply, Enabled, Single, Couple, Other;
    Entries(s, i, e, x);
    At(s, i);
    var o, n := Other(s, i, e), |s.procs|;
    At(s, o);
    if o != i { Both(s, i, o); }
    if x != i { SameLives(i, e, x, s.procs[x]); }
    match e
    case Fork(f) =>
      ForkEntries(s, i, f);
      ForkLives(f, i, s.procs[i], o, s.procs[o], s.wait, s.init, n, Alert(s));
    case Exit(f) =>
      ExitEntries(s, i, f);
      ExitLives(f, i, s.procs[i], o, s.procs[o], s.wait, s.init, n);
    case Wait(w) =>
      WaitEntries(s, i, w);
      FoundZombie(i, s.procs[i], o, s.procs[o], s.init, Alert(s));
      WaitLives(w, i, s.procs[i], o, s.procs[o], s.wait, s.init, n);
    case Doze(z) => DozeLives(s, i, z);
    case Sched(d) => SchedsLive(s, i, d);
  }

  lemma FoundZombie(i: nat, p: Proc, o: nat, q: Proc, init: nat, alert: bool)
    requires o != i ==> Couple(i, p, o, q, init, alert)
    ensures o != i && p.pc == WaitFound(o) ==> q.state == ZOMBIE && q.parent == Some(i)
  {
  }

  lemma DozeLives(s: Machine, i: nat, z: SleepStep)
    requires Inv(s) && Enabled(s, i, Doze(z))
    ensures Other(s, i, Doze(z)) == i && Lives(i, Doze(z), i, s.procs[i], Apply(s, i, Doze(z)).procs[i])
  {
    hide Inv, Lives, SleepSelf, SleepGuard;
    At(s, i);
    SleepLives(z, i, s.procs[i], s.wait, s.init, |s.procs|);
  }

  lemma SchedsLive(s: Machine, i: nat, d: SchedStep)
    requires Inv(s) && Enabled(s, i, Sched(d))
    ensures Other(s, i, Sched(d)) == i && Lives(i, Sched(d), i, s.procs[i], Apply(s, i, Sched(d)).procs[i])
  {
    hide Inv, Lives, SchedSelf, SchedGuard;
    At(s, i);
    SchedLives(d, i, s.procs[i], s.cpus[SchedHart(d, s.procs[i])], s.wait, s.init, |s.procs|);
  }

  // ---- over runs

  lemma {:induction false} SameTable(ss: seq<Machine>, es: seq<(nat, Step)>, k: nat)
    requires IsRun(ss, es) && k <= |es|
    ensures |ss[k].procs| == |ss[0].procs| && ss[k].init == ss[0].init
  {
    if k > 0 {
      SameTable(ss, es, k - 1);
      assert Next(ss[k - 1], es[k - 1], ss[k]);
      if |ss[k - 1].procs| > 0 { Entries(ss[k - 1], es[k - 1].0, es[k - 1].1, 0); }
    }
  }

  lemma RunLives(ss: seq<Machine>, es: seq<(nat, Step)>, k: nat, x: nat)
    requires IsRun(ss, es) && k < |es| && x < |ss[0].procs|
    ensures |ss| == |es| + 1 && |ss[k].procs| == |ss[k + 1].procs| == |ss[0].procs|
    ensures Lives(es[k].0, es[k].1, x, ss[k].procs[x], ss[k + 1].procs[x])
  {
    hide Inv, Lives, Apply, Enabled;
    SameTable(ss, es, k);
    SameTable(ss, es, k + 1);
    RunKeeps(ss, es, k);
    assert Next(ss[k], es[k], ss[k + 1]);
    StepLives(ss[k], es[k].0, es[k].1, x);
  }

  /** Step k is the freeproc() of entry x in a wait(). */
  ghost predicate Reaps(ss: seq<Machine>, es: seq<(nat, Step)>, k: nat, x: nat) {
    && k < |es| && k < |ss| && es[k].1 == Wait(WaitReap) && es[k].0 < |ss[k].procs|
    && ss[k].procs[es[k].0].pc == WaitFound(x)
  }

  /** Step k is the end of an exit() of process x. */
  ghost predicate Exits(ss: seq<Machine>, es: seq<(nat, Step)>, k: nat, x: nat) {
    && k < |es| && k + 1 < |ss| && x < |ss[k].procs| && x < |ss[k + 1].procs| && es[k] == (x, Exit(WakeParentNext))
    && ss[k].procs[x].state != ZOMBIE && ss[k + 1].procs[x].state == ZOMBIE
  }

  /** A reaped entry was a zombie child of the one that reaps it, and can be taken by fork() again. */
  lemma ReapFrees(ss: seq<Machine>, es: seq<(nat, Step)>, k: nat, x: nat)
    requires IsRun(ss, es) && Reaps(ss, es, k, x)
    ensures x < |ss[0].procs| == |ss[k].procs| == |ss[k + 1].procs|
    ensures ss[k].procs[x].state == ZOMBIE && ss[k].procs[x].parent == Some(es[k].0)
    ensures ss[k + 1].procs[x].state == UNUSED && ss[k + 1].procs[x].parent == None && ss[k + 1].wait == None
    ensures ss[k + 1].procs[x].lock == Free && ss[k + 1].procs[x].chan == NoChan && !ss[k + 1].procs[x].killed
  {
    hide Inv;
    var i := es[k].0;
    SameTable(ss, es, k);
    SameTable(ss, es, k + 1);
    RunKeeps(ss, es, k);
    assert Next(ss[k], es[k], ss[k + 1]);
    At(ss[k], i);
    WaitEntries(ss[k], i, WaitReap);
    Both(ss[k], i, x);
    FoundZombie(i, ss[k].procs[i], x, ss[k].procs[x], ss[k].init, Alert(ss[k]));
  }

  /** So any thread that then calls fork() may take it. */
  lemma ReapedTaken(ss: seq<Machine>, es: seq<(nat, Step)>, k: nat, x: nat, i: nat)
    requires IsRun(ss, es) && Reaps(ss, es, k, x)
    requires i < |ss[k + 1].procs| && ss[k + 1].procs[i].sw == On && ss[k + 1].procs[i].pc == User
    ensures Enabled(ss[k + 1], i, Fork(ForkTake(x)))
  {
    hide IsRun;
    ReapFrees(ss, es, k, x);
  }

  /** An entry that was UNUSED and is a zombie has been taken by fork() and has exited since. */
  lemma {:induction false} LivedBetween(ss: seq<Machine>, es: seq<(nat, Step)>, j: nat, k: nat, x: nat)
    returns (born: nat, died: nat)
    requires IsRun(ss, es) && j <= k <= |es| && x < |ss[0].procs| == |ss[j].procs| == |ss[k].procs|
    requires ss[j].procs[x].state == UNUSED && ss[k].procs[x].state == ZOMBIE
    ensures j <= born < died < k && es[born].1 == Fork(ForkTake(x)) && Exits(ss, es, died, x)
    decreases k
  {
    hide IsRun;
    RunLives(ss, es, k - 1, x);
    if ss[k - 1].procs[x].state == ZOMBIE {
      born, died := LivedBetween(ss, es, j, k - 1, x);
    } else {
      died := k - 1;
      SameTable(ss, es, k - 1);
      born := TakenBetween(ss, es, j, k - 1, x);
    }
  }

  lemma {:induction false} TakenBetween(ss: seq<Machine>, es: seq<(nat, Step)>, j: nat, k: nat, x: nat)
    returns (born: nat)
    requires IsRun(ss, es) && j <= k <= |es| && x < |ss[0].procs| == |ss[j].procs| == |ss[k].procs|
    requires ss[j].procs[x].state == UNUSED && ss[k].procs[x].state != UNUSED
    ensures j <= born < k && es[born].1 == Fork(ForkTake(x))
    decreases k
  {
    hide IsRun;
    RunLives(ss, es, k - 1, x);
    if ss[k - 1].procs[x].state != UNUSED {
      born := TakenBetween(ss, es, j, k - 1, x);
    } else {
      born := k - 1;
    }
  }

  /** Each exit is reaped at most once: between two reaps of an entry it is taken by a fork() and exits. */
  lemma ReapedOnce(ss: seq<Machine>, es: seq<(nat, Step)>, j: nat, k: nat, x: nat) returns (born: nat, died: nat)
    requires IsRun(ss, es) && j < k && Reaps(ss, es, j, x) && Reaps(ss, es, k, x)
    ensures j < born < died < k && es[born].1 == Fork(ForkTake(x)) && Exits(ss, es, died, x)
  {
    hide IsRun, Inv, Enabled;
    ReapFrees(ss, es, j, x);
    ReapFrees(ss, es, k, x);
    born, died := LivedBetween(ss, es, j + 1, k, x);
  }

  /** A process that has gone to sleep on channel n sleeps there until wakeup(n) or kill() comes to it,
      and no longer. */
  lemma {:induction false} SleepsTill(ss: seq<Machine>, es: seq<(nat, Step)>, j: nat, k: nat, x: nat, n: int)
    requires IsRun(ss, es) && j < k <= |es| && x < |ss[0].procs| && es[j] == (x, Doze(Sleep(n)))
    requires forall m :: j < m < k ==> es[m] != (x, Doze(Wakeup(n))) && es[m] != (x, Doze(Kill))
    ensures |ss[k].procs| == |ss[0].procs| && ss[k].procs[x].state == SLEEPING && ss[k].procs[x].chan == OtherChan(n)
    ensures k < |es| && es[k] in {(x, Doze(Wakeup(n))), (x, Doze(Kill))} ==>
      |ss[k + 1].procs| == |ss[0].procs| && ss[k + 1].procs[x].state == RUNNABLE
    decreases k
  {
    if k == j + 1 {
      SameTable(ss, es, j);
      SameTable(ss, es, k);
      assert Next(ss[j], es[j], ss[k]);
    } else {
      SleepsTill(ss, es, j, k - 1, x, n);
      RunLives(ss, es, k - 1, x);
    }
    if k < |es| { RunLives(ss, es, k, x); }
  }

  /** A process that has been killed is not asleep right after, and stays killed as long as its entry is in use. */
  lemma {:induction false} KilledStays(ss: seq<Machine>, es: seq<(nat, Step)>, j: nat, k: nat, x: nat)
    requires IsRun(ss, es) && j < k <= |es| && x < |ss[0].procs| && es[j] == (x, Doze(Kill))
    requires forall m :: j < m <= k ==> |ss[m].procs| == |ss[0].procs| && ss[m].procs[x].state != UNUSED
    ensures ss[k].procs[x].killed && ss[j + 1].procs[x].state != SLEEPING
    decreases k
  {
    SameTable(ss, es, j);
    if k == j + 1 {
      assert Next(ss[j], es[j], ss[k]);
    } else {
      KilledStays(ss, es, j, k - 1, x);
      RunLives(ss, es, k - 1, x);
    }
  }

  /** A fork() that fails gives back the entry it had taken. */
  lemma ForkFails(ss: seq<Machine>, es: seq<(nat, Step)>, k: nat, i: nat) returns (x: nat)
    requires IsRun(ss, es) && k < |es| && es[k] == (i, Fork(ForkFail))
    ensures i < |ss[k].procs| == |ss[k + 1].procs| && x < |ss[k].procs| && x != i && ss[k].procs[i].pc == ForkHold(x)
    ensures ss[k].procs[x].state == USED && ss[k + 1].procs[x].state == UNUSED && ss[k + 1].procs[x].lock == Free
    ensures ss[k + 1].procs[i].pc == User
  {
    hide Inv;
    RunKeeps(ss, es, k);
    assert Next(ss[k], es[k], ss[k + 1]);
    x := Other(ss[k], i, Fork(ForkFail));
    ForkEntries(ss[k], i, ForkFail);
    Both(ss[k], i, x);
  }

  /** A fork() that completes has made a runnable child of the caller out of an entry it had taken. */
  lemma ForkStarts(ss: seq<Machine>, es: seq<(nat, Step)>, k: nat, i: nat) returns (x: nat)
    requires IsRun(ss, es) && k < |es| && es[k] == (i, Fork(ForkStart))
    ensures i < |ss[k].procs| == |ss[k + 1].procs| && x < |ss[k].procs| && x != i && ss[k].procs[i].pc == ForkReady(x)
    ensures ss[k].procs[x].state == USED && ss[k + 1].procs[x].state == RUNNABLE && ss[k + 1].procs[x].parent == Some(i)
    ensures ss[k + 1].procs[i].pc == User
  {
    hide Inv;
    RunKeeps(ss, es, k);
    assert Next(ss[k], es[k], ss[k + 1]);
    x := Other(ss[k], i, Fork(ForkStart));
    ForkEntries(ss[k], i, ForkStart);
    Both(ss[k], i, x);
  }

  // ---- wait() fails only for want of children

  /** A scan of process y that has found no child so far has passed entry x only if x is none. */
  predicate Passed(x: nat, p: Proc, y: nat, q: Proc) {
    q.pc.WaitScan? && !q.pc.havekids && x < q.pc.k ==> p.parent != Some(y)
  }

  ghost predicate Scanned(s: Machine) {
    forall x, y {:trigger Passed(x, s.procs[x], y, s.procs[y])} ::
      0 <= x < |s.procs| && 0 <= y < |s.procs| ==> Passed(x, s.procs[x], y, s.procs[y])
  }

  /** How the parent of an entry may change in a step of thread i, and that no scan but its own does. */
  predicate Kin(i: nat, e: Step, x: nat, p: Proc, q: Proc, wait: Option<nat>) {
    && (q.parent != p.parent ==> q.parent == None || wait == None || (wait == Some(i) && e == Exit(ReparentNext)))
    && (x != i && q.pc.WaitScan? ==> q.pc == p.pc)
  }

  /** How a scan of thread i, which was at p and looked at entry o, goes on. */
  predicate Scans(i: nat, e: Step, p: Proc, o: nat, q: Proc, p': Proc) {
    p'.pc.WaitScan? && !p'.pc.havekids ==>
      || (p'.pc == p.pc && !e.Exit? && !e.Fork?)
      || (e.Wait? && p'.pc.k == 0)
      || (e.Wait? && p.pc == WaitScan(o, false) && p'.pc.k == o + 1 && q.parent != Some(i))
  }

  lemma ForkKin(e: ForkStep, i: nat, p: Proc, o: nat, q: Proc, wait: Option<nat>)
    requires ForkGuard(e, p, q, wait) && o == ForkOther(e, i, p) && o != i
    ensures Kin(i, Fork(e), i, p, ForkSelf(e, p, o), wait) && Kin(i, Fork(e), o, q, ForkChild(e, i, q), wait)
    ensures Scans(i, Fork(e), p, o, q, ForkSelf(e, p, o))
  {
  }

  lemma ExitKin(e: ExitStep, i: nat, p: Proc, o: nat, q: Proc, wait: Option<nat>, init: nat, n: nat)
    requires Single(i, p, wait, init, n) && (o == i ==> q == p)
    requires ExitGuard(e, i, p, o, q, wait, init, n) && o == ExitOther(e, i, p, n)
    ensures Kin(i, Exit(e), i, p, ExitSelf(e, i, p, q, n), wait)
    ensures o != i ==> Kin(i, Exit(e), o, q, ExitPeer(e, i, p, q, init), wait)
    ensures Scans(i, Exit(e), p, o, q, ExitSelf(e, i, p, q, n))
  {
  }

  lemma WaitKin(e: WaitStep, i: nat, p: Proc, o: nat, q: Proc, wait: Option<nat>, init: nat, n: nat)
    requires Single(i, p, wait, init, n) && (o == i ==> q == p)
    requires WaitGuard(e, i, p, q, wait, n) && o == WaitOther(e, i, p, n)
    ensures Kin(i, Wait(e), i, p, WaitSelf(e, i, p, q), wait)
    ensures o != i ==> Kin(i, Wait(e), o, q, WaitPeer(e, i, q), wait)
    ensures Scans(i, Wait(e), p, o, q, WaitSelf(e, i, p, q))
  {
  }

  lemma OwnKin(s: Machine, i: nat, e: Step)
    requires Enabled(s, i, e) && (e.Doze? || e.Sched?)
    ensures Other(s, i, e) == i && var p := Apply(s, i, e).procs[i];
      Kin(i, e, i, s.procs[i], p, s.wait) && Scans(i, e, s.procs[i], i, s.procs[i], p)
  {
  }

  lemma StepKin(s: Machine, i: nat, e: Step, x: nat)
    requires Inv(s) && Enabled(s, i, e) && x < |s.procs|
    ensures i < |s.procs| && Other(s, i, e) < |s.procs| && |Apply(s, i, e).procs| == |s.procs|
    ensures Kin(i, e, x, s.procs[x], Apply(s, i, e).procs[x], s.wait)
    ensures Scans(i, e, s.procs[i], Other(s, i, e), s.procs[Other(s, i, e)], Apply(s, i, e).procs[i])
  {
    hide Inv, Kin, Scans, Apply, Enabled, Single, Other;
    Entries(s, i, e, x);
    At(s, i);
    var o, n := Other(s, i, e), |s.procs|;
    if x != i && x != o { SameKin(i, e, x, s.procs[x], s.wait); }
    match e
    case Fork(f) =>
      ForkEntries(s, i, f);
      ForkKin(f, i, s.procs[i], o, s.procs[o], s.wait);
    case Exit(f) =>
      ExitEntries(s, i, f);
      ExitKin(f, i, s.procs[i], o, s.procs[o], s.wait, s.init, n);
    case Wait(w) =>
      WaitEntries(s, i, w);
      WaitKin(w, i, s.procs[i], o, s.procs[o], s.wait, s.init, n);
    case _ => OwnKin(s, i, e);
  }

  lemma SameKin(i: nat, e: Step, x: nat, p: Proc, wait: Option<nat>)
    requires i != x
    ensures Kin(i, e, x, p, p, wait)
  {
  }

  lemma PassedStep(s: Machine, i: nat, e: Step, x: nat, y: nat)
    requires Inv(s) && Scanned(s) && Enabled(s, i, e) && x < |s.procs| && y < |s.procs|
    ensures |Apply(s, i, e).procs| == |s.procs| && var t := Apply(s, i, e); Passed(x, t.procs[x], y, t.procs[y])
  {
    hide Inv, Apply, Enabled, Other;
    StepKin(s, i, e, x);
    StepKin(s, i, e, y);
    At(s, y);
    At(s, i);
    assert Passed(x, s.procs[x], y, s.procs[y]);
  }

  lemma {:induction false} RunScanned(ss: seq<Machine>, es: seq<(nat, Step)>, k: nat)
    requires IsRun(ss, es) && k <= |es|
    ensures Scanned(ss[k])
  {
    hide Inv, Apply, Enabled, Passed;
    if k == 0 {
      BootScanned(ss[0]);
    } else {
      RunScanned(ss, es, k - 1);
      RunKeeps(ss, es, k - 1);
      SameTable(ss, es, k - 1);
      SameTable(ss, es, k);
      assert Next(ss[k - 1], es[k - 1], ss[k]);
      forall x, y | 0 <= x < |ss[k].procs| && 0 <= y < |ss[k].procs|
        ensures Passed(x, ss[k].procs[x], y, ss[k].procs[y])
      {
        PassedStep(ss[k - 1], es[k - 1].0, es[k - 1].1, x, y);
      }
    }
  }

  lemma BootScanned(s: Machine)
    requires Boot(s)
    ensures Scanned(s)
  {
  }

  /** wait() returns -1 without a child's status only to a process that has been killed or has no children. */
  lemma WaitFails(ss: seq<Machine>, es: seq<(nat, Step)>, k: nat, i: nat, x: nat)
    requires IsRun(ss, es) && k < |es| && es[k] == (i, Wait(WaitGiveUp)) && x < |ss[k].procs|
    ensures i < |ss[k].procs| && (ss[k].procs[i].killed || ss[k].procs[x].parent != Some(i))
  {
    hide Inv;
    RunScanned(ss, es, k);
    assert Next(ss[k], es[k], ss[k + 1]);
    assert Passed(x, ss[k].procs[x], i, ss[k].procs[i]);
  }
}
