/**
 No deadlock: in every state of every run, whoever is in one of the operations of kernel/proc.c can
 take its next step, or waits for a lock whose holder can, after at most one more lock.
 */
module ProcProgress {
  import opened Options
  import opened ProcMachine
  import opened ProcRuns

  /** A step that the thread of a process takes: no timer interrupt, and nothing that comes to it. */
  predicate Own(e: Step) {
    !e.Doze? && (e.Sched? ==> e.d.SwitchOut? || e.d.Resume?)
  }

  /** The thread of process j can take its next step. */
  ghost predicate Goes(s: Machine, j: nat) {
    exists e: Step :: Enabled(s, j, e) && Own(e)
  }

  /** Who holds the lock of entry x can. */
  ghost predicate LockGoes(s: Machine, x: nat) {
    x < |s.procs| &&
    match s.procs[x].lock
    case Free => true
    case Thread(j) => Goes(s, j)
    case Hart(c) => Enabled(s, x, Sched(SchedDone(c)))
  }

  /** The next step of a thread at pc acquires the lock of entry x. */
  predicate Wants(pc: Pc, x: nat) {
    match pc
    case ForkReady(j) => x == j
    case WakeInit(_, m) => x == m
    case WakeParent(_, m) => x == m
    case WaitScan(k, _) => x == k
    case _ => false
  }

  /** The next step of thread i acquires a lock of an entry, which is held, and whose holder can go on. */
  ghost predicate Held(s: Machine, i: nat) {
    i < |s.procs| && exists x: nat :: x != i && Wants(s.procs[i].pc, x) && Taken(s, x) && LockGoes(s, x)
  }

  predicate Taken(s: Machine, x: nat) {
    x < |s.procs| && s.procs[x].lock != Free
  }

  lemma NotHeldBy(s: Machine, i: nat, j: nat)
    requires Inv(s) && i < |s.procs| && j < |s.procs| && s.procs[i].sw == On
    ensures s.procs[i].lock != Thread(j)
  {
    assert OneOk(s, i);
    if j != i { assert TwoOk(s, i, j) && TwoOk(s, j, i); }
  }

  lemma NotHeldOn(s: Machine, i: nat, c: nat)
    requires Inv(s) && i < |s.procs| && c < |s.cpus| && s.procs[i].sw == On
    ensures s.procs[i].lock != Hart(c)
  {
    assert CpuOk(s, c, i);
  }

  /** Nobody holds the lock of a process whose thread runs. */
  lemma OwnLock(s: Machine, i: nat)
    requires Inv(s) && i < |s.procs| && s.procs[i].sw == On
    ensures s.procs[i].lock == Free && s.procs[i].state == RUNNING
  {
    assert OneOk(s, i);
    match s.procs[i].lock
    case Free =>
    case Thread(j) => NotHeldBy(s, i, j);
    case Hart(c) => NotHeldOn(s, i, c);
  }

  lemma OnTheWay(s: Machine, x: nat)
    requires Inv(s) && x < |s.procs| && s.procs[x].sw in {Leaving, Entering}
    ensures Goes(s, x)
  {
    assert OneOk(s, x);
    var p := s.procs[x];
    if p.sw == Entering {
      assert Enabled(s, x, Sched(Resume));
    } else if p.pc == ExitZombie {
      assert Enabled(s, x, Exit(ExitUnlock));
    } else if p.pc == WaitSleep {
      assert Enabled(s, x, Wait(WaitUnlock));
    } else if p.pc == WaitUnlocked {
      assert Enabled(s, x, Wait(WaitAsleep));
    } else {
      assert Enabled(s, x, Sched(SwitchOut));
    }
  }

  /** Whoever holds the lock of an entry can go on. */
  lemma HolderGoes(s: Machine, x: nat)
    requires Inv(s) && x < |s.procs|
    ensures LockGoes(s, x)
  {
    assert OneOk(s, x);
    match s.procs[x].lock
    case Free =>
    case Thread(j) =>
      if j == x {
        OnTheWay(s, x);
      } else {
        assert TwoOk(s, x, j);
        if s.procs[j].pc.ForkHold? {
          assert Enabled(s, j, Fork(ForkUnlock));
        } else {
          assert Enabled(s, j, Wait(WaitReap));
        }
      }
    case Hart(c) => assert CpuOk(s, c, x);
  }

  lemma Blocked(s: Machine, i: nat, x: nat)
    requires Inv(s) && i < |s.procs| && x < |s.procs| && x != i && Wants(s.procs[i].pc, x) && s.procs[x].lock != Free
    ensures Held(s, i)
  {
    hide Inv, LockGoes;
    HolderGoes(s, x);
    assert Taken(s, x);
  }

  lemma ExitGoes(s: Machine, i: nat)
    requires Inv(s) && i < |s.procs| && s.procs[i].sw == On
    requires s.procs[i].pc.Reparent? || s.procs[i].pc.WakeInit? || s.procs[i].pc.WakeParent?
    ensures Goes(s, i) || Held(s, i)
  {
    OwnLock(s, i);
    assert OneOk(s, i);
    hide Inv, Held;
    var pc, n := s.procs[i].pc, |s.procs|;
    if pc.Reparent? {
      assert Enabled(s, i, Exit(ReparentNext));
    } else {
      var e := if pc.WakeInit? then WakeInitNext else WakeParentNext;
      if pc.m < n && pc.m != i && s.procs[pc.m].lock != Free {
        Blocked(s, i, pc.m);
      } else {
        assert Enabled(s, i, Exit(e));
      }
    }
  }

  lemma WaitGoes(s: Machine, i: nat)
    requires Inv(s) && i < |s.procs| && s.procs[i].sw == On
    requires s.procs[i].pc.WaitScan? || s.procs[i].pc.WaitFound? || s.procs[i].pc == WaitChecked
    ensures Goes(s, i) || Held(s, i)
  {
    OwnLock(s, i);
    assert OneOk(s, i);
    hide Inv, Held;
    var p, n := s.procs[i], |s.procs|;
    if p.pc.WaitFound? {
      assert Enabled(s, i, Wait(WaitReap));
    } else if p.pc == WaitChecked {
      assert Enabled(s, i, Wait(WaitDoze));
    } else if p.pc.k >= n {
      assert Enabled(s, i, Wait(if !p.pc.havekids || p.killed then WaitGiveUp else WaitCheck));
    } else if p.pc.k != i && s.procs[p.pc.k].lock != Free {
      Blocked(s, i, p.pc.k);
    } else {
      assert Enabled(s, i, Wait(WaitNext));
    }
  }

  /** The holder of wait_lock can go on, or waits for the lock of one entry, whose holder can. */
  lemma WaitHolderGoes(s: Machine)
    requires Inv(s) && s.wait.Some?
    ensures Goes(s, s.wait.value) || Held(s, s.wait.value)
  {
    var w := s.wait.value;
    assert OneOk(s, w);
    hide Inv, Goes, Held;
    if s.procs[w].sw in {Leaving, Entering} {
      OnTheWay(s, w);
    } else if s.procs[w].pc.Reparent? || s.procs[w].pc.WakeInit? || s.procs[w].pc.WakeParent? {
      ExitGoes(s, w);
    } else {
      WaitGoes(s, w);
    }
  }

  lemma ForkGoes(s: Machine, i: nat)
    requires Inv(s) && i < |s.procs| && s.procs[i].sw == On
    requires s.procs[i].pc.ForkHold? || s.procs[i].pc.ForkReady?
    ensures Goes(s, i) || Held(s, i)
  {
    assert OneOk(s, i);
    hide Inv, Held;
    var pc := s.procs[i].pc;
    if pc.ForkHold? {
      assert Enabled(s, i, Fork(ForkUnlock));
    } else if s.procs[pc.np].lock != Free {
      Blocked(s, i, pc.np);
    } else {
      assert Enabled(s, i, Fork(ForkStart));
    }
  }

  /** No deadlock: a thread that a hart runs in one of the operations can go on; or it waits for the lock of
      an entry, whose holder can; or it waits for wait_lock, whose holder can, or waits for the lock of an
      entry, whose holder can. */
  lemma NoDeadlock(ss: seq<Machine>, es: seq<(nat, Step)>, k: nat, i: nat)
    requires IsRun(ss, es) && k <= |es| && i < |ss[k].procs| && ss[k].procs[i].sw != Off && ss[k].procs[i].pc != User
    ensures
      || Goes(ss[k], i)
      || Held(ss[k], i)
      || (ss[k].wait.Some? && ss[k].wait.value != i && (Goes(ss[k], ss[k].wait.value) || Held(ss[k], ss[k].wait.value)))
  {
    hide Goes, Held;
    RunKeeps(ss, es, k);
    var s, p := ss[k], ss[k].procs[i];
    assert OneOk(s, i);
    hide Inv;
    if s.wait.Some? { WaitHolderGoes(s); }
    if p.sw in {Leaving, Entering} {
      OnTheWay(s, i);
    } else if p.pc.ForkHold? || p.pc.ForkReady? {
      ForkGoes(s, i);
    } else if s.wait == None {
      WithoutWait(s, i);
    }
  }

  lemma WithoutWait(s: Machine, i: nat)
    requires i < |s.procs| && s.wait == None && OneOk(s, i) && s.procs[i].sw == On
    requires s.procs[i].pc != User && !s.procs[i].pc.ForkHold? && !s.procs[i].pc.ForkReady?
    ensures Goes(s, i)
  {
    if s.procs[i].pc.ForkParent? {
      assert Enabled(s, i, Fork(ForkAdopt));
    } else {
      assert Enabled(s, i, Wait(WaitLock));
    }
  }

  /** A running thread can call exit(), wait(), fork(), sleep() and yield() when the locks they begin with are
      free, and kill() and wakeup() come to every process whose lock is free. */
  lemma CanCall(ss: seq<Machine>, es: seq<(nat, Step)>, k: nat, i: nat, x: nat, n: int)
    requires IsRun(ss, es) && k <= |es| && i < |ss[k].procs| && x < |ss[k].procs|
    requires ss[k].procs[i].sw == On && ss[k].procs[i].pc == User
    ensures ss[k].wait == None ==> Enabled(ss[k], i, Wait(WaitLock))
    ensures ss[k].wait == None && i != ss[k].init ==> Enabled(ss[k], i, Exit(ExitLock))
    ensures ss[k].procs[x].state == UNUSED && ss[k].procs[x].lock == Free ==> Enabled(ss[k], i, Fork(ForkTake(x)))
    ensures Enabled(ss[k], i, Doze(Sleep(n))) && Enabled(ss[k], i, Doze(Yield))
    ensures ss[k].procs[x].lock == Free ==> Enabled(ss[k], x, Doze(Kill)) && Enabled(ss[k], x, Doze(Wakeup(n)))
  {
    RunKeeps(ss, es, k);
    OwnLock(ss[k], i);
    hide Inv;
  }

  /** A hart runs a thread, or its scheduler can go on, or it is free to run any process that is RUNNABLE and
      not locked; that process then runs there. */
  lemma HartGoes(ss: seq<Machine>, es: seq<(nat, Step)>, k: nat, c: nat, x: nat)
    requires IsRun(ss, es) && k <= |es| && c < |ss[k].cpus| && x < |ss[k].procs|
    ensures ss[k].cpus[c] == Running(x) ==> ss[k].procs[x].sw != Off && ss[k].procs[x].hart == c
    ensures ss[k].cpus[c] == Back(x) ==> Enabled(ss[k], x, Sched(SchedDone(c)))
    ensures ss[k].cpus[c] == Idle && ss[k].procs[x].state == RUNNABLE && ss[k].procs[x].lock == Free ==>
      && Enabled(ss[k], x, Sched(Dispatch(c)))
      && var t := Apply(ss[k], x, Sched(Dispatch(c)));
        t.procs[x].state == RUNNING && t.procs[x].hart == c && t.cpus[c] == Running(x) && Goes(t, x)
  {
    RunKeeps(ss, es, k);
    assert CpuOk(ss[k], c, x) && OneOk(ss[k], x);
    hide Inv;
    if ss[k].cpus[c] == Idle && ss[k].procs[x].state == RUNNABLE && ss[k].procs[x].lock == Free {
      var t := Apply(ss[k], x, Sched(Dispatch(c)));
      assert Enabled(t, x, Sched(Resume));
    }
  }
}
