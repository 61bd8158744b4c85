/**
 What holds in every run of the process machine from boot.
 */
module ProcRuns {
  import opened Options
  import opened ProcMachine
  import opened ProcSteps

  /** After userinit(): init is runnable, every other entry is UNUSED, all locks are free and
      every hart is in its scheduler. */
  ghost predicate Boot(s: Machine) {
    && s.init < |s.procs| && s.wait == None
    && (forall x :: 0 <= x < |s.procs| ==> BootProc(s.procs[x], x == s.init))
    && (forall c :: 0 <= c < |s.cpus| ==> s.cpus[c] == Idle)
  }

  ghost predicate BootProc(p: Proc, init: bool) {
    && p.state == (if init then RUNNABLE else UNUSED) && p.chan == NoChan && p.parent == None
    && p.lock == Free && p.pc == User && p.sw == Off
  }

  lemma BootOk(s: Machine)
    requires Boot(s)
    ensures Inv(s)
  {
  }

  ghost predicate Next(s: Machine, e: (nat, Step), t: Machine) {
    Enabled(s, e.0, e.1) && t == Apply(s, e.0, e.1)
  }

  /** The states ss that the steps es lead through. */
  ghost predicate IsRun(ss: seq<Machine>, es: seq<(nat, Step)>) {
    && |ss| == |es| + 1 && Boot(ss[0])
    && forall k {:trigger es[k]} :: 0 <= k < |es| ==> Next(ss[k], es[k], ss[k + 1])
  }

  lemma {:induction false} RunKeeps(ss: seq<Machine>, es: seq<(nat, Step)>, k: nat)
    requires IsRun(ss, es) && k <= |es|
    ensures Inv(ss[k])
  {
    if k == 0 {
      BootOk(ss[0]);
    } else {
      RunKeeps(ss, es, k - 1);
      assert Next(ss[k - 1], es[k - 1], ss[k]);
      StepKeeps(ss[k - 1], es[k - 1].0, es[k - 1].1);
    }
  }

  /** No exit is lost: when wait_lock is free, a process asleep in wait() has no zombie child. */
  lemma NoLostExit(ss: seq<Machine>, es: seq<(nat, Step)>, k: nat, p: nat, x: nat)
    requires IsRun(ss, es) && k <= |es| && ss[k].wait == None && p < |ss[k].procs| && x < |ss[k].procs|
    requires Asleep(p, ss[k].procs[p]) && ss[k].procs[x].parent == Some(p)
    ensures ss[k].procs[x].state != ZOMBIE
  {
    RunKeeps(ss, es, k);
    assert OneOk(ss[k], x);
    assert TwoOk(ss[k], x, p);
  }

  /** And when it is not, the only process that may sleep over a zombie child is init, which
      the exit() in progress has yet to come to. */
  lemma OnlyInitSleepsOver(ss: seq<Machine>, es: seq<(nat, Step)>, k: nat, p: nat, x: nat)
    requires IsRun(ss, es) && k <= |es| && p < |ss[k].procs| && x < |ss[k].procs|
    requires Asleep(p, ss[k].procs[p]) && ss[k].procs[x].parent == Some(p) && ss[k].procs[x].state == ZOMBIE
    ensures p == ss[k].init && Alert(ss[k])
  {
    RunKeeps(ss, es, k);
    assert OneOk(ss[k], x);
    assert TwoOk(ss[k], x, p);
  }

  /** Every process in use but init has a parent that is neither UNUSED nor a zombie, so it is
      not itself a zombie that nobody will wait for. */
  lemma NoOrphan(ss: seq<Machine>, es: seq<(nat, Step)>, k: nat, x: nat)
    requires IsRun(ss, es) && k <= |es| && x < |ss[k].procs| && x != ss[k].init
    requires ss[k].procs[x].state in {RUNNABLE, RUNNING, SLEEPING, ZOMBIE}
    ensures var q := ss[k].procs[x].parent;
      && q.Some? && q.value < |ss[k].procs| && q.value != x
      && ss[k].procs[q.value].state in {RUNNABLE, RUNNING, SLEEPING}
  {
    RunKeeps(ss, es, k);
    assert OneOk(ss[k], x);
    assert TwoOk(ss[k], x, ss[k].procs[x].parent.value);
  }

  /** c->proc of hart c is x. */
  predicate HasProc(s: Machine, c: nat, x: nat) {
    c < |s.cpus| && (s.cpus[c] == Running(x) || s.cpus[c] == Back(x))
  }

  /** A process whose lock is free is RUNNING exactly when a hart has it, and never two do. */
  lemma OneHart(ss: seq<Machine>, es: seq<(nat, Step)>, k: nat, x: nat)
    requires IsRun(ss, es) && k <= |es| && x < |ss[k].procs|
    ensures ss[k].procs[x].lock == Free ==> (ss[k].procs[x].state == RUNNING <==> exists c :: HasProc(ss[k], c, x))
    ensures forall c, d :: HasProc(ss[k], c, x) && HasProc(ss[k], d, x) ==> c == d
  {
    RunKeeps(ss, es, k);
    var s := ss[k];
    assert OneOk(s, x);
    forall c, d | HasProc(s, c, x) && HasProc(s, d, x) ensures c == d {
      assert CpuOk(s, c, x) && CpuOk(s, d, x);
    }
    if s.procs[x].lock == Free {
      if s.procs[x].state == RUNNING {
        assert CpuOk(s, s.procs[x].hart, x);
        assert HasProc(s, s.procs[x].hart, x);
      }
      if c :| HasProc(s, c, x) {
        assert CpuOk(s, c, x);
      }
    }
  }

  /** The checks of sched() hold whenever a thread comes to it, and a thread that has exited
      is never switched to again. */
  lemma SchedChecks(ss: seq<Machine>, es: seq<(nat, Step)>, k: nat, i: nat)
    requires IsRun(ss, es) && k <= |es| && i < |ss[k].procs|
    ensures Enabled(ss[k], i, Sched(SwitchOut)) ==>
      ss[k].procs[i].lock == Thread(i) && ss[k].wait != Some(i) && ss[k].procs[i].state != RUNNING
    ensures ss[k].procs[i].pc == Exited ==> forall c :: !Enabled(ss[k], i, Sched(Dispatch(c)))
  {
    RunKeeps(ss, es, k);
    assert OneOk(ss[k], i);
  }
}
