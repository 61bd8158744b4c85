/**
 Every step of the process machine keeps its invariant.
 */
module ProcSteps {
  import opened Options
  import opened ProcMachine

  /** What is known of one entry. */
  ghost predicate Single(x: nat, p: Proc, wait: Option<nat>, init: nat, n: nat) {
    LocalOk(x, p, wait) && BornOk(x, p, init, n)
  }

  /** What is known of two entries. */
  ghost predicate Couple(x: nat, p: Proc, y: nat, q: Proc, init: nat, alert: bool) {
    x != y && PairOk(x, p, y, q, init, alert) && PairOk(y, q, x, p, init, alert)
  }

  // ---- fork()

  lemma ForkSingles(e: ForkStep, i: nat, p: Proc, o: nat, q: Proc, wait: Option<nat>, init: nat, n: nat, alert: bool)
    requires Single(i, p, wait, init, n) && Single(o, q, wait, init, n) && Couple(i, p, o, q, init, alert)
    requires ForkGuard(e, p, q, wait) && o == ForkOther(e, i, p) && i < n && o < n
    ensures Single(i, ForkSelf(e, p, o), wait, init, n) && Single(o, ForkChild(e, i, q), wait, init, n)
    ensures Couple(i, ForkSelf(e, p, o), o, ForkChild(e, i, q), init, alert)
  {
    hide LocalOk, BornOk, PairOk, ForkGuard, ForkSelf, ForkChild;
    ForkSelfOk(e, i, p, o, q, wait, init, n, alert);
    ForkChildOk(e, i, p, o, q, wait, init, n, alert);
    ForkCoupleOk(e, i, p, o, q, wait, init, n, alert);
  }

  lemma ForkSelfOk(e: ForkStep, i: nat, p: Proc, o: nat, q: Proc, wait: Option<nat>, init: nat, n: nat, alert: bool)
    requires Single(i, p, wait, init, n) && Single(o, q, wait, init, n) && Couple(i, p, o, q, init, alert)
    requires ForkGuard(e, p, q, wait) && o == ForkOther(e, i, p) && i < n && o < n
    ensures Single(i, ForkSelf(e, p, o), wait, init, n)
  {
  }

  lemma ForkChildOk(e: ForkStep, i: nat, p: Proc, o: nat, q: Proc, wait: Option<nat>, init: nat, n: nat, alert: bool)
    requires Single(i, p, wait, init, n) && Single(o, q, wait, init, n) && Couple(i, p, o, q, init, alert)
    requires ForkGuard(e, p, q, wait) && o == ForkOther(e, i, p) && i < n && o < n
    ensures Single(o, ForkChild(e, i, q), wait, init, n)
  {
  }

  lemma ForkCoupleOk(e: ForkStep, i: nat, p: Proc, o: nat, q: Proc, wait: Option<nat>, init: nat, n: nat, alert: bool)
    requires Single(i, p, wait, init, n) && Single(o, q, wait, init, n) && Couple(i, p, o, q, init, alert)
    requires ForkGuard(e, p, q, wait) && o == ForkOther(e, i, p) && i < n && o < n
    ensures Couple(i, ForkSelf(e, p, o), o, ForkChild(e, i, q), init, alert)
  {
  }

  lemma ForkPairs(e: ForkStep, i: nat, p: Proc, o: nat, q: Proc, y: nat, r: Proc, wait: Option<nat>, init: nat, n: nat,
                  alert: bool)
    requires Single(i, p, wait, init, n) && Single(o, q, wait, init, n) && Single(y, r, wait, init, n)
    requires Couple(i, p, o, q, init, alert) && Couple(i, p, y, r, init, alert) && Couple(o, q, y, r, init, alert)
    requires ForkGuard(e, p, q, wait) && o == ForkOther(e, i, p)
    ensures Couple(i, ForkSelf(e, p, o), y, r, init, alert) && Couple(o, ForkChild(e, i, q), y, r, init, alert)
  {
  }

  // ---- exit(), when it touches another entry and when it does not

  lemma ExitSingles(e: ExitStep, i: nat, p: Proc, o: nat, q: Proc, wait: Option<nat>, init: nat, n: nat, alert: bool)
    requires Single(i, p, wait, init, n) && Single(o, q, wait, init, n) && Couple(i, p, o, q, init, alert)
    requires ExitGuard(e, i, p, o, q, wait, init, n) && o == ExitOther(e, i, p, n) && i < n && o < n && init < n
    ensures var w := ExitWait(e, i, wait);
      Single(i, ExitSelf(e, i, p, q, n), w, init, n) && Single(o, ExitPeer(e, i, p, q, init), w, init, n)
  {
    hide LocalOk, BornOk, PairOk, ExitGuard, ExitSelf, ExitPeer;
    ExitSelfOk(e, i, p, o, q, wait, init, n, alert);
    ExitPeerOk(e, i, p, o, q, wait, init, n, alert);
  }

  lemma ExitSelfOk(e: ExitStep, i: nat, p: Proc, o: nat, q: Proc, wait: Option<nat>, init: nat, n: nat, alert: bool)
    requires Single(i, p, wait, init, n) && Single(o, q, wait, init, n) && Couple(i, p, o, q, init, alert)
    requires ExitGuard(e, i, p, o, q, wait, init, n) && o == ExitOther(e, i, p, n) && i < n && o < n && init < n
    ensures Single(i, ExitSelf(e, i, p, q, n), ExitWait(e, i, wait), init, n)
  {
  }

  lemma ExitPeerOk(e: ExitStep, i: nat, p: Proc, o: nat, q: Proc, wait: Option<nat>, init: nat, n: nat, alert: bool)
    requires Single(i, p, wait, init, n) && Single(o, q, wait, init, n) && Couple(i, p, o, q, init, alert)
    requires ExitGuard(e, i, p, o, q, wait, init, n) && o == ExitOther(e, i, p, n) && i < n && o < n && init < n
    ensures Single(o, ExitPeer(e, i, p, q, init), ExitWait(e, i, wait), init, n)
  {
  }

  lemma ExitCouple(e: ExitStep, i: nat, p: Proc, o: nat, q: Proc, wait: Option<nat>, init: nat, n: nat, alert: bool,
                   alert': bool)
    requires Single(i, p, wait, init, n) && Single(o, q, wait, init, n) && Couple(i, p, o, q, init, alert)
    requires ExitGuard(e, i, p, o, q, wait, init, n) && o == ExitOther(e, i, p, n) && i < n && o < n && init < n
    requires wait == Some(i) ==> alert == (p.pc.WakeInit? && p.pc.m <= init)
    requires var pc := ExitSelf(e, i, p, q, n).pc; alert' == (pc.WakeInit? && pc.m <= init)
    ensures Couple(i, ExitSelf(e, i, p, q, n), o, ExitPeer(e, i, p, q, init), init, alert')
  {
  }

  lemma ExitPairs(e: ExitStep, i: nat, p: Proc, o: nat, q: Proc, y: nat, r: Proc, wait: Option<nat>, init: nat, n: nat,
                  alert: bool, alert': bool)
    requires Single(i, p, wait, init, n) && Single(o, q, wait, init, n) && Single(y, r, wait, init, n)
    requires Couple(i, p, o, q, init, alert) && Couple(i, p, y, r, init, alert) && Couple(o, q, y, r, init, alert)
    requires ExitGuard(e, i, p, o, q, wait, init, n) && o == ExitOther(e, i, p, n) && y < n
    requires wait == Some(i) ==> alert == (p.pc.WakeInit? && p.pc.m <= init)
    requires var pc := ExitSelf(e, i, p, q, n).pc; alert' == (pc.WakeInit? && pc.m <= init)
    ensures Couple(i, ExitSelf(e, i, p, q, n), y, r, init, alert')
      && Couple(o, ExitPeer(e, i, p, q, init), y, r, init, alert')
  {
    hide LocalOk, BornOk, PairOk, ExitGuard, ExitSelf, ExitPeer;
    ExitPairsSelf(e, i, p, o, q, y, r, wait, init, n, alert, alert');
    ExitPairsPeer(e, i, p, o, q, y, r, wait, init, n, alert, alert');
  }

  lemma ExitPairsSelf(e: ExitStep, i: nat, p: Proc, o: nat, q: Proc, y: nat, r: Proc, wait: Option<nat>, init: nat,
                      n: nat, alert: bool, alert': bool)
    requires Single(i, p, wait, init, n) && Single(o, q, wait, init, n) && Single(y, r, wait, init, n)
    requires Couple(i, p, o, q, init, alert) && Couple(i, p, y, r, init, alert) && Couple(o, q, y, r, init, alert)
    requires ExitGuard(e, i, p, o, q, wait, init, n) && o == ExitOther(e, i, p, n) && y < n
    requires wait == Some(i) ==> alert == (p.pc.WakeInit? && p.pc.m <= init)
    requires var pc := ExitSelf(e, i, p, q, n).pc; alert' == (pc.WakeInit? && pc.m <= init)
    ensures Couple(i, ExitSelf(e, i, p, q, n), y, r, init, alert')
  {
  }

  lemma ExitPairsPeer(e: ExitStep, i: nat, p: Proc, o: nat, q: Proc, y: nat, r: Proc, wait: Option<nat>, init: nat,
                      n: nat, alert: bool, alert': bool)
    requires Single(i, p, wait, init, n) && Single(o, q, wait, init, n) && Single(y, r, wait, init, n)
    requires Couple(i, p, o, q, init, alert) && Couple(i, p, y, r, init, alert) && Couple(o, q, y, r, init, alert)
    requires ExitGuard(e, i, p, o, q, wait, init, n) && o == ExitOther(e, i, p, n) && y < n
    requires wait == Some(i) ==> alert == (p.pc.WakeInit? && p.pc.m <= init)
    requires var pc := ExitSelf(e, i, p, q, n).pc; alert' == (pc.WakeInit? && pc.m <= init)
    ensures Couple(o, ExitPeer(e, i, p, q, init), y, r, init, alert')
  {
    hide LocalOk, BornOk, PairOk, ExitGuard, ExitSelf, ExitPeer;
    ExitPeerTo(e, i, p, o, q, y, r, wait, init, n, alert, alert');
    ExitPeerFrom(e, i, p, o, q, y, r, wait, init, n, alert, alert');
  }

  lemma ExitPeerTo(e: ExitStep, i: nat, p: Proc, o: nat, q: Proc, y: nat, r: Proc, wait: Option<nat>, init: nat, n: nat,
                   alert: bool, alert': bool)
    requires Single(i, p, wait, init, n) && Single(o, q, wait, init, n) && Single(y, r, wait, init, n)
    requires Couple(i, p, o, q, init, alert) && Couple(i, p, y, r, init, alert) && Couple(o, q, y, r, init, alert)
    requires ExitGuard(e, i, p, o, q, wait, init, n) && o == ExitOther(e, i, p, n) && y < n
    requires wait == Some(i) ==> alert == (p.pc.WakeInit? && p.pc.m <= init)
    requires var pc := ExitSelf(e, i, p, q, n).pc; alert' == (pc.WakeInit? && pc.m <= init)
    ensures PairOk(o, ExitPeer(e, i, p, q, init), y, r, init, alert')
  {
  }

  lemma ExitPeerFrom(e: ExitStep, i: nat, p: Proc, o: nat, q: Proc, y: nat, r: Proc, wait: Option<nat>, init: nat,
                     n: nat, alert: bool, alert': bool)
    requires Single(i, p, wait, init, n) && Single(o, q, wait, init, n) && Single(y, r, wait, init, n)
    requires Couple(i, p, o, q, init, alert) && Couple(i, p, y, r, init, alert) && Couple(o, q, y, r, init, alert)
    requires ExitGuard(e, i, p, o, q, wait, init, n) && o == ExitOther(e, i, p, n) && y < n
    requires wait == Some(i) ==> alert == (p.pc.WakeInit? && p.pc.m <= init)
    requires var pc := ExitSelf(e, i, p, q, n).pc; alert' == (pc.WakeInit? && pc.m <= init)
    ensures PairOk(y, r, o, ExitPeer(e, i, p, q, init), init, alert')
  {
  }

  lemma ExitAlone(e: ExitStep, i: nat, p: Proc, wait: Option<nat>, init: nat, n: nat)
    requires Single(i, p, wait, init, n) && ExitGuard(e, i, p, i, p, wait, init, n) && i == ExitOther(e, i, p, n)
      && i < n
    ensures Single(i, ExitSelf(e, i, p, p, n), ExitWait(e, i, wait), init, n)
  {
  }

  lemma ExitAloneCouple(e: ExitStep, i: nat, p: Proc, y: nat, r: Proc, wait: Option<nat>, init: nat, n: nat,
                        alert: bool, alert': bool)
    requires Single(i, p, wait, init, n) && Single(y, r, wait, init, n) && Couple(i, p, y, r, init, alert)
    requires ExitGuard(e, i, p, i, p, wait, init, n) && i == ExitOther(e, i, p, n) && y < n && init < n
    requires wait == Some(i) ==> alert == (p.pc.WakeInit? && p.pc.m <= init)
    requires wait == None ==> !alert
    requires var pc := ExitSelf(e, i, p, p, n).pc; alert' == (pc.WakeInit? && pc.m <= init)
    ensures Couple(i, ExitSelf(e, i, p, p, n), y, r, init, alert') && (alert ==> alert')
  {
  }

  // ---- wait()

  lemma WaitSingles(e: WaitStep, i: nat, p: Proc, o: nat, q: Proc, wait: Option<nat>, init: nat, n: nat, alert: bool)
    requires Single(i, p, wait, init, n) && Single(o, q, wait, init, n) && Couple(i, p, o, q, init, alert)
    requires WaitGuard(e, i, p, q, wait, n) && o == WaitOther(e, i, p, n) && i < n && o < n
    ensures var w := WaitWait(e, i, wait);
      Single(i, WaitSelf(e, i, p, q), w, init, n) && Single(o, WaitPeer(e, i, q), w, init, n)
  {
  }

  lemma WaitCouple(e: WaitStep, i: nat, p: Proc, o: nat, q: Proc, wait: Option<nat>, init: nat, n: nat, alert: bool)
    requires Single(i, p, wait, init, n) && Single(o, q, wait, init, n) && Couple(i, p, o, q, init, alert) && !alert
    requires WaitGuard(e, i, p, q, wait, n) && o == WaitOther(e, i, p, n) && i < n && o < n
    ensures Couple(i, WaitSelf(e, i, p, q), o, WaitPeer(e, i, q), init, alert)
  {
  }

  lemma WaitPairs(e: WaitStep, i: nat, p: Proc, o: nat, q: Proc, y: nat, r: Proc, wait: Option<nat>, init: nat, n: nat,
                  alert: bool)
    requires Single(i, p, wait, init, n) && Single(o, q, wait, init, n) && Single(y, r, wait, init, n) && !alert
    requires Couple(i, p, o, q, init, alert) && Couple(i, p, y, r, init, alert) && Couple(o, q, y, r, init, alert)
    requires WaitGuard(e, i, p, q, wait, n) && o == WaitOther(e, i, p, n)
    ensures Couple(i, WaitSelf(e, i, p, q), y, r, init, alert) && Couple(o, WaitPeer(e, i, q), y, r, init, alert)
  {
    hide LocalOk, BornOk, PairOk, WaitGuard, WaitSelf, WaitPeer;
    WaitPairsSelf(e, i, p, o, q, y, r, wait, init, n, alert);
    WaitPairsPeer(e, i, p, o, q, y, r, wait, init, n, alert);
  }

  lemma WaitPairsSelf(e: WaitStep, i: nat, p: Proc, o: nat, q: Proc, y: nat, r: Proc, wait: Option<nat>, init: nat,
                      n: nat, alert: bool)
    requires Single(i, p, wait, init, n) && Single(o, q, wait, init, n) && Single(y, r, wait, init, n) && !alert
    requires Couple(i, p, o, q, init, alert) && Couple(i, p, y, r, init, alert) && Couple(o, q, y, r, init, alert)
    requires WaitGuard(e, i, p, q, wait, n) && o == WaitOther(e, i, p, n)
    ensures Couple(i, WaitSelf(e, i, p, q), y, r, init, alert)
  {
  }

  lemma WaitPairsPeer(e: WaitStep, i: nat, p: Proc, o: nat, q: Proc, y: nat, r: Proc, wait: Option<nat>, init: nat,
                      n: nat, alert: bool)
    requires Single(i, p, wait, init, n) && Single(o, q, wait, init, n) && Single(y, r, wait, init, n) && !alert
    requires Couple(i, p, o, q, init, alert) && Couple(i, p, y, r, init, alert) && Couple(o, q, y, r, init, alert)
    requires WaitGuard(e, i, p, q, wait, n) && o == WaitOther(e, i, p, n)
    ensures Couple(o, WaitPeer(e, i, q), y, r, init, alert)
  {
  }

  lemma WaitAlone(e: WaitStep, i: nat, p: Proc, wait: Option<nat>, init: nat, n: nat)
    requires Single(i, p, wait, init, n) && WaitGuard(e, i, p, p, wait, n) && i == WaitOther(e, i, p, n) && i < n
    ensures Single(i, WaitSelf(e, i, p, p), WaitWait(e, i, wait), init, n)
  {
  }

  /** alert can only be raised here when the step is the last one of sleep(). */
  lemma WaitAloneCouple(e: WaitStep, i: nat, p: Proc, y: nat, r: Proc, wait: Option<nat>, init: nat, n: nat,
                        alert: bool)
    requires Single(i, p, wait, init, n) && Single(y, r, wait, init, n) && Couple(i, p, y, r, init, alert)
    requires WaitGuard(e, i, p, p, wait, n) && i == WaitOther(e, i, p, n) && y < n && (alert ==> e == WaitAsleep)
    ensures Couple(i, WaitSelf(e, i, p, p), y, r, init, alert)
  {
    hide LocalOk, BornOk, PairOk, WaitGuard, WaitSelf;
    WaitAloneTo(e, i, p, y, r, wait, init, n, alert);
    WaitAloneFrom(e, i, p, y, r, wait, init, n, alert);
  }

  lemma WaitAloneTo(e: WaitStep, i: nat, p: Proc, y: nat, r: Proc, wait: Option<nat>, init: nat, n: nat, alert: bool)
    requires Single(i, p, wait, init, n) && Single(y, r, wait, init, n) && Couple(i, p, y, r, init, alert)
    requires WaitGuard(e, i, p, p, wait, n) && i == WaitOther(e, i, p, n) && y < n && (alert ==> e == WaitAsleep)
    ensures PairOk(i, WaitSelf(e, i, p, p), y, r, init, alert)
  {
  }

  lemma WaitAloneFrom(e: WaitStep, i: nat, p: Proc, y: nat, r: Proc, wait: Option<nat>, init: nat, n: nat, alert: bool)
    requires Single(i, p, wait, init, n) && Single(y, r, wait, init, n) && Couple(i, p, y, r, init, alert)
    requires WaitGuard(e, i, p, p, wait, n) && i == WaitOther(e, i, p, n) && y < n && (alert ==> e == WaitAsleep)
    ensures PairOk(y, r, i, WaitSelf(e, i, p, p), init, alert)
  {
  }

  // ---- sleep(), wakeup(), kill(), yield(), sched() and scheduler()

  lemma SleepAlone(e: SleepStep, i: nat, p: Proc, wait: Option<nat>, init: nat, n: nat)
    requires Single(i, p, wait, init, n) && SleepGuard(e, p) && i < n
    ensures Single(i, SleepSelf(e, i, p), wait, init, n)
  {
  }

  lemma SleepAloneCouple(e: SleepStep, i: nat, p: Proc, y: nat, r: Proc, wait: Option<nat>, init: nat, n: nat,
                         alert: bool)
    requires Single(i, p, wait, init, n) && Single(y, r, wait, init, n) && Couple(i, p, y, r, init, alert)
      && SleepGuard(e, p)
    ensures Couple(i, SleepSelf(e, i, p), y, r, init, alert)
  {
  }

  lemma SchedAlone(e: SchedStep, i: nat, p: Proc, cpu: Cpu, wait: Option<nat>, init: nat, n: nat)
    requires Single(i, p, wait, init, n) && SchedGuard(e, i, p, cpu) && i < n && HartOk(SchedHart(e, p), cpu, i, p)
    ensures Single(i, SchedSelf(e, i, p), wait, init, n)
  {
  }

  lemma SchedAloneCouple(e: SchedStep, i: nat, p: Proc, cpu: Cpu, y: nat, r: Proc, wait: Option<nat>, init: nat, n: nat,
                         alert: bool)
    requires Single(i, p, wait, init, n) && Single(y, r, wait, init, n) && Couple(i, p, y, r, init, alert)
    requires SchedGuard(e, i, p, cpu) && HartOk(SchedHart(e, p), cpu, i, p)
    ensures Couple(i, SchedSelf(e, i, p), y, r, init, alert)
  {
  }

  // ---- from entries to the whole table

  /** p' is as much on a hart, and its lock as much a hart's, as p was. */
  ghost predicate SameHart(p: Proc, p': Proc) {
    && (p.sw == Off <==> p'.sw == Off) && p.hart == p'.hart
    && (p.lock.Hart? || p'.lock.Hart? ==> p.lock == p'.lock)
  }

  lemma At(s: Machine, x: nat)
    requires Inv(s) && x < |s.procs|
    ensures Single(x, s.procs[x], s.wait, s.init, |s.procs|) && s.init < |s.procs|
    ensures s.procs[x].sw != Off ==> s.procs[x].hart < |s.cpus|
    ensures s.wait == Some(x) ==> Alert(s) == (s.procs[x].pc.WakeInit? && s.procs[x].pc.m <= s.init)
    ensures s.wait == None ==> !Alert(s)
  {
    assert OneOk(s, x);
  }

  lemma Both(s: Machine, x: nat, y: nat)
    requires Inv(s) && x < |s.procs| && y < |s.procs| && x != y
    ensures Couple(x, s.procs[x], y, s.procs[y], s.init, Alert(s))
  {
    assert TwoOk(s, x, y) && TwoOk(s, y, x);
  }

  /** Entries i and o of s have changed, and wait_lock at most to or from i. */
  ghost predicate Changed(s: Machine, t: Machine, i: nat, o: nat) {
    && |t.procs| == |s.procs| && t.init == s.init && t.cpus == s.cpus
    && i < |s.procs| && o < |s.procs|
    && (forall x :: 0 <= x < |s.procs| && x != i && x != o ==> t.procs[x] == s.procs[x])
    && (t.wait == s.wait || (t.wait in {None, Some(i)} && s.wait in {None, Some(i)}))
    && (Alert(s) && !Alert(t) ==> o == s.init)
    && SameHart(s.procs[i], t.procs[i]) && SameHart(s.procs[o], t.procs[o])
  }

  lemma ChangedKeeps(s: Machine, t: Machine, i: nat, o: nat)
    requires Inv(s) && Changed(s, t, i, o)
    requires forall x :: x == i || x == o ==> Single(x, t.procs[x], t.wait, t.init, |t.procs|)
    requires forall x, y {:trigger Couple(x, t.procs[x], y, t.procs[y], t.init, Alert(t))} ::
      (x == i || x == o) && 0 <= y < |t.procs| && x != y ==> Couple(x, t.procs[x], y, t.procs[y], t.init, Alert(t))
    ensures Inv(t)
  {
    hide LocalOk, BornOk, PairOk, Alert;
    forall x | 0 <= x < |t.procs| ensures OneOk(t, x) {
      assert OneOk(s, x);
      if x != i && x != o { LocalSame(x, s.procs[x], s.wait, t.wait, i); }
    }
    forall x, y | 0 <= x < |t.procs| && 0 <= y < |t.procs| && x != y ensures TwoOk(t, x, y) {
      assert TwoOk(s, x, y);
      if x == i || x == o {
        assert Couple(x, t.procs[x], y, t.procs[y], t.init, Alert(t));
      } else if y == i || y == o {
        assert Couple(y, t.procs[y], x, t.procs[x], t.init, Alert(t));
      } else {
        AlertSame(x, s.procs[x], y, s.procs[y], s.init, Alert(s), Alert(t));
      }
    }
    forall c, x | 0 <= c < |t.cpus| && 0 <= x < |t.procs| ensures CpuOk(t, c, x) {
      assert CpuOk(s, c, x);
    }
  }

  lemma LocalSame(x: nat, p: Proc, wait: Option<nat>, wait': Option<nat>, i: nat)
    requires LocalOk(x, p, wait) && x != i
    requires wait' == wait || (wait' in {None, Some(i)} && wait in {None, Some(i)})
    ensures LocalOk(x, p, wait')
  {
  }

  lemma AlertSame(x: nat, p: Proc, y: nat, q: Proc, init: nat, alert: bool, alert': bool)
    requires PairOk(x, p, y, q, init, alert) && (alert && !alert' ==> y != init)
    ensures PairOk(x, p, y, q, init, alert')
  {
  }

  lemma ForkKeeps(s: Machine, i: nat, e: ForkStep)
    requires Inv(s) && Enabled(s, i, Fork(e))
    ensures Inv(Apply(s, i, Fork(e)))
  {
    var t, p, o := Apply(s, i, Fork(e)), s.procs[i], ForkOther(e, i, s.procs[i]);
    var q := s.procs[o];
    At(s, i);
    At(s, o);
    ForkApart(e, i, p, o, q, s.wait, s.init, |s.procs|);
    Both(s, i, o);
    ForkSingles(e, i, p, o, q, s.wait, s.init, |s.procs|, Alert(s));
    assert Alert(t) == Alert(s);
    forall y | 0 <= y < |s.procs| && y != i && y != o
      ensures Couple(i, t.procs[i], y, t.procs[y], t.init, Alert(t))
        && Couple(o, t.procs[o], y, t.procs[y], t.init, Alert(t))
    {
      At(s, y);
      Both(s, i, y);
      Both(s, o, y);
      ForkPairs(e, i, p, o, q, y, s.procs[y], s.wait, s.init, |s.procs|, Alert(s));
    }
    hide Single, Couple, Inv;
    ChangedKeeps(s, t, i, o);
  }

  lemma ForkApart(e: ForkStep, i: nat, p: Proc, o: nat, q: Proc, wait: Option<nat>, init: nat, n: nat)
    requires Single(i, p, wait, init, n) && ForkGuard(e, p, q, wait) && o == ForkOther(e, i, p) && (o == i ==> q == p)
    ensures o != i && wait != Some(i)
  {
  }

  /** A step of exit() is taken without wait_lock, to get it, or with it. */
  lemma ExitHolds(e: ExitStep, i: nat, p: Proc, o: nat, q: Proc, wait: Option<nat>, init: nat, n: nat)
    requires Single(i, p, wait, init, n) && ExitGuard(e, i, p, o, q, wait, init, n) && o == ExitOther(e, i, p, n)
    ensures wait == (if e == ExitLock then None else Some(i))
    ensures SameHart(p, ExitSelf(e, i, p, q, n)) && SameHart(q, ExitPeer(e, i, p, q, init))
    ensures o == i ==> !p.pc.Reparent? || e != ReparentNext || p.pc.k >= n || p.pc.k == i
  {
  }

  lemma ExitKeeps(s: Machine, i: nat, e: ExitStep)
    requires Inv(s) && Enabled(s, i, Exit(e)) && Other(s, i, Exit(e)) != i
    ensures Inv(Apply(s, i, Exit(e)))
  {
    hide LocalOk, BornOk, PairOk, ExitSelf, ExitPeer, ExitGuard;
    var n, p, o := |s.procs|, s.procs[i], ExitOther(e, i, s.procs[i], |s.procs|);
    var t, q := Apply(s, i, Exit(e)), s.procs[o];
    At(s, i);
    At(s, o);
    Both(s, i, o);
    ExitHolds(e, i, p, o, q, s.wait, s.init, n);
    ExitSingles(e, i, p, o, q, s.wait, s.init, n, Alert(s));
    assert Alert(t) == (t.procs[i].pc.WakeInit? && t.procs[i].pc.m <= s.init);
    ExitCouple(e, i, p, o, q, s.wait, s.init, n, Alert(s), Alert(t));
    forall y | 0 <= y < n && y != i && y != o
      ensures Couple(i, t.procs[i], y, t.procs[y], t.init, Alert(t))
        && Couple(o, t.procs[o], y, t.procs[y], t.init, Alert(t))
    {
      At(s, y);
      Both(s, i, y);
      Both(s, o, y);
      ExitPairs(e, i, p, o, q, y, s.procs[y], s.wait, s.init, n, Alert(s), Alert(t));
    }
    AlertDrops(e, i, p, o, q, s.wait, s.init, n);
    hide Single, Couple, Inv;
    ChangedKeeps(s, t, i, o);
  }

  /** init is alerted until the wakeup loop comes to its entry. */
  lemma AlertDrops(e: ExitStep, i: nat, p: Proc, o: nat, q: Proc, wait: Option<nat>, init: nat, n: nat)
    requires Single(i, p, wait, init, n) && ExitGuard(e, i, p, o, q, wait, init, n) && o == ExitOther(e, i, p, n)
      && o != i
    ensures var pc := ExitSelf(e, i, p, q, n).pc;
      p.pc.WakeInit? && p.pc.m <= init && !(pc.WakeInit? && pc.m <= init) ==> o == init
  {
  }

  lemma ExitAloneKeeps(s: Machine, i: nat, e: ExitStep)
    requires Inv(s) && Enabled(s, i, Exit(e)) && Other(s, i, Exit(e)) == i
    ensures Inv(Apply(s, i, Exit(e)))
  {
    var t, p, n := Apply(s, i, Exit(e)), s.procs[i], |s.procs|;
    At(s, i);
    ExitHolds(e, i, p, i, p, s.wait, s.init, n);
    ExitAlone(e, i, p, s.wait, s.init, n);
    assert Alert(t) == (t.procs[i].pc.WakeInit? && t.procs[i].pc.m <= s.init);
    forall y | 0 <= y < n && y != i ensures Couple(i, t.procs[i], y, t.procs[y], t.init, Alert(t)) {
      At(s, y);
      Both(s, i, y);
      ExitAloneCouple(e, i, p, y, s.procs[y], s.wait, s.init, n, Alert(s), Alert(t));
    }
    AlertLasts(e, i, p, s.wait, s.init, n, Alert(s), Alert(t));
    hide Single, Couple, Inv;
    ChangedKeeps(s, t, i, i);
  }

  lemma AlertLasts(e: ExitStep, i: nat, p: Proc, wait: Option<nat>, init: nat, n: nat, alert: bool, alert': bool)
    requires Single(i, p, wait, init, n) && ExitGuard(e, i, p, i, p, wait, init, n) && i == ExitOther(e, i, p, n)
      && init < n
    requires wait == Some(i) ==> alert == (p.pc.WakeInit? && p.pc.m <= init)
    requires wait == None ==> !alert
    requires var pc := ExitSelf(e, i, p, p, n).pc; alert' == (pc.WakeInit? && pc.m <= init)
    ensures alert ==> alert'
  {
  }

  lemma WaitHolds(e: WaitStep, i: nat, p: Proc, o: nat, q: Proc, wait: Option<nat>, init: nat, n: nat)
    requires Single(i, p, wait, init, n) && WaitGuard(e, i, p, q, wait, n) && o == WaitOther(e, i, p, n)
    ensures e == WaitAsleep || wait == (if e == WaitLock then None else Some(i))
    ensures o != i ==> e != WaitAsleep
    ensures SameHart(p, WaitSelf(e, i, p, q))
      && (o != i && q.lock in {Free, Thread(i)} ==> SameHart(q, WaitPeer(e, i, q)))
    ensures WaitSelf(e, i, p, q).pc != WakeInit(0, 0) && !WaitSelf(e, i, p, q).pc.WakeInit? && !p.pc.WakeInit?
  {
  }

  lemma WaitKeeps(s: Machine, i: nat, e: WaitStep)
    requires Inv(s) && Enabled(s, i, Wait(e)) && Other(s, i, Wait(e)) != i
    ensures Inv(Apply(s, i, Wait(e)))
  {
    hide LocalOk, BornOk, PairOk, WaitSelf, WaitPeer;
    var n, p, o := |s.procs|, s.procs[i], WaitOther(e, i, s.procs[i], |s.procs|);
    var t, q := Apply(s, i, Wait(e)), s.procs[o];
    At(s, i);
    At(s, o);
    Both(s, i, o);
    WaitHolds(e, i, p, o, q, s.wait, s.init, n);
    WaitSingles(e, i, p, o, q, s.wait, s.init, n, Alert(s));
    assert !Alert(t) && !Alert(s);
    WaitCouple(e, i, p, o, q, s.wait, s.init, n, false);
    forall y | 0 <= y < n && y != i && y != o
      ensures Couple(i, t.procs[i], y, t.procs[y], t.init, Alert(t))
        && Couple(o, t.procs[o], y, t.procs[y], t.init, Alert(t))
    {
      At(s, y);
      Both(s, i, y);
      Both(s, o, y);
      WaitPairs(e, i, p, o, q, y, s.procs[y], s.wait, s.init, n, false);
    }
    WaitPeerHart(e, i, p, o, q, s.init, Alert(s));
    hide Single, Couple, Inv;
    ChangedKeeps(s, t, i, o);
  }

  lemma WaitPeerHart(e: WaitStep, i: nat, p: Proc, o: nat, q: Proc, init: nat, alert: bool)
    requires Couple(i, p, o, q, init, alert)
      && (e == WaitReap || e == WaitCopyFail ==> p.sw == On && p.pc == WaitFound(o))
    requires e == WaitNext && q.parent == Some(i) ==> q.lock == Free
    ensures SameHart(q, WaitPeer(e, i, q))
  {
  }

  lemma WaitAloneKeeps(s: Machine, i: nat, e: WaitStep)
    requires Inv(s) && Enabled(s, i, Wait(e)) && Other(s, i, Wait(e)) == i
    ensures Inv(Apply(s, i, Wait(e)))
  {
    hide LocalOk, BornOk, PairOk, WaitSelf, WaitPeer;
    var t, p, n := Apply(s, i, Wait(e)), s.procs[i], |s.procs|;
    At(s, i);
    WaitHolds(e, i, p, i, p, s.wait, s.init, n);
    WaitAlone(e, i, p, s.wait, s.init, n);
    assert Alert(t) == Alert(s);
    forall y | 0 <= y < n && y != i ensures Couple(i, t.procs[i], y, t.procs[y], t.init, Alert(t)) {
      At(s, y);
      Both(s, i, y);
      WaitAloneCouple(e, i, p, y, s.procs[y], s.wait, s.init, n, Alert(s));
    }
    hide Single, Couple, Inv;
    ChangedKeeps(s, t, i, i);
  }

  lemma SleepKeeps(s: Machine, i: nat, e: SleepStep)
    requires Inv(s) && Enabled(s, i, Doze(e))
    ensures Inv(Apply(s, i, Doze(e)))
  {
    hide LocalOk, BornOk, PairOk;
    var t, p, n := Apply(s, i, Doze(e)), s.procs[i], |s.procs|;
    At(s, i);
    SleepAlone(e, i, p, s.wait, s.init, n);
    SleepHart(e, i, p, s.wait, s.init, n);
    assert Alert(t) == Alert(s);
    forall y | 0 <= y < n && y != i ensures Couple(i, t.procs[i], y, t.procs[y], t.init, Alert(t)) {
      At(s, y);
      Both(s, i, y);
      SleepAloneCouple(e, i, p, y, s.procs[y], s.wait, s.init, n, Alert(s));
    }
    hide Single, Couple, Inv;
    ChangedKeeps(s, t, i, i);
  }

  lemma SleepHart(e: SleepStep, i: nat, p: Proc, wait: Option<nat>, init: nat, n: nat)
    requires Single(i, p, wait, init, n) && SleepGuard(e, p)
    ensures SameHart(p, SleepSelf(e, i, p)) && (wait == Some(i) ==> SleepSelf(e, i, p).pc == p.pc)
  {
  }

  lemma SchedHarts(e: SchedStep, i: nat, p: Proc, c: nat, cpu: Cpu, d: nat, cpu': Cpu, wait: Option<nat>, init: nat,
                   n: nat)
    requires Single(i, p, wait, init, n) && SchedGuard(e, i, p, cpu) && c == SchedHart(e, p)
    requires HartOk(c, cpu, i, p) && HartOk(d, cpu', i, p) && (c == d ==> cpu == cpu')
    ensures HartOk(d, if d == c then SchedCpu(e, i, cpu) else cpu', i, SchedSelf(e, i, p))
  {
  }

  /** The hart ran, runs or will run process i, so it has nothing to do with another process. */
  lemma SchedOthers(e: SchedStep, i: nat, p: Proc, c: nat, cpu: Cpu, x: nat, q: Proc)
    requires SchedGuard(e, i, p, cpu) && c == SchedHart(e, p) && x != i
    requires HartOk(c, cpu, i, p) && HartOk(c, cpu, x, q)
    ensures HartOk(c, SchedCpu(e, i, cpu), x, q)
  {
  }

  lemma SchedKeeps(s: Machine, i: nat, e: SchedStep)
    requires Inv(s) && Enabled(s, i, Sched(e))
    ensures Inv(Apply(s, i, Sched(e)))
  {
    hide LocalOk, BornOk, PairOk, HartOk, SchedGuard, SchedSelf, SchedCpu;
    var t, p, c, n := Apply(s, i, Sched(e)), s.procs[i], SchedHart(e, s.procs[i]), |s.procs|;
    At(s, i);
    assert CpuOk(s, c, i);
    SchedAlone(e, i, p, s.cpus[c], s.wait, s.init, n);
    SchedPlace(e, i, p, s.wait, s.init, n);
    assert Alert(t) == Alert(s);
    forall x | 0 <= x < n ensures OneOk(t, x) { assert OneOk(s, x); }
    forall x, y | 0 <= x < n && 0 <= y < n && x != y ensures TwoOk(t, x, y) {
      assert TwoOk(s, x, y);
      if x == i || y == i {
        var z := if x == i then y else x;
        At(s, z);
        Both(s, i, z);
        SchedAloneCouple(e, i, p, s.cpus[c], z, s.procs[z], s.wait, s.init, n, Alert(s));
      }
    }
    forall d, x | 0 <= d < |t.cpus| && 0 <= x < n ensures CpuOk(t, d, x) {
      assert CpuOk(s, d, x) && CpuOk(s, d, i);
      if x == i {
        SchedHarts(e, i, p, c, s.cpus[c], d, s.cpus[d], s.wait, s.init, n);
      } else if d == c {
        SchedOthers(e, i, p, c, s.cpus[c], x, s.procs[x]);
      }
    }
    SchedIndex(e, i, s.cpus[c]);
  }

  lemma SchedPlace(e: SchedStep, i: nat, p: Proc, wait: Option<nat>, init: nat, n: nat)
    requires Single(i, p, wait, init, n)
    ensures SchedSelf(e, i, p).pc.WakeInit? == p.pc.WakeInit? && (p.pc.WakeInit? ==> SchedSelf(e, i, p).pc == p.pc)
    ensures SchedSelf(e, i, p).sw != Off && e.Dispatch? ==> SchedSelf(e, i, p).hart == e.c
    ensures SchedSelf(e, i, p).sw != Off && !e.Dispatch? ==>
      SchedSelf(e, i, p).hart == p.hart && (e == Resume || p.sw != Off)
    ensures SchedSelf(e, i, p).lock.Hart? ==> e == SwitchOut && SchedSelf(e, i, p).lock == Hart(p.hart)
  {
  }

  lemma SchedIndex(e: SchedStep, i: nat, cpu: Cpu)
    ensures SchedCpu(e, i, cpu) == cpu || SchedCpu(e, i, cpu) in {Idle, Running(i), Back(i)}
  {
  }

  lemma StepKeeps(s: Machine, i: nat, e: Step)
    requires Inv(s) && Enabled(s, i, e)
    ensures Inv(Apply(s, i, e))
  {
    hide Inv, Apply, Enabled;
    match e
    case Fork(f) => ForkKeeps(s, i, f);
    case Exit(x) => OtherIs(s, i, e); if Other(s, i, e) == i { ExitAloneKeeps(s, i, x); } else { ExitKeeps(s, i, x); }
    case Wait(w) => OtherIs(s, i, e); if Other(s, i, e) == i { WaitAloneKeeps(s, i, w); } else { WaitKeeps(s, i, w); }
    case Doze(z) => SleepKeeps(s, i, z);
    case Sched(d) => SchedKeeps(s, i, d);
  }

  lemma OtherIs(s: Machine, i: nat, e: Step)
    requires Enabled(s, i, e)
    ensures i < |s.procs|
  {
  }
}
