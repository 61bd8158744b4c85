/**
 Processes of kernel/proc.c as a machine: every step is what one kernel thread, or the
 scheduler of one hart, does between acquiring and releasing a lock. It covers fork(),
 exit() with reparent(), wait(), kill(), sleep(), wakeup(), yield() and scheduler().
 */
module ProcMachine {
  import opened Options

  datatype ProcState = UNUSED | USED | SLEEPING | RUNNABLE | RUNNING | ZOMBIE

  /** What a process sleeps on: the address of a proc (wait() uses the caller's own) or of
      something else. */
  datatype Chan = NoChan | ProcChan(p: nat) | OtherChan(n: int)

  datatype Lock = Free | Thread(i: nat) | Hart(c: nat)

  /** Where a kernel thread is with respect to swtch(): running; holding its own lock on the
      way to the scheduler; switched out; switched in and still holding its own lock. */
  datatype Switch = On | Leaving | Off | Entering

  /** Where a kernel thread is in the operations modelled. */
  datatype Pc =
    | User                            // in none of them
    | Woken                           // in sleep() on another channel
    | ForkHold(np: nat)               // in fork(), holding the lock of the new process
    | ForkParent(np: nat)             //   about to set its parent
    | ForkReady(np: nat)              //   about to make it runnable
    | Reparent(k: nat)                // in exit(), at entry k of reparent()'s loop
    | WakeInit(k: nat, m: nat)        //   at entry m of wakeup(initproc), called there
    | WakeParent(q: nat, m: nat)      //   at entry m of wakeup(p->parent)
    | ExitZombie                      //   a zombie, holding wait_lock and its own lock
    | Exited                          //   a zombie, holding its own lock if not switched out
    | WaitScan(k: nat, havekids: bool) // in wait(), at entry k of the scan
    | WaitFound(k: nat)               //   holding the lock of zombie k
    | WaitChecked                     //   not killed, about to sleep()
    | WaitSleep                       //   in sleep(), holding both locks
    | WaitUnlocked                    //   in sleep(), wait_lock released
    | WaitWoken                       //   asleep, or woken and about to acquire wait_lock

  datatype Proc = Proc(state: ProcState, chan: Chan, parent: Option<nat>, killed: bool,
                       lock: Lock, pc: Pc, sw: Switch, hart: nat)

  /** A hart's c->proc and whether the process or the scheduler runs. */
  datatype Cpu = Idle | Running(i: nat) | Back(i: nat)

  datatype Machine = Machine(procs: seq<Proc>, cpus: seq<Cpu>, wait: Option<nat>, init: nat)

  /** The steps, by the operation they belong to. */
  datatype ForkStep = ForkTake(j: nat) | ForkFail | ForkUnlock | ForkAdopt | ForkStart
  datatype ExitStep = ExitLock | ReparentNext | WakeInitNext | WakeParentNext | ExitUnlock
  datatype WaitStep =
    WaitLock | WaitNext | WaitReap | WaitCopyFail | WaitGiveUp | WaitCheck | WaitDoze | WaitUnlock | WaitAsleep
  datatype SleepStep = Sleep(n: int) | Wakeup(m: int) | Kill | Yield
  datatype SchedStep = SwitchOut | SchedDone(c: nat) | Dispatch(c: nat) | Resume

  datatype Step = Fork(f: ForkStep) | Exit(x: ExitStep) | Wait(w: WaitStep) | Doze(z: SleepStep) | Sched(d: SchedStep)

  // A step is taken by the thread of process i, or is about process i, whose entry is p. It
  // may also touch one other entry o, whose contents are q; o is i if there is no other.

  /** A thread at this point holds no spinlock, so a timer interrupt may make it yield(). */
  predicate Rest(pc: Pc) {
    pc.User? || pc.ForkParent? || pc.ForkReady? || pc.WaitWoken?
  }

  /** freeproc(), with the release of p->lock. */
  function Freed(p: Proc): Proc {
    p.(state := UNUSED, chan := NoChan, parent := None, killed := false, lock := Free)
  }

  /** One entry of wakeup(chan). */
  function Roused(p: Proc, chan: Chan): Proc {
    if p.state == SLEEPING && p.chan == chan then p.(state := RUNNABLE) else p
  }

  // ---- fork(): allocproc() takes an UNUSED entry, or freeproc() gives it back; then the
  // three regions at the end of fork()

  function ForkOther(e: ForkStep, i: nat, p: Proc): nat {
    if e.ForkTake? then e.j
    else match p.pc case ForkHold(j) => j case ForkParent(j) => j case ForkReady(j) => j case _ => i
  }

  predicate ForkGuard(e: ForkStep, p: Proc, q: Proc, wait: Option<nat>) {
    p.sw == On && match e
    case ForkTake(_) => p.pc == User && q.lock == Free && q.state == UNUSED
    case ForkFail | ForkUnlock => p.pc.ForkHold?
    case ForkAdopt => p.pc.ForkParent? && wait == None
    case ForkStart => p.pc.ForkReady? && q.lock == Free
  }

  function ForkSelf(e: ForkStep, p: Proc, o: nat): Proc {
    p.(pc := match e
             case ForkTake(_) => ForkHold(o)
             case ForkFail | ForkStart => User
             case ForkUnlock => ForkParent(o)
             case ForkAdopt => ForkReady(o))
  }

  function ForkChild(e: ForkStep, i: nat, q: Proc): Proc {
    match e
    case ForkTake(_) => q.(state := USED, lock := Thread(i), pc := User, sw := Off)
    case ForkFail => Freed(q)
    case ForkUnlock => q.(lock := Free)
    case ForkAdopt => q.(parent := Some(i))
    case ForkStart => q.(state := RUNNABLE)
  }

  // ---- exit(): n is NPROC

  function ExitOther(e: ExitStep, i: nat, p: Proc, n: nat): nat {
    match p.pc
    case Reparent(k) => if e == ReparentNext && k < n then k else i
    case WakeInit(_, m) => if e == WakeInitNext && m < n then m else i
    case WakeParent(_, m) => if e == WakeParentNext && m < n then m else i
    case _ => i
  }

  /** wakeup() passes over the caller's own entry without locking it. */
  predicate ExitGuard(e: ExitStep, i: nat, p: Proc, o: nat, q: Proc, wait: Option<nat>, init: nat, n: nat) {
    (e != ExitUnlock ==> p.sw == On) && match e
    case ExitLock => p.pc == User && i != init && wait == None
    case ReparentNext => p.pc.Reparent? && (p.pc.k >= n ==> p.parent.Some?)
    case WakeInitNext => p.pc.WakeInit? && (o != i ==> q.lock == Free)
    case WakeParentNext => p.pc.WakeParent? && (o != i ==> q.lock == Free) && (p.pc.m >= n ==> p.lock == Free)
    case ExitUnlock => p.pc == ExitZombie
  }

  function ExitSelf(e: ExitStep, i: nat, p: Proc, q: Proc, n: nat): Proc {
    match e
    case ExitLock => p.(pc := Reparent(0))
    case ReparentNext =>
      if !p.pc.Reparent? then p
      else if p.pc.k >= n then (if p.parent.Some? then p.(pc := WakeParent(p.parent.value, 0)) else p)
      else if q.parent == Some(i) then p.(pc := WakeInit(p.pc.k, 0)) else p.(pc := Reparent(p.pc.k + 1))
    case WakeInitNext =>
      if !p.pc.WakeInit? then p
      else if p.pc.m >= n then p.(pc := Reparent(p.pc.k + 1)) else p.(pc := WakeInit(p.pc.k, p.pc.m + 1))
    case WakeParentNext =>
      if !p.pc.WakeParent? then p
      else if p.pc.m >= n then p.(state := ZOMBIE, lock := Thread(i), sw := Leaving, pc := ExitZombie)
      else p.(pc := WakeParent(p.pc.q, p.pc.m + 1))
    case ExitUnlock => p.(pc := Exited)
  }

  function ExitPeer(e: ExitStep, i: nat, p: Proc, q: Proc, init: nat): Proc {
    match e
    case ReparentNext => if q.parent == Some(i) then q.(parent := Some(init)) else q
    case WakeInitNext => Roused(q, ProcChan(init))
    case WakeParentNext => if p.pc.WakeParent? then Roused(q, ProcChan(p.pc.q)) else q
    case _ => q
  }

  // ---- wait()

  function WaitOther(e: WaitStep, i: nat, p: Proc, n: nat): nat {
    match p.pc
    case WaitScan(k, _) => if e == WaitNext && k < n then k else i
    case WaitFound(k) => if e == WaitReap || e == WaitCopyFail then k else i
    case _ => i
  }

  predicate WaitGuard(e: WaitStep, i: nat, p: Proc, q: Proc, wait: Option<nat>, n: nat) {
    (e != WaitUnlock && e != WaitAsleep ==> p.sw == On) && match e
    case WaitLock => (p.pc == User || p.pc == WaitWoken) && wait == None
    case WaitNext => p.pc.WaitScan? && p.pc.k < n && (q.parent == Some(i) ==> q.lock == Free)
    case WaitReap | WaitCopyFail => p.pc.WaitFound?
    case WaitGiveUp => p.pc.WaitScan? && p.pc.k >= n && (!p.pc.havekids || (p.lock == Free && p.killed))
    case WaitCheck => p.pc.WaitScan? && p.pc.k >= n && p.pc.havekids && p.lock == Free && !p.killed
    case WaitDoze => p.pc == WaitChecked && p.lock == Free
    case WaitUnlock => p.pc == WaitSleep
    case WaitAsleep => p.pc == WaitUnlocked
  }

  function WaitSelf(e: WaitStep, i: nat, p: Proc, q: Proc): Proc {
    match e
    case WaitLock => p.(pc := WaitScan(0, false))
    case WaitNext =>
      if !p.pc.WaitScan? then p
      else if q.parent != Some(i) then p.(pc := WaitScan(p.pc.k + 1, p.pc.havekids))
      else if q.state == ZOMBIE then p.(pc := WaitFound(p.pc.k)) else p.(pc := WaitScan(p.pc.k + 1, true))
    case WaitReap | WaitCopyFail | WaitGiveUp => p.(pc := User)
    case WaitCheck => p.(pc := WaitChecked)
    case WaitDoze => p.(lock := Thread(i), sw := Leaving, pc := WaitSleep)
    case WaitUnlock => p.(pc := WaitUnlocked)
    case WaitAsleep => p.(state := SLEEPING, chan := ProcChan(i), pc := WaitWoken)
  }

  function WaitPeer(e: WaitStep, i: nat, q: Proc): Proc {
    match e
    case WaitNext => if q.parent == Some(i) && q.state == ZOMBIE then q.(lock := Thread(i)) else q
    case WaitReap => Freed(q)
    case WaitCopyFail => q.(lock := Free)
    case _ => q
  }

  // ---- sleep() on other channels, wakeup() of them, kill() and yield()

  predicate SleepGuard(e: SleepStep, p: Proc) {
    p.lock == Free && match e
    case Sleep(_) => p.sw == On && p.pc == User
    case Wakeup(_) | Kill => true
    case Yield => p.sw == On && Rest(p.pc)
  }

  function SleepSelf(e: SleepStep, i: nat, p: Proc): Proc {
    match e
    case Sleep(n) => p.(state := SLEEPING, chan := OtherChan(n), lock := Thread(i), sw := Leaving, pc := Woken)
    case Wakeup(n) => Roused(p, OtherChan(n))
    case Kill => p.(killed := true, state := if p.state == SLEEPING then RUNNABLE else p.state)
    case Yield => p.(state := RUNNABLE, lock := Thread(i), sw := Leaving)
  }

  // ---- sched() and scheduler(): swtch() to the scheduler, which keeps the lock; its release;
  // swtch() to a process; and the release of its own lock by that process

  predicate SchedGuard(e: SchedStep, i: nat, p: Proc, cpu: Cpu) {
    match e
    case SwitchOut => p.sw == Leaving && p.pc !in {ExitZombie, WaitSleep, WaitUnlocked}
    case SchedDone(_) => cpu == Back(i)
    case Dispatch(_) => cpu == Idle && p.lock == Free && p.state == RUNNABLE
    case Resume => p.sw == Entering
  }

  function SchedHart(e: SchedStep, p: Proc): nat {
    match e case SchedDone(c) => c case Dispatch(c) => c case _ => p.hart
  }

  function SchedSelf(e: SchedStep, i: nat, p: Proc): Proc {
    match e
    case SwitchOut => p.(sw := Off, lock := Hart(p.hart))
    case SchedDone(_) => p.(lock := Free)
    case Dispatch(c) => p.(state := RUNNING, lock := Thread(i), sw := Entering, hart := c)
    case Resume => p.(lock := Free, sw := On, chan := if p.pc in {Woken, WaitWoken} then NoChan else p.chan,
                      pc := if p.pc == Woken then User else p.pc)
  }

  function SchedCpu(e: SchedStep, i: nat, cpu: Cpu): Cpu {
    match e
    case SwitchOut => Back(i)
    case SchedDone(_) => Idle
    case Dispatch(_) => Running(i)
    case Resume => cpu
  }

  // ---- the machine

  function Other(s: Machine, i: nat, e: Step): nat
    requires i < |s.procs|
  {
    match e
    case Fork(f) => ForkOther(f, i, s.procs[i])
    case Exit(x) => ExitOther(x, i, s.procs[i], |s.procs|)
    case Wait(w) => WaitOther(w, i, s.procs[i], |s.procs|)
    case _ => i
  }

  predicate Enabled(s: Machine, i: nat, e: Step) {
    i < |s.procs| && var p, o := s.procs[i], Other(s, i, e);
    o < |s.procs| && var q := s.procs[o];
    match e
    case Fork(f) => ForkGuard(f, p, q, s.wait)
    case Exit(x) => ExitGuard(x, i, p, o, q, s.wait, s.init, |s.procs|)
    case Wait(w) => WaitGuard(w, i, p, q, s.wait, |s.procs|)
    case Doze(z) => SleepGuard(z, p)
    case Sched(d) => SchedHart(d, p) < |s.cpus| && SchedGuard(d, i, p, s.cpus[SchedHart(d, p)])
  }

  /** Entry o becomes q, and then entry i becomes p. */
  function Put(s: Machine, i: nat, p: Proc, o: nat, q: Proc, wait: Option<nat>): Machine
    requires i < |s.procs| && o < |s.procs|
  {
    s.(procs := s.procs[o := q][i := p], wait := wait)
  }

  function Apply(s: Machine, i: nat, e: Step): Machine
    requires Enabled(s, i, e)
  {
    var p, o := s.procs[i], Other(s, i, e);
    var q := s.procs[o];
    match e
    case Fork(f) => Put(s, i, ForkSelf(f, p, o), o, ForkChild(f, i, q), s.wait)
    case Exit(x) =>
      Put(s, i, ExitSelf(x, i, p, q, |s.procs|), o, ExitPeer(x, i, p, q, s.init), ExitWait(x, i, s.wait))
    case Wait(w) => Put(s, i, WaitSelf(w, i, p, q), o, WaitPeer(w, i, q), WaitWait(w, i, s.wait))
    case Doze(z) => Put(s, i, SleepSelf(z, i, p), i, p, s.wait)
    case Sched(d) =>
      var c := SchedHart(d, p);
      Put(s, i, SchedSelf(d, i, p), i, p, s.wait).(cpus := s.cpus[c := SchedCpu(d, i, s.cpus[c])])
  }

  /** wait_lock after a step of exit() or wait(). */
  function ExitWait(e: ExitStep, i: nat, wait: Option<nat>): Option<nat> {
    match e case ExitLock => Some(i) case ExitUnlock => None case _ => wait
  }

  function WaitWait(e: WaitStep, i: nat, wait: Option<nat>): Option<nat> {
    match e
    case WaitLock => Some(i)
    case WaitReap | WaitCopyFail | WaitGiveUp | WaitUnlock => None
    case _ => wait
  }

  // ---- the invariant: of one entry, of two entries, and of an entry and a hart

  predicate UsesWait(pc: Pc) {
    pc.Reparent? || pc.WakeInit? || pc.WakeParent? || pc == ExitZombie
    || pc.WaitScan? || pc.WaitFound? || pc == WaitChecked || pc == WaitSleep
  }

  predicate LeavingAs(pc: Pc, state: ProcState) {
    match pc
    case WaitSleep | WaitUnlocked => state == RUNNING
    case ExitZombie | Exited => state == ZOMBIE
    case Woken => state == SLEEPING
    case WaitWoken => state == SLEEPING || state == RUNNABLE
    case _ => Rest(pc) && state == RUNNABLE
  }

  /** What the thread of process x holds, and what its state may be. */
  predicate LocalOk(x: nat, p: Proc, wait: Option<nat>) {
    && (p.sw == On ==> p.state == RUNNING && p.lock != Thread(x))
    && (p.sw == On ==> p.pc !in {ExitZombie, Exited, WaitSleep, WaitUnlocked, Woken})
    && (p.sw == Entering ==> p.state == RUNNING && p.lock == Thread(x) && (Rest(p.pc) || p.pc == Woken))
    && (p.sw == Leaving ==> p.lock == Thread(x) && LeavingAs(p.pc, p.state))
    && (p.sw == Off ==> p.state != RUNNING && p.lock != Thread(x))
    && (p.sw == Off ==> if p.pc == Exited then p.state in {ZOMBIE, UNUSED}
                        else p.state != ZOMBIE && (Rest(p.pc) || p.pc == Woken))
    && (p.state in {UNUSED, USED} ==> p.sw == Off && p.chan == NoChan && (p.state == USED ==> p.pc == User))
    && (p.state == SLEEPING ==> p.pc in {Woken, WaitWoken})
    && (p.chan.ProcChan? ==> p.chan.p == x && p.pc == WaitWoken)
    && (p.chan != NoChan ==> p.sw != On && p.pc in {Woken, WaitWoken})
    && (UsesWait(p.pc) <==> wait == Some(x))
  }

  /** Every process in use but init has a parent; init is never in exit(). */
  predicate BornOk(x: nat, p: Proc, init: nat, n: nat) {
    && (p.state == UNUSED ==> p.parent == None)
    && (p.state in {SLEEPING, RUNNABLE, RUNNING, ZOMBIE} && x != init ==> p.parent.Some?)
    && (p.parent.Some? ==> p.parent.value < n && p.parent.value != x)
    && (x == init ==> p.parent == None && p.state in {SLEEPING, RUNNABLE, RUNNING}
                      && !p.pc.Reparent? && !p.pc.WakeInit? && !p.pc.WakeParent?)
    && (p.pc.WakeParent? ==> p.parent == Some(p.pc.q))
    && (p.lock.Thread? ==> p.lock.i < n)
    && (Making(p.pc).Some? ==> Making(p.pc).value < n && Making(p.pc).value != x)
    && (p.pc.WaitFound? ==> p.pc.k < n && p.pc.k != x)
  }

  /** The process that a thread in fork() is making. */
  function Making(pc: Pc): Option<nat> {
    match pc case ForkHold(j) => Some(j) case ForkParent(j) => Some(j) case ForkReady(j) => Some(j) case _ => None
  }

  /** p holds the lock of another process j. */
  predicate HoldsOther(p: Proc, j: nat) {
    p.sw == On && (p.pc == ForkHold(j) || p.pc == WaitFound(j))
  }

  /** A thread in exit() at this point may still be the parent of x. */
  predicate Keeps(pc: Pc, x: nat) {
    match pc
    case Reparent(k) => x >= k
    case WakeInit(k, _) => x > k
    case WakeParent(_, _) | ExitZombie | Exited => false
    case _ => true
  }

  /** A zombie child x is compatible with its parent being at this point of wait(). */
  predicate MayMiss(pc: Pc, x: nat) {
    match pc
    case WaitScan(k, _) => x >= k
    case WaitChecked | WaitSleep => false
    case _ => true
  }

  /** Process x sleeps in wait(). */
  predicate Asleep(x: nat, p: Proc) {
    p.state == SLEEPING && p.chan == ProcChan(x)
  }

  /** It sleeps in wait(), or will before it gives up its lock. */
  predicate Dozing(x: nat, p: Proc) {
    Asleep(x, p) || p.pc == WaitUnlocked
  }

  /** p at this point has already made sure that process y is not dozing. */
  predicate HasRoused(p: Proc, y: nat, init: nat) {
    match p.pc
    case WakeInit(_, m) => y == init && m > init
    case WakeParent(q, m) => y == q && m > q
    case _ => false
  }

  /** Two different processes x and y. */
  predicate PairOk(x: nat, p: Proc, y: nat, q: Proc, init: nat, alert: bool) {
    && (p.lock == Thread(y) <==> HoldsOther(q, x))
    && (Making(p.pc) == Some(y) ==> q.state == USED && q.parent == if p.pc.ForkReady? then Some(x) else None)
    && (Making(p.pc).Some? ==> Making(q.pc) != Making(p.pc))
    && (p.pc == WaitFound(y) ==> q.parent == Some(x) && q.state == ZOMBIE)
    && (p.parent == Some(y) ==> q.state in {SLEEPING, RUNNABLE, RUNNING} && Keeps(q.pc, x))
    && (p.parent == Some(y) && p.state == ZOMBIE ==> MayMiss(q.pc, x))
    && (p.parent == Some(y) && p.state == ZOMBIE && Dozing(y, q) ==> y == init && alert)
    && (HasRoused(p, y, init) ==> !Dozing(y, q))
  }

  predicate HartOk(c: nat, cpu: Cpu, x: nat, p: Proc) {
    && (cpu == Running(x) <==> p.sw != Off && p.hart == c)
    && (cpu == Back(x) <==> p.lock == Hart(c))
    && (cpu == Back(x) ==> p.sw == Off)
  }

  /** An exit() has handed init a child and has not yet come to init's entry to wake it. */
  predicate Alert(s: Machine) {
    s.wait.Some? && s.wait.value < |s.procs| && var pc := s.procs[s.wait.value].pc;
    pc.WakeInit? && pc.m <= s.init
  }

  predicate OneOk(s: Machine, x: nat) {
    x < |s.procs| && LocalOk(x, s.procs[x], s.wait) && BornOk(x, s.procs[x], s.init, |s.procs|)
    && (s.procs[x].sw != Off ==> s.procs[x].hart < |s.cpus|)
    && (s.procs[x].lock.Hart? ==> s.procs[x].lock.c < |s.cpus|)
  }

  predicate TwoOk(s: Machine, x: nat, y: nat) {
    x < |s.procs| && y < |s.procs| && PairOk(x, s.procs[x], y, s.procs[y], s.init, Alert(s))
  }

  predicate CpuOk(s: Machine, c: nat, x: nat) {
    c < |s.cpus| && x < |s.procs| && HartOk(c, s.cpus[c], x, s.procs[x])
  }

  ghost predicate Inv(s: Machine) {
    && s.init < |s.procs| && (s.wait.Some? ==> s.wait.value < |s.procs|)
    && (forall x {:trigger OneOk(s, x)} :: 0 <= x < |s.procs| ==> OneOk(s, x))
    && (forall x, y {:trigger TwoOk(s, x, y)} :: 0 <= x < |s.procs| && 0 <= y < |s.procs| && x != y ==> TwoOk(s, x, y))
    && (forall c, x {:trigger CpuOk(s, c, x)} :: 0 <= c < |s.cpus| && 0 <= x < |s.procs| ==> CpuOk(s, c, x))
    && (forall c :: 0 <= c < |s.cpus| && !s.cpus[c].Idle? ==> s.cpus[c].i < |s.procs|)
  }
}
