/**
 Log-space reservation by begin_op(): how full the log can get when each operation adds
 at most k distinct blocks, and exactly when log_write() can panic.
 */
module LogReservation {
  import opened LogMachine

  /** Blocks that the operations in progress may still add. */
  function Slack(ops: seq<nat>, k: nat): int {
    if ops == [] then 0 else k - ops[0] + Slack(ops[1..], k)
  }

  lemma {:induction false} SlackConcat(a: seq<nat>, b: seq<nat>, k: nat)
    ensures Slack(a + b, k) == Slack(a, k) + Slack(b, k)
  {
    if a == [] {
      assert a + b == b;
    } else {
      SlackConcat(a[1..], b, k);
      assert (a + b)[1..] == a[1..] + b;
    }
  }

  lemma SlackSplit(ops: seq<nat>, i: nat, k: nat)
    requires i < |ops|
    ensures Slack(ops, k) == Slack(Without(ops, i), k) + k - ops[i]
  {
    assert ops == (ops[..i] + [ops[i]]) + ops[i + 1..];
    SlackConcat(ops[..i] + [ops[i]], ops[i + 1..], k);
    SlackConcat(ops[..i], [ops[i]], k);
    SlackConcat(ops[..i], ops[i + 1..], k);
  }

  lemma SlackUpdate(ops: seq<nat>, i: nat, k: nat)
    requires i < |ops|
    ensures Slack(ops[i := ops[i] + 1], k) == Slack(ops, k) - 1
  {
    SlackSplit(ops, i, k);
    SlackSplit(ops[i := ops[i] + 1], i, k);
    assert Without(ops[i := ops[i] + 1], i) == Without(ops, i);
  }

  ghost predicate Within(ops: seq<nat>, k: nat) {
    forall i :: 0 <= i < |ops| ==> ops[i] <= k
  }

  lemma {:induction false} SlackBounds(ops: seq<nat>, k: nat)
    requires Within(ops, k)
    ensures 0 <= Slack(ops, k) <= |ops| * k
  {
    if ops != [] {
      assert Within(ops[1..], k);
      SlackBounds(ops[1..], k);
      assert |ops| * k == |ops[1..]| * k + k;
    }
  }

  /** The most blocks that can be in the log at once. */
  function Bound(k: nat): nat {
    MAXOPBLOCKS + 2 * k
  }

  ghost predicate Reserved(g: Geometry, s: State, k: nat) {
    && Within(s.ops, k)
    && |s.lh| + Slack(s.ops, k) <= Bound(k)
    && g.start in s.disk && s.disk[g.start] != [] && s.disk[g.start][0] <= Bound(k)
  }

  lemma BeginArith(n: nat, o: nat, slack: int, k: nat)
    requires k <= MAXOPBLOCKS && slack <= o * k && n + (o + 1) * MAXOPBLOCKS <= LOGSIZE
    requires o == 0 ==> n == 0
    ensures n + slack + k <= Bound(k)
  {
  }

  lemma ReservedOp(g: Geometry, s: State, e: Event, k: nat)
    requires k <= MAXOPBLOCKS && Reserved(g, s, k) && Enabled(g, s, e, k)
    requires e.Begin? || e.Write? || e.End?
    requires s.ops == [] ==> s.lh == []
    ensures Reserved(g, Apply(g, s, e, k), k)
  {
    SlackBounds(s.ops, k);
    match e
    case Begin =>
      SlackConcat(s.ops, [0], k);
      BeginArith(|s.lh|, |s.ops|, Slack(s.ops, k), k);
    case Write(op, b, data) =>
      if b !in s.lh { SlackUpdate(s.ops, op, k); }
    case End(op) => SlackSplit(s.ops, op, k);
  }

  lemma ReservedDiskStep(g: Geometry, s: State, k: nat)
    requires Wf(g) && Inv(g, s) && Reserved(g, s, k) && !s.phase.Running? && Defined(g, s)
    ensures Reserved(g, ApplyDiskStep(g, s), k)
  {
    var s' := ApplyDiskStep(g, s);
    assert s.ops == [] && s'.ops == [];
    match s.phase
    case Install(t) => assert Home(g, s.lh[t]);
    case Replay(t) => assert Home(g, s.lh[t]);
    case _ =>
  }

  lemma ReservedStep(g: Geometry, k: nat, s: State, e: Event)
    requires Wf(g) && k <= MAXOPBLOCKS && Inv(g, s) && Reserved(g, s, k) && Enabled(g, s, e, k)
    ensures Reserved(g, Apply(g, s, e, k), k)
  {
    match e
    case Crash =>
    case DiskStep => ReservedDiskStep(g, s, k);
    case _ => ReservedOp(g, s, e, k);
  }

  lemma ReservedFresh(g: Geometry, k: nat, s: State)
    requires Wf(g) && Fresh(g, s)
    ensures Inv(g, s) && Reserved(g, s, k)
  {
    FreshInv(g, s);
  }

  lemma {:induction false} ReservedRun(g: Geometry, k: nat, ss: seq<State>, es: seq<Event>, i: nat)
    requires Wf(g) && k <= MAXOPBLOCKS && IsRun(g, k, ss, es) && Fresh(g, ss[0]) && i < |ss|
    ensures Inv(g, ss[i]) && Reserved(g, ss[i], k)
  {
    hide Inv, Reserved, Enabled, Apply, Wf, Fresh;
    ReservedFresh(g, k, ss[0]);
    RunKeeps(g, k, ss, es, i);
    if i > 0 {
      ReservedRun(g, k, ss, es, i - 1);
      assert Steps(g, k, ss[i - 1], es[i - 1], ss[i]);
      ReservedStep(g, k, ss[i - 1], es[i - 1]);
    }
  }

  /**
   Log reservation, over every run with crashes. The log never holds more than Bound(k)
   blocks, none twice; commit() runs only when no operation is in progress; and when none
   is, and no commit is under way, the log is empty.
   */
  lemma LogReservation(g: Geometry, k: nat, ss: seq<State>, es: seq<Event>, i: nat)
    requires Wf(g) && k <= MAXOPBLOCKS && IsRun(g, k, ss, es) && Fresh(g, ss[0]) && i < |ss|
    ensures |ss[i].lh| <= Bound(k) && |ss[i].lh| <= Limit(g) && Distinct(ss[i].lh)
    ensures !ss[i].phase.Running? ==> ss[i].ops == []
    ensures ss[i].phase.Running? && ss[i].ops == [] ==> ss[i].lh == []
  {
    ReservedRun(g, k, ss, es, i);
    SlackBounds(ss[i].ops, k);
  }

  // ----- exactly when log_write() can panic -----

  /** Some run leads to an operation whose next log_write() panics. */
  ghost predicate CanPanic(g: Geometry, s0: State, k: nat) {
    exists ss, es :: PanicRun(g, s0, k, ss, es)
  }

  ghost predicate PanicRun(g: Geometry, s0: State, k: nat, ss: seq<State>, es: seq<Event>) {
    && IsRun(g, k, ss, es) && ss[0] == s0
    && var s := ss[|es|]; s.phase.Running? && s.ops != [] && LogWritePanics(g, s)
  }

  /** Enough home blocks after the log for a transaction of Limit(g) blocks. */
  ghost predicate Roomy(g: Geometry) {
    g.start + g.nlog + Limit(g) <= g.nblocks
  }

  ghost function FirstBlocks(g: Geometry, n: nat): seq<nat> {
    seq(n, (i: nat) => g.start + g.nlog + i)
  }

  /** The run so far ends with `ops` in progress and the first n home blocks after the log logged. */
  ghost predicate Led(g: Geometry, s0: State, k: nat, ss: seq<State>, es: seq<Event>, ops: seq<nat>, n: nat) {
    && IsRun(g, k, ss, es) && ss[0] == s0
    && var s := ss[|es|]; s.phase.Running? && s.ops == ops && s.lh == FirstBlocks(g, n)
  }

  lemma BootRun(g: Geometry, s0: State, k: nat) returns (ss: seq<State>, es: seq<Event>)
    requires Wf(g) && Fresh(g, s0)
    ensures Led(g, s0, k, ss, es, [], 0)
  {
    ss, es := [s0], [];
    ss, es := Extend(g, k, ss, es, DiskStep);
    ss, es := Extend(g, k, ss, es, DiskStep);
  }

  /** Operation `op` logs the next block. */
  lemma LogOne(g: Geometry, s0: State, k: nat, ss: seq<State>, es: seq<Event>, ops: seq<nat>, n: nat, op: nat)
    returns (ss': seq<State>, es': seq<Event>)
    requires Roomy(g) && n < Limit(g) && Led(g, s0, k, ss, es, ops, n) && op < |ops| && ops[op] < k
    ensures Led(g, s0, k, ss', es', ops[op := ops[op] + 1], n + 1)
  {
    var data := seq(WORDS, _ => 0);
    var b := g.start + g.nlog + n;
    assert b !in FirstBlocks(g, n);
    assert FirstBlocks(g, n) + [b] == FirstBlocks(g, n + 1);
    ss', es' := Extend(g, k, ss, es, Write(op, b, data));
  }

  /** With one operation left open, short operations fill the log to MAXOPBLOCKS blocks. */
  lemma {:induction false} FillByShortOps(
      g: Geometry, s0: State, k: nat, ss: seq<State>, es: seq<Event>, n: nat)
    returns (ss': seq<State>, es': seq<Event>)
    requires Roomy(g) && 1 <= k && n <= MAXOPBLOCKS && n <= Limit(g) && Led(g, s0, k, ss, es, [0], n)
    ensures Led(g, s0, k, ss', es', [0], if Limit(g) <= MAXOPBLOCKS then Limit(g) else MAXOPBLOCKS)
    decreases MAXOPBLOCKS - n
  {
    ss', es' := ss, es;
    if n < MAXOPBLOCKS && n < Limit(g) {
      ss', es' := Extend(g, k, ss', es', Begin);
      ss', es' := LogOne(g, s0, k, ss', es', [0, 0], n, 1);
      assert Without([0, 1], 1) == [0];
      ss', es' := Extend(g, k, ss', es', End(1));
      ss', es' := FillByShortOps(g, s0, k, ss', es', n + 1);
    }
  }

  /** Two operations in progress log k blocks each, or as many as fit. */
  lemma {:induction false} FillByTwo(
      g: Geometry, s0: State, k: nat, ss: seq<State>, es: seq<Event>, a: nat, b: nat)
    returns (ss': seq<State>, es': seq<Event>)
    requires Roomy(g) && MAXOPBLOCKS + a + b <= Limit(g) <= Bound(k) && a <= k && b <= k
    requires Led(g, s0, k, ss, es, [a, b], MAXOPBLOCKS + a + b)
    ensures PanicRun(g, s0, k, ss', es')
    decreases Limit(g) - a - b
  {
    ss', es' := ss, es;
    if MAXOPBLOCKS + a + b < Limit(g) {
      if b < k {
        ss', es' := LogOne(g, s0, k, ss, es, [a, b], MAXOPBLOCKS + a + b, 1);
        ss', es' := FillByTwo(g, s0, k, ss', es', a, b + 1);
      } else {
        ss', es' := LogOne(g, s0, k, ss, es, [a, b], MAXOPBLOCKS + a + b, 0);
        ss', es' := FillByTwo(g, s0, k, ss', es', a + 1, b);
      }
    }
  }

  lemma PanicReachable(g: Geometry, s0: State, k: nat)
    requires Wf(g) && Roomy(g) && 1 <= k && Fresh(g, s0) && Limit(g) <= Bound(k)
    ensures CanPanic(g, s0, k)
  {
    var ss, es := BootRun(g, s0, k);
    ss, es := Extend(g, k, ss, es, Begin);
    ss, es := FillByShortOps(g, s0, k, ss, es, 0);
    if Limit(g) > MAXOPBLOCKS {
      ss, es := Extend(g, k, ss, es, Begin);
      ss, es := FillByTwo(g, s0, k, ss, es, 0, 0);
    }
    assert PanicRun(g, s0, k, ss, es);
  }

  /**
   begin_op()'s reservation keeps log_write() from panicking if and only if
   MAXOPBLOCKS + 2 * k is below the panic limit.
   */
  lemma PanicIff(g: Geometry, s0: State, k: nat)
    requires Wf(g) && Roomy(g) && 1 <= k <= MAXOPBLOCKS && Fresh(g, s0)
    ensures CanPanic(g, s0, k) <==> Limit(g) <= Bound(k)
  {
    if Limit(g) <= Bound(k) {
      PanicReachable(g, s0, k);
    } else if CanPanic(g, s0, k) {
      var ss, es :| PanicRun(g, s0, k, ss, es);
      LogReservation(g, k, ss, es, |es|);
    }
  }

  /**
   On the disk mkfs makes, where the log has LOGSIZE blocks header included, an operation
   may log nine distinct blocks but not MAXOPBLOCKS: the guard in log_write() is tighter
   than the one in begin_op().
   */
  lemma MkfsLog(g: Geometry, s0: State, k: nat)
    requires Wf(g) && Roomy(g) && 1 <= k <= MAXOPBLOCKS && Fresh(g, s0) && g.nlog == LOGSIZE
    ensures CanPanic(g, s0, k) <==> k == MAXOPBLOCKS
  {
    PanicIff(g, s0, k);
  }
}
