/**
 The write-ahead log of kernel/log.c as a machine of atomic steps.

 Every disk write of commit() and of recover_from_log() is one step, a crash may
 happen before any of them, and any number of file-system operations may run
 between begin_op() and end_op() at once.
 */
module LogMachine {

  const MAXOPBLOCKS: nat := 10
  const LOGSIZE: nat := MAXOPBLOCKS * 3
  const WORDS: nat := 256 // 32-bit words in a block of BSIZE bytes

  /** A disk block, as the array of 32-bit words it holds. */
  type Block = seq<nat>

  type Disk = map<nat, Block>

  /** Where the log lies: header at `start`, then nlog - 1 data slots. */
  datatype Geometry = Geometry(start: nat, nlog: nat, nblocks: nat)

  ghost predicate Wf(g: Geometry) {
    g.nlog >= 1 && g.start + g.nlog <= g.nblocks
  }

  /** A block outside the log region. */
  predicate Home(g: Geometry, b: nat) {
    b < g.nblocks && !(g.start <= b < g.start + g.nlog)
  }

  /** The number of logged blocks at which log_write() panics. */
  function Limit(g: Geometry): nat {
    if LOGSIZE < g.nlog then LOGSIZE else if g.nlog == 0 then 0 else g.nlog - 1
  }

  /** write_head(): n and the first n block numbers; later words keep what they held. */
  function EncodeHead(was: Block, lh: seq<nat>): Block
    requires |lh| < |was|
  {
    [|lh|] + lh + was[1 + |lh|..]
  }

  /** read_head() */
  function DecodeHead(b: Block): seq<nat>
    requires |b| > 0 && b[0] < |b|
  {
    b[1..1 + b[0]]
  }

  lemma HeadRoundTrip(was: Block, lh: seq<nat>)
    requires |lh| < |was|
    ensures |EncodeHead(was, lh)| == |was|
    ensures EncodeHead(was, lh)[0] == |lh| && forall i :: 0 <= i < |lh| ==> EncodeHead(was, lh)[1 + i] == lh[i]
    ensures DecodeHead(EncodeHead(was, lh)) == lh
  {
  }

  /** Where the machine is in end_op()/commit(), or in recovery after a crash. */
  datatype Phase =
    | Running
    | LogCopy(tail: nat)   // write_log() loop
    | HeadWrite            // first write_head()
    | Install(tail: nat)   // install_trans(0) loop
    | HeadClear            // second write_head()
    | Finish               // about to clear log.committing
    | Boot                 // before read_head()
    | Replay(rtail: nat)   // install_trans(1) loop
    | ReplayClear          // write_head() of recover_from_log()

  /**
   `dirty` holds the bytes of the pinned buffers, `ops` how many blocks each
   operation in progress has added to the log, and `durable` the home blocks as
   the last transaction whose header reached the disk left them.
   */
  datatype State = State(
    disk: Disk,
    dirty: map<nat, Block>,
    lh: seq<nat>,
    ops: seq<nat>,
    phase: Phase,
    durable: map<nat, Block>)

  datatype Event =
    | Begin
    | Write(op: nat, b: nat, data: Block)
    | End(op: nat)
    | DiskStep             // the next step of commit() or of recovery
    | Crash

  /** The home blocks as the file system above sees them. */
  ghost function View(g: Geometry, s: State): map<nat, Block>
    requires DiskOk(g, s.disk)
  {
    map b: nat | b < g.nblocks && Home(g, b) :: if b in s.dirty then s.dirty[b] else s.disk[b]
  }

  ghost predicate DiskOk(g: Geometry, d: Disk) {
    forall b: nat :: b < g.nblocks ==> b in d && |d[b]| == WORDS
  }

  ghost function HomeBlocks(g: Geometry, d: Disk): map<nat, Block>
    requires DiskOk(g, d)
  {
    map b: nat | b < g.nblocks && Home(g, b) :: d[b]
  }

  predicate LogWritePanics(g: Geometry, s: State) {
    |s.lh| >= Limit(g)
  }

  /** When an event can happen; each operation adds at most `k` distinct blocks. */
  ghost predicate Enabled(g: Geometry, s: State, e: Event, k: nat) {
    match e
    case Begin => s.phase.Running? && |s.lh| + (|s.ops| + 1) * MAXOPBLOCKS <= LOGSIZE
    case Write(op, b, data) =>
      && s.phase.Running? && op < |s.ops| && Home(g, b) && |data| == WORDS
      && !LogWritePanics(g, s)
      && (b !in s.lh ==> s.ops[op] < k)
    case End(op) => s.phase.Running? && op < |s.ops|
    case DiskStep => !s.phase.Running? && Defined(g, s)
    case Crash => true
  }

  /** The blocks and list entries that the next step of commit() or recovery touches exist. */
  ghost predicate Defined(g: Geometry, s: State) {
    match s.phase
    case LogCopy(t) => t < |s.lh| && s.lh[t] in s.dirty
    case HeadWrite => DiskOk(g, s.disk) && g.start in s.disk && |s.lh| < |s.disk[g.start]|
    case Install(t) => t < |s.lh| && g.start + 1 + t in s.disk
    case Replay(t) => t < |s.lh| && g.start + 1 + t in s.disk
    case Boot => g.start in s.disk && |s.disk[g.start]| > 0 && s.disk[g.start][0] < |s.disk[g.start]|
    case _ => g.start in s.disk && |s.disk[g.start]| > 0
  }

  function Without(ops: seq<nat>, i: nat): seq<nat>
    requires i < |ops|
  {
    ops[..i] + ops[i + 1..]
  }

  /** The effect of an event. */
  ghost function Apply(g: Geometry, s: State, e: Event, k: nat): State
    requires Enabled(g, s, e, k)
  {
    match e
    case Begin => s.(ops := s.ops + [0])
    case Write(op, b, data) =>
      if b in s.lh then s.(dirty := s.dirty[b := data])
      else s.(dirty := s.dirty[b := data], lh := s.lh + [b], ops := s.ops[op := s.ops[op] + 1])
    case End(op) =>
      var ops := Without(s.ops, op);
      s.(ops := ops,
         phase := if ops != [] then Running else if s.lh == [] then Finish else LogCopy(0))
    case Crash => s.(dirty := map[], lh := [], ops := [], phase := Boot)
    case DiskStep => ApplyDiskStep(g, s)
  }

  ghost function ApplyDiskStep(g: Geometry, s: State): State
    requires !s.phase.Running? && Defined(g, s)
  {
    match s.phase
    case LogCopy(t) =>
      s.(disk := s.disk[g.start + 1 + t := s.dirty[s.lh[t]]],
         phase := if t + 1 == |s.lh| then HeadWrite else LogCopy(t + 1))
    case HeadWrite =>
      s.(disk := s.disk[g.start := EncodeHead(s.disk[g.start], s.lh)],
         phase := Install(0),
         durable := View(g, s))
    case Install(t) =>
      s.(disk := s.disk[s.lh[t] := s.disk[g.start + 1 + t]],
         dirty := s.dirty - {s.lh[t]},
         phase := if t + 1 == |s.lh| then HeadClear else Install(t + 1))
    case HeadClear =>
      s.(disk := s.disk[g.start := EncodeHead(s.disk[g.start], [])], lh := [], phase := Finish)
    case Finish => s.(phase := Running)
    case Boot =>
      var lh := DecodeHead(s.disk[g.start]);
      s.(lh := lh, phase := if lh == [] then ReplayClear else Replay(0))
    case Replay(t) =>
      s.(disk := s.disk[s.lh[t] := s.disk[g.start + 1 + t]],
         phase := if t + 1 == |s.lh| then ReplayClear else Replay(t + 1))
    case ReplayClear =>
      s.(disk := s.disk[g.start := EncodeHead(s.disk[g.start], [])], lh := [], phase := Running)
  }

  // ----- the invariant -----

  ghost predicate Distinct(lh: seq<nat>) {
    forall i, j :: 0 <= i < j < |lh| ==> lh[i] != lh[j]
  }

  /** A list of block numbers that the log can hold. */
  ghost predicate LogList(g: Geometry, lh: seq<nat>) {
    && |lh| <= Limit(g)
    && Distinct(lh)
    && forall i :: 0 <= i < |lh| ==> Home(g, lh[i])
  }

  ghost predicate HeadIs(g: Geometry, d: Disk, lh: seq<nat>) {
    && g.start in d && |d[g.start]| == WORDS && d[g.start][0] < WORDS
    && DecodeHead(d[g.start]) == lh
  }

  /** Every logged block has its durable bytes in its log slot; those among the first
      `done`, and every home block not logged, are durable in place too. */
  ghost predicate Pending(d: Disk, g: Geometry, lh: seq<nat>, done: nat, durable: map<nat, Block>) {
    && LogList(g, lh) && HeadIs(g, d, lh)
    && (forall i :: 0 <= i < |lh| ==> Holds(d, g.start + 1 + i, durable, lh[i]))
    && (forall i :: 0 <= i < |lh| && i < done ==> Holds(d, lh[i], durable, lh[i]))
    && (forall b: nat :: Home(g, b) && b !in lh ==> Holds(d, b, durable, b))
  }

  /** Disk block `b` holds the bytes that `m` gives to block `home`. */
  ghost predicate Holds(d: Disk, b: nat, m: map<nat, Block>, home: nat) {
    b in d && home in m && d[b] == m[home]
  }

  ghost predicate InPlace(g: Geometry, s: State) {
    && HeadIs(g, s.disk, [])
    && forall b: nat :: Home(g, b) ==> Holds(s.disk, b, s.durable, b)
  }

  ghost predicate DirtyIs(s: State, lh: seq<nat>) {
    && (forall b :: b in s.dirty <==> b in lh)
    && (forall b :: b in s.dirty ==> |s.dirty[b]| == WORDS)
  }

  /** As DirtyIs, when the first t logged blocks have been installed and unpinned. */
  ghost predicate DirtyFrom(s: State, t: nat) {
    && (forall b :: b in s.dirty ==> b in s.lh && |s.dirty[b]| == WORDS)
    && (forall i :: 0 <= i < |s.lh| ==> (s.lh[i] in s.dirty <==> t <= i))
  }

  /** Log slots 0 .. t-1 hold the dirty bytes of the blocks they stand for. */
  ghost predicate Copied(g: Geometry, s: State, t: nat) {
    forall i :: 0 <= i < t && i < |s.lh| ==> Holds(s.disk, g.start + 1 + i, s.dirty, s.lh[i])
  }

  ghost predicate Inv(g: Geometry, s: State) {
    && DiskOk(g, s.disk)
    && LogList(g, s.lh)
    && (forall b: nat :: b in s.durable <==> Home(g, b))
    && PhaseInv(g, s)
  }

  ghost predicate PhaseInv(g: Geometry, s: State) {
    match s.phase
    case Running => InPlace(g, s) && DirtyIs(s, s.lh) && (s.ops == [] ==> s.lh == [])
    case LogCopy(t) => s.ops == [] && t < |s.lh| && InPlace(g, s) && DirtyIs(s, s.lh) && Copied(g, s, t)
    case HeadWrite => s.ops == [] && s.lh != [] && InPlace(g, s) && DirtyIs(s, s.lh) && Copied(g, s, |s.lh|)
    case Install(t) => s.ops == [] && t < |s.lh| && DirtyFrom(s, t) && Pending(s.disk, g, s.lh, t, s.durable)
    case HeadClear => s.ops == [] && s.lh != [] && DirtyIs(s, []) && Pending(s.disk, g, s.lh, |s.lh|, s.durable)
    case Finish => s.ops == [] && s.lh == [] && DirtyIs(s, []) && InPlace(g, s)
    case Boot => s.ops == [] && s.lh == [] && DirtyIs(s, []) && (exists h :: Pending(s.disk, g, h, 0, s.durable))
    case Replay(t) => s.ops == [] && t < |s.lh| && DirtyIs(s, []) && Pending(s.disk, g, s.lh, t, s.durable)
    case ReplayClear => s.ops == [] && DirtyIs(s, []) && Pending(s.disk, g, s.lh, |s.lh|, s.durable)
  }

  // ----- each step keeps the invariant -----

  /** Commit and recovery never get stuck. */
  lemma NeverStuck(g: Geometry, s: State)
    requires Wf(g) && Inv(g, s)
    ensures !s.phase.Running? ==> Defined(g, s)
  {
  }

  lemma CrashKeeps(g: Geometry, s: State, k: nat)
    requires Wf(g) && Inv(g, s)
    ensures Inv(g, Apply(g, s, Crash, k))
  {
    if !s.phase.Boot? {
      var h := DecodeHead(s.disk[g.start]);
      assert Pending(s.disk, g, h, 0, s.durable);
    }
  }

  lemma OpKeeps(g: Geometry, s: State, e: Event, k: nat)
    requires Wf(g) && Inv(g, s) && Enabled(g, s, e, k) && (e.Begin? || e.Write? || e.End?)
    ensures Inv(g, Apply(g, s, e, k))
  {
    if e.Write? && e.b !in s.lh {
      var lh' := s.lh + [e.b];
      assert forall b :: b in lh' <==> b in s.lh || b == e.b;
    }
  }

  lemma InstallKeepsPending(g: Geometry, d: Disk, lh: seq<nat>, t: nat, durable: map<nat, Block>)
    requires Wf(g) && DiskOk(g, d) && t < |lh| && Pending(d, g, lh, t, durable)
    ensures var d' := d[lh[t] := d[g.start + 1 + t]];
            DiskOk(g, d') && Pending(d', g, lh, t + 1, durable)
  {
    hide DecodeHead;
    var d' := d[lh[t] := d[g.start + 1 + t]];
    assert Home(g, lh[t]) && Holds(d, g.start + 1 + t, durable, lh[t]);
    forall i | 0 <= i < |lh| ensures Holds(d', g.start + 1 + i, durable, lh[i]) {
      assert Holds(d, g.start + 1 + i, durable, lh[i]);
    }
    forall b: nat | Home(g, b) && b !in lh ensures Holds(d', b, durable, b) { assert Holds(d, b, durable, b); }
  }

  lemma ClearedInPlace(g: Geometry, s: State, s': State)
    requires Wf(g) && DiskOk(g, s.disk) && Pending(s.disk, g, s.lh, |s.lh|, s.durable)
    requires s'.disk == s.disk[g.start := EncodeHead(s.disk[g.start], [])]
    requires s'.durable == s.durable
    ensures DiskOk(g, s'.disk) && InPlace(g, s')
  {
  }

  /** Writing the header is the commit point: the log now stands for the whole transaction. */
  lemma HeadWritePending(g: Geometry, s: State, d: Disk)
    requires Wf(g) && Inv(g, s) && s.phase.HeadWrite?
    requires d == s.disk[g.start := EncodeHead(s.disk[g.start], s.lh)]
    ensures DiskOk(g, d) && Pending(d, g, s.lh, 0, View(g, s))
  {
    hide Inv, PhaseInv, EncodeHead, DecodeHead, LogList;
    HeadWriteFacts(g, s);
    HeadRoundTrip(s.disk[g.start], s.lh);
    forall i | 0 <= i < |s.lh| ensures Holds(d, g.start + 1 + i, View(g, s), s.lh[i]) {
      assert s.lh[i] in s.lh && Home(g, s.lh[i]);
    }
    forall b: nat | Home(g, b) && b !in s.lh ensures Holds(d, b, View(g, s), b) {
      assert b !in s.dirty && Holds(s.disk, b, s.durable, b);
    }
  }

  lemma HeadWriteFacts(g: Geometry, s: State)
    requires Wf(g) && Inv(g, s) && s.phase.HeadWrite?
    ensures DiskOk(g, s.disk) && InPlace(g, s) && DirtyIs(s, s.lh) && Copied(g, s, |s.lh|) && LogList(g, s.lh)
    ensures |s.lh| < WORDS && forall i :: 0 <= i < |s.lh| ==> Home(g, s.lh[i])
  {
  }

  lemma LogCopyKeeps(g: Geometry, s: State)
    requires Wf(g) && Inv(g, s) && s.phase.LogCopy? && Defined(g, s)
    ensures Inv(g, ApplyDiskStep(g, s))
  {
    hide Pending, DirtyFrom, EncodeHead, DecodeHead;
    var s' := ApplyDiskStep(g, s);
    assert s.lh[s.phase.tail] in s.lh;
  }

  lemma InstallUnpins(s: State, s': State, t: nat)
    requires t < |s.lh| && Distinct(s.lh) && DirtyFrom(s, t)
    requires s'.lh == s.lh && s'.dirty == s.dirty - {s.lh[t]}
    ensures DirtyFrom(s', t + 1) && (t + 1 == |s.lh| ==> DirtyIs(s', []))
  {
  }

  lemma InstallKeeps(g: Geometry, s: State)
    requires Wf(g) && Inv(g, s) && s.phase.Install? && Defined(g, s)
    ensures Inv(g, ApplyDiskStep(g, s))
  {
    hide Pending, DirtyFrom, DirtyIs, DiskOk, InPlace, Copied;
    var t := s.phase.tail;
    var s' := ApplyDiskStep(g, s);
    InstallKeepsPending(g, s.disk, s.lh, t, s.durable);
    InstallUnpins(s, s', t);
    assert s'.disk == s.disk[s.lh[t] := s.disk[g.start + 1 + t]];
    assert Pending(s'.disk, g, s'.lh, t + 1, s'.durable);
    assert PhaseInv(g, s');
  }

  lemma ReplayKeeps(g: Geometry, s: State)
    requires Wf(g) && Inv(g, s) && s.phase.Replay? && Defined(g, s)
    ensures Inv(g, ApplyDiskStep(g, s))
  {
    hide Pending, DirtyFrom, DiskOk, InPlace, Copied;
    var t := s.phase.rtail;
    var s' := ApplyDiskStep(g, s);
    InstallKeepsPending(g, s.disk, s.lh, t, s.durable);
    assert Pending(s'.disk, g, s'.lh, t + 1, s'.durable);
    assert PhaseInv(g, s');
  }

  lemma ClearKeeps(g: Geometry, s: State)
    requires Wf(g) && Inv(g, s) && (s.phase.HeadClear? || s.phase.ReplayClear?) && Defined(g, s)
    ensures Inv(g, ApplyDiskStep(g, s))
  {
    ClearedInPlace(g, s, ApplyDiskStep(g, s));
  }

  lemma DiskStepKeeps(g: Geometry, s: State)
    requires Wf(g) && Inv(g, s) && !s.phase.Running? && Defined(g, s)
    ensures Inv(g, ApplyDiskStep(g, s))
  {
    match s.phase
    case LogCopy(_) => LogCopyKeeps(g, s);
    case HeadWrite => HeadWritePending(g, s, ApplyDiskStep(g, s).disk);
    case Install(_) => InstallKeeps(g, s);
    case Finish =>
    case Boot =>
    case Replay(_) => ReplayKeeps(g, s);
    case _ => ClearKeeps(g, s);
  }

  lemma StepKeeps(g: Geometry, s: State, e: Event, k: nat)
    requires Wf(g) && Inv(g, s) && Enabled(g, s, e, k)
    ensures Inv(g, Apply(g, s, e, k))
  {
    match e
    case Crash => CrashKeeps(g, s, k);
    case DiskStep => DiskStepKeeps(g, s);
    case _ => OpKeeps(g, s, e, k);
  }

  // ----- runs -----

  ghost predicate Steps(g: Geometry, k: nat, s: State, e: Event, s': State) {
    Enabled(g, s, e, k) && s' == Apply(g, s, e, k)
  }

  /** `ss` are the states of a run whose events are `es`. */
  ghost predicate IsRun(g: Geometry, k: nat, ss: seq<State>, es: seq<Event>) {
    && |ss| == |es| + 1
    && forall i {:trigger es[i]} :: 0 <= i < |es| ==> Steps(g, k, ss[i], es[i], ss[i + 1])
  }

  lemma Extend(g: Geometry, k: nat, ss: seq<State>, es: seq<Event>, e: Event)
    returns (ss': seq<State>, es': seq<Event>)
    requires IsRun(g, k, ss, es) && Enabled(g, ss[|es|], e, k)
    ensures es' == es + [e] && ss' == ss + [Apply(g, ss[|es|], e, k)]
    ensures IsRun(g, k, ss', es')
  {
    ss', es' := ss + [Apply(g, ss[|es|], e, k)], es + [e];
    forall i {:trigger es'[i]} | 0 <= i < |es'| ensures Steps(g, k, ss'[i], es'[i], ss'[i + 1]) {
      if i < |es| { assert es'[i] == es[i]; }
    }
  }

  lemma {:induction false} RunKeeps(g: Geometry, k: nat, ss: seq<State>, es: seq<Event>, i: nat)
    requires Wf(g) && IsRun(g, k, ss, es) && Inv(g, ss[0]) && i < |ss|
    ensures Inv(g, ss[i])
  {
    if i > 0 {
      RunKeeps(g, k, ss, es, i - 1);
      StepKeeps(g, ss[i - 1], es[i - 1], k);
    }
  }

  /** A disk as mkfs leaves it: an empty log, and the home blocks are what is durable. */
  ghost predicate Fresh(g: Geometry, s: State) {
    && s.phase.Boot? && s.ops == [] && s.lh == [] && s.dirty == map[]
    && DiskOk(g, s.disk) && HeadIs(g, s.disk, [])
    && s.durable == HomeBlocks(g, s.disk)
  }

  lemma FreshInv(g: Geometry, s: State)
    requires Wf(g) && Fresh(g, s)
    ensures Inv(g, s)
  {
    assert Pending(s.disk, g, [], 0, s.durable);
  }

  /** Neither copying into the log nor about to write the header. */
  predicate PastCommitPoint(p: Phase) {
    !p.LogCopy? && !p.HeadWrite? && !p.Running?
  }

  lemma RunningInPlace(g: Geometry, s: State)
    requires Inv(g, s) && s.phase.Running?
    ensures HomeBlocks(g, s.disk) == s.durable
  {
  }

  lemma RecoveryStep(g: Geometry, k: nat, s: State, e: Event)
    requires e.DiskStep? || e.Crash?
    requires PastCommitPoint(s.phase) && Enabled(g, s, e, k)
    ensures var s' := Apply(g, s, e, k);
            s'.durable == s.durable && (PastCommitPoint(s'.phase) || s'.phase.Running?)
  {
  }

  /** From there recovery steps and crashes, in any number, keep what is durable. */
  lemma {:induction false} RecoveryKeepsDurable(
      g: Geometry, k: nat, ss: seq<State>, es: seq<Event>, o: nat, i: nat)
    requires IsRun(g, k, ss, es) && o <= i < |ss|
    requires forall j :: o <= j < i ==> es[j].DiskStep? || es[j].Crash?
    requires PastCommitPoint(ss[o].phase)
    ensures ss[i].durable == ss[o].durable
    ensures PastCommitPoint(ss[i].phase) || ss[i].phase.Running?
  {
    if i > o {
      RecoveryKeepsDurable(g, k, ss, es, o, i - 1);
      assert Steps(g, k, ss[i - 1], es[i - 1], ss[i]);
      if PastCommitPoint(ss[i - 1].phase) {
        RecoveryStep(g, k, ss[i - 1], es[i - 1]);
      }
    }
  }

  lemma CopyStep(g: Geometry, s: State)
    requires Wf(g) && Inv(g, s) && s.phase.LogCopy? && Defined(g, s)
    ensures var s' := ApplyDiskStep(g, s);
            && Inv(g, s') && s'.lh == s.lh && s'.durable == s.durable
            && s'.phase == (if s.phase.tail + 1 == |s.lh| then HeadWrite else LogCopy(s.phase.tail + 1))
            && View(g, s') == View(g, s)
  {
    LogCopyKeeps(g, s);
  }

  /** Between the end of the last operation and the header write, i blocks are in the log,
      and neither what is durable nor what the file system sees has changed. */
  lemma {:induction false} CopyKeepsDurable(g: Geometry, k: nat, ss: seq<State>, es: seq<Event>, i: nat)
    requires Wf(g) && IsRun(g, k, ss, es) && i + 1 < |ss|
    requires Inv(g, ss[1]) && ss[1].phase == LogCopy(0) && i <= |ss[1].lh|
    requires forall j :: 1 <= j <= i ==> es[j].DiskStep?
    ensures Inv(g, ss[i + 1]) && ss[i + 1].lh == ss[1].lh && ss[i + 1].durable == ss[1].durable
    ensures ss[i + 1].phase == if i == |ss[1].lh| then HeadWrite else LogCopy(i)
    ensures View(g, ss[i + 1]) == View(g, ss[1])
  {
    if i > 0 {
      CopyKeepsDurable(g, k, ss, es, i - 1);
      assert es[i].DiskStep?;
      CopyStep(g, ss[i]);
    }
  }

  lemma EndStartsCommit(g: Geometry, k: nat, s: State)
    requires Wf(g) && Inv(g, s) && s.phase.Running? && |s.ops| == 1 && s.lh != []
    ensures var s' := Apply(g, s, End(0), k);
            && Inv(g, s') && s'.phase == LogCopy(0) && s'.lh == s.lh
            && s'.durable == HomeBlocks(g, s.disk) && View(g, s') == View(g, s)
  {
  }

  /** What is durable right after the crash, or right after the header write if that came first. */
  lemma CommitOutcome(g: Geometry, k: nat, ss: seq<State>, es: seq<Event>, c: nat)
    requires Wf(g) && IsRun(g, k, ss, es) && Inv(g, ss[0])
    requires |ss[0].ops| == 1 && ss[0].lh != [] && c <= |ss[0].lh|
    requires c + 1 < |es| && es[0] == End(0)
    requires forall i :: 1 <= i <= c ==> es[i].DiskStep?
    requires es[c + 1].Crash? || (es[c + 1].DiskStep? && c == |ss[0].lh|)
    ensures DiskOk(g, ss[0].disk) && Inv(g, ss[c + 2]) && PastCommitPoint(ss[c + 2].phase)
    ensures ss[c + 2].durable == if es[c + 1].Crash? then HomeBlocks(g, ss[0].disk) else View(g, ss[0])
  {
    EndStartsCommit(g, k, ss[0]);
    CopyKeepsDurable(g, k, ss, es, c);
    StepKeeps(g, ss[c + 1], es[c + 1], k);
  }

  /**
   Crash atomicity. The last operation ends with `lh` blocks logged; commit() makes j of
   its disk writes; the machine crashes; recovery is itself interrupted by any number of
   crashes; at last it completes. If j is at most |lh| the header never reached the disk
   and every home block is as it was before the transaction. Otherwise every home block is
   as the transaction's operations left it.
   */
  lemma CrashAtomicity(g: Geometry, k: nat, ss: seq<State>, es: seq<Event>, j: nat)
    requires Wf(g) && IsRun(g, k, ss, es) && Inv(g, ss[0])
    requires |ss[0].ops| == 1 && ss[0].lh != []
    requires j + 1 < |es| && es[0] == End(0) && es[j + 1].Crash?
    requires forall i :: 1 <= i <= j ==> es[i].DiskStep?
    requires forall i :: j + 1 <= i < |es| ==> es[i].DiskStep? || es[i].Crash?
    requires ss[|es|].phase.Running?
    ensures DiskOk(g, ss[0].disk) && DiskOk(g, ss[|es|].disk)
    ensures HomeBlocks(g, ss[|es|].disk) ==
            if j <= |ss[0].lh| then HomeBlocks(g, ss[0].disk) else View(g, ss[0])
  {
    var c := if j <= |ss[0].lh| then j else |ss[0].lh|;
    CommitOutcome(g, k, ss, es, c);
    RecoveryKeepsDurable(g, k, ss, es, c + 2, |es|);
    RunKeeps(g, k, ss, es, |es|);
    RunningInPlace(g, ss[|es|]);
  }
}
