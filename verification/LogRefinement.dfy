/**
 The disks that commit() and recover_from_log() pass through, one after each block they
 write, are the disks of a run of the machine: so CrashAtomicity covers every one of them.
 */
module LogRefinement {
  import opened LogMachine
  import opened LogDisks

  /** From s, disk steps pass through exactly the disks of `trace` and end in `last`. */
  ghost predicate Follows(g: Geometry, k: nat, s: State, ss: seq<State>, trace: seq<Disk>, last: State) {
    && |ss| == |trace| + 1 && ss[0] == s && ss[|trace|] == last
    && IsRun(g, k, ss, seq(|trace|, _ => DiskStep))
    && forall i {:trigger trace[i]} :: 0 <= i < |trace| ==> ss[i + 1].disk == trace[i]
  }

  lemma Push(g: Geometry, k: nat, s: State, ss: seq<State>, trace: seq<Disk>, last: State)
    returns (ss': seq<State>)
    requires Follows(g, k, s, ss, trace, last) && !last.phase.Running? && Defined(g, last)
    ensures var t := ApplyDiskStep(g, last); Follows(g, k, s, ss', trace + [t.disk], t)
  {
    var es := seq(|trace|, _ => DiskStep);
    ghost var es';
    ss', es' := Extend(g, k, ss, es, DiskStep);
    var t := ApplyDiskStep(g, last);
    assert es' == seq(|trace| + 1, _ => DiskStep);
    forall i {:trigger (trace + [t.disk])[i]} | 0 <= i < |trace + [t.disk]|
      ensures ss'[i + 1].disk == (trace + [t.disk])[i]
    {
      if i < |trace| { assert trace[i] == ss[i + 1].disk; }
    }
  }

  lemma FollowsNone(g: Geometry, k: nat, s: State)
    ensures Follows(g, k, s, [s], [], s)
  {
  }

  ghost predicate AllDirty(s: State) {
    forall j :: 0 <= j < |s.lh| ==> s.lh[j] in s.dirty
  }

  lemma {:induction false} CopyFollows(g: Geometry, k: nat, s: State, i: nat) returns (ss: seq<State>)
    requires s.phase == LogCopy(0) && AllDirty(s) && s.lh != [] && i <= |s.lh|
    ensures Follows(g, k, s, ss, CopyTrace(g, s.disk, s.dirty, s.lh, i),
                    s.(disk := CopyDisk(g, s.disk, s.dirty, s.lh, i),
                       phase := if i == |s.lh| then HeadWrite else LogCopy(i)))
  {
    if i == 0 {
      ss := [s];
    } else {
      ss := CopyFollows(g, k, s, i - 1);
      ss := Push(g, k, s, ss, CopyTrace(g, s.disk, s.dirty, s.lh, i - 1),
                 s.(disk := CopyDisk(g, s.disk, s.dirty, s.lh, i - 1), phase := LogCopy(i - 1)));
    }
  }

  /** The state of install_trans(), in commit() or in recovery, before its loop starts. */
  ghost predicate AtInstall(s: State) {
    s.phase == Install(0) || s.phase == Replay(0)
  }

  ghost function InstallPhase(s: State, i: nat): Phase {
    if s.phase.Install? then (if i == |s.lh| then HeadClear else Install(i))
    else if i == |s.lh| then ReplayClear else Replay(i)
  }

  /** Iteration i of install_trans(). */
  lemma InstallStep(g: Geometry, s: State, last: State, i: nat)
    requires AtInstall(s) && 0 < i <= |s.lh| && SlotsOnDisk(g, s.disk, |s.lh|)
    requires last == s.(disk := InstallDisk(g, s.disk, s.lh, i - 1), dirty := last.dirty,
      phase := InstallPhase(s, i - 1))
    ensures !last.phase.Running? && Defined(g, last)
    ensures var t := ApplyDiskStep(g, last);
      t == s.(disk := InstallDisk(g, s.disk, s.lh, i), dirty := t.dirty, phase := InstallPhase(s, i))
  {
    assert g.start + i in s.disk.Keys;
  }

  lemma {:induction false} InstallFollows(g: Geometry, k: nat, s: State, i: nat)
    returns (ss: seq<State>, last: State)
    requires AtInstall(s) && s.lh != [] && i <= |s.lh| && SlotsOnDisk(g, s.disk, |s.lh|)
    ensures last == s.(disk := InstallDisk(g, s.disk, s.lh, i), dirty := last.dirty, phase := InstallPhase(s, i))
    ensures Follows(g, k, s, ss, InstallTrace(g, s.disk, s.lh, i), last)
  {
    hide Follows;
    if i == 0 {
      ss, last := [s], s;
      FollowsNone(g, k, s);
    } else {
      ss, last := InstallFollows(g, k, s, i - 1);
      InstallStep(g, s, last, i);
      hide ApplyDiskStep, Defined, InstallPhase;
      ss := Push(g, k, s, ss, InstallTrace(g, s.disk, s.lh, i - 1), last);
      last := ApplyDiskStep(g, last);
    }
  }

  /** Installing and clearing the header, as commit() and recovery both end. */
  lemma ClearFollows(g: Geometry, k: nat, s: State) returns (ss: seq<State>, last: State)
    requires AtInstall(s) && s.lh != [] && Installable(g, s.disk, s.lh)
    ensures last.phase == if s.phase.Install? then Finish else Running
    ensures Follows(g, k, s, ss, RecoverTrace(g, s.disk, s.lh), last)
  {
    ss, last := InstallFollows(g, k, s, |s.lh|);
    InstallKeepsHead(g, s.disk, s.lh, |s.lh|);
    ss := Push(g, k, s, ss, InstallTrace(g, s.disk, s.lh, |s.lh|), last);
    last := ApplyDiskStep(g, last);
  }

  lemma Join(g: Geometry, k: nat, s: State, ss: seq<State>, tr: seq<Disk>, mid: State,
             ss': seq<State>, tr': seq<Disk>, last: State) returns (r: seq<State>)
    requires Follows(g, k, s, ss, tr, mid) && Follows(g, k, mid, ss', tr', last)
    ensures Follows(g, k, s, r, tr + tr', last)
  {
    r := ss + ss'[1..];
    var es := seq(|tr + tr'|, _ => DiskStep);
    forall i {:trigger es[i]} | 0 <= i < |es| ensures Steps(g, k, r[i], es[i], r[i + 1]) {
      if i < |tr| {
        assert seq(|tr|, _ => DiskStep)[i] == DiskStep;
      } else {
        assert seq(|tr'|, _ => DiskStep)[i - |tr|] == DiskStep;
        assert r[i] == ss'[i - |tr|] && r[i + 1] == ss'[i - |tr| + 1];
      }
    }
    forall i {:trigger (tr + tr')[i]} | 0 <= i < |tr + tr'| ensures r[i + 1].disk == (tr + tr')[i] {
      if i < |tr| { assert tr[i] == ss[i + 1].disk; }
      else { assert tr'[i - |tr|] == ss'[i - |tr| + 1].disk; }
    }
  }

  lemma ReadyToCommit(g: Geometry, s: State)
    requires Wf(g) && Inv(g, s) && s.phase == LogCopy(0)
    ensures s.lh != [] && AllDirty(s) && CommitReady(g, s.disk, s.dirty, s.lh)
  {
  }

  /**
   From the state in which end_op() calls commit(), the disks that commit() in Log records in
   its history are those of a run of the machine, in the same order.
   */
  lemma CommitRefines(g: Geometry, k: nat, s: State) returns (ss: seq<State>, last: State)
    requires Wf(g) && Inv(g, s) && s.phase == LogCopy(0)
    ensures CommitReady(g, s.disk, s.dirty, s.lh) && last.phase.Finish?
    ensures Follows(g, k, s, ss, CommitTrace(g, s.disk, s.dirty, s.lh), last)
  {
    ReadyToCommit(g, s);
    var n := |s.lh|;
    ss := CopyFollows(g, k, s, n);
    var t := s.(disk := CopyDisk(g, s.disk, s.dirty, s.lh, n), phase := HeadWrite);
    RunKeeps(g, k, ss, seq(n, _ => DiskStep), n);
    NeverStuck(g, t);
    var copies := CopyTrace(g, s.disk, s.dirty, s.lh, n);
    ss := Push(g, k, s, ss, copies, t);
    var c := ApplyDiskStep(g, t);
    assert c.disk == CommittedDisk(g, s.disk, s.dirty, s.lh);
    ghost var rest;
    rest, last := ClearFollows(g, k, c);
    ss := Join(g, k, s, ss, copies + [c.disk], c, rest, RecoverTrace(g, c.disk, s.lh), last);
  }

  /** The same for recovery, from the state in which it has read the header: initlog() may be
      called on every disk that a crash can leave. */
  lemma RecoverRefines(g: Geometry, k: nat, s: State) returns (ss: seq<State>, last: State)
    requires Wf(g) && Inv(g, s) && s.phase.Boot?
    ensures RecoverReady(g, s.disk) && last.phase.Running?
    ensures Defined(g, s) && Follows(g, k, ApplyDiskStep(g, s), ss, RecoveredTrace(g, s.disk), last)
  {
    NeverStuck(g, s);
    var t := ApplyDiskStep(g, s);
    DiskStepKeeps(g, s);
    if t.lh == [] {
      ss := Push(g, k, t, [t], [], t);
      last := ApplyDiskStep(g, t);
    } else {
      ss, last := ClearFollows(g, k, t);
    }
  }
}
