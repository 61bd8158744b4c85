/**
 The disks that the loops of commit() and recover_from_log() in kernel/log.c pass through, one
 after each block they write: those are the disks that a crash can leave behind.
 */
module LogDisks {
  import opened LogMachine

  /** write_log(), after i iterations. */
  ghost function CopyDisk(g: Geometry, d: Disk, dirty: map<nat, Block>, lh: seq<nat>, i: nat): Disk
    requires i <= |lh| && forall j :: 0 <= j < |lh| ==> lh[j] in dirty
  {
    if i == 0 then d else CopyDisk(g, d, dirty, lh, i - 1)[g.start + i := dirty[lh[i - 1]]]
  }

  /** install_trans(), after i iterations. */
  ghost function InstallDisk(g: Geometry, d: Disk, lh: seq<nat>, i: nat): (r: Disk)
    requires i <= |lh| && SlotsOnDisk(g, d, |lh|)
    ensures d.Keys <= r.Keys
  {
    if i == 0 then d else
      var p := InstallDisk(g, d, lh, i - 1);
      p[lh[i - 1] := p[g.start + i]]
  }

  ghost predicate SlotsOnDisk(g: Geometry, d: Disk, n: nat) {
    forall b :: g.start < b <= g.start + n ==> b in d
  }

  ghost function CopyTrace(g: Geometry, d: Disk, dirty: map<nat, Block>, lh: seq<nat>, i: nat): (r: seq<Disk>)
    requires i <= |lh| && forall j :: 0 <= j < |lh| ==> lh[j] in dirty
    ensures |r| == i
  {
    if i == 0 then [] else CopyTrace(g, d, dirty, lh, i - 1) + [CopyDisk(g, d, dirty, lh, i)]
  }

  ghost function InstallTrace(g: Geometry, d: Disk, lh: seq<nat>, i: nat): seq<Disk>
    requires i <= |lh| && SlotsOnDisk(g, d, |lh|)
  {
    if i == 0 then [] else InstallTrace(g, d, lh, i - 1) + [InstallDisk(g, d, lh, i)]
  }

  ghost function HeadDisk(g: Geometry, d: Disk, lh: seq<nat>): Disk
    requires g.start in d && |lh| < |d[g.start]|
  {
    d[g.start := EncodeHead(d[g.start], lh)]
  }

  lemma {:induction false} CopyKeepsHead(g: Geometry, d: Disk, dirty: map<nat, Block>, lh: seq<nat>, i: nat)
    requires i <= |lh| && forall j :: 0 <= j < |lh| ==> lh[j] in dirty
    ensures var r := CopyDisk(g, d, dirty, lh, i);
      d.Keys <= r.Keys && (g.start in d ==> r[g.start] == d[g.start])
  {
    if i > 0 { CopyKeepsHead(g, d, dirty, lh, i - 1); }
  }

  lemma {:induction false} InstallKeepsHead(g: Geometry, d: Disk, lh: seq<nat>, i: nat)
    requires i <= |lh| && SlotsOnDisk(g, d, |lh|) && g.start !in lh && g.start in d
    ensures InstallDisk(g, d, lh, i)[g.start] == d[g.start]
  {
    if i > 0 { InstallKeepsHead(g, d, lh, i - 1); }
  }

  /** What commit() needs: the logged blocks are pinned, distinct from the header, and the
      log has a slot for each. */
  ghost predicate CommitReady(g: Geometry, d: Disk, dirty: map<nat, Block>, lh: seq<nat>) {
    && (forall j :: 0 <= j < |lh| ==> lh[j] in dirty)
    && SlotsOnDisk(g, d, |lh|) && g.start !in lh
    && g.start in d && |lh| < |d[g.start]| && Distinct(lh)
    && forall b :: b in dirty ==> !(g.start <= b <= g.start + |lh|)
  }

  /** The disk right after the first write_head(). */
  ghost function CommittedDisk(g: Geometry, d: Disk, dirty: map<nat, Block>, lh: seq<nat>): (r: Disk)
    requires CommitReady(g, d, dirty, lh)
    ensures Installable(g, r, lh)
  {
    CopyKeepsHead(g, d, dirty, lh, |lh|);
    HeadDisk(g, CopyDisk(g, d, dirty, lh, |lh|), lh)
  }

  /** The log has a slot for each of the blocks, and none of them is the header. */
  ghost predicate Installable(g: Geometry, d: Disk, lh: seq<nat>) {
    SlotsOnDisk(g, d, |lh|) && g.start !in lh && g.start in d && |d[g.start]| > 0
  }

  /** The disk when commit() returns. */
  ghost function ClearedDisk(g: Geometry, d: Disk, lh: seq<nat>): Disk
    requires Installable(g, d, lh)
  {
    InstallKeepsHead(g, d, lh, |lh|);
    HeadDisk(g, InstallDisk(g, d, lh, |lh|), [])
  }

  /** Every disk that commit() passes through. */
  ghost function CommitTrace(g: Geometry, d: Disk, dirty: map<nat, Block>, lh: seq<nat>): seq<Disk>
    requires CommitReady(g, d, dirty, lh)
  {
    var c := CommittedDisk(g, d, dirty, lh);
    CopyTrace(g, d, dirty, lh, |lh|) + [c] + RecoverTrace(g, c, lh)
  }

  /** Every disk that recovery passes through when it finds `lh` in the header. */
  ghost function RecoverTrace(g: Geometry, d: Disk, lh: seq<nat>): seq<Disk>
    requires Installable(g, d, lh)
  {
    InstallTrace(g, d, lh, |lh|) + [ClearedDisk(g, d, lh)]
  }

  /** What recovery needs of the disk: a header that lists blocks outside the log, and no more of
      them than there is room for. */
  ghost predicate RecoverReady(g: Geometry, d: Disk) {
    && g.start in d && |d[g.start]| > 0 && d[g.start][0] < |d[g.start]| && d[g.start][0] <= LOGSIZE
    && SlotsOnDisk(g, d, d[g.start][0]) && Outside(g, d, DecodeHead(d[g.start]))
  }

  /** The disk that recovery leaves, and those that it passes through. */
  ghost function RecoveredDisk(g: Geometry, d: Disk): Disk
    requires RecoverReady(g, d)
  {
    ClearedDisk(g, d, DecodeHead(d[g.start]))
  }

  ghost function RecoveredTrace(g: Geometry, d: Disk): seq<Disk>
    requires RecoverReady(g, d)
  {
    RecoverTrace(g, d, DecodeHead(d[g.start]))
  }

  /** The blocks are on the disk, and none is in the part of the log that holds them. */
  ghost predicate Outside(g: Geometry, d: Disk, lh: seq<nat>) {
    forall j :: 0 <= j < |lh| ==> lh[j] in d && !(g.start <= lh[j] <= g.start + |lh|)
  }

  /** From the t-th on, each log slot holds the bytes of the block it stands for. */
  ghost predicate Slotted(g: Geometry, d: Disk, dirty: map<nat, Block>, lh: seq<nat>, t: nat) {
    forall j :: t <= j < |lh| ==> lh[j] in dirty && Holds(d, g.start + 1 + j, dirty, lh[j])
  }

  /** The blocks that iteration t of install_trans() reads and writes. */
  lemma InstallFacts(g: Geometry, d: Disk, lh: seq<nat>, t: nat)
    requires t < |lh| && SlotsOnDisk(g, d, |lh|) && Outside(g, d, lh)
    ensures var p := InstallDisk(g, d, lh, t); lh[t] in p && g.start + 1 + t in p && lh[t] != g.start + 1 + t
  {
    assert lh[t] in d.Keys && g.start + 1 + t in d.Keys;
  }

  /** Installing block t keeps the slots of the blocks after it. */
  lemma InstallSlots(g: Geometry, d: Disk, dirty: map<nat, Block>, lh: seq<nat>, t: nat)
    requires t < |lh| && Distinct(lh) && Slotted(g, d, dirty, lh, t) && g.start + 1 + t in d
    requires exists d0 :: Outside(g, d0, lh)
    ensures Slotted(g, d[lh[t] := d[g.start + 1 + t]], dirty - {lh[t]}, lh, t + 1)
    ensures lh[t] in dirty && dirty[lh[t]] == d[g.start + 1 + t]
  {
  }

  lemma {:induction false} CopySlots(g: Geometry, d: Disk, dirty: map<nat, Block>, lh: seq<nat>, i: nat)
    requires i <= |lh| && forall j :: 0 <= j < |lh| ==> lh[j] in dirty
    ensures forall j :: 0 <= j < i ==> Holds(CopyDisk(g, d, dirty, lh, i), g.start + 1 + j, dirty, lh[j])
  {
    if i > 0 { CopySlots(g, d, dirty, lh, i - 1); }
  }

  /** After write_log() and write_head(), the log holds the whole transaction. */
  lemma CommitSlots(g: Geometry, d: Disk, dirty: map<nat, Block>, lh: seq<nat>)
    requires CommitReady(g, d, dirty, lh) && forall x :: x in dirty ==> x in d
    ensures var c := CommittedDisk(g, d, dirty, lh); Slotted(g, c, dirty, lh, 0) && Outside(g, c, lh)
  {
    CopySlots(g, d, dirty, lh, |lh|);
    CopyKeepsHead(g, d, dirty, lh, |lh|);
  }

  /** What write_head() needs after install_trans(). */
  lemma InstalledHead(g: Geometry, d: Disk, lh: seq<nat>)
    requires Installable(g, d, lh)
    ensures SlotsOnDisk(g, d, |lh|)
    ensures var r := InstallDisk(g, d, lh, |lh|);
      g.start in r && |r[g.start]| > 0 && ClearedDisk(g, d, lh) == HeadDisk(g, r, [])
    ensures RecoverTrace(g, d, lh) == InstallTrace(g, d, lh, |lh|) + [ClearedDisk(g, d, lh)]
  {
    InstallKeepsHead(g, d, lh, |lh|);
  }

  /** A header that recovery can follow. */
  lemma ReadyInstallable(g: Geometry, d: Disk)
    requires RecoverReady(g, d)
    ensures |d[g.start]| > 0 && d[g.start][0] < |d[g.start]| && d[g.start][0] <= LOGSIZE && g.start in d
    ensures var lh := DecodeHead(d[g.start]);
      && Installable(g, d, lh) && Outside(g, d, lh)
      && RecoveredDisk(g, d) == ClearedDisk(g, d, lh) && RecoveredTrace(g, d) == RecoverTrace(g, d, lh)
  {
  }

  function SetOf(lh: seq<nat>): set<nat> {
    set b | b in lh
  }

  lemma SetOfNone(m: map<nat, Block>)
    ensures m - SetOf([]) == m
  {
  }

  lemma SetOfNext(lh: seq<nat>, t: nat, m: map<nat, Block>)
    requires t < |lh|
    ensures m - SetOf(lh[..t + 1]) == m - SetOf(lh[..t]) - {lh[t]}
  {
  }
}
