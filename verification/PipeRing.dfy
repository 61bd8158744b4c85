/**
 The pipe of kernel/pipe.c. Every method is what one process does while it holds the pipe's
 lock: to the release of the lock, or to the sleep() that releases it. A process that has
 been woken goes on by calling the method again with what is left to do.
 */
module PipeRing {
  const PIPESIZE: nat := 512
  const TWO32: nat := 0x1_0000_0000

  /** A 32-bit counter after k increments. */
  function U32(k: nat): nat {
    k % TWO32
  }

  function Slot(k: nat): (i: nat)
    ensures i < PIPESIZE
  {
    k % PIPESIZE
  }

  /** A region ends with a return, with -1, or asleep. */
  datatype Outcome = Done | Failed | Asleep

  /** The bytes from r to w - 1 of all that was ever written are in the buffer. */
  ghost predicate Buffered(data: seq<nat>, put: seq<nat>, r: nat) {
    && |data| == PIPESIZE && r <= |put| <= r + PIPESIZE
    && forall k :: r <= k < |put| ==> data[Slot(k)] == put[k]
  }

  lemma PutByte(data: seq<nat>, put: seq<nat>, r: nat, ch: nat)
    requires Buffered(data, put, r) && |put| < r + PIPESIZE
    ensures Buffered(data[Slot(|put|) := ch], put + [ch], r)
  {
  }

  /** 32-bit counters lead to the same slots, and tell empty and full, also where they wrap. */
  lemma Counters(r: nat, w: nat, nread: nat, nwrite: nat)
    requires nread == U32(r) && nwrite == U32(w) && r <= w <= r + PIPESIZE
    ensures Slot(nread) == Slot(r) && Slot(nwrite) == Slot(w)
    ensures nread == nwrite <==> r == w
    ensures nwrite == U32(nread + PIPESIZE) <==> w == r + PIPESIZE
    ensures U32(nread + 1) == U32(r + 1) && U32(nwrite + 1) == U32(w + 1)
  {
    Counter(r, 1);
    Counter(w, 1);
    Counter(r, PIPESIZE);
    Apart(r, w);
    Apart(w, r + PIPESIZE);
    hide U32, Slot;
  }

  lemma Counter(k: nat, d: nat)
    ensures Slot(U32(k)) == Slot(k) && U32(U32(k) + d) == U32(k + d)
  {
    var q := k / TWO32;
    assert k == U32(k) + TWO32 * q && TWO32 * q == PIPESIZE * (8388608 * q);
    hide U32, Slot;
    SlotShift(U32(k), 8388608 * q);
    U32Shift(U32(k) + d, q);
  }

  lemma {:induction false} SlotShift(k: nat, q: nat)
    ensures Slot(k + PIPESIZE * q) == Slot(k)
  {
    if q > 0 { SlotShift(k, q - 1); }
  }

  lemma {:induction false} U32Shift(k: nat, q: nat)
    ensures U32(k + TWO32 * q) == U32(k)
  {
    if q > 0 { U32Shift(k, q - 1); }
  }

  /** Counts that differ by less than 2^32 are told apart. */
  lemma Apart(a: nat, b: nat)
    requires a <= b < a + TWO32
    ensures U32(a) == U32(b) <==> a == b
  {
  }

  function Min(a: nat, b: nat): nat {
    if a < b then a else b
  }

  /** How many more bytes fit. */
  function Room(put: seq<nat>, taken: seq<nat>): nat {
    if |put| <= |taken| + PIPESIZE then |taken| + PIPESIZE - |put| else 0
  }

  class PipeBuffer {
    var data: seq<nat>
    var nread: nat
    var nwrite: nat
    var readopen: bool
    var writeopen: bool
    var readers: set<nat>      // asleep on nread
    var writers: set<nat>      // asleep on nwrite
    ghost var put: seq<nat>    // all bytes ever put in
    ghost var taken: seq<nat>  // all bytes ever taken out
    ghost var quiet: bool      // no writer was killed after it had put bytes in and not woken anyone

    /** What was taken out is the beginning of what was put in, and the rest is in the buffer. */
    ghost predicate Fifo()
      reads this
    {
      taken <= put && Buffered(data, put, |taken|) && nread == U32(|taken|) && nwrite == U32(|put|)
    }

    ghost predicate Valid()
      reads this
    {
      && Fifo()
      && (writers != {} ==> |put| == |taken| + PIPESIZE && readopen)
      && (quiet && readers != {} ==> |put| == |taken| && writeopen)
    }

    /** pipealloc() */
    constructor ()
      ensures Valid() && put == [] && taken == [] && quiet && readopen && writeopen && readers == writers == {}
    {
      data := seq(PIPESIZE, _ => 0);
      nread, nwrite, readopen, writeopen := 0, 0, true, true;
      readers, writers, put, taken, quiet := {}, {}, [], [], true;
    }

    /** pipewrite() of src by process me, which is killed once it has put killAt bytes in, and
        whose copyin() fails at byte failAt. */
    method Write(me: nat, src: seq<nat>, killAt: nat, failAt: nat) returns (out: Outcome, i: nat)
      requires Valid() && me !in writers
      modifies this
      ensures Valid() && i <= |src| && taken == old(taken) && put == old(put) + src[..i]
      ensures readopen == old(readopen) && writeopen == old(writeopen)
      ensures readers == if out == Failed then old(readers) else {}
      ensures writers == if out == Asleep then old(writers) + {me} else old(writers)
      ensures quiet == (old(quiet) && (out == Failed ==> i == 0))
      ensures i == if readopen then Min(Min(|src|, killAt), Min(Room(old(put), taken), failAt)) else 0
      ensures out == if i == |src| then Done else if !readopen || killAt <= i then Failed
                     else if i == Room(old(put), taken) then Asleep else Done
      ensures old(readers != {} ==> |put| == |taken|) ==>
                (readers != {} && |put| > |taken| <==>
                 old(readers) != {} && readopen && 0 < killAt < |src| && killAt <= failAt && killAt <= PIPESIZE)
    {
      hide Buffered, U32, Slot;
      i := 0;
      Bounds(data, put, |taken|);
      while i < |src|
        invariant i <= |src| && i <= killAt && i <= failAt && i <= Room(old(put), taken) && (i > 0 ==> readopen)
        invariant Fifo() && taken == old(taken) && put == old(put) + src[..i]
        invariant readopen == old(readopen) && writeopen == old(writeopen)
        invariant readers == old(readers) && writers == old(writers) && quiet == old(quiet)
      {
        if !readopen || killAt <= i {
          quiet := quiet && i == 0;
          return Failed, i;
        }
        Bounds(data, put, |taken|);
        Counters(|taken|, |put|, nread, nwrite);
        if nwrite == U32(nread + PIPESIZE) {
          readers := {};
          writers := writers + {me};
          return Asleep, i;
        }
        if i == failAt {
          break;
        }
        PutOne(src[i]);
        assert src[..i + 1] == src[..i] + [src[i]];
        i := i + 1;
      }
      readers := {};
      return Done, i;
    }

    /** pi->data[pi->nwrite++ % PIPESIZE] = ch */
    method PutOne(ch: nat)
      requires Fifo() && |put| < |taken| + PIPESIZE
      modifies this`data, this`nwrite, this`put
      ensures Fifo() && put == old(put) + [ch]
    {
      hide Buffered, U32, Slot;
      Bounds(data, put, |taken|);
      Counters(|taken|, |put|, nread, nwrite);
      PutByte(data, put, |taken|, ch);
      data := data[Slot(nwrite) := ch];
      nwrite := U32(nwrite + 1);
      put := put + [ch];
    }

    /** piperead() of at most n bytes by process me; its copyout() fails at byte failAt, after that
        byte has left the pipe. */
    method Read(me: nat, n: nat, killed: bool, failAt: nat) returns (out: Outcome, got: seq<nat>)
      requires Valid() && me !in readers
      modifies this
      ensures Valid() && put == old(put) && readopen == old(readopen) && writeopen == old(writeopen)
        && quiet == old(quiet)
      ensures out == Asleep <==> |put| == |old(taken)| && writeopen && !killed
      ensures out == Failed <==> |put| == |old(taken)| && writeopen && killed
      ensures out != Done ==> taken == old(taken) && got == [] && writers == old(writers)
      ensures out == Asleep ==> readers == old(readers) + {me}
      ensures out != Asleep ==> readers == old(readers)
      ensures out == Done ==> writers == {}
      ensures out == Done ==> old(taken) + got <= taken <= put && |got| == Min(n, Min(|put| - |old(taken)|, failAt))
      ensures out == Done ==>
        |taken| == |old(taken)| + |got| + if |got| == failAt < Min(n, |put| - |old(taken)|) then 1 else 0
    {
      hide Buffered, U32, Slot;
      got := [];
      Bounds(data, put, |taken|);
      Counters(|taken|, |put|, nread, nwrite);
      if nread == nwrite && writeopen {
        if killed {
          return Failed, [];
        }
        readers := readers + {me};
        return Asleep, [];
      }
      while |got| < n
        invariant |got| <= n && |got| <= failAt && taken == old(taken) + got && taken <= put
          && Buffered(data, put, |taken|)
        invariant nread == U32(|taken|) && nwrite == U32(|put|)
        invariant put == old(put) && readopen == old(readopen) && writeopen == old(writeopen) && quiet == old(quiet)
        invariant readers == old(readers) && writers == old(writers) && (old(|put| == |taken|) ==> got == [])
        decreases n - |got|
      {
        Bounds(data, put, |taken|);
        Counters(|taken|, |put|, nread, nwrite);
        if nread == nwrite {
          break;
        }
        TakeByte(data, put, |taken|);
        var ch := data[Slot(nread)];
        nread := U32(nread + 1);
        taken := taken + [ch];
        if |got| == failAt {
          break;
        }
        got := got + [ch];
      }
      writers := {};
      return Done, got;
    }

    /** pipeclose() of the write end, or of the read end. */
    method Close(writable: bool)
      requires Valid()
      modifies this
      ensures Valid() && put == old(put) && taken == old(taken) && quiet == old(quiet)
      ensures if writable then !writeopen && readopen == old(readopen) && readers == {} && writers == old(writers)
              else !readopen && writeopen == old(writeopen) && writers == {} && readers == old(readers)
    {
      if writable {
        writeopen := false;
        readers := {};
      } else {
        readopen := false;
        writers := {};
      }
    }

    /** kill() wakes a sleeping process. */
    method Wake(p: nat)
      requires Valid()
      modifies this`readers, this`writers
      ensures Valid() && readers == old(readers) - {p} && writers == old(writers) - {p}
    {
      readers, writers := readers - {p}, writers - {p};
    }
  }

  /** The oldest byte in the buffer is the next one of all that were written. */
  lemma TakeByte(data: seq<nat>, put: seq<nat>, r: nat)
    requires Buffered(data, put, r) && r < |put|
    ensures data[Slot(r)] == put[r] && Buffered(data, put, r + 1)
  {
  }

  lemma Bounds(data: seq<nat>, put: seq<nat>, r: nat)
    requires Buffered(data, put, r)
    ensures |data| == PIPESIZE && r <= |put| <= r + PIPESIZE
  {
  }

  /** A writer that is killed after its first byte leaves a reader asleep over that byte. */
  method KilledWriter(reader: nat, writer: nat, ch: nat) returns (asleep: set<nat>, unread: nat)
    ensures reader in asleep && unread == 1
  {
    var p := new PipeBuffer();
    var out, got := p.Read(reader, 1, false, 1);
    var out', i := p.Write(writer, [ch, ch], 1, 2);
    return p.readers, (p.nwrite + TWO32 - p.nread) % TWO32;
  }
}
