/**
 The doubly linked ring of buffers of kernel/bio.c: pointers as arrays of buffer numbers,
 and the order that they spell out, most recently used first.
 */
module LruRing {
  /** All different, and all below h. */
  ghost predicate Distinct(order: seq<nat>, h: nat) {
    && (forall i, j :: 0 <= i < j < |order| ==> order[i] != order[j])
    && (forall i :: 0 <= i < |order| ==> order[i] < h)
  }

  /** From the list head through the buffers and back to it. */
  function Round(order: seq<nat>, h: nat): (r: seq<nat>)
    ensures |r| == |order| + 2 && r[0] == h && r[|order| + 1] == h
    ensures forall i :: 0 < i <= |order| ==> r[i] == order[i - 1]
  {
    [h] + order + [h]
  }

  ghost predicate Link(next: seq<nat>, prev: seq<nat>, a: nat, b: nat) {
    a < |next| && b < |prev| && next[a] == b && prev[b] == a
  }

  /** The pointers lead through exactly the buffers of `order`, both ways. */
  ghost predicate Ring(next: seq<nat>, prev: seq<nat>, order: seq<nat>, h: nat) {
    && Distinct(order, h) && |next| == |prev| == h + 1
    && forall i :: 0 <= i <= |order| ==> Link(next, prev, Round(order, h)[i], Round(order, h)[i + 1])
  }

  /** The order without its k-th buffer. */
  function Without(order: seq<nat>, k: nat): seq<nat>
    requires k < |order|
  {
    order[..k] + order[k + 1..]
  }

  /** b->next->prev = b->prev; b->prev->next = b->next */
  lemma UnlinkOk(next: seq<nat>, prev: seq<nat>, order: seq<nat>, h: nat, k: nat)
    requires Ring(next, prev, order, h) && k < |order|
    ensures var b := order[k];
      b < h && next[b] <= h && prev[b] <= h
        && Ring(next[prev[b] := next[b]], prev[next[b] := prev[b]], Without(order, k), h)
  {
    var b, r, w := order[k], Round(order, h), Without(order, k);
    var q := Round(w, h);
    assert Link(next, prev, r[k], r[k + 1]) && Link(next, prev, r[k + 1], r[k + 2]);
    assert prev[b] == r[k] && next[b] == r[k + 2];
    var next', prev' := next[prev[b] := next[b]], prev[next[b] := prev[b]];
    forall i | 0 <= i <= |w| ensures Link(next', prev', q[i], q[i + 1]) {
      assert q[i] == if i <= k then r[i] else r[i + 1];
      assert q[i + 1] == if i + 1 <= k then r[i + 1] else r[i + 2];
      if i < k { assert Link(next, prev, r[i], r[i + 1]); }
      if i > k { assert Link(next, prev, r[i + 1], r[i + 2]); }
    }
  }

  /** b goes between the head and its successor. */
  lemma PushOk(next: seq<nat>, prev: seq<nat>, order: seq<nat>, h: nat, b: nat)
    requires Ring(next, prev, order, h) && b < h && b !in order
    ensures next[h] <= h
    ensures Ring(next[b := next[h]][h := b], prev[b := h][next[h] := b], [b] + order, h)
  {
    var r, q := Round(order, h), Round([b] + order, h);
    assert Link(next, prev, r[0], r[1]);
    var next', prev' := next[b := next[h]][h := b], prev[b := h][next[h] := b];
    forall i | 0 <= i <= |order| + 1 ensures Link(next', prev', q[i], q[i + 1]) {
      if i > 0 {
        assert q[i] == (if i == 1 then b else r[i - 1]) && q[i + 1] == r[i];
        assert Link(next, prev, r[i - 1], r[i]);
      }
    }
  }
}
