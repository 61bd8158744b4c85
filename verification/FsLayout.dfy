/**
 How kernel/fs.h lays numbers and bits out in blocks: 32-bit little-endian words in an
 indirect block, one bit per block in the free map.
 */
module FsLayout {
  const BSIZE: nat := 1024
  const NDIRECT: nat := 12
  const NINDIRECT: nat := BSIZE / 4
  const MAXFILE: nat := NDIRECT + NINDIRECT
  const BPB: nat := BSIZE * 8
  const TWO32: nat := 0x1_0000_0000

  type Bytes = seq<nat>

  function ZeroBytes(): Bytes {
    seq(BSIZE, _ => 0)
  }

  /** Word j of a block. */
  function Word(b: Bytes, j: nat): nat {
    if 4 * j + 3 < |b| then b[4 * j] + 256 * b[4 * j + 1] + 65536 * b[4 * j + 2] + 16777216 * b[4 * j + 3] else 0
  }

  function SetWord(b: Bytes, j: nat, x: nat): Bytes {
    if 4 * j + 3 < |b|
    then b[4 * j := x % 256][4 * j + 1 := x / 256 % 256][4 * j + 2 := x / 65536 % 256][4 * j + 3 := x / 16777216 % 256]
    else b
  }

  lemma SetWordOk(b: Bytes, j: nat, x: nat, k: nat)
    requires 4 * j + 3 < |b| && x < TWO32
    ensures |SetWord(b, j, x)| == |b| && Word(SetWord(b, j, x), k) == if k == j then x else Word(b, k)
  {
    if k == j { Digits(x); }
  }

  lemma Digits(x: nat)
    requires x < TWO32
    ensures x % 256 + 256 * (x / 256 % 256) + 65536 * (x / 65536 % 256) + 16777216 * (x / 16777216 % 256) == x
  {
  }

  function Mask(k: nat): (m: bv8)
    ensures k < 8 ==> m == 1 << k
  {
    if k == 0 then 1 else if k == 1 then 2 else if k == 2 then 4 else if k == 3 then 8
    else if k == 4 then 16 else if k == 5 then 32 else if k == 6 then 64 else 128
  }

  predicate TestByte(x: bv8, k: nat) {
    x & Mask(k) != 0
  }

  function SetByte(x: bv8, k: nat): bv8 {
    x | Mask(k)
  }

  function ClearByte(x: bv8, k: nat): bv8 {
    x & !Mask(k)
  }

  lemma ByteChanged(x: bv8, j: nat, k: nat)
    requires j < 8 && k < 8
    ensures TestByte(SetByte(x, k), j) <==> j == k || TestByte(x, j)
    ensures TestByte(ClearByte(x, k), j) <==> j != k && TestByte(x, j)
  {
  }

  /** Bit b of the free map. */
  predicate Bit(bits: seq<bv8>, b: nat) {
    b / 8 < |bits| && TestByte(bits[b / 8], b % 8)
  }

  function SetBit(bits: seq<bv8>, b: nat): seq<bv8> {
    if b / 8 < |bits| then bits[b / 8 := SetByte(bits[b / 8], b % 8)] else bits
  }

  function ClearBit(bits: seq<bv8>, b: nat): seq<bv8> {
    if b / 8 < |bits| then bits[b / 8 := ClearByte(bits[b / 8], b % 8)] else bits
  }

  lemma BitChanged(bits: seq<bv8>, b: nat, x: nat)
    requires b / 8 < |bits|
    ensures |SetBit(bits, b)| == |ClearBit(bits, b)| == |bits|
    ensures Bit(SetBit(bits, b), x) <==> x == b || Bit(bits, x)
    ensures Bit(ClearBit(bits, b), x) <==> x != b && Bit(bits, x)
  {
    hide TestByte, SetByte, ClearByte;
    if x / 8 == b / 8 { ByteChanged(bits[b / 8], x % 8, b % 8); }
  }
}
