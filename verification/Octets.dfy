/** Bytes, little-endian words and the file-content operations the storage proxy relies on. */
module Octets {

  newtype Byte = b: int | 0 <= b < 256

  type Bytes = seq<Byte>

  const WORD32: int := 0x1_0000_0000

  /** The little-endian 32-bit word stored at `at`. */
  function Word32(b: Bytes, at: nat): (w: nat)
    requires at + 4 <= |b|
    ensures w < WORD32
  {
    b[at] as int + 0x100 * b[at + 1] as int + 0x1_0000 * b[at + 2] as int + 0x100_0000 * b[at + 3] as int
  }

  /** The little-endian 64-bit word stored at `at`. */
  function Word64(b: Bytes, at: nat): (w: nat)
    requires at + 8 <= |b|
  {
    Word32(b, at) + WORD32 * Word32(b, at + 4)
  }

  /** Least significant byte first, most significant byte last. */
  lemma LittleEndian(b: Bytes, at: nat)
    requires at + 8 <= |b|
    ensures Word32(b, at) % 0x100 == b[at] as int && Word32(b, at) / 0x100_0000 == b[at + 3] as int
    ensures Word32(b, at) / 0x100 % 0x100 == b[at + 1] as int
    ensures Word64(b, at) % WORD32 == Word32(b, at) && Word64(b, at) / WORD32 == Word32(b, at + 4)
  {
    var b0, b1, b2, b3 := b[at] as int, b[at + 1] as int, b[at + 2] as int, b[at + 3] as int;
    Digits(b0, b1 + 0x100 * b2 + 0x1_0000 * b3);
    Digits(b1, b2 + 0x100 * b3);
    HighDigit(b0 + 0x100 * b1 + 0x1_0000 * b2, b3);
    HighWord(Word32(b, at), Word32(b, at + 4));
  }

  lemma Digits(lo: int, hi: int)
    requires 0 <= lo < 0x100
    ensures (lo + 0x100 * hi) % 0x100 == lo && (lo + 0x100 * hi) / 0x100 == hi
  {
  }

  lemma HighDigit(lo: int, hi: int)
    requires 0 <= lo < 0x100_0000
    ensures (lo + 0x100_0000 * hi) / 0x100_0000 == hi
  {
  }

  lemma HighWord(lo: int, hi: int)
    requires 0 <= lo < WORD32
    ensures (lo + WORD32 * hi) % WORD32 == lo && (lo + WORD32 * hi) / WORD32 == hi
  {
  }

  /** The four bytes that store `w` in little-endian order. */
  function Le32(w: nat): (b: Bytes)
    requires w < WORD32
    ensures |b| == 4 && Word32(b, 0) == w
  {
    var a := w / 0x100;
    var b := a / 0x100;
    var c := b / 0x100;
    [(w % 0x100) as Byte, (a % 0x100) as Byte, (b % 0x100) as Byte, c as Byte]
  }

  /** The eight bytes that store `w` modulo 2^64 in little-endian order. */
  function Le64(w: nat): (b: Bytes)
    ensures |b| == 8 && Word64(b, 0) == w % (WORD32 * WORD32)
  {
    Le32(w % WORD32) + Le32(w / WORD32 % WORD32)
  }

  /** `b` cut or zero-extended to length `n`. */
  function Resized(b: Bytes, n: nat): (r: Bytes)
    ensures |r| == n
    ensures forall j :: 0 <= j < n ==> r[j] == if j < |b| then b[j] else 0
  {
    seq(n, j requires 0 <= j => if j < |b| then b[j] else 0)
  }

  /**
   A file `b` after `d` has been written at offset `off`: a gap reads as zeros, and an empty write changes
   nothing.
   */
  function Spliced(b: Bytes, off: nat, d: Bytes): (r: Bytes)
    ensures |r| == if d != [] && off + |d| > |b| then off + |d| else |b|
    ensures forall j :: 0 <= j < |r| ==>
                          r[j] == if off <= j < off + |d| then d[j - off] else if j < |b| then b[j] else 0
  {
    if d == [] then b
    else seq(if off + |d| > |b| then off + |d| else |b|,
         j requires 0 <= j => if off <= j < off + |d| then d[j - off] else if j < |b| then b[j] else 0)
  }

  /** What a read of `n` bytes at `off` sees of a file `b`. */
  function Clip(b: Bytes, off: nat, n: nat): (r: Bytes)
    ensures |r| == if off >= |b| then 0 else if off + n <= |b| then n else |b| - off
    ensures forall j :: 0 <= j < |r| ==> r[j] == b[off + j]
  {
    if off >= |b| then [] else if off + n <= |b| then b[off..off + n] else b[off..]
  }

  /** Two adjacent writes are one write of the concatenation. */
  lemma SpliceTwice(b: Bytes, off: nat, d: Bytes, e: Bytes)
    ensures Spliced(Spliced(b, off, d), off + |d|, e) == Spliced(b, off, d + e)
  {
    var once := Spliced(b, off, d + e);
    var twice := Spliced(Spliced(b, off, d), off + |d|, e);
    assert |once| == |twice|;
    assert forall j :: 0 <= j < |once| ==> once[j] == twice[j];
  }

  /** A write of the first `n` bytes and one of the next `k` are a write of `n + k`. */
  lemma SpliceOn(b: Bytes, off: nat, data: Bytes, n: nat, k: nat)
    requires n + k <= |data|
    ensures Spliced(Spliced(b, off, data[..n]), off + n, data[n..][..k]) == Spliced(b, off, data[..n + k])
  {
    assert data[..n] + data[n..][..k] == data[..n + k];
    SpliceTwice(b, off, data[..n], data[n..][..k]);
  }

  /** A write is read back, whatever the file held before. */
  lemma ReadBack(b: Bytes, off: nat, d: Bytes)
    ensures Clip(Spliced(b, off, d), off, |d|) == d
  {
    var r := Clip(Spliced(b, off, d), off, |d|);
    assert d != [] ==> |r| == |d|;
    assert forall j :: 0 <= j < |r| ==> r[j] == d[j];
  }

  /** Reading on from where a first read stopped continues it. */
  lemma ClipOn(b: Bytes, off: nat, m: nat, n: nat)
    requires off + m <= |b| && m <= n
    ensures Clip(b, off, m) + Clip(b, off + m, n - m) == Clip(b, off, n)
  {
  }
}
