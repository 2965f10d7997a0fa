/** Bytes and words of file contents, and the flat array they stand for. */
module FlatBytes {

  import opened SparseData

  function ByteOf(x: Word, i: nat): Byte {
    if i == 0 then x.b0 else if i == 1 then x.b1 else if i == 2 then x.b2 else x.b3
  }

  /** get_sig: the word stored at a word index of a byte buffer. */
  function WordAt(b: seq<Byte>, i: nat): Word
    requires 4 * i + 4 <= |b|
  {
    Word(b[4 * i], b[4 * i + 1], b[4 * i + 2], b[4 * i + 3])
  }

  function BytesOf(words: seq<Word>): (b: seq<Byte>)
    ensures |b| == 4 * |words|
  {
    seq(4 * |words|, q requires 0 <= q < 4 * |words| => ByteOf(words[q / 4], q % 4))
  }

  lemma WordAtByte(b: seq<Byte>, q: nat)
    requires 4 * (q / 4) + 4 <= |b|
    ensures ByteOf(WordAt(b, q / 4), q % 4) == b[q]
  {
  }

  lemma WordsEqual(x: Word, y: Word)
    requires forall i :: 0 <= i < 4 ==> ByteOf(x, i) == ByteOf(y, i)
    ensures x == y
  {
    assert ByteOf(x, 0) == ByteOf(y, 0) && ByteOf(x, 1) == ByteOf(y, 1);
    assert ByteOf(x, 2) == ByteOf(y, 2) && ByteOf(x, 3) == ByteOf(y, 3);
  }

  /** The byte of a file at an offset. */
  ghost function ByteAt(hash: Hash, rs: seq<Region>, off: nat): Byte
    requires Ordered(rs)
  {
    ByteOf(At(hash, rs, off / 4), off % 4)
  }

  /* ---- the flat array ---- */

  datatype Op = Write(off: nat, bytes: seq<Byte>) | Truncate(length: nat)

  /** The byte at an offset of an array of zeroes after the operations. */
  ghost function FlatByte(ops: seq<Op>, i: nat): Byte {
    if ops == [] then 0
    else
      var before := FlatByte(ops[..|ops| - 1], i);
      match ops[|ops| - 1]
      case Write(off, bytes) => if off <= i < off + |bytes| then bytes[i - off] else before
      case Truncate(length) => if i < length then before else 0
  }

  /** Two containers in normal form that show the same bytes are the same. */
  lemma SameBytesSameRegions(hash: Hash, a: seq<Region>, b: seq<Region>)
    requires Normal(hash, a) && Normal(hash, b)
    requires forall i: nat :: ByteAt(hash, a, i) == ByteAt(hash, b, i)
    ensures a == b
  {
    forall w: nat ensures At(hash, a, w) == At(hash, b, w) {
      forall i | 0 <= i < 4 ensures ByteOf(At(hash, a, w), i) == ByteOf(At(hash, b, w), i) {
        assert ByteAt(hash, a, 4 * w + i) == ByteAt(hash, b, 4 * w + i);
      }
      WordsEqual(At(hash, a, w), At(hash, b, w));
    }
    NormalFormUnique(hash, a, b);
  }
}
