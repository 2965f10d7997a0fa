/** Sparse file contents: driver/data.C.

    File contents are kept as regions of regular data and of "magic" data, whose words
    are position hashes; words outside every region are zero. Regions start and end at
    word boundaries, so the region layer counts offsets in words; reads and writes count
    bytes. The container is a map ordered by offset, here the sequence of its regions in
    order. */
module SparseData {

  import opened Basics

  /** EXPLODE_OFF_MAX in words. */
  const MAX_WORDS := 0x1fff_ffff

  const POSITION_MAGIC: seq<nat> := [1, 2]

  type Byte = int

  datatype Word = Word(b0: Byte, b1: Byte, b2: Byte, b3: Byte)

  const ZERO_WORD := Word(0, 0, 0, 0)

  /** position_hash: any function of the word offset and the magic number. */
  type Hash = (nat, nat) -> Word

  datatype Region = Region(start: nat, end: nat, magic: nat, data: seq<Word>)

  datatype Kind = Zero | Data(magic: nat)

  /* ---- contents ---- */

  function HashAt(hash: Hash, w: nat, magic: nat): Word {
    hash(w, magic)
  }

  /** The first magic number whose hash the word is, or 0. */
  function MagicOf(hash: Hash, w: nat, x: Word, magics: seq<nat>): nat {
    if magics == [] then 0
    else if x == HashAt(hash, w, magics[0]) then magics[0]
    else MagicOf(hash, w, x, magics[1..])
  }

  function KindOf(hash: Hash, w: nat, x: Word): Kind {
    if x == ZERO_WORD then Zero else Data(MagicOf(hash, w, x, POSITION_MAGIC))
  }

  ghost predicate Sized(r: Region) {
    r.start < r.end && |r.data| == if r.magic == 0 then r.end - r.start else 0
  }

  function WordIn(hash: Hash, r: Region, w: nat): Word
    requires Sized(r) && r.start <= w < r.end
  {
    if r.magic == 0 then r.data[w - r.start] else HashAt(hash, w, r.magic)
  }

  /** Every word of the region is of the region's kind. */
  ghost predicate Pure(hash: Hash, r: Region)
    requires Sized(r)
  {
    forall w :: r.start <= w < r.end ==> KindOf(hash, w, WordIn(hash, r, w)) == Data(r.magic)
  }

  ghost predicate Ordered(rs: seq<Region>) {
    && (forall i :: 0 <= i < |rs| ==> Sized(rs[i]))
    && forall i, j :: 0 <= i < j < |rs| ==> rs[i].end <= rs[j].start
  }

  /** Neighbours of one kind are merged. */
  ghost predicate Maximal(rs: seq<Region>) {
    forall i :: 0 < i < |rs| && rs[i - 1].end == rs[i].start ==> rs[i - 1].magic != rs[i].magic
  }

  /** The invariant of the container: sorted, disjoint, merged, and of pure kinds. */
  ghost predicate Normal(hash: Hash, rs: seq<Region>) {
    && Ordered(rs) && Maximal(rs)
    && forall i :: 0 <= i < |rs| ==> Pure(hash, rs[i])
  }

  predicate Holds(rs: seq<Region>, i: int, w: nat) {
    0 <= i < |rs| && rs[i].start <= w < rs[i].end
  }

  ghost function At(hash: Hash, rs: seq<Region>, w: nat): Word
    requires Ordered(rs)
  {
    if exists i :: Holds(rs, i, w) then var i :| Holds(rs, i, w); WordIn(hash, rs[i], w) else ZERO_WORD
  }

  lemma AtRegion(hash: Hash, rs: seq<Region>, i: nat, w: nat)
    requires Ordered(rs) && Holds(rs, i, w)
    ensures At(hash, rs, w) == WordIn(hash, rs[i], w)
  {
  }

  lemma AtNowhere(hash: Hash, rs: seq<Region>, w: nat)
    requires Ordered(rs) && forall i :: !Holds(rs, i, w)
    ensures At(hash, rs, w) == ZERO_WORD
  {
  }

  /** The region that holds a word, when one does. */
  lemma WhereIs(hash: Hash, rs: seq<Region>, w: nat) returns (i: nat)
    requires Ordered(rs) && At(hash, rs, w) != ZERO_WORD
    ensures Holds(rs, i, w) && At(hash, rs, w) == WordIn(hash, rs[i], w)
  {
    var j :| Holds(rs, j, w);
    i := j;
  }

  /** The word at a place of a region is of the region's kind. */
  lemma AtKind(hash: Hash, rs: seq<Region>, i: nat, w: nat)
    requires Normal(hash, rs) && Holds(rs, i, w)
    ensures At(hash, rs, w) == WordIn(hash, rs[i], w) && KindOf(hash, w, At(hash, rs, w)) == Data(rs[i].magic)
  {
    AtRegion(hash, rs, i, w);
  }

  /* ---- normal forms are unique ---- */

  /** Two containers in normal form with the same contents are equal. */
  lemma {:induction false} NormalFormUnique(hash: Hash, a: seq<Region>, b: seq<Region>)
    requires Normal(hash, a) && Normal(hash, b)
    requires forall w :: At(hash, a, w) == At(hash, b, w)
    ensures a == b
    decreases |a|
  {
    if a == [] || b == [] {
      NonemptyHasWord(hash, a, b);
      NonemptyHasWord(hash, b, a);
    } else {
      FirstNotLater(hash, a, b);
      FirstNotLater(hash, b, a);
      FirstNotLonger(hash, a, b);
      FirstNotLonger(hash, b, a);
      FirstEqual(hash, a, b);
      forall w ensures At(hash, a[1..], w) == At(hash, b[1..], w) {
        AtTail(hash, a, w);
        AtTail(hash, b, w);
      }
      NormalFormUnique(hash, a[1..], b[1..]);
      assert a == [a[0]] + a[1..] && b == [b[0]] + b[1..];
    }
  }

  lemma AtTail(hash: Hash, rs: seq<Region>, w: nat)
    requires Ordered(rs) && rs != []
    ensures At(hash, rs[1..], w) == if w < rs[0].end then ZERO_WORD else At(hash, rs, w)
  {
    forall i ensures Holds(rs[1..], i, w) <==> i >= 0 && Holds(rs, i + 1, w) {
    }
    if i :| Holds(rs[1..], i, w) {
      AtRegion(hash, rs[1..], i, w);
      AtRegion(hash, rs, i + 1, w);
    } else {
      AtNowhere(hash, rs[1..], w);
      if w >= rs[0].end {
        forall i ensures !Holds(rs, i, w) {
          assert !Holds(rs[1..], i - 1, w);
        }
        AtNowhere(hash, rs, w);
      }
    }
  }

  lemma NonemptyHasWord(hash: Hash, a: seq<Region>, b: seq<Region>)
    requires Normal(hash, a) && Normal(hash, b)
    requires forall w :: At(hash, a, w) == At(hash, b, w)
    ensures b == [] ==> a == []
  {
    if a != [] {
      AtKind(hash, a, 0, a[0].start);
      assert At(hash, b, a[0].start) != ZERO_WORD;
    }
  }

  lemma FirstNotLater(hash: Hash, a: seq<Region>, b: seq<Region>)
    requires Normal(hash, a) && Normal(hash, b) && a != [] && b != []
    requires forall w :: At(hash, a, w) == At(hash, b, w)
    ensures b[0].start <= a[0].start
  {
    var w := a[0].start;
    AtKind(hash, a, 0, w);
    var i := WhereIs(hash, b, w);
  }

  /** The region that goes on where the first one ends is the second one. */
  lemma NextIs(rs: seq<Region>, i: nat)
    requires Ordered(rs) && rs != [] && Holds(rs, i, rs[0].end)
    ensures i == 1 && rs[1].start == rs[0].end
  {
    assert i >= 1;
    assert rs[1].start < rs[1].end;
  }

  lemma FirstNotLonger(hash: Hash, a: seq<Region>, b: seq<Region>)
    requires Normal(hash, a) && Normal(hash, b) && a != [] && b != []
    requires forall w :: At(hash, a, w) == At(hash, b, w)
    requires a[0].start == b[0].start
    ensures a[0].magic == b[0].magic && b[0].end <= a[0].end
  {
    var s, w := a[0].start, a[0].end;
    AtKind(hash, a, 0, s);
    AtKind(hash, b, 0, s);
    if w < b[0].end {
      AtKind(hash, b, 0, w);
      var i := WhereIs(hash, a, w);
      NextIs(a, i);
      AtKind(hash, a, i, w);
    }
  }

  lemma FirstEqual(hash: Hash, a: seq<Region>, b: seq<Region>)
    requires Ordered(a) && Ordered(b) && a != [] && b != []
    requires forall w :: At(hash, a, w) == At(hash, b, w)
    requires a[0].start == b[0].start && a[0].end == b[0].end && a[0].magic == b[0].magic
    ensures a[0] == b[0]
  {
    forall i | 0 <= i < |a[0].data| ensures a[0].data[i] == b[0].data[i] {
      var w := a[0].start + i;
      AtRegion(hash, a, 0, w);
      AtRegion(hash, b, 0, w);
    }
  }
}
