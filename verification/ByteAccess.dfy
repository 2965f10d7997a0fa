/** Reads and writes of bytes on regions: driver/data.C.

    A write is rounded out to words and cut into runs of one kind, each written as a
    region. */
module ByteAccess {

  import opened Basics
  import opened FlatBytes
  import opened RegionWrites
  import opened SparseData

  /** The first word at or past a byte offset. */
  function RoundUp(off: nat): (w: nat)
    ensures off <= 4 * w < off + 4
  {
    (off + 3) / 4
  }

  predicate Meets(r: Region, startIn: nat, endIn: nat) {
    4 * r.start <= endIn && startIn <= 4 * r.end
  }

  /** Regions from index `first` on reach byte offset `off`, and only those. */
  ghost predicate ReachFrom(rs: seq<Region>, first: nat, off: nat) {
    && (forall i :: 0 <= i < first && i < |rs| ==> 4 * rs[i].end < off)
    && (forall i :: first <= i < |rs| ==> 4 * rs[i].end >= off)
  }

  /* ---- reading ---- */

  ghost predicate EndBy(rs: seq<Region>, e: nat) {
    forall i :: 0 <= i < |rs| ==> rs[i].end <= e
  }

  /** memcpy of `bytes` into a buffer. */
  function Splice(buf: seq<Byte>, at: nat, bytes: seq<Byte>): (r: seq<Byte>)
    requires at + |bytes| <= |buf|
    ensures |r| == |buf|
  {
    buf[..at] + bytes + buf[at + |bytes|..]
  }

  lemma SpliceAt(buf: seq<Byte>, at: nat, bytes: seq<Byte>, q: nat)
    requires at + |bytes| <= |buf| && q < |buf|
    ensures Splice(buf, at, bytes)[q] == if at <= q < at + |bytes| then bytes[q - at] else buf[q]
  {
  }

  lemma SpliceTwice(buf: seq<Byte>, at: nat, a: seq<Byte>, b: seq<Byte>)
    requires at + |a| + |b| <= |buf|
    ensures Splice(Splice(buf, at, a), at + |a|, b) == Splice(buf, at, a + b)
  {
  }

  function RegionBytes(hash: Hash, r: Region): (b: seq<Byte>)
    requires Sized(r)
    ensures |b| == 4 * (r.end - r.start)
  {
    seq(4 * (r.end - r.start), q requires 0 <= q < 4 * (r.end - r.start) =>
      ByteOf(WordIn(hash, r, r.start + q / 4), q % 4))
  }

  lemma RegionBytesNext(hash: Hash, r: Region, i: nat)
    requires Sized(r) && r.magic != 0 && i < r.end - r.start
    ensures RegionBytes(hash, r)[..4 * (i + 1)]
         == RegionBytes(hash, r)[..4 * i] + BytesOf([HashAt(hash, r.start + i, r.magic)])
  {
    var b, x := RegionBytes(hash, r), HashAt(hash, r.start + i, r.magic);
    assert b[4 * i..4 * i + 4] == BytesOf([x]);
    assert b[..4 * i + 4] == b[..4 * i] + b[4 * i..4 * i + 4];
  }

  predicate Covered(rs: seq<Region>, k: nat, w: nat) {
    exists i :: 0 <= i < k && Holds(rs, i, w)
  }

  /** Where a read starts: at its offset, or at the start of the region that reaches it. */
  function HullStart(rs: seq<Region>, off: nat): nat
    requires Ordered(rs)
  {
    var n := StartingBelow(rs, RoundUp(off));
    if n > 0 && 4 * rs[n - 1].end >= off then 4 * rs[n - 1].start else off
  }

  /** The byte that a buffer for [start, ..) holds before any region is copied, when `clear`
      bytes are set to zero. */
  function Fresh(o: Offsets, start: nat, clear: nat, p: nat): Byte {
    if o.AsMeant? || p < start + clear then 0 else o.junk(p).b0
  }

  /** The byte at offset `p` once the first `k` regions are copied. */
  ghost function Shown(hash: Hash, rs: seq<Region>, k: nat, p: nat, blank: Byte): Byte
    requires Ordered(rs)
  {
    if Covered(rs, k, p / 4) then ByteAt(hash, rs, p) else blank
  }

  ghost predicate Shows(hash: Hash, rs: seq<Region>, k: nat, o: Offsets, start: nat, size: nat, buf: seq<Byte>)
    requires Ordered(rs)
  {
    forall q :: 0 <= q < |buf| ==> buf[q] == Shown(hash, rs, k, start + q, Fresh(o, start, size, start + q))
  }

  lemma ShownIn(hash: Hash, rs: seq<Region>, k: nat, q: nat, blank: Byte)
    requires Ordered(rs) && k < |rs| && q < 4 * (rs[k].end - rs[k].start)
    ensures RegionBytes(hash, rs[k])[q] == Shown(hash, rs, k + 1, 4 * rs[k].start + q, blank)
  {
    var w := (4 * rs[k].start + q) / 4;
    assert Holds(rs, k, w);
    AtRegion(hash, rs, k, w);
  }

  lemma ShownOut(hash: Hash, rs: seq<Region>, k: nat, p: nat, blank: Byte)
    requires Ordered(rs) && k < |rs| && (p < 4 * rs[k].start || p >= 4 * rs[k].end)
    ensures Shown(hash, rs, k, p, blank) == Shown(hash, rs, k + 1, p, blank)
  {
    assert !Holds(rs, k, p / 4);
  }

  lemma ShowsNextAt(hash: Hash, rs: seq<Region>, k: nat, start: nat, buf: seq<Byte>, q: nat, blank: Byte)
    requires Ordered(rs) && k < |rs| && q < |buf|
    requires start <= 4 * rs[k].start && 4 * rs[k].end <= start + |buf|
    requires buf[q] == Shown(hash, rs, k, start + q, blank)
    ensures Splice(buf, 4 * rs[k].start - start, RegionBytes(hash, rs[k]))[q]
         == Shown(hash, rs, k + 1, start + q, blank)
  {
    var at, bytes := 4 * rs[k].start - start, RegionBytes(hash, rs[k]);
    SpliceAt(buf, at, bytes, q);
    if at <= q < at + |bytes| {
      ShownIn(hash, rs, k, q - at, blank);
      assert 4 * rs[k].start + (q - at) == start + q;
    } else {
      ShownOut(hash, rs, k, start + q, blank);
    }
  }

  lemma ShowsNext(hash: Hash, rs: seq<Region>, k: nat, o: Offsets, start: nat, size: nat, buf: seq<Byte>,
                  next: seq<Byte>)
    requires Ordered(rs) && Shows(hash, rs, k, o, start, size, buf) && k < |rs|
    requires start <= 4 * rs[k].start && 4 * rs[k].end <= start + |buf|
    requires next == Splice(buf, 4 * rs[k].start - start, RegionBytes(hash, rs[k]))
    ensures Shows(hash, rs, k + 1, o, start, size, next)
  {
    forall q | 0 <= q < |next|
      ensures next[q] == Shown(hash, rs, k + 1, start + q, Fresh(o, start, size, start + q))
    {
      assert buf[q] == Shown(hash, rs, k, start + q, Fresh(o, start, size, start + q));
      ShowsNextAt(hash, rs, k, start, buf, q, Fresh(o, start, size, start + q));
    }
  }

  /** Nothing of the hull lies in a region before the range. */
  lemma ShowsFirst(hash: Hash, rs: seq<Region>, lo: nat, o: Offsets, start: nat, size: nat, buf: seq<Byte>)
    requires Ordered(rs) && lo <= |rs| && forall i :: 0 <= i < lo ==> 4 * rs[i].end <= start
    requires forall q :: 0 <= q < |buf| ==> buf[q] == Fresh(o, start, size, start + q)
    ensures Shows(hash, rs, lo, o, start, size, buf)
  {
    forall q | 0 <= q < |buf|
      ensures buf[q] == Shown(hash, rs, lo, start + q, Fresh(o, start, size, start + q))
    {
      assert !Covered(rs, lo, (start + q) / 4);
    }
  }

  lemma HullIs(rs: seq<Region>, off: nat, end: nat, lo: nat, hi: nat)
    requires Ordered(rs) && off <= end && lo <= hi <= |rs| && ReachFrom(rs, lo, off)
    requires forall i :: 0 <= i < |rs| ==> (lo <= i < hi <==> Meets(rs[i], off, end))
    ensures HullStart(rs, off) == if lo < hi then Min(off, 4 * rs[lo].start) else off
    ensures forall i :: 0 <= i < lo ==> 4 * rs[i].end <= HullStart(rs, off)
  {
    var n := StartingBelow(rs, RoundUp(off));
    if n > 0 && 4 * rs[n - 1].end >= off {
      assert n > 1 ==> rs[n - 2].end <= rs[n - 1].start;
      assert Meets(rs[n - 1], off, end);
      assert lo == n - 1;
    } else if lo < hi {
      assert lo >= n;
    }
  }

  /** What a read of `size` bytes at `off` returns for the byte at `p`. */
  ghost function ReadByte(o: Offsets, hash: Hash, rs: seq<Region>, size: nat, off: nat, p: nat): Byte
    requires Ordered(rs)
  {
    Shown(hash, rs, |rs|, p, Fresh(o, HullStart(rs, off), size, p))
  }

  lemma CoveredInRange(rs: seq<Region>, hi: nat, off: nat, end: nat, p: nat)
    requires Ordered(rs) && hi <= |rs| && (hi < |rs| ==> 4 * rs[hi].start > end) && p < end
    ensures Covered(rs, hi, p / 4) == Covered(rs, |rs|, p / 4)
  {
    forall i | hi <= i < |rs| ensures !Holds(rs, i, p / 4) {
      assert rs[hi].start <= rs[i].start;
    }
  }

  lemma ReadsOne(hash: Hash, rs: seq<Region>, hi: nat, o: Offsets, start: nat, size: nat, off: nat,
                 buf: seq<Byte>, q: nat)
    requires Ordered(rs) && hi <= |rs| && (hi < |rs| ==> 4 * rs[hi].start > off + size)
    requires start == HullStart(rs, off) && q < |buf| && start + q < off + size
    requires Shows(hash, rs, hi, o, start, size, buf)
    ensures buf[q] == ReadByte(o, hash, rs, size, off, start + q)
  {
    assert buf[q] == Shown(hash, rs, hi, start + q, Fresh(o, start, size, start + q));
    CoveredInRange(rs, hi, off, off + size, start + q);
  }

  lemma ReadsAll(hash: Hash, rs: seq<Region>, hi: nat, o: Offsets, start: nat, size: nat, off: nat,
                 buf: seq<Byte>, b: seq<Byte>)
    requires Ordered(rs) && hi <= |rs| && (hi < |rs| ==> 4 * rs[hi].start > off + size)
    requires start == HullStart(rs, off) <= off && off + size <= start + |buf|
    requires Shows(hash, rs, hi, o, start, size, buf) && b == buf[off - start..off - start + size]
    ensures forall i :: 0 <= i < size ==> b[i] == ReadByte(o, hash, rs, size, off, off + i)
  {
    forall i | 0 <= i < size ensures b[i] == ReadByte(o, hash, rs, size, off, off + i) {
      assert b[i] == buf[off - start + i];
      ReadsOne(hash, rs, hi, o, start, size, off, buf, off - start + i);
    }
  }

  ghost predicate Inside(rs: seq<Region>, lo: nat, hi: nat, start: nat, end: nat) {
    hi <= |rs| && forall i :: lo <= i < hi ==> start <= 4 * rs[i].start && 4 * rs[i].end <= end
  }

  lemma HullHolds(rs: seq<Region>, lo: nat, hi: nat, start: nat, end: nat)
    requires Ordered(rs) && lo <= hi <= |rs|
    requires lo < hi ==> start <= 4 * rs[lo].start && 4 * rs[hi - 1].end <= end
    ensures Inside(rs, lo, hi, start, end)
  {
    forall i | lo <= i < hi ensures start <= 4 * rs[i].start && 4 * rs[i].end <= end {
      assert lo < i ==> rs[lo].end <= rs[i].start;
      assert i < hi - 1 ==> rs[i].end <= rs[hi - 1].start;
    }
  }

  /** As meant, a read shows the contents. */
  lemma ReadMeant(hash: Hash, rs: seq<Region>, size: nat, off: nat, p: nat)
    requires Ordered(rs)
    ensures ReadByte(AsMeant, hash, rs, size, off, p) == ByteAt(hash, rs, p)
  {
    if !Covered(rs, |rs|, p / 4) {
      forall i ensures !Holds(rs, i, p / 4) {
      }
      AtNowhere(hash, rs, p / 4);
    }
  }

  predicate CoveredByte(rs: seq<Region>, p: nat) {
    Covered(rs, |rs|, p / 4)
  }

  /** The bytes that the coded read does not clear all lie in regions. */
  ghost predicate UnclearedCovered(rs: seq<Region>, size: nat, off: nat)
    requires Ordered(rs)
  {
    forall p :: off <= p < off + size && HullStart(rs, off) + size <= p ==> CoveredByte(rs, p)
  }

  ghost predicate ReadsRight(o: Offsets, hash: Hash, rs: seq<Region>, size: nat, off: nat)
    requires Ordered(rs)
  {
    forall p :: off <= p < off + size ==> ReadByte(o, hash, rs, size, off, p) == ByteAt(hash, rs, p)
  }

  lemma CodedByte(hash: Hash, rs: seq<Region>, size: nat, off: nat, p: nat, junk: nat -> Word)
    requires Ordered(rs)
    ensures ReadByte(AsCoded(junk), hash, rs, size, off, p)
         == if HullStart(rs, off) + size <= p && !CoveredByte(rs, p) then junk(p).b0 else ByteAt(hash, rs, p)
  {
    ReadMeant(hash, rs, size, off, p);
  }

  /** The coded read, which clears only `size` bytes of a larger buffer, shows the contents
      whatever memory holds exactly when every byte it leaves uncleared lies in a region. */
  lemma CodedReadExact(hash: Hash, rs: seq<Region>, size: nat, off: nat)
    requires Ordered(rs)
    ensures UnclearedCovered(rs, size, off) <==>
      forall junk: nat -> Word :: ReadsRight(AsCoded(junk), hash, rs, size, off)
  {
    if UnclearedCovered(rs, size, off) {
      forall junk: nat -> Word ensures ReadsRight(AsCoded(junk), hash, rs, size, off) {
        forall p | off <= p < off + size
          ensures ReadByte(AsCoded(junk), hash, rs, size, off, p) == ByteAt(hash, rs, p)
        {
          CodedByte(hash, rs, size, off, p, junk);
        }
      }
    } else {
      var p :| off <= p < off + size && HullStart(rs, off) + size <= p && !CoveredByte(rs, p);
      var junk := (q: nat) => Word(ByteAt(hash, rs, p) + 1, 0, 0, 0);
      CodedByte(hash, rs, size, off, p, junk);
      assert !ReadsRight(AsCoded(junk), hash, rs, size, off);
    }
  }

  /* ---- runs of one kind ---- */

  /** Bytes to write between two word offsets. */
  datatype Buffer = Buffer(bytes: seq<Byte>, start: nat, end: nat)

  predicate Filled(b: Buffer) {
    b.start <= b.end && |b.bytes| == 4 * (b.end - b.start)
  }

  function BufWord(b: Buffer, w: nat): Word
    requires Filled(b) && b.start <= w < b.end
  {
    WordAt(b.bytes, w - b.start)
  }

  /** The words of a buffer between two word offsets. */
  function BufWords(b: Buffer, s: nat, e: nat): (ws: seq<Word>)
    requires Filled(b) && b.start <= s <= e <= b.end
    ensures |ws| == e - s
  {
    seq(e - s, i requires 0 <= i < e - s => BufWord(b, s + i))
  }

  function KindAt(hash: Hash, b: Buffer, w: nat): Kind
    requires Filled(b) && b.start <= w < b.end
  {
    KindOf(hash, w, BufWord(b, w))
  }

  /** Where the run from `s` on ends that goes on to `e`. */
  function RunEnd(hash: Hash, b: Buffer, s: nat, e: nat): (end: nat)
    requires Filled(b) && b.start <= s < e <= b.end
    ensures e <= end <= b.end
    decreases b.end - e
  {
    if e < b.end && KindAt(hash, b, e) == KindAt(hash, b, s) then RunEnd(hash, b, s, e + 1) else e
  }

  lemma {:induction false} RunOfKind(hash: Hash, b: Buffer, s: nat, e: nat)
    requires Filled(b) && b.start <= s < e <= b.end
    requires forall w :: s <= w < e ==> KindAt(hash, b, w) == KindAt(hash, b, s)
    ensures OfKind(hash, s, RunEnd(hash, b, s, e), KindAt(hash, b, s), BufWords(b, s, RunEnd(hash, b, s, e)))
    decreases b.end - e
  {
    if e < b.end && KindAt(hash, b, e) == KindAt(hash, b, s) {
      RunOfKind(hash, b, s, e + 1);
    } else {
      var ws := BufWords(b, s, e);
      forall i | 0 <= i < |ws| ensures KindOf(hash, s + i, ws[i]) == KindAt(hash, b, s) {
        assert KindAt(hash, b, s + i) == KindAt(hash, b, s);
      }
    }
  }

  /** The run from `s` on, written as a region. */
  function WriteRun(o: Offsets, hash: Hash, rs: seq<Region>, b: Buffer, s: nat): seq<Region>
    requires Filled(b) && Ordered(rs) && b.start <= s < b.end
  {
    var e := RunEnd(hash, b, s, s + 1);
    RegionWrites.WriteRegion(o, rs, s, e, KindAt(hash, b, s), BufWords(b, s, e))
  }

  /** What lies past a run once it is written. */
  function PastRun(o: Offsets, hash: Hash, rs: seq<Region>, b: Buffer, s: nat): (right: seq<Region>)
    requires Filled(b) && Ordered(rs) && b.start <= s < b.end
    ensures Ordered(right)
  {
    Rest(o, rs, s, RunEnd(hash, b, s, s + 1), KindAt(hash, b, s))
  }

  lemma BufWordsAt(b: Buffer, s: nat, e: nat, w: nat)
    requires Filled(b) && b.start <= s <= w < e <= b.end
    ensures BufWords(b, s, e)[w - s] == BufWord(b, w)
  {
    assert s + (w - s) == w;
  }

  lemma RunAt(o: Offsets, hash: Hash, rs: seq<Region>, b: Buffer, s: nat, w: nat)
    requires Filled(b) && Ordered(rs) && b.start <= s < b.end
    ensures Ordered(WriteRun(o, hash, rs, b, s))
    ensures At(hash, WriteRun(o, hash, rs, b, s), w) ==
      if w < s then At(hash, rs, w)
      else if w < RunEnd(hash, b, s, s + 1) then BufWord(b, w) else At(hash, PastRun(o, hash, rs, b, s), w)
  {
    var e := RunEnd(hash, b, s, s + 1);
    RunOfKind(hash, b, s, s + 1);
    WriteAt(o, hash, rs, s, e, KindAt(hash, b, s), BufWords(b, s, e), w);
    if s <= w < e {
      BufWordsAt(b, s, e, w);
    }
  }

  /** The loop over the runs from `s` on. */
  ghost function StoreFrom(o: Offsets, hash: Hash, rs: seq<Region>, b: Buffer, s: nat): (now: seq<Region>)
    requires Filled(b) && Ordered(rs) && b.start <= s <= b.end
    ensures Ordered(now)
    decreases b.end - s
  {
    if s == b.end then rs
    else
      RunAt(o, hash, rs, b, s, 0);
      StoreFrom(o, hash, WriteRun(o, hash, rs, b, s), b, RunEnd(hash, b, s, s + 1))
  }

  /** Whatever the offsets, the words of the buffer are stored and those before it kept. */
  lemma {:induction false} StoreAt(o: Offsets, hash: Hash, rs: seq<Region>, b: Buffer, s: nat, w: nat)
    requires Filled(b) && Ordered(rs) && b.start <= s <= b.end && w < b.end
    ensures At(hash, StoreFrom(o, hash, rs, b, s), w) == if w < s then At(hash, rs, w) else BufWord(b, w)
    decreases b.end - s
  {
    if s < b.end {
      RunAt(o, hash, rs, b, s, w);
      StoreAt(o, hash, WriteRun(o, hash, rs, b, s), b, RunEnd(hash, b, s, s + 1), w);
    }
  }

  lemma {:induction false} StoreNormal(hash: Hash, rs: seq<Region>, b: Buffer, s: nat)
    requires Filled(b) && Normal(hash, rs) && b.start <= s <= b.end
    ensures Normal(hash, StoreFrom(AsMeant, hash, rs, b, s))
    decreases b.end - s
  {
    if s < b.end {
      var e := RunEnd(hash, b, s, s + 1);
      RunOfKind(hash, b, s, s + 1);
      WriteNormal(hash, rs, s, e, KindAt(hash, b, s), BufWords(b, s, e));
      StoreNormal(hash, WriteRun(AsMeant, hash, rs, b, s), b, e);
    }
  }

  /* ---- runs as coded ---- */

  /** Writing this run copies nothing wrongly, or only what later runs overwrite. */
  predicate RunRight(hash: Hash, rs: seq<Region>, b: Buffer, s: nat)
    requires Filled(b) && Ordered(rs) && b.start <= s < b.end
  {
    var e := RunEnd(hash, b, s, s + 1);
    CopiesRight(rs, s, e, KindAt(hash, b, s)) || rs[EndingBelow(rs, e)].end <= b.end
  }

  ghost predicate RunsRight(hash: Hash, rs: seq<Region>, b: Buffer, s: nat)
    requires Filled(b) && Ordered(rs) && b.start <= s <= b.end
    decreases b.end - s
  {
    if s == b.end then true
    else
      RunAt(AsMeant, hash, rs, b, s, 0);
      && RunRight(hash, rs, b, s)
      && RunsRight(hash, WriteRun(AsMeant, hash, rs, b, s), b, RunEnd(hash, b, s, s + 1))
  }

  lemma RunShape(o: Offsets, hash: Hash, rs: seq<Region>, rs': seq<Region>, b: Buffer, s: nat)
    requires Filled(b) && Ordered(rs) && Ordered(rs') && SameShape(rs, rs') && b.start <= s < b.end
    ensures SameShape(WriteRun(AsMeant, hash, rs, b, s), WriteRun(o, hash, rs', b, s))
    ensures RunRight(hash, rs, b, s) <==> RunRight(hash, rs', b, s)
  {
    var e, kind := RunEnd(hash, b, s, s + 1), KindAt(hash, b, s);
    WriteShape(AsMeant, o, rs, rs', s, e, kind, BufWords(b, s, e));
    ShapeCopies(rs, rs', s, e, kind);
    RestShape(AsMeant, AsMeant, rs, rs', s, e, kind);
    if EndingBelow(rs, e) < |rs| {
      assert AlikeBut(rs[EndingBelow(rs, e)], rs'[EndingBelow(rs, e)]);
    }
  }

  lemma {:induction false} StoreShape(o: Offsets, hash: Hash, rs: seq<Region>, rs': seq<Region>, b: Buffer, s: nat)
    requires Filled(b) && Ordered(rs) && Ordered(rs') && SameShape(rs, rs') && b.start <= s <= b.end
    ensures SameShape(StoreFrom(AsMeant, hash, rs, b, s), StoreFrom(o, hash, rs', b, s))
    decreases b.end - s
  {
    if s < b.end {
      RunAt(AsMeant, hash, rs, b, s, 0);
      RunAt(o, hash, rs', b, s, 0);
      RunShape(o, hash, rs, rs', b, s);
      var next, next' := WriteRun(AsMeant, hash, rs, b, s), WriteRun(o, hash, rs', b, s);
      StoreShape(o, hash, next, next', b, RunEnd(hash, b, s, s + 1));
    }
  }

  lemma RunKeeps(o: Offsets, hash: Hash, rs: seq<Region>, b: Buffer, s: nat, w: nat)
    requires Filled(b) && Ordered(rs) && b.start <= s < b.end <= w && (o.AsMeant? || RunRight(hash, rs, b, s))
    ensures Ordered(WriteRun(o, hash, rs, b, s)) && At(hash, WriteRun(o, hash, rs, b, s), w) == At(hash, rs, w)
  {
    RunAt(o, hash, rs, b, s, w);
    RestKeeps(o, hash, rs, s, RunEnd(hash, b, s, s + 1), KindAt(hash, b, s), w);
  }

  lemma {:induction false} MeantBeyond(hash: Hash, rs: seq<Region>, b: Buffer, s: nat, w: nat)
    requires Filled(b) && Ordered(rs) && b.start <= s <= b.end <= w
    ensures At(hash, StoreFrom(AsMeant, hash, rs, b, s), w) == At(hash, rs, w)
    decreases b.end - s
  {
    if s < b.end {
      RunKeeps(AsMeant, hash, rs, b, s, w);
      MeantBeyond(hash, WriteRun(AsMeant, hash, rs, b, s), b, RunEnd(hash, b, s, s + 1), w);
    }
  }

  lemma RightNext(o: Offsets, hash: Hash, rs: seq<Region>, rs': seq<Region>, b: Buffer, s: nat)
    requires Filled(b) && Ordered(rs) && Ordered(rs') && SameShape(rs, rs') && b.start <= s < b.end
    requires RunsRight(hash, rs, b, s)
    ensures Ordered(WriteRun(AsMeant, hash, rs, b, s)) && Ordered(WriteRun(o, hash, rs', b, s))
    ensures SameShape(WriteRun(AsMeant, hash, rs, b, s), WriteRun(o, hash, rs', b, s))
    ensures RunRight(hash, rs', b, s)
    ensures RunsRight(hash, WriteRun(AsMeant, hash, rs, b, s), b, RunEnd(hash, b, s, s + 1))
  {
    RunAt(AsMeant, hash, rs, b, s, 0);
    RunAt(o, hash, rs', b, s, 0);
    RunShape(o, hash, rs, rs', b, s);
  }

  /** If no run copies wrongly past the buffer, the words there are kept. */
  lemma {:induction false} KeptBeyond(o: Offsets, hash: Hash, rs: seq<Region>, rs': seq<Region>, b: Buffer,
                                      s: nat, w: nat)
    requires Filled(b) && Ordered(rs) && Ordered(rs') && SameShape(rs, rs') && b.start <= s <= b.end <= w
    requires RunsRight(hash, rs, b, s)
    ensures At(hash, StoreFrom(o, hash, rs', b, s), w) == At(hash, rs', w)
    decreases b.end - s
  {
    if s < b.end {
      var next, next' := WriteRun(AsMeant, hash, rs, b, s), WriteRun(o, hash, rs', b, s);
      RightNext(o, hash, rs, rs', b, s);
      RunKeeps(o, hash, rs', b, s, w);
      KeptBeyond(o, hash, next, next', b, RunEnd(hash, b, s, s + 1), w);
    }
  }

  lemma WrongRun(junk: nat -> Word, hash: Hash, rs: seq<Region>, b: Buffer, s: nat) returns (w: nat)
    requires Filled(b) && Ordered(rs) && b.start <= s < b.end && !RunRight(hash, rs, b, s)
    ensures Ordered(WriteRun(AsCoded(junk), hash, rs, b, s))
    ensures w >= b.end && At(hash, WriteRun(AsCoded(junk), hash, rs, b, s), w) == junk(w)
  {
    var e := RunEnd(hash, b, s, s + 1);
    w := rs[EndingBelow(rs, e)].end - 1;
    RestWrong(junk, hash, rs, s, e, KindAt(hash, b, s));
    RunAt(AsCoded(junk), hash, rs, b, s, w);
  }

  /** If some run does, a word past the buffer ends up as whatever memory held. */
  lemma {:induction false} WrongBeyond(junk: nat -> Word, hash: Hash, rs: seq<Region>, rs': seq<Region>, b: Buffer,
                                       s: nat) returns (w: nat)
    requires Filled(b) && Ordered(rs) && Ordered(rs') && SameShape(rs, rs') && b.start <= s <= b.end
    requires !RunsRight(hash, rs, b, s)
    ensures w >= b.end && At(hash, StoreFrom(AsCoded(junk), hash, rs', b, s), w) == junk(w)
    decreases b.end - s
  {
    var e := RunEnd(hash, b, s, s + 1);
    var next, next' := WriteRun(AsMeant, hash, rs, b, s), WriteRun(AsCoded(junk), hash, rs', b, s);
    RunAt(AsMeant, hash, rs, b, s, 0);
    RunAt(AsCoded(junk), hash, rs', b, s, 0);
    RunShape(AsCoded(junk), hash, rs, rs', b, s);
    if !RunsRight(hash, next, b, e) {
      w := WrongBeyond(junk, hash, next, next', b, e);
    } else {
      w := WrongRun(junk, hash, rs', b, s);
      KeptBeyond(AsCoded(junk), hash, next, next', b, e, w);
    }
  }

  ghost predicate StoreAgrees(hash: Hash, rs: seq<Region>, b: Buffer, junk: nat -> Word)
    requires Filled(b) && Ordered(rs)
  {
    StoreFrom(AsCoded(junk), hash, rs, b, b.start) == StoreFrom(AsMeant, hash, rs, b, b.start)
  }

  lemma StoreRight(hash: Hash, rs: seq<Region>, b: Buffer, junk: nat -> Word)
    requires Filled(b) && Ordered(rs) && RunsRight(hash, rs, b, b.start)
    ensures StoreAgrees(hash, rs, b, junk)
  {
    var x, y := StoreFrom(AsMeant, hash, rs, b, b.start), StoreFrom(AsCoded(junk), hash, rs, b, b.start);
    StoreShape(AsCoded(junk), hash, rs, rs, b, b.start);
    forall w: nat ensures At(hash, x, w) == At(hash, y, w) {
      if w < b.end {
        StoreAt(AsMeant, hash, rs, b, b.start, w);
        StoreAt(AsCoded(junk), hash, rs, b, b.start, w);
      } else {
        MeantBeyond(hash, rs, b, b.start, w);
        KeptBeyond(AsCoded(junk), hash, rs, rs, b, b.start, w);
      }
    }
    ShapeAndWords(hash, x, y);
  }

  lemma SelfShape(rs: seq<Region>)
    ensures SameShape(rs, rs)
  {
  }

  lemma StoreFails(hash: Hash, rs: seq<Region>, b: Buffer) returns (junk: nat -> Word)
    requires Filled(b) && Ordered(rs) && !RunsRight(hash, rs, b, b.start)
    ensures !StoreAgrees(hash, rs, b, junk)
  {
    var meant := StoreFrom(AsMeant, hash, rs, b, b.start);
    junk := (w: nat) => Other(At(hash, meant, w));
    SelfShape(rs);
    var w := WrongBeyond(junk, hash, rs, rs, b, b.start);
  }

  /** Storing a buffer as coded does what is meant, whatever memory holds, exactly when no
      run copies a region wrongly that ends past the buffer. */
  lemma StoreExact(hash: Hash, rs: seq<Region>, b: Buffer)
    requires Filled(b) && Ordered(rs)
    ensures RunsRight(hash, rs, b, b.start) <==> forall junk: nat -> Word :: StoreAgrees(hash, rs, b, junk)
  {
    if RunsRight(hash, rs, b, b.start) {
      forall junk: nat -> Word ensures StoreAgrees(hash, rs, b, junk) {
        StoreRight(hash, rs, b, junk);
      }
    } else {
      var junk := StoreFails(hash, rs, b);
    }
  }

  /* ---- writes at any offset ---- */

  /** What reading the bytes between two offsets returns. */
  ghost function Edge(o: Offsets, hash: Hash, rs: seq<Region>, at: nat, end: nat): (edge: seq<Byte>)
    requires Ordered(rs) && at <= end
    ensures |edge| == end - at
  {
    seq(end - at, i requires 0 <= i < end - at => ReadByte(o, hash, rs, end - at, at, at + i))
  }

  /** A write rounded out to words, with what is read at its edges. */
  ghost function Rounded(o: Offsets, hash: Hash, rs: seq<Region>, bytes: seq<Byte>, off: nat): (b: Buffer)
    requires Ordered(rs)
    ensures Filled(b)
  {
    var s, e := off / 4, RoundUp(off + |bytes|);
    Buffer(Edge(o, hash, rs, 4 * s, off) + bytes + Edge(o, hash, rs, off + |bytes|, 4 * e), s, e)
  }

  ghost function Put(o: Offsets, hash: Hash, rs: seq<Region>, bytes: seq<Byte>, off: nat): (now: seq<Region>)
    requires Ordered(rs)
    ensures Ordered(now)
  {
    var b := Rounded(o, hash, rs, bytes, off);
    StoreFrom(o, hash, rs, b, b.start)
  }

  /** The bytes of a file with some written over them. */
  ghost function Overlaid(hash: Hash, rs: seq<Region>, off: nat, bytes: seq<Byte>, p: nat): Byte
    requires Ordered(rs)
  {
    if off <= p < off + |bytes| then bytes[p - off] else ByteAt(hash, rs, p)
  }

  lemma RoundedMeant(hash: Hash, rs: seq<Region>, bytes: seq<Byte>, off: nat, b: Buffer, p: nat)
    requires Ordered(rs) && b == Rounded(AsMeant, hash, rs, bytes, off) && b.start <= p / 4 < b.end
    ensures b.bytes[p - 4 * b.start] == Overlaid(hash, rs, off, bytes, p)
  {
    if p < off {
      ReadMeant(hash, rs, off - 4 * b.start, 4 * b.start, p);
    } else if p >= off + |bytes| {
      ReadMeant(hash, rs, 4 * b.end - off - |bytes|, off + |bytes|, p);
    }
  }

  lemma BufByte(b: Buffer, p: nat)
    requires Filled(b) && b.start <= p / 4 < b.end
    ensures ByteOf(BufWord(b, p / 4), p % 4) == b.bytes[p - 4 * b.start]
  {
    var q := p - 4 * b.start;
    assert q / 4 == p / 4 - b.start && q % 4 == p % 4;
    WordAtByte(b.bytes, q);
  }

  lemma {:induction false} EndsByContents(hash: Hash, rs: seq<Region>, e: nat)
    requires Normal(hash, rs) && forall w: nat :: w >= e ==> At(hash, rs, w) == ZERO_WORD
    ensures EndBy(rs, e)
  {
    forall i | 0 <= i < |rs| ensures rs[i].end <= e {
      var w := rs[i].end - 1;
      AtRegion(hash, rs, i, w);
      assert KindOf(hash, w, WordIn(hash, rs[i], w)) == Data(rs[i].magic);
    }
  }

  lemma BeyondEnd(hash: Hash, rs: seq<Region>, e: nat, w: nat)
    requires Ordered(rs) && EndBy(rs, e) && w >= e
    ensures At(hash, rs, w) == ZERO_WORD
  {
    forall i ensures !Holds(rs, i, w) {
    }
    AtNowhere(hash, rs, w);
  }

  lemma StoredByte(o: Offsets, hash: Hash, rs: seq<Region>, b: Buffer, p: nat)
    requires Filled(b) && Ordered(rs) && b.start <= p / 4 < b.end
    ensures ByteAt(hash, StoreFrom(o, hash, rs, b, b.start), p) == b.bytes[p - 4 * b.start]
  {
    StoreAt(o, hash, rs, b, b.start, p / 4);
    BufByte(b, p);
  }

  lemma PutInside(hash: Hash, rs: seq<Region>, bytes: seq<Byte>, off: nat, b: Buffer, p: nat)
    requires Ordered(rs) && b == Rounded(AsMeant, hash, rs, bytes, off) && b.start <= p / 4 < b.end
    ensures ByteAt(hash, StoreFrom(AsMeant, hash, rs, b, b.start), p) == Overlaid(hash, rs, off, bytes, p)
  {
    StoredByte(AsMeant, hash, rs, b, p);
    RoundedMeant(hash, rs, bytes, off, b, p);
  }

  lemma PutOutside(hash: Hash, rs: seq<Region>, b: Buffer, w: nat)
    requires Ordered(rs) && Filled(b) && !(b.start <= w < b.end)
    ensures At(hash, StoreFrom(AsMeant, hash, rs, b, b.start), w) == At(hash, rs, w)
  {
    if w < b.start {
      StoreAt(AsMeant, hash, rs, b, b.start, w);
    } else {
      MeantBeyond(hash, rs, b, b.start, w);
    }
  }

  lemma OutsideBytes(hash: Hash, rs: seq<Region>, bytes: seq<Byte>, off: nat, b: Buffer, p: nat)
    requires Ordered(rs) && b == Rounded(AsMeant, hash, rs, bytes, off) && !(b.start <= p / 4 < b.end)
    ensures Overlaid(hash, rs, off, bytes, p) == ByteAt(hash, rs, p)
  {
  }

  lemma PutBytesIn(hash: Hash, rs: seq<Region>, bytes: seq<Byte>, off: nat, b: Buffer, p: nat)
    requires Ordered(rs) && b == Rounded(AsMeant, hash, rs, bytes, off)
    ensures ByteAt(hash, StoreFrom(AsMeant, hash, rs, b, b.start), p) == Overlaid(hash, rs, off, bytes, p)
  {
    if b.start <= p / 4 < b.end {
      PutInside(hash, rs, bytes, off, b, p);
    } else {
      PutOutside(hash, rs, b, p / 4);
      OutsideBytes(hash, rs, bytes, off, b, p);
    }
  }

  /** As meant, a write stores its bytes and leaves all others alone. */
  lemma PutBytes(hash: Hash, rs: seq<Region>, bytes: seq<Byte>, off: nat, p: nat)
    requires Ordered(rs)
    ensures ByteAt(hash, Put(AsMeant, hash, rs, bytes, off), p) == Overlaid(hash, rs, off, bytes, p)
  {
    PutBytesIn(hash, rs, bytes, off, Rounded(AsMeant, hash, rs, bytes, off), p);
  }

  /** As meant, a write keeps the container in normal form. */
  lemma PutNormal(hash: Hash, rs: seq<Region>, bytes: seq<Byte>, off: nat)
    requires Normal(hash, rs) && EndBy(rs, MAX_WORDS) && off + |bytes| <= 4 * MAX_WORDS
    ensures Normal(hash, Put(AsMeant, hash, rs, bytes, off)) && EndBy(Put(AsMeant, hash, rs, bytes, off), MAX_WORDS)
  {
    var b := Rounded(AsMeant, hash, rs, bytes, off);
    StoreNormal(hash, rs, b, b.start);
    var now := Put(AsMeant, hash, rs, bytes, off);
    forall w: nat | w >= MAX_WORDS ensures At(hash, now, w) == ZERO_WORD {
      PutOutside(hash, rs, b, w);
      BeyondEnd(hash, rs, MAX_WORDS, w);
    }
    EndsByContents(hash, now, MAX_WORDS);
  }

  /* ---- writes at any offset, as coded ---- */

  /** The first word of the write is read rightly: it is written whole, it lies in a region,
      or the word before it does not. */
  predicate HeadRight(rs: seq<Region>, off: nat) {
    off % 4 == 0 || CoveredByte(rs, off) || off < 4 || !CoveredByte(rs, off - 4)
  }

  lemma CoveredIn(rs: seq<Region>, i: nat, p: nat)
    requires Ordered(rs) && i < |rs| && 4 * rs[i].start <= p < 4 * rs[i].end
    ensures CoveredByte(rs, p)
  {
    assert Holds(rs, i, p / 4);
  }

  /** Only the word right before the write can make the hull of the read start earlier. */
  lemma HullAtWord(rs: seq<Region>, w: nat)
    requires Ordered(rs) && !CoveredByte(rs, 4 * w)
    ensures HullStart(rs, 4 * w) < 4 * w <==> w > 0 && CoveredByte(rs, 4 * w - 4)
    ensures HullStart(rs, 4 * w) <= 4 * w
  {
    var n := StartingBelow(rs, w);
    assert RoundUp(4 * w) == w;
    if n > 0 && rs[n - 1].end >= w {
      CoveredIn(rs, n - 1, 4 * rs[n - 1].end - 4);
      if rs[n - 1].end > w {
        CoveredIn(rs, n - 1, 4 * w);
      }
    }
    if w > 0 && CoveredByte(rs, 4 * w - 4) {
      var i :| 0 <= i < |rs| && Holds(rs, i, w - 1);
      assert i < n;
    }
  }

  lemma HeadExact(rs: seq<Region>, off: nat)
    requires Ordered(rs)
    ensures UnclearedCovered(rs, off % 4, 4 * (off / 4)) <==> HeadRight(rs, off)
  {
    var at := 4 * (off / 4);
    if off % 4 != 0 && !CoveredByte(rs, off) {
      HullAtWord(rs, off / 4);
      assert off % 4 <= 3 && (at / 4) == off / 4;
      if HullStart(rs, at) < at {
        HullAligned(rs, off / 4);
        assert !CoveredByte(rs, at);
      }
    } else {
      forall p | at <= p < off && HullStart(rs, at) + off % 4 <= p ensures CoveredByte(rs, p) {
        assert p / 4 == off / 4;
      }
    }
  }

  lemma HullAligned(rs: seq<Region>, w: nat)
    requires Ordered(rs) && HullStart(rs, 4 * w) < 4 * w
    ensures HullStart(rs, 4 * w) + 4 <= 4 * w
  {
  }

  /** The last word of the write is always read rightly. */
  lemma TailRight(rs: seq<Region>, at: nat)
    requires Ordered(rs)
    ensures UnclearedCovered(rs, 4 * RoundUp(at) - at, at)
  {
    var n := StartingBelow(rs, RoundUp(at));
    forall p | at <= p < 4 * RoundUp(at) && HullStart(rs, at) + (4 * RoundUp(at) - at) <= p ensures CoveredByte(rs, p) {
      assert n > 0 && 4 * rs[n - 1].end >= at;
      CoveredIn(rs, n - 1, p);
    }
  }

  lemma EdgeRight(hash: Hash, rs: seq<Region>, at: nat, end: nat, junk: nat -> Word)
    requires Ordered(rs) && at <= end && UnclearedCovered(rs, end - at, at)
    ensures Edge(AsCoded(junk), hash, rs, at, end) == Edge(AsMeant, hash, rs, at, end)
  {
    var x, y := Edge(AsCoded(junk), hash, rs, at, end), Edge(AsMeant, hash, rs, at, end);
    forall i | 0 <= i < end - at ensures x[i] == y[i] {
      CodedByte(hash, rs, end - at, at, at + i, junk);
      ReadMeant(hash, rs, end - at, at, at + i);
    }
  }

  lemma RoundedRight(hash: Hash, rs: seq<Region>, bytes: seq<Byte>, off: nat, junk: nat -> Word)
    requires Ordered(rs) && HeadRight(rs, off)
    ensures Rounded(AsCoded(junk), hash, rs, bytes, off) == Rounded(AsMeant, hash, rs, bytes, off)
  {
    HeadExact(rs, off);
    EdgeRight(hash, rs, 4 * (off / 4), off, junk);
    TailRight(rs, off + |bytes|);
    EdgeRight(hash, rs, off + |bytes|, 4 * RoundUp(off + |bytes|), junk);
  }

  /** Otherwise every byte of the word before the write is read as memory held it, where it
      is zero. */
  lemma HeadWrong(hash: Hash, rs: seq<Region>, off: nat, p: nat, junk: nat -> Word)
    requires Ordered(rs) && !HeadRight(rs, off) && 4 * (off / 4) <= p < off
    ensures ReadByte(AsCoded(junk), hash, rs, off % 4, 4 * (off / 4), p) == junk(p).b0 && ByteAt(hash, rs, p) == 0
  {
    var w := off / 4;
    HullAtWord(rs, w);
    HullAligned(rs, w);
    assert p / 4 == w;
    CodedByte(hash, rs, off % 4, 4 * w, p, junk);
    forall i ensures !Holds(rs, i, w) {
      assert !CoveredByte(rs, off);
    }
    AtNowhere(hash, rs, w);
  }

  lemma RoundedWrong(hash: Hash, rs: seq<Region>, bytes: seq<Byte>, off: nat, p: nat, junk: nat -> Word, b: Buffer)
    requires Ordered(rs) && !HeadRight(rs, off) && 4 * (off / 4) <= p < off
    requires b == Rounded(AsCoded(junk), hash, rs, bytes, off)
    ensures b.start <= p / 4 < b.end && b.bytes[p - 4 * b.start] == junk(p).b0
  {
    var at := 4 * (off / 4);
    HeadWrong(hash, rs, off, p, junk);
    assert Edge(AsCoded(junk), hash, rs, at, off)[p - at] == junk(p).b0;
  }

  lemma PutJunkIn(hash: Hash, rs: seq<Region>, bytes: seq<Byte>, off: nat, p: nat, junk: nat -> Word, b: Buffer)
    requires Ordered(rs) && !HeadRight(rs, off) && 4 * (off / 4) <= p < off
    requires b == Rounded(AsCoded(junk), hash, rs, bytes, off)
    ensures ByteAt(hash, StoreFrom(AsCoded(junk), hash, rs, b, b.start), p) == junk(p).b0
  {
    RoundedWrong(hash, rs, bytes, off, p, junk, b);
    StoredByte(AsCoded(junk), hash, rs, b, p);
  }

  /** And it is stored so. */
  lemma PutJunk(hash: Hash, rs: seq<Region>, bytes: seq<Byte>, off: nat, p: nat, junk: nat -> Word)
    requires Ordered(rs) && !HeadRight(rs, off) && 4 * (off / 4) <= p < off
    ensures ByteAt(hash, Put(AsCoded(junk), hash, rs, bytes, off), p) == junk(p).b0 && ByteAt(hash, rs, p) == 0
  {
    HeadWrong(hash, rs, off, p, junk);
    PutJunkIn(hash, rs, bytes, off, p, junk, Rounded(AsCoded(junk), hash, rs, bytes, off));
  }

  /** The condition under which a coded write is right. */
  ghost predicate PutRight(hash: Hash, rs: seq<Region>, bytes: seq<Byte>, off: nat)
    requires Ordered(rs)
  {
    var b := Rounded(AsMeant, hash, rs, bytes, off);
    HeadRight(rs, off) && RunsRight(hash, rs, b, b.start)
  }

  ghost predicate PutAgrees(hash: Hash, rs: seq<Region>, bytes: seq<Byte>, off: nat, junk: nat -> Word)
    requires Ordered(rs)
  {
    Put(AsCoded(junk), hash, rs, bytes, off) == Put(AsMeant, hash, rs, bytes, off)
  }

  lemma PutWrong(hash: Hash, rs: seq<Region>, bytes: seq<Byte>, off: nat) returns (junk: nat -> Word)
    requires Ordered(rs) && !HeadRight(rs, off)
    ensures !PutAgrees(hash, rs, bytes, off, junk)
  {
    var p := 4 * (off / 4);
    junk := (q: nat) => Word(1, 0, 0, 0);
    PutJunk(hash, rs, bytes, off, p, junk);
    PutBytes(hash, rs, bytes, off, p);
  }

  lemma PutSame(hash: Hash, rs: seq<Region>, bytes: seq<Byte>, off: nat, junk: nat -> Word)
    requires Ordered(rs) && HeadRight(rs, off)
    ensures PutAgrees(hash, rs, bytes, off, junk) <==>
      StoreAgrees(hash, rs, Rounded(AsMeant, hash, rs, bytes, off), junk)
  {
    RoundedRight(hash, rs, bytes, off, junk);
  }

  /** A coded write does what is meant, whatever memory holds, exactly when its first word is
      read rightly and none of its runs copies a region wrongly that ends past it. */
  lemma PutExact(hash: Hash, rs: seq<Region>, bytes: seq<Byte>, off: nat)
    requires Ordered(rs)
    ensures PutRight(hash, rs, bytes, off) <==> forall junk: nat -> Word :: PutAgrees(hash, rs, bytes, off, junk)
  {
    if HeadRight(rs, off) {
      StoreExact(hash, rs, Rounded(AsMeant, hash, rs, bytes, off));
      forall junk: nat -> Word
        ensures PutAgrees(hash, rs, bytes, off, junk) <==>
          StoreAgrees(hash, rs, Rounded(AsMeant, hash, rs, bytes, off), junk)
      {
        PutSame(hash, rs, bytes, off, junk);
      }
    } else {
      var junk := PutWrong(hash, rs, bytes, off);
    }
  }

  /* ---- truncation ---- */

  const ZEROES: seq<Byte> := [0, 0, 0, 0]

  /** Zeroes from an offset up to the next word. */
  function Pad(length: nat): (zeroes: seq<Byte>)
    requires length % 4 != 0
    ensures length + |zeroes| == 4 * RoundUp(length) && forall i :: 0 <= i < |zeroes| ==> zeroes[i] == 0
  {
    ZEROES[..4 - length % 4]
  }

  /** The rest of the last word is cleared, if it is cut. */
  ghost function Padded(o: Offsets, hash: Hash, rs: seq<Region>, length: nat): (now: seq<Region>)
    requires Ordered(rs)
    ensures Ordered(now)
  {
    if length % 4 == 0 then rs else Put(o, hash, rs, Pad(length), length)
  }

  ghost function Truncated(o: Offsets, hash: Hash, rs: seq<Region>, length: nat): seq<Region>
    requires Ordered(rs) && length <= 4 * MAX_WORDS
  {
    RegionWrites.WriteRegion(o, Padded(o, hash, rs, length), RoundUp(length), MAX_WORDS, Zero, [])
  }

  /** Zeroing all from an offset on leaves what lies before it. */
  lemma ZeroedFrom(o: Offsets, hash: Hash, rs: seq<Region>, s: nat, w: nat)
    requires Ordered(rs) && EndBy(rs, MAX_WORDS) && s <= MAX_WORDS
    ensures var now := RegionWrites.WriteRegion(o, rs, s, MAX_WORDS, Zero, []);
      && now == Below(rs, s) && Ordered(now)
      && At(hash, now, w) == if w < s then At(hash, rs, w) else ZERO_WORD
  {
    assert EndingBelow(rs, MAX_WORDS) == |rs|;
    assert Below(rs, s) + [] == Below(rs, s);
    AtBelow(hash, rs, s, w);
  }

  lemma PaddedNormal(hash: Hash, rs: seq<Region>, length: nat)
    requires Normal(hash, rs) && EndBy(rs, MAX_WORDS) && length <= 4 * MAX_WORDS
    ensures Normal(hash, Padded(AsMeant, hash, rs, length)) && EndBy(Padded(AsMeant, hash, rs, length), MAX_WORDS)
  {
    if length % 4 != 0 {
      PutNormal(hash, rs, Pad(length), length);
    }
  }

  lemma PaddedBytes(hash: Hash, rs: seq<Region>, length: nat, p: nat)
    requires Ordered(rs)
    ensures ByteAt(hash, Padded(AsMeant, hash, rs, length), p) ==
      if length <= p < 4 * RoundUp(length) then 0 else ByteAt(hash, rs, p)
  {
    if length % 4 != 0 {
      PutBytes(hash, rs, Pad(length), length, p);
      ZeroesOver(hash, rs, length, Pad(length), 4 * RoundUp(length), p);
    }
  }

  lemma ZeroesOver(hash: Hash, rs: seq<Region>, length: nat, zeroes: seq<Byte>, end: nat, p: nat)
    requires Ordered(rs) && length + |zeroes| == end && forall i :: 0 <= i < |zeroes| ==> zeroes[i] == 0
    ensures Overlaid(hash, rs, length, zeroes, p) == if length <= p < end then 0 else ByteAt(hash, rs, p)
  {
  }

  /** As meant, a truncation cuts the bytes off or leaves the file longer with zeroes. */
  lemma TruncatedMeant(hash: Hash, rs: seq<Region>, length: nat, p: nat)
    requires Normal(hash, rs) && EndBy(rs, MAX_WORDS) && length <= 4 * MAX_WORDS
    ensures var now := Truncated(AsMeant, hash, rs, length);
      && Normal(hash, now) && EndBy(now, MAX_WORDS)
      && ByteAt(hash, now, p) == if p < length then ByteAt(hash, rs, p) else 0
  {
    PaddedNormal(hash, rs, length);
    PaddedBytes(hash, rs, length, p);
    var mid, a := Padded(AsMeant, hash, rs, length), RoundUp(length);
    ZeroedFrom(AsMeant, hash, mid, a, p / 4);
    BelowNormal(hash, mid, a);
  }

  lemma PaddedShape(hash: Hash, rs: seq<Region>, length: nat, junk: nat -> Word)
    requires Ordered(rs) && HeadRight(rs, length)
    ensures SameShape(Padded(AsMeant, hash, rs, length), Padded(AsCoded(junk), hash, rs, length))
  {
    SelfShape(rs);
    if length % 4 != 0 {
      var zeroes := Pad(length);
      RoundedRight(hash, rs, zeroes, length, junk);
      var b := Rounded(AsMeant, hash, rs, zeroes, length);
      StoreShape(AsCoded(junk), hash, rs, rs, b, b.start);
    }
  }

  lemma PaddedWords(hash: Hash, rs: seq<Region>, length: nat, junk: nat -> Word, w: nat)
    requires Ordered(rs) && HeadRight(rs, length) && w < RoundUp(length)
    ensures At(hash, Padded(AsCoded(junk), hash, rs, length), w) == At(hash, Padded(AsMeant, hash, rs, length), w)
  {
    if length % 4 != 0 {
      var zeroes := Pad(length);
      RoundedRight(hash, rs, zeroes, length, junk);
      var b := Rounded(AsMeant, hash, rs, zeroes, length);
      StoreAt(AsMeant, hash, rs, b, b.start, w);
      StoreAt(AsCoded(junk), hash, rs, b, b.start, w);
    }
  }

  ghost predicate TruncateAgrees(hash: Hash, rs: seq<Region>, length: nat, junk: nat -> Word)
    requires Ordered(rs) && length <= 4 * MAX_WORDS
  {
    Truncated(AsCoded(junk), hash, rs, length) == Truncated(AsMeant, hash, rs, length)
  }

  lemma ShapeEnds(a: seq<Region>, b: seq<Region>, e: nat)
    requires SameShape(a, b) && EndBy(a, e)
    ensures EndBy(b, e)
  {
    forall i | 0 <= i < |b| ensures b[i].end <= e {
      assert AlikeBut(a[i], b[i]);
    }
  }

  lemma TruncateRight(hash: Hash, rs: seq<Region>, length: nat, junk: nat -> Word)
    requires Normal(hash, rs) && EndBy(rs, MAX_WORDS) && length <= 4 * MAX_WORDS && HeadRight(rs, length)
    ensures TruncateAgrees(hash, rs, length, junk)
  {
    var x, y, a := Padded(AsMeant, hash, rs, length), Padded(AsCoded(junk), hash, rs, length), RoundUp(length);
    PaddedNormal(hash, rs, length);
    PaddedShape(hash, rs, length, junk);
    ShapeEnds(x, y, MAX_WORDS);
    BelowShape(x, y, a);
    forall w: nat ensures At(hash, Below(x, a), w) == At(hash, Below(y, a), w) {
      AtBelow(hash, x, a, w);
      AtBelow(hash, y, a, w);
      if w < a {
        PaddedWords(hash, rs, length, junk, w);
      }
    }
    ShapeAndWords(hash, Below(x, a), Below(y, a));
    ZeroedFrom(AsMeant, hash, x, a, 0);
    ZeroedFrom(AsCoded(junk), hash, y, a, 0);
  }

  lemma TruncatedHead(o: Offsets, hash: Hash, rs: seq<Region>, length: nat, w: nat)
    requires Ordered(rs) && length <= 4 * MAX_WORDS && w < RoundUp(length)
    ensures Ordered(Truncated(o, hash, rs, length))
    ensures At(hash, Truncated(o, hash, rs, length), w) == At(hash, Padded(o, hash, rs, length), w)
  {
    var a := RoundUp(length);
    WriteAt(o, hash, Padded(o, hash, rs, length), a, MAX_WORDS, Zero, seq(MAX_WORDS - a, _ => ZERO_WORD), w);
  }

  lemma TruncateWrong(hash: Hash, rs: seq<Region>, length: nat) returns (junk: nat -> Word)
    requires Ordered(rs) && length <= 4 * MAX_WORDS && !HeadRight(rs, length)
    ensures !TruncateAgrees(hash, rs, length, junk)
  {
    var p := 4 * (length / 4);
    junk := (q: nat) => Word(1, 0, 0, 0);
    PutJunk(hash, rs, Pad(length), length, p, junk);
    PaddedBytes(hash, rs, length, p);
    TruncatedHead(AsCoded(junk), hash, rs, length, p / 4);
    TruncatedHead(AsMeant, hash, rs, length, p / 4);
  }

  /** A coded truncation does what is meant, whatever memory holds, exactly when the last
      word that stays is read rightly: words copied wrongly past it are cut off. */
  lemma TruncateExact(hash: Hash, rs: seq<Region>, length: nat)
    requires Normal(hash, rs) && EndBy(rs, MAX_WORDS) && length <= 4 * MAX_WORDS
    ensures HeadRight(rs, length) <==> forall junk: nat -> Word :: TruncateAgrees(hash, rs, length, junk)
  {
    if HeadRight(rs, length) {
      forall junk: nat -> Word ensures TruncateAgrees(hash, rs, length, junk) {
        TruncateRight(hash, rs, length, junk);
      }
    } else {
      var junk := TruncateWrong(hash, rs, length);
    }
  }

  /* ---- failing inputs ---- */

  /** Reading the word after a region of one word: nothing of it is cleared. */
  lemma CodedReadFails(hash: Hash, x: Word)
    ensures var rs := [Region(0, 1, 0, [x])];
      Ordered(rs) && exists junk: nat -> Word :: !ReadsRight(AsCoded(junk), hash, rs, 4, 4)
  {
    var rs := [Region(0, 1, 0, [x])];
    assert rs[0].start == 0;
    assert HullStart(rs, 4) == 0;
    assert !CoveredByte(rs, 4);
    assert !UnclearedCovered(rs, 4, 4);
    CodedReadExact(hash, rs, 4, 4);
  }
}
