/** Writing regions: driver/data.C.

    `WriteRegion` is what write_region is to leave: what lies before the write, the written
    region, and what lies after it, merged where kinds agree. */
module RegionWrites {

  import opened Basics
  import opened SparseData

  /* ---- writing a region: what is meant ---- */

  /** The part of a region between two offsets. */
  function Cut(r: Region, a: nat, b: nat): (c: Region)
    requires Sized(r) && r.start <= a < b <= r.end
    ensures Sized(c) && c.start == a && c.end == b && c.magic == r.magic
  {
    Region(a, b, r.magic, if r.magic == 0 then r.data[a - r.start..b - r.start] else [])
  }

  function Min(a: nat, b: nat): nat { if a < b then a else b }

  function Max(a: nat, b: nat): nat { if a < b then b else a }

  /** The number of regions that start below `s`. */
  function StartingBelow(rs: seq<Region>, s: nat): (n: nat)
    requires Ordered(rs)
    ensures n <= |rs|
    ensures forall i :: 0 <= i < n ==> rs[i].start < s
    ensures forall i :: n <= i < |rs| ==> rs[i].start >= s
  {
    StartingBelowIn(rs, s, |rs|)
  }

  function StartingBelowIn(rs: seq<Region>, s: nat, k: nat): (n: nat)
    requires Ordered(rs) && k <= |rs|
    ensures n <= k
    ensures forall i :: 0 <= i < n ==> rs[i].start < s
    ensures forall i :: n <= i < k ==> rs[i].start >= s
  {
    if k == 0 || rs[k - 1].start < s then k else StartingBelowIn(rs, s, k - 1)
  }

  /** The number of regions that end at or below `e`. */
  function EndingBelow(rs: seq<Region>, e: nat): (m: nat)
    requires Ordered(rs)
    ensures m <= |rs|
    ensures forall i :: 0 <= i < m ==> rs[i].end <= e
    ensures forall i :: m <= i < |rs| ==> rs[i].end > e
  {
    EndingBelowIn(rs, e, |rs|)
  }

  function EndingBelowIn(rs: seq<Region>, e: nat, k: nat): (m: nat)
    requires Ordered(rs) && k <= |rs|
    ensures m <= k
    ensures forall i :: 0 <= i < m ==> rs[i].end <= e
    ensures forall i :: m <= i < k ==> rs[i].end > e
  {
    if k == 0 || rs[k - 1].end <= e then k else EndingBelowIn(rs, e, k - 1)
  }

  /** What lies below offset `s`. */
  function Below(rs: seq<Region>, s: nat): (left: seq<Region>)
    requires Ordered(rs)
    ensures Ordered(left) && forall i :: 0 <= i < |left| ==> left[i].end <= s
  {
    var n := StartingBelow(rs, s);
    if n == 0 then [] else rs[..n - 1] + [Cut(rs[n - 1], rs[n - 1].start, Min(rs[n - 1].end, s))]
  }

  /** What lies from offset `e` on. */
  function Above(rs: seq<Region>, e: nat): (right: seq<Region>)
    requires Ordered(rs)
    ensures Ordered(right) && forall i :: 0 <= i < |right| ==> right[i].start >= e
  {
    var m := EndingBelow(rs, e);
    if m == |rs| then [] else [Cut(rs[m], Max(rs[m].start, e), rs[m].end)] + rs[m + 1..]
  }

  /** Two adjacent regions of one kind as one. */
  function Join(a: Region, b: Region): (c: Region)
    requires Sized(a) && Sized(b) && a.end == b.start && a.magic == b.magic
    ensures Sized(c) && c.start == a.start && c.end == b.end && c.magic == a.magic
  {
    Region(a.start, b.end, a.magic, a.data + b.data)
  }

  predicate Touches(a: Region, b: Region) {
    a.end == b.start && a.magic == b.magic
  }

  /** Two lists of regions one after the other, merged at the seam. */
  function Attach(a: seq<Region>, b: seq<Region>): seq<Region>
    requires Ordered(a) && Ordered(b)
  {
    var n := |a|;
    if a != [] && b != [] && Touches(a[n - 1], b[0])
    then a[..n - 1] + [Join(a[n - 1], b[0])] + b[1..]
    else a + b
  }

  /** The words of a written region, as stored. */
  function Written(s: nat, e: nat, magic: nat, buf: seq<Word>): (r: Region)
    requires s < e && |buf| == e - s
    ensures Sized(r)
  {
    Region(s, e, magic, if magic == 0 then buf else [])
  }

  /** Two copies in write_region use a wrong offset. They are modelled as meant, or as
      coded, where words past the end of a buffer are `junk`. */
  datatype Offsets = AsMeant | AsCoded(junk: nat -> Word)

  predicate Differs(kind: Kind, magic: nat) {
    kind.Zero? || kind.magic != magic
  }

  /** The back part of a region split by a write. */
  function SplitTail(o: Offsets, r: Region, e: nat): (t: Region)
    requires Sized(r) && r.start <= e < r.end
    ensures Sized(t) && t.start == e && t.end == r.end && t.magic == r.magic
  {
    if o.AsMeant? || r.magic != 0 then Cut(r, e, r.end)
    else Region(e, r.end, 0, seq(r.end - e, i requires 0 <= i =>
           if e + i < |r.data| then r.data[e + i] else o.junk(e + i)))
  }

  /** The back part of a region merged with a write. */
  function MergeTail(o: Offsets, r: Region, e: nat): (t: Region)
    requires Sized(r) && r.start <= e < r.end
    ensures Sized(t) && t.start == e && t.end == r.end && t.magic == r.magic
  {
    if o.AsMeant? || r.magic != 0 then Cut(r, e, r.end)
    else Region(e, r.end, 0, seq(r.end - e, i requires 0 <= i =>
           if e + i - r.start < r.end - e then r.data[e + i - r.start] else o.junk(e + i)))
  }

  /** What a write of [s, e) leaves of a region that ends past it. */
  function Tail(o: Offsets, r: Region, s: nat, e: nat, kind: Kind): (t: Region)
    requires Sized(r) && e < r.end
    ensures Sized(t) && t.start == Max(r.start, e) && t.end == r.end && t.magic == r.magic
  {
    if r.start >= e then r
    else if Differs(kind, r.magic) then if r.start < s then SplitTail(o, r, e) else Cut(r, e, r.end)
    else if r.start < s then Cut(r, e, r.end) else MergeTail(o, r, e)
  }

  /** What a write of [s, e) leaves from `e` on. */
  function Rest(o: Offsets, rs: seq<Region>, s: nat, e: nat, kind: Kind): (right: seq<Region>)
    requires Ordered(rs)
    ensures Ordered(right) && forall i :: 0 <= i < |right| ==> right[i].start >= e
  {
    var m := EndingBelow(rs, e);
    if m == |rs| then [] else [Tail(o, rs[m], s, e, kind)] + rs[m + 1..]
  }

  function WriteRegion(o: Offsets, rs: seq<Region>, s: nat, e: nat, kind: Kind, buf: seq<Word>): seq<Region>
    requires Ordered(rs) && s <= e
    requires kind.Data? ==> s < e && |buf| == e - s
  {
    var left, right := Below(rs, s), Rest(o, rs, s, e, kind);
    if kind.Zero? then left + right
    else
      var w := [Written(s, e, kind.magic, buf)];
      AttachOrdered(left, w, s);
      Attach(Attach(left, w), right)
  }

  lemma RestMeant(rs: seq<Region>, s: nat, e: nat, kind: Kind)
    requires Ordered(rs)
    ensures Rest(AsMeant, rs, s, e, kind) == Above(rs, e)
  {
    var m := EndingBelow(rs, e);
    if m < |rs| {
      assert Tail(AsMeant, rs[m], s, e, kind) == Cut(rs[m], Max(rs[m].start, e), rs[m].end);
    }
  }

  lemma AtBelow(hash: Hash, rs: seq<Region>, s: nat, w: nat)
    requires Ordered(rs)
    ensures At(hash, Below(rs, s), w) == if w < s then At(hash, rs, w) else ZERO_WORD
  {
    var left := Below(rs, s);
    forall i ensures Holds(left, i, w) <==> w < s && Holds(rs, i, w) {
      assert 0 <= i < |left| - 1 ==> left[i] == rs[i];
    }
    if i :| w < s && Holds(rs, i, w) {
      AtRegion(hash, rs, i, w);
      AtRegion(hash, left, i, w);
      assert i < |left| - 1 ==> left[i] == rs[i];
    } else {
      AtNowhere(hash, left, w);
      if w < s {
        AtNowhere(hash, rs, w);
      }
    }
  }

  lemma CutAt(hash: Hash, r: Region, a: nat, w: nat)
    requires Sized(r) && r.start <= a <= w < r.end
    ensures WordIn(hash, Cut(r, a, r.end), w) == WordIn(hash, r, w)
  {
  }

  /** Two lists hold a word alike at places `d` apart. */
  ghost predicate Alike(hash: Hash, a: seq<Region>, b: seq<Region>, i: int, d: int, w: nat)
    requires Ordered(a) && Ordered(b)
  {
    if Holds(a, i, w) then Holds(b, i + d, w) && WordIn(hash, a[i], w) == WordIn(hash, b[i + d], w)
    else !Holds(b, i + d, w)
  }

  lemma SameAt(hash: Hash, a: seq<Region>, b: seq<Region>, d: int, w: nat)
    requires Ordered(a) && Ordered(b) && forall i: int :: Alike(hash, a, b, i, d, w)
    ensures At(hash, a, w) == At(hash, b, w)
  {
    if i :| Holds(a, i, w) {
      assert Alike(hash, a, b, i, d, w);
      AtRegion(hash, a, i, w);
      AtRegion(hash, b, i + d, w);
    } else {
      forall i ensures !Holds(b, i, w) {
        assert Alike(hash, a, b, i - d, d, w);
      }
    }
  }

  lemma AboveAt(hash: Hash, rs: seq<Region>, e: nat, i: int, w: nat)
    requires Ordered(rs) && w >= e
    ensures Alike(hash, Above(rs, e), rs, i, EndingBelow(rs, e), w)
  {
    var m, right := EndingBelow(rs, e), Above(rs, e);
    if 0 <= i && i + m < |rs| {
      if i == 0 {
        assert right[0] == Cut(rs[m], Max(rs[m].start, e), rs[m].end);
        if Holds(rs, m, w) {
          CutAt(hash, rs[m], Max(rs[m].start, e), w);
        }
      } else {
        assert right[i] == rs[i + m];
      }
    }
  }

  lemma AtAbove(hash: Hash, rs: seq<Region>, e: nat, w: nat)
    requires Ordered(rs)
    ensures At(hash, Above(rs, e), w) == if w >= e then At(hash, rs, w) else ZERO_WORD
  {
    if w >= e {
      forall i: int ensures Alike(hash, Above(rs, e), rs, i, EndingBelow(rs, e), w) {
        AboveAt(hash, rs, e, i, w);
      }
      SameAt(hash, Above(rs, e), rs, EndingBelow(rs, e), w);
    } else {
      AtNowhere(hash, Above(rs, e), w);
    }
  }

  /** Offset `p` lies between the two lists. */
  ghost predicate Seam(a: seq<Region>, b: seq<Region>, p: nat) {
    && (forall i :: 0 <= i < |a| ==> a[i].end <= p)
    && (forall i :: 0 <= i < |b| ==> b[i].start >= p)
  }

  lemma AttachOrdered(a: seq<Region>, b: seq<Region>, p: nat)
    requires Ordered(a) && Ordered(b) && Seam(a, b, p)
    ensures Ordered(Attach(a, b))
  {
  }

  lemma AttachEnds(a: seq<Region>, b: seq<Region>, p: nat, e: nat)
    requires Ordered(a) && Ordered(b) && Seam(a, b, p) && p <= e
    requires forall i :: 0 <= i < |b| ==> b[i].end <= e
    ensures forall i :: 0 <= i < |Attach(a, b)| ==> Attach(a, b)[i].end <= e
  {
  }

  lemma AtConcat(hash: Hash, a: seq<Region>, b: seq<Region>, p: nat, w: nat)
    requires Ordered(a) && Ordered(b) && Seam(a, b, p)
    ensures Ordered(a + b)
    ensures At(hash, a + b, w) == if w < p then At(hash, a, w) else At(hash, b, w)
  {
    var c := a + b;
    if i :| Holds(c, i, w) {
      AtRegion(hash, c, i, w);
      if i < |a| {
        AtRegion(hash, a, i, w);
      } else {
        AtRegion(hash, b, i - |a|, w);
      }
    } else {
      AtNowhere(hash, c, w);
      forall i ensures !Holds(a, i, w) && !Holds(b, i, w) {
        assert !Holds(c, i, w) && !Holds(c, |a| + i, w);
      }
    }
  }

  lemma AtSingle(hash: Hash, r: Region, w: nat)
    requires Sized(r)
    ensures At(hash, [r], w) == if r.start <= w < r.end then WordIn(hash, r, w) else ZERO_WORD
  {
    if r.start <= w < r.end {
      assert Holds([r], 0, w);
      AtRegion(hash, [r], 0, w);
    } else {
      AtNowhere(hash, [r], w);
    }
  }

  lemma AtJoin(hash: Hash, x: Region, y: Region, w: nat)
    requires Sized(x) && Sized(y) && Touches(x, y)
    ensures At(hash, [Join(x, y)], w) == if w < y.start then At(hash, [x], w) else At(hash, [y], w)
  {
    AtSingle(hash, x, w);
    AtSingle(hash, y, w);
    AtSingle(hash, Join(x, y), w);
  }

  lemma AtAttach(hash: Hash, a: seq<Region>, b: seq<Region>, p: nat, w: nat)
    requires Ordered(a) && Ordered(b) && Seam(a, b, p)
    ensures Ordered(Attach(a, b))
    ensures At(hash, Attach(a, b), w) == if w < p then At(hash, a, w) else At(hash, b, w)
  {
    var n := |a|;
    if a != [] && b != [] && Touches(a[n - 1], b[0]) {
      SplitEnds(a, b, p);
      AtSeam(hash, a[..n - 1], a[n - 1], b[0], b[1..], w);
    } else {
      AtConcat(hash, a, b, p, w);
    }
  }

  lemma SplitEnds(a: seq<Region>, b: seq<Region>, p: nat)
    requires Ordered(a) && Ordered(b) && Seam(a, b, p) && a != [] && b != []
    ensures a == a[..|a| - 1] + [a[|a| - 1]] && b == [b[0]] + b[1..]
    ensures Ordered(a[..|a| - 1]) && Seam(a[..|a| - 1], [a[|a| - 1]], a[|a| - 1].start)
    ensures Ordered(b[1..]) && Seam([b[0]], b[1..], b[0].end)
  {
  }

  lemma AtSeam(hash: Hash, a: seq<Region>, x: Region, y: Region, b: seq<Region>, w: nat)
    requires Ordered(a) && Sized(x) && Sized(y) && Ordered(b) && Touches(x, y)
    requires Seam(a, [x], x.start) && Seam([y], b, y.end)
    ensures Ordered(a + [x]) && Ordered([y] + b) && Ordered(a + [Join(x, y)] + b)
    ensures At(hash, a + [Join(x, y)] + b, w) == if w < y.start then At(hash, a + [x], w) else At(hash, [y] + b, w)
  {
    AtJoin(hash, x, y, w);
    AtConcat(hash, a, [x], x.start, w);
    AtConcat(hash, a, [Join(x, y)], x.start, w);
    AtConcat(hash, [y], b, y.end, w);
    AtConcat(hash, a + [Join(x, y)], b, y.end, w);
    AtSingle(hash, x, w);
    AtSingle(hash, y, w);
  }

  lemma AttachMaximal(a: seq<Region>, b: seq<Region>)
    requires Ordered(a) && Ordered(b) && Maximal(a) && Maximal(b)
    ensures Maximal(Attach(a, b))
  {
    var c, n := Attach(a, b), |a|;
    if a != [] && b != [] && Touches(a[n - 1], b[0]) {
      forall i | 0 < i < |c| && c[i - 1].end == c[i].start ensures c[i - 1].magic != c[i].magic {
        if i < n {
          assert c[i].start == a[i].start && c[i].magic == a[i].magic && c[i - 1] == a[i - 1];
        } else {
          assert c[i] == b[i - n + 1] && c[i - 1].end == b[i - n].end && c[i - 1].magic == b[i - n].magic;
        }
      }
    } else {
      forall i | 0 < i < |c| && c[i - 1].end == c[i].start ensures c[i - 1].magic != c[i].magic {
        if i < n {
          assert c[i] == a[i] && c[i - 1] == a[i - 1];
        } else {
          assert c[i] == b[i - n] && c[i - 1] == if i == n then a[n - 1] else b[i - n - 1];
        }
      }
    }
  }

  lemma AttachPure(hash: Hash, a: seq<Region>, b: seq<Region>)
    requires Ordered(a) && Ordered(b)
    requires forall i :: 0 <= i < |a| ==> Pure(hash, a[i])
    requires forall i :: 0 <= i < |b| ==> Pure(hash, b[i])
    ensures forall i :: 0 <= i < |Attach(a, b)| ==> Sized(Attach(a, b)[i]) && Pure(hash, Attach(a, b)[i])
  {
    if a != [] && b != [] && Touches(a[|a| - 1], b[0]) {
      JoinPure(hash, a[|a| - 1], b[0]);
    }
  }

  lemma AttachNormal(hash: Hash, a: seq<Region>, b: seq<Region>, p: nat)
    requires Normal(hash, a) && Normal(hash, b) && Seam(a, b, p)
    ensures Normal(hash, Attach(a, b))
  {
    AttachOrdered(a, b, p);
    AttachMaximal(a, b);
    AttachPure(hash, a, b);
  }

  lemma JoinPure(hash: Hash, a: Region, b: Region)
    requires Sized(a) && Sized(b) && Touches(a, b) && Pure(hash, a) && Pure(hash, b)
    ensures Pure(hash, Join(a, b))
  {
    forall w | a.start <= w < b.end
      ensures KindOf(hash, w, WordIn(hash, Join(a, b), w)) == Data(a.magic)
    {
      if w < a.end {
        assert WordIn(hash, Join(a, b), w) == WordIn(hash, a, w);
      } else {
        assert WordIn(hash, Join(a, b), w) == WordIn(hash, b, w);
      }
    }
  }

  lemma CutPure(hash: Hash, r: Region, a: nat, b: nat)
    requires Sized(r) && Pure(hash, r) && r.start <= a < b <= r.end
    ensures Pure(hash, Cut(r, a, b))
  {
    forall w | a <= w < b ensures KindOf(hash, w, WordIn(hash, Cut(r, a, b), w)) == Data(r.magic) {
      assert WordIn(hash, Cut(r, a, b), w) == WordIn(hash, r, w);
    }
  }

  lemma BelowNormal(hash: Hash, rs: seq<Region>, s: nat)
    requires Normal(hash, rs)
    ensures Normal(hash, Below(rs, s))
  {
    var n := StartingBelow(rs, s);
    if n > 0 {
      CutPure(hash, rs[n - 1], rs[n - 1].start, Min(rs[n - 1].end, s));
    }
  }

  lemma AboveNormal(hash: Hash, rs: seq<Region>, e: nat)
    requires Normal(hash, rs)
    ensures Normal(hash, Above(rs, e))
  {
    var m := EndingBelow(rs, e);
    if m < |rs| {
      CutPure(hash, rs[m], Max(rs[m].start, e), rs[m].end);
    }
  }

  /** The buffer of a region write holds words of one kind. */
  ghost predicate OfKind(hash: Hash, s: nat, e: nat, kind: Kind, buf: seq<Word>) {
    s <= e && |buf| == e - s && forall i :: 0 <= i < |buf| ==> KindOf(hash, s + i, buf[i]) == kind
  }

  lemma {:induction false} MagicIsHash(hash: Hash, w: nat, x: Word, magics: seq<nat>)
    ensures MagicOf(hash, w, x, magics) != 0 ==> x == HashAt(hash, w, MagicOf(hash, w, x, magics))
  {
    if magics != [] {
      MagicIsHash(hash, w, x, magics[1..]);
    }
  }

  lemma AtWritten(hash: Hash, s: nat, e: nat, magic: nat, buf: seq<Word>, w: nat)
    requires s <= w < e && OfKind(hash, s, e, Data(magic), buf)
    ensures WordIn(hash, Written(s, e, magic, buf), w) == buf[w - s]
  {
    assert KindOf(hash, w, buf[w - s]) == Data(magic);
    MagicIsHash(hash, w, buf[w - s], POSITION_MAGIC);
  }

  lemma AtPlaced(hash: Hash, left: seq<Region>, r: Region, right: seq<Region>, w: nat)
    requires Ordered(left) && Sized(r) && Ordered(right)
    requires Seam(left, [r], r.start) && Seam([r], right, r.end)
    ensures Ordered(Attach(left, [r])) && Ordered(Attach(Attach(left, [r]), right))
    ensures At(hash, Attach(Attach(left, [r]), right), w)
         == if w < r.start then At(hash, left, w)
            else if w < r.end then WordIn(hash, r, w) else At(hash, right, w)
  {
    AtSingle(hash, r, w);
    AtAttach(hash, left, [r], r.start, w);
    AttachEnds(left, [r], r.start, r.end);
    AtAttach(hash, Attach(left, [r]), right, r.end, w);
  }

  /** Whatever the offsets, a region write stores its words and leaves what lies before. */
  lemma WriteAt(o: Offsets, hash: Hash, rs: seq<Region>, s: nat, e: nat, kind: Kind, buf: seq<Word>, w: nat)
    requires Ordered(rs) && OfKind(hash, s, e, kind, buf) && (kind.Data? ==> s < e)
    ensures Ordered(WriteRegion(o, rs, s, e, kind, buf))
    ensures At(hash, WriteRegion(o, rs, s, e, kind, buf), w)
         == if w < s then At(hash, rs, w) else if w < e then buf[w - s] else At(hash, Rest(o, rs, s, e, kind), w)
  {
    var left, right := Below(rs, s), Rest(o, rs, s, e, kind);
    AtBelow(hash, rs, s, w);
    if kind.Zero? {
      AtConcat(hash, left, right, s, w);
      if s <= w < e {
        AtNowhere(hash, right, w);
        assert KindOf(hash, s + (w - s), buf[w - s]) == Zero;
      }
    } else {
      AtPlaced(hash, left, Written(s, e, kind.magic, buf), right, w);
      if s <= w < e {
        AtWritten(hash, s, e, kind.magic, buf, w);
      }
    }
  }

  /** A region write stores its words and leaves all others alone. */
  lemma WriteContents(hash: Hash, rs: seq<Region>, s: nat, e: nat, kind: Kind, buf: seq<Word>, w: nat)
    requires Ordered(rs) && OfKind(hash, s, e, kind, buf) && (kind.Data? ==> s < e)
    ensures Ordered(WriteRegion(AsMeant, rs, s, e, kind, buf))
    ensures At(hash, WriteRegion(AsMeant, rs, s, e, kind, buf), w)
         == if s <= w < e then buf[w - s] else At(hash, rs, w)
  {
    WriteAt(AsMeant, hash, rs, s, e, kind, buf, w);
    RestMeant(rs, s, e, kind);
    AtAbove(hash, rs, e, w);
  }

  lemma PlacedNormal(hash: Hash, left: seq<Region>, r: Region, right: seq<Region>)
    requires Normal(hash, left) && Normal(hash, [r]) && Normal(hash, right)
    requires Seam(left, [r], r.start) && Seam([r], right, r.end)
    ensures Ordered(Attach(left, [r])) && Normal(hash, Attach(Attach(left, [r]), right))
  {
    AttachNormal(hash, left, [r], r.start);
    AttachEnds(left, [r], r.start, r.end);
    AttachNormal(hash, Attach(left, [r]), right, r.end);
  }

  lemma WrittenNormal(hash: Hash, s: nat, e: nat, magic: nat, buf: seq<Word>)
    requires s < e && OfKind(hash, s, e, Data(magic), buf)
    ensures Normal(hash, [Written(s, e, magic, buf)])
  {
    var r := Written(s, e, magic, buf);
    forall w | s <= w < e ensures KindOf(hash, w, WordIn(hash, r, w)) == Data(r.magic) {
      AtWritten(hash, s, e, magic, buf, w);
      assert KindOf(hash, s + (w - s), buf[w - s]) == Data(magic);
    }
  }

  /** A region write keeps the container in normal form. */
  lemma WriteNormal(hash: Hash, rs: seq<Region>, s: nat, e: nat, kind: Kind, buf: seq<Word>)
    requires Normal(hash, rs) && OfKind(hash, s, e, kind, buf)
    requires s < e || (kind.Zero? && forall i :: 0 <= i < |rs| ==> rs[i].end <= e)
    ensures Normal(hash, WriteRegion(AsMeant, rs, s, e, kind, buf))
  {
    var left, right := Below(rs, s), Above(rs, e);
    RestMeant(rs, s, e, kind);
    BelowNormal(hash, rs, s);
    AboveNormal(hash, rs, e);
    if kind.Zero? {
      AttachNormal(hash, left, right, s);
    } else {
      WrittenNormal(hash, s, e, kind.magic, buf);
      PlacedNormal(hash, left, Written(s, e, kind.magic, buf), right);
    }
  }

  /* ---- writing a region: what is coded ---- */

  /** No copy from a wrong offset: the region that ends past the write is magic, starts
      past it, or is handled by one of the copies that are right. */
  predicate CopyRight(r: Region, s: nat, e: nat, kind: Kind) {
    r.magic == 0 && r.start < e ==>
      if Differs(kind, 0) then r.start == 0 || r.start >= s else r.start < s
  }

  predicate CopiesRight(rs: seq<Region>, s: nat, e: nat, kind: Kind)
    requires Ordered(rs)
  {
    var m := EndingBelow(rs, e);
    m < |rs| ==> CopyRight(rs[m], s, e, kind)
  }

  function Other(x: Word): Word {
    x.(b0 := x.b0 + 1)
  }

  function LastWord(r: Region): Word {
    if r.data == [] then ZERO_WORD else r.data[|r.data| - 1]
  }

  lemma SplitExact(r: Region, e: nat, junk: nat -> Word)
    requires Sized(r) && r.magic == 0 && r.start < e < r.end
    ensures r.start == 0 ==> SplitTail(AsCoded(junk), r, e) == SplitTail(AsMeant, r, e)
    ensures r.start > 0 ==> SplitTail(AsCoded(junk), r, e).data[r.end - e - 1] == junk(r.end - 1)
  {
    var t, u := SplitTail(AsCoded(junk), r, e), SplitTail(AsMeant, r, e);
    if r.start == 0 {
      assert t.data == u.data;
    } else {
      assert e + (r.end - e - 1) == r.end - 1;
    }
  }

  lemma MergeWrong(r: Region, e: nat, junk: nat -> Word)
    requires Sized(r) && r.magic == 0 && r.start < e < r.end
    ensures MergeTail(AsCoded(junk), r, e).data[r.end - e - 1] == junk(r.end - 1)
  {
    assert e + (r.end - e - 1) == r.end - 1;
  }

  lemma TailExact(r: Region, s: nat, e: nat, kind: Kind, junk: nat -> Word)
    requires Sized(r) && e < r.end && s <= e
    ensures CopyRight(r, s, e, kind) ==> Tail(AsCoded(junk), r, s, e, kind) == Tail(AsMeant, r, s, e, kind)
    ensures !CopyRight(r, s, e, kind) && junk(r.end - 1) != LastWord(r) ==>
      Tail(AsCoded(junk), r, s, e, kind).data != Tail(AsMeant, r, s, e, kind).data
  {
    if r.magic == 0 && r.start < e {
      SplitExact(r, e, junk);
      MergeWrong(r, e, junk);
      assert Cut(r, e, r.end).data[r.end - e - 1] == r.data[r.end - r.start - 1];
    }
  }

  /** Two lists whose first regions differ only in their data. */
  ghost predicate Unlike(b: seq<Region>, c: seq<Region>) {
    b != [] && c != [] && b[0].(data := c[0].data) == c[0] && b[0].data != c[0].data
  }

  lemma AttachUnlike(a: seq<Region>, b: seq<Region>, c: seq<Region>)
    requires Ordered(a) && Ordered(b) && Ordered(c) && Unlike(b, c)
    ensures Attach(a, b) != Attach(a, c)
  {
    var n := |a|;
    if a != [] && Touches(a[n - 1], b[0]) {
      assert (a[n - 1].data + b[0].data)[|a[n - 1].data|..] == b[0].data;
      assert (a[n - 1].data + c[0].data)[|a[n - 1].data|..] == c[0].data;
      assert Attach(a, b)[n - 1] == Join(a[n - 1], b[0]) && Attach(a, c)[n - 1] == Join(a[n - 1], c[0]);
    } else {
      assert Attach(a, b)[n] == b[0] && Attach(a, c)[n] == c[0];
    }
  }

  lemma CodedWriteRight(rs: seq<Region>, s: nat, e: nat, kind: Kind, buf: seq<Word>, junk: nat -> Word)
    requires Ordered(rs) && s <= e && (kind.Data? ==> s < e && |buf| == e - s)
    requires CopiesRight(rs, s, e, kind)
    ensures WriteRegion(AsCoded(junk), rs, s, e, kind, buf) == WriteRegion(AsMeant, rs, s, e, kind, buf)
  {
    var m := EndingBelow(rs, e);
    if m < |rs| {
        TailExact(rs[m], s, e, kind, junk);
    }
  }

  lemma CodedWriteWrong(rs: seq<Region>, s: nat, e: nat, kind: Kind, buf: seq<Word>, junk: nat -> Word)
    requires Ordered(rs) && s <= e && (kind.Data? ==> s < e && |buf| == e - s)
    requires !CopiesRight(rs, s, e, kind)
    requires var r := rs[EndingBelow(rs, e)]; junk(r.end - 1) != LastWord(r)
    ensures WriteRegion(AsCoded(junk), rs, s, e, kind, buf) != WriteRegion(AsMeant, rs, s, e, kind, buf)
  {
    var left, b, c := Below(rs, s), Rest(AsCoded(junk), rs, s, e, kind), Rest(AsMeant, rs, s, e, kind);
    TailExact(rs[EndingBelow(rs, e)], s, e, kind, junk);
    assert Unlike(b, c);
    if kind.Zero? {
      assert (left + b)[|left|] == b[0] && (left + c)[|left|] == c[0];
    } else {
      var w := [Written(s, e, kind.magic, buf)];
      AttachOrdered(left, w, s);
      AttachUnlike(Attach(left, w), b, c);
    }
  }

  ghost predicate WriteAgrees(rs: seq<Region>, s: nat, e: nat, kind: Kind, buf: seq<Word>, junk: nat -> Word)
    requires Ordered(rs) && s <= e && (kind.Data? ==> s < e && |buf| == e - s)
  {
    WriteRegion(AsCoded(junk), rs, s, e, kind, buf) == WriteRegion(AsMeant, rs, s, e, kind, buf)
  }

  lemma CodedWriteFails(rs: seq<Region>, s: nat, e: nat, kind: Kind, buf: seq<Word>) returns (junk: nat -> Word)
    requires Ordered(rs) && s <= e && (kind.Data? ==> s < e && |buf| == e - s)
    requires !CopiesRight(rs, s, e, kind)
    ensures !WriteAgrees(rs, s, e, kind, buf, junk)
  {
    var x := Other(LastWord(rs[EndingBelow(rs, e)]));
    junk := (i: nat) => x;
    CodedWriteWrong(rs, s, e, kind, buf, junk);
  }

  /** The coded write does what is meant, whatever memory holds, exactly when it makes
      neither of the two wrong copies. */
  lemma CodedWriteExact(rs: seq<Region>, s: nat, e: nat, kind: Kind, buf: seq<Word>)
    requires Ordered(rs) && s <= e && (kind.Data? ==> s < e && |buf| == e - s)
    ensures CopiesRight(rs, s, e, kind) <==> forall junk: nat -> Word :: WriteAgrees(rs, s, e, kind, buf, junk)
  {
    if CopiesRight(rs, s, e, kind) {
      forall junk: nat -> Word ensures WriteAgrees(rs, s, e, kind, buf, junk) {
        CodedWriteRight(rs, s, e, kind, buf, junk);
      }
    } else {
      var junk := CodedWriteFails(rs, s, e, kind, buf);
    }
  }

  /** Zeroing the middle word of a region that does not start at offset 0 is such a case:
      the last word is then read from past the end of the region's buffer. */
  lemma CodedSplitFails(x: Word, y: Word, z: Word)
    ensures var rs := [Region(1, 4, 0, [x, y, z])];
      Ordered(rs) && exists junk: nat -> Word :: !WriteAgrees(rs, 2, 3, Zero, [], junk)
  {
    var rs := [Region(1, 4, 0, [x, y, z])];
    assert rs[0].end == 4;
    assert EndingBelow(rs, 3) == 0;
    CodedWriteExact(rs, 2, 3, Zero, []);
  }

  /** So is a write over the head of a region of the same kind: the old words past the
      write are copied short by as many as it overlaps. */
  lemma CodedMergeFails(x: Word, y: Word, buf: seq<Word>)
    requires |buf| == 2
    ensures var rs := [Region(1, 3, 0, [x, y])];
      Ordered(rs) && exists junk: nat -> Word :: !WriteAgrees(rs, 0, 2, Data(0), buf, junk)
  {
    var rs := [Region(1, 3, 0, [x, y])];
    assert rs[0].end == 3;
    assert EndingBelow(rs, 2) == 0;
    CodedWriteExact(rs, 0, 2, Data(0), buf);
  }

  /* ---- what a coded write leaves past its end ---- */

  lemma PastFirst(hash: Hash, t: Region, u: Region, more: seq<Region>, w: nat)
    requires Sized(t) && Sized(u) && Ordered(more) && t.end == u.end <= w && Seam([t], more, t.end)
    ensures Ordered([t] + more) && Ordered([u] + more) && At(hash, [t] + more, w) == At(hash, [u] + more, w)
  {
    AtConcat(hash, [t], more, t.end, w);
    AtConcat(hash, [u], more, u.end, w);
  }

  lemma RestSame(o: Offsets, rs: seq<Region>, s: nat, e: nat, kind: Kind)
    requires Ordered(rs) && s <= e && (o.AsMeant? || CopiesRight(rs, s, e, kind))
    ensures Rest(o, rs, s, e, kind) == Above(rs, e)
  {
    RestMeant(rs, s, e, kind);
    var m := EndingBelow(rs, e);
    if o.AsCoded? && m < |rs| {
      TailExact(rs[m], s, e, kind, o.junk);
    }
  }

  lemma RestPast(o: Offsets, hash: Hash, rs: seq<Region>, s: nat, e: nat, kind: Kind, w: nat)
    requires Ordered(rs) && s <= e && EndingBelow(rs, e) < |rs| && rs[EndingBelow(rs, e)].end <= w
    ensures At(hash, Rest(o, rs, s, e, kind), w) == At(hash, Above(rs, e), w)
  {
    var r, more := rs[EndingBelow(rs, e)], rs[EndingBelow(rs, e) + 1..];
    PastFirst(hash, Tail(o, r, s, e, kind), Cut(r, Max(r.start, e), r.end), more, w);
  }

  /** Words past the region that is copied wrongly are left alone. */
  lemma RestKeeps(o: Offsets, hash: Hash, rs: seq<Region>, s: nat, e: nat, kind: Kind, w: nat)
    requires Ordered(rs) && s <= e <= w
    requires o.AsMeant? || CopiesRight(rs, s, e, kind) || rs[EndingBelow(rs, e)].end <= w
    ensures At(hash, Rest(o, rs, s, e, kind), w) == At(hash, rs, w)
  {
    if o.AsMeant? || CopiesRight(rs, s, e, kind) {
      RestSame(o, rs, s, e, kind);
    } else {
      RestPast(o, hash, rs, s, e, kind, w);
    }
    AtAbove(hash, rs, e, w);
  }

  /** The last word of that region is whatever memory held. */
  lemma RestWrong(junk: nat -> Word, hash: Hash, rs: seq<Region>, s: nat, e: nat, kind: Kind)
    requires Ordered(rs) && s <= e && !CopiesRight(rs, s, e, kind)
    ensures var w := rs[EndingBelow(rs, e)].end - 1;
      w >= e && At(hash, Rest(AsCoded(junk), rs, s, e, kind), w) == junk(w)
  {
    var r := rs[EndingBelow(rs, e)];
    var right := Rest(AsCoded(junk), rs, s, e, kind);
    SplitExact(r, e, junk);
    MergeWrong(r, e, junk);
    assert Holds(right, 0, r.end - 1);
    AtRegion(hash, right, 0, r.end - 1);
  }

  /* ---- shapes ---- */

  /** The same regions, but for their data. */
  ghost predicate SameShape(a: seq<Region>, b: seq<Region>) {
    |a| == |b| && forall i :: 0 <= i < |a| ==> AlikeBut(a[i], b[i])
  }

  predicate AlikeBut(a: Region, b: Region) {
    a.start == b.start && a.end == b.end && a.magic == b.magic
  }

  lemma {:induction false} SameCounts(a: seq<Region>, b: seq<Region>, s: nat, k: nat)
    requires Ordered(a) && Ordered(b) && SameShape(a, b) && k <= |a|
    ensures StartingBelowIn(a, s, k) == StartingBelowIn(b, s, k) && EndingBelowIn(a, s, k) == EndingBelowIn(b, s, k)
  {
    if k > 0 {
      assert AlikeBut(a[k - 1], b[k - 1]);
      SameCounts(a, b, s, k - 1);
    }
  }

  lemma BelowShape(a: seq<Region>, b: seq<Region>, s: nat)
    requires Ordered(a) && Ordered(b) && SameShape(a, b)
    ensures SameShape(Below(a, s), Below(b, s))
  {
    SameCounts(a, b, s, |a|);
    var n, x, y := StartingBelow(a, s), Below(a, s), Below(b, s);
    forall i | 0 <= i < n ensures AlikeBut(x[i], y[i]) {
      assert AlikeBut(a[i], b[i]);
    }
  }

  lemma RestShape(o: Offsets, o': Offsets, a: seq<Region>, b: seq<Region>, s: nat, e: nat, kind: Kind)
    requires Ordered(a) && Ordered(b) && SameShape(a, b)
    ensures EndingBelow(a, e) == EndingBelow(b, e)
    ensures SameShape(Rest(o, a, s, e, kind), Rest(o', b, s, e, kind))
  {
    SameCounts(a, b, e, |a|);
    var m := EndingBelow(a, e);
    var x, y := Rest(o, a, s, e, kind), Rest(o', b, s, e, kind);
    forall i | 0 <= i < |x| ensures AlikeBut(x[i], y[i]) {
      assert AlikeBut(a[m + i], b[m + i]);
    }
  }

  lemma AttachShape(a: seq<Region>, b: seq<Region>, c: seq<Region>, d: seq<Region>)
    requires Ordered(a) && Ordered(b) && Ordered(c) && Ordered(d) && SameShape(a, c) && SameShape(b, d)
    ensures SameShape(Attach(a, b), Attach(c, d))
  {
    var n, x, y := |a|, Attach(a, b), Attach(c, d);
    if a != [] && b != [] {
      assert AlikeBut(a[n - 1], c[n - 1]) && AlikeBut(b[0], d[0]);
    }
    forall i | 0 <= i < |x| ensures AlikeBut(x[i], y[i]) {
      if i < n {
        assert AlikeBut(a[i], c[i]);
      }
      var k := i - n + (|a| + |b| - |x|);
      if 0 <= k < |b| {
        assert AlikeBut(b[k], d[k]);
      }
    }
  }

  /** A region write depends on the data for nothing but data. */
  lemma WriteShape(o: Offsets, o': Offsets, a: seq<Region>, b: seq<Region>, s: nat, e: nat, kind: Kind, buf: seq<Word>)
    requires Ordered(a) && Ordered(b) && SameShape(a, b) && s <= e
    requires kind.Data? ==> s < e && |buf| == e - s
    ensures SameShape(WriteRegion(o, a, s, e, kind, buf), WriteRegion(o', b, s, e, kind, buf))
  {
    BelowShape(a, b, s);
    RestShape(o, o', a, b, s, e, kind);
    if kind.Data? {
      var w := [Written(s, e, kind.magic, buf)];
      AttachOrdered(Below(a, s), w, s);
      AttachOrdered(Below(b, s), w, s);
      AttachShape(Below(a, s), w, Below(b, s), w);
      AttachShape(Attach(Below(a, s), w), Rest(o, a, s, e, kind), Attach(Below(b, s), w), Rest(o', b, s, e, kind));
    }
  }

  lemma ShapeCopies(a: seq<Region>, b: seq<Region>, s: nat, e: nat, kind: Kind)
    requires Ordered(a) && Ordered(b) && SameShape(a, b)
    ensures CopiesRight(a, s, e, kind) <==> CopiesRight(b, s, e, kind)
  {
    RestShape(AsMeant, AsMeant, a, b, s, e, kind);
  }

  /** Regions of one shape that show the same words are the same. */
  lemma ShapeAndWords(hash: Hash, a: seq<Region>, b: seq<Region>)
    requires Ordered(a) && Ordered(b) && SameShape(a, b) && forall w: nat :: At(hash, a, w) == At(hash, b, w)
    ensures a == b
  {
    forall i | 0 <= i < |a| ensures a[i] == b[i] {
      assert AlikeBut(a[i], b[i]);
      forall k | 0 <= k < |a[i].data| ensures a[i].data[k] == b[i].data[k] {
        AtRegion(hash, a, i, a[i].start + k);
        AtRegion(hash, b, i, a[i].start + k);
      }
    }
  }
}
