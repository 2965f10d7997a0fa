/** File contents in archives: driver/AbstFS.C.

    `canon_data` writes tagged runs of bytes, one cell per number or byte. `marshal_data`
    and `unmarshal_data` store and load regions, in words; sizes and offsets take a word. */
module DataArchives {

  import opened Basics
  import opened ByteAccess
  import opened FlatBytes
  import opened RegionWrites
  import opened SparseData

  /* ---- canonical data ---- */

  /** <tag><len>[content]: zeroes, other bytes, or words that are position hashes. */
  datatype Token = Zeroes(n: nat) | Other(bytes: seq<Byte>) | Magic(words: nat, magic: nat)

  function TokenCells(t: Token): seq<int> {
    match t
    case Zeroes(n) => [0, n]
    case Other(bytes) => [1, |bytes|] + bytes
    case Magic(words, magic) => [2, 4 * words, magic]
  }

  function Cells(ts: seq<Token>): seq<int> {
    if ts == [] then [] else TokenCells(ts[0]) + Cells(ts[1..])
  }

  /** How many bytes from the front are zero, or are not. */
  function RunLen(b: seq<Byte>, zero: bool): (n: nat)
    ensures n <= |b| && forall i :: 0 <= i < n ==> (b[i] == 0) == zero
    ensures n < |b| ==> (b[n] == 0) != zero
  {
    if b == [] || (b[0] == 0) != zero then 0 else 1 + RunLen(b[1..], zero)
  }

  function OtherRun(b: seq<Byte>): seq<Token> {
    if b == [] then [] else [Other(b)]
  }

  function ZeroRun(n: nat): seq<Token> {
    if n == 0 then [] else [Zeroes(n)]
  }

  /** Regular data: runs of other bytes and of zeroes by turns. */
  function Runs(b: seq<Byte>): seq<Token>
    decreases |b|
  {
    if b == [] then []
    else
      var n := RunLen(b, false);
      var z := RunLen(b[n..], true);
      OtherRun(b[..n]) + ZeroRun(z) + Runs(b[n + z..])
  }

  function RegionTokens(r: Region): seq<Token>
    requires Sized(r)
  {
    if r.magic != 0 then [Magic(r.end - r.start, r.magic)] else Runs(BytesOf(r.data))
  }

  /** canon_data, from the end of the region before on. */
  function DataTokens(rs: seq<Region>, prev: nat): seq<Token>
    requires Ordered(rs) && (rs != [] ==> prev <= rs[0].start)
  {
    if rs == [] then []
    else
      TailOrdered(rs);
      [Zeroes(4 * (rs[0].start - prev))] + RegionTokens(rs[0]) + DataTokens(rs[1..], rs[0].end)
  }

  lemma TailOrdered(rs: seq<Region>)
    requires Ordered(rs) && rs != []
    ensures Ordered(rs[1..]) && (rs[1..] != [] ==> rs[0].end <= rs[1..][0].start)
  {
  }

  function CanonData(rs: seq<Region>): seq<int>
    requires Ordered(rs)
  {
    Cells(DataTokens(rs, 0))
  }

  /* ---- the cells tell the tokens ---- */

  lemma TokenPrefix(a: Token, b: Token, x: seq<int>, y: seq<int>)
    requires TokenCells(a) + x == TokenCells(b) + y
    ensures a == b && x == y
  {
    var c := TokenCells(a) + x;
    assert c[0] == TokenCells(a)[0] == TokenCells(b)[0] && c[1] == TokenCells(a)[1] == TokenCells(b)[1];
    assert |TokenCells(a)| == |TokenCells(b)|;
    SameHead(TokenCells(a), TokenCells(b), x, y);
    if a.Other? {
      assert TokenCells(a)[2..] == a.bytes && TokenCells(b)[2..] == b.bytes;
    } else if a.Magic? {
      assert TokenCells(a)[2] == TokenCells(b)[2];
    }
  }

  lemma {:induction false} CellsInjective(a: seq<Token>, b: seq<Token>)
    requires Cells(a) == Cells(b)
    ensures a == b
  {
    assert a != [] ==> |Cells(a)| >= |TokenCells(a[0])| >= 2;
    assert b != [] ==> |Cells(b)| >= |TokenCells(b[0])| >= 2;
    if a != [] {
      TokenPrefix(a[0], b[0], Cells(a[1..]), Cells(b[1..]));
      CellsInjective(a[1..], b[1..]);
      SameCons(a, b);
    }
  }

  /* ---- the tokens tell the bytes ---- */

  function ZeroBytes(n: nat): (b: seq<Byte>)
    ensures |b| == n
  {
    seq(n, _ => 0)
  }

  function MagicBytes(hash: Hash, w: nat, n: nat, magic: nat): (b: seq<Byte>)
    ensures |b| == 4 * n
  {
    BytesOf(seq(n, i requires 0 <= i < n => HashAt(hash, w + i, magic)))
  }

  function TokenBytes(hash: Hash, t: Token, pos: nat): (b: seq<Byte>)
    ensures |b| == Len(t)
  {
    match t
    case Zeroes(n) => ZeroBytes(n)
    case Other(bytes) => bytes
    case Magic(words, magic) => MagicBytes(hash, pos / 4, words, magic)
  }

  function Len(t: Token): nat {
    match t
    case Zeroes(n) => n
    case Other(bytes) => |bytes|
    case Magic(words, _) => 4 * words
  }

  function Length(ts: seq<Token>): nat {
    if ts == [] then 0 else Len(ts[0]) + Length(ts[1..])
  }

  /** The bytes from an offset on that some tokens stand for. */
  function Expand(hash: Hash, ts: seq<Token>, pos: nat): seq<Byte>
    decreases ts
  {
    if ts == [] then [] else TokenBytes(hash, ts[0], pos) + Expand(hash, ts[1..], pos + Len(ts[0]))
  }

  lemma {:induction false} ExpandLength(hash: Hash, ts: seq<Token>, pos: nat)
    ensures |Expand(hash, ts, pos)| == Length(ts)
    decreases ts
  {
    if ts != [] {
      ExpandLength(hash, ts[1..], pos + Len(ts[0]));
    }
  }

  lemma HeadOfConcat<T>(a: seq<T>, b: seq<T>)
    requires a != []
    ensures a + b != [] && (a + b)[0] == a[0] && (a + b)[1..] == a[1..] + b
  {
  }

  lemma ExpandHead(hash: Hash, ts: seq<Token>, pos: nat, x: seq<Byte>, y: seq<Byte>)
    requires ts != [] && x == TokenBytes(hash, ts[0], pos) && y == Expand(hash, ts[1..], pos + Len(ts[0]))
    ensures Expand(hash, ts, pos) == x + y
  {
  }

  lemma ExpandCons(hash: Hash, a: seq<Token>, b: seq<Token>, pos: nat, next: nat,
                   x: seq<Byte>, y: seq<Byte>, z: seq<Byte>)
    requires a != [] && next == pos + Len(a[0]) && x == TokenBytes(hash, a[0], pos)
    requires y == Expand(hash, a[1..], next) && Expand(hash, a[1..] + b, next) == y + z
    ensures Expand(hash, a + b, pos) == Expand(hash, a, pos) + z
  {
    HeadOfConcat(a, b);
    ExpandHead(hash, a, pos, x, y);
    ExpandHead(hash, a + b, pos, x, y + z);
    Assoc(x, y, z);
  }

  lemma ExpandNone(hash: Hash, b: seq<Token>, pos: nat)
    ensures Expand(hash, [] + b, pos) == Expand(hash, [], pos) + Expand(hash, b, pos)
  {
    EmptyConcat(b);
    EmptyConcat(Expand(hash, b, pos));
  }

  lemma {:induction false} ExpandConcat(hash: Hash, a: seq<Token>, b: seq<Token>, pos: nat, end: nat)
    requires end == pos + Length(a)
    ensures Expand(hash, a + b, pos) == Expand(hash, a, pos) + Expand(hash, b, end)
    decreases a
  {
    if a == [] {
      ExpandNone(hash, b, pos);
      assert a + b == [] + b && end == pos;
    } else {
      var next := pos + Len(a[0]);
      ExpandConcat(hash, a[1..], b, next, end);
      var x, y, z := TokenBytes(hash, a[0], pos), Expand(hash, a[1..], next), Expand(hash, b, end);
      ExpandCons(hash, a, b, pos, next, x, y, z);
    }
  }

  lemma ExpandOne(hash: Hash, t: Token, pos: nat)
    ensures Expand(hash, [t], pos) == TokenBytes(hash, t, pos)
  {
    assert [t][1..] == [];
    ConcatEmpty(TokenBytes(hash, t, pos));
  }

  lemma ExpandThree(hash: Hash, a: seq<Token>, b: seq<Token>, c: seq<Token>, p: nat, q: nat, r: nat,
                    x: seq<Byte>, y: seq<Byte>, z: seq<Byte>)
    requires Expand(hash, a, p) == x && Expand(hash, b, q) == y && Expand(hash, c, r) == z
    requires q == p + |x| && r == q + |y|
    ensures Expand(hash, a + b + c, p) == x + y + z
  {
    ExpandLength(hash, a, p);
    ExpandConcat(hash, a, b, p, q);
    ExpandLength(hash, a + b, p);
    ExpandConcat(hash, a + b, c, p, r);
  }

  lemma ThreeParts<T>(b: seq<T>, n: nat, m: nat)
    requires n <= m <= |b|
    ensures b == b[..n] + b[n..m] + b[m..]
  {
  }

  lemma ZeroSlice(b: seq<Byte>, n: nat, z: nat)
    requires n + z <= |b| && forall i :: 0 <= i < z ==> b[n..][i] == 0
    ensures b[n..n + z] == ZeroBytes(z)
  {
    var s := b[n..n + z];
    forall i | 0 <= i < z ensures s[i] == 0 {
      assert b[n..][i] == b[n + i];
    }
  }

  lemma RunSplit(b: seq<Byte>, n: nat, z: nat)
    requires n == RunLen(b, false) && z == RunLen(b[n..], true)
    ensures n + z <= |b| && b == b[..n] + ZeroBytes(z) + b[n + z..]
  {
    ZeroSlice(b, n, z);
    ThreeParts(b, n, n + z);
  }

  lemma ExpandRun(hash: Hash, b: seq<Byte>, n: nat, pos: nat)
    ensures Expand(hash, OtherRun(b), pos) == b && Expand(hash, ZeroRun(n), pos) == ZeroBytes(n)
  {
    if b != [] {
      ExpandOne(hash, Other(b), pos);
    }
    if n > 0 {
      ExpandOne(hash, Zeroes(n), pos);
    }
  }

  lemma {:induction false} ExpandRuns(hash: Hash, b: seq<Byte>, pos: nat)
    ensures Expand(hash, Runs(b), pos) == b
    decreases |b|
  {
    if b != [] {
      var n := RunLen(b, false);
      var z := RunLen(b[n..], true);
      RunSplit(b, n, z);
      var tail := b[n + z..];
      var q, r := pos + n, pos + n + z;
      ExpandRuns(hash, tail, r);
      ExpandRun(hash, b[..n], z, pos);
      ExpandRun(hash, b[..n], z, q);
      ExpandThree(hash, OtherRun(b[..n]), ZeroRun(z), Runs(tail), pos, q, r, b[..n], ZeroBytes(z), tail);
    }
  }

  lemma MagicIs(hash: Hash, r: Region)
    requires Sized(r) && r.magic != 0
    ensures MagicBytes(hash, r.start, r.end - r.start, r.magic) == RegionBytes(hash, r)
  {
    var n := r.end - r.start;
    var words := seq(n, i requires 0 <= i < n => HashAt(hash, r.start + i, r.magic));
    var x, y := BytesOf(words), RegionBytes(hash, r);
    forall q | 0 <= q < 4 * n ensures x[q] == y[q] {
      assert words[q / 4] == WordIn(hash, r, r.start + q / 4);
    }
  }

  lemma RegularIs(hash: Hash, r: Region)
    requires Sized(r) && r.magic == 0
    ensures BytesOf(r.data) == RegionBytes(hash, r)
  {
  }

  lemma ExpandRegion(hash: Hash, r: Region)
    requires Sized(r)
    ensures Expand(hash, RegionTokens(r), 4 * r.start) == RegionBytes(hash, r)
  {
    if r.magic == 0 {
      RegularIs(hash, r);
      ExpandRuns(hash, BytesOf(r.data), 4 * r.start);
    } else {
      MagicIs(hash, r);
      assert 4 * r.start / 4 == r.start;
      ExpandOne(hash, Magic(r.end - r.start, r.magic), 4 * r.start);
    }
  }

  /** The bytes of a file from a word on, up to the end of its last region. */
  function Span(hash: Hash, rs: seq<Region>, prev: nat): seq<Byte>
    requires Ordered(rs) && (rs != [] ==> prev <= rs[0].start)
  {
    if rs == [] then []
    else
      TailOrdered(rs);
      ZeroBytes(4 * (rs[0].start - prev)) + RegionBytes(hash, rs[0]) + Span(hash, rs[1..], rs[0].end)
  }

  /** The tokens say what the file holds. */
  lemma {:induction false} ExpandData(hash: Hash, rs: seq<Region>, prev: nat)
    requires Ordered(rs) && (rs != [] ==> prev <= rs[0].start)
    ensures Expand(hash, DataTokens(rs, prev), 4 * prev) == Span(hash, rs, prev)
    decreases rs
  {
    if rs != [] {
      TailOrdered(rs);
      var r, n := rs[0], 4 * (rs[0].start - prev);
      ExpandOne(hash, Zeroes(n), 4 * prev);
      ExpandRegion(hash, r);
      ExpandData(hash, rs[1..], r.end);
      ExpandThree(hash, [Zeroes(n)], RegionTokens(r), DataTokens(rs[1..], r.end), 4 * prev, 4 * r.start, 4 * r.end,
                  ZeroBytes(n), RegionBytes(hash, r), Span(hash, rs[1..], r.end));
    }
  }

  /** The byte of a span, or zero past it. */
  function SpanByte(b: seq<Byte>, i: nat): Byte {
    if i < |b| then b[i] else 0
  }

  lemma ThreeAt(a: seq<Byte>, b: seq<Byte>, c: seq<Byte>, i: nat)
    ensures SpanByte(a + b + c, i) ==
      if i < |a| then a[i] else if i < |a| + |b| then b[i - |a|] else SpanByte(c, i - |a| - |b|)
  {
  }

  lemma BeforeFirst(hash: Hash, rs: seq<Region>, w: nat)
    requires Ordered(rs) && (rs != [] ==> w < rs[0].start)
    ensures At(hash, rs, w) == ZERO_WORD
  {
    forall i ensures !Holds(rs, i, w) {
      assert 0 < i < |rs| ==> rs[0].end <= rs[i].start;
    }
    AtNowhere(hash, rs, w);
  }

  lemma SpanCons(hash: Hash, rs: seq<Region>, prev: nat, p: nat, x: seq<Byte>, t: seq<Byte>)
    requires Ordered(rs) && rs != [] && prev <= rs[0].start && p >= 4 * prev && x == RegionBytes(hash, rs[0])
    requires Ordered(rs[1..]) && (rs[1..] != [] ==> rs[0].end <= rs[1..][0].start)
    requires t == Span(hash, rs[1..], rs[0].end)
    ensures SpanByte(Span(hash, rs, prev), p - 4 * prev) ==
      if p < 4 * rs[0].start then 0
      else if p < 4 * rs[0].end then x[p - 4 * rs[0].start]
      else SpanByte(t, p - 4 * rs[0].end)
  {
    var z, i := ZeroBytes(4 * (rs[0].start - prev)), p - 4 * prev;
    assert Span(hash, rs, prev) == z + x + t;
    ThreeAt(z, x, t, i);
  }

  lemma {:induction false} SpanIs(hash: Hash, rs: seq<Region>, prev: nat, p: nat)
    requires Ordered(rs) && (rs != [] ==> prev <= rs[0].start) && p >= 4 * prev
    ensures SpanByte(Span(hash, rs, prev), p - 4 * prev) == ByteAt(hash, rs, p)
    decreases rs
  {
    if rs == [] {
      BeforeFirst(hash, rs, p / 4);
    } else {
      TailOrdered(rs);
      var r := rs[0];
      SpanCons(hash, rs, prev, p, RegionBytes(hash, r), Span(hash, rs[1..], r.end));
      if p < 4 * r.start {
        BeforeFirst(hash, rs, p / 4);
      } else if p < 4 * r.end {
        AtRegion(hash, rs, 0, p / 4);
        RegionByte(hash, r, p);
      } else {
        SpanIs(hash, rs[1..], r.end, p);
        AtTail(hash, rs, p / 4);
      }
    }
  }

  lemma RegionByte(hash: Hash, r: Region, p: nat)
    requires Sized(r) && 4 * r.start <= p < 4 * r.end
    ensures RegionBytes(hash, r)[p - 4 * r.start] == ByteOf(WordIn(hash, r, p / 4), p % 4)
  {
    var q := p - 4 * r.start;
    assert r.start + q / 4 == p / 4 && q % 4 == p % 4;
  }

  lemma CanonTellsBytes(hash: Hash, a: seq<Region>, b: seq<Region>, p: nat)
    requires Ordered(a) && Ordered(b) && CanonData(a) == CanonData(b)
    ensures ByteAt(hash, a, p) == ByteAt(hash, b, p)
  {
    CellsInjective(DataTokens(a, 0), DataTokens(b, 0));
    ExpandData(hash, a, 0);
    ExpandData(hash, b, 0);
    SpanIs(hash, a, 0, p);
    SpanIs(hash, b, 0, p);
  }

  /** Canonical data of two files is equal exactly when the files hold the same bytes. */
  lemma CanonDataIff(hash: Hash, a: seq<Region>, b: seq<Region>)
    requires Normal(hash, a) && Normal(hash, b)
    ensures CanonData(a) == CanonData(b) <==> forall p: nat :: ByteAt(hash, a, p) == ByteAt(hash, b, p)
  {
    if CanonData(a) == CanonData(b) {
      forall p: nat ensures ByteAt(hash, a, p) == ByteAt(hash, b, p) {
        CanonTellsBytes(hash, a, b, p);
      }
    }
    if forall p: nat :: ByteAt(hash, a, p) == ByteAt(hash, b, p) {
      SameBytesSameRegions(hash, a, b);
    }
  }

  /** Without merged regions of pure kinds this fails: a zero word at the end of a region is
      written, and the same word after the region is not. */
  lemma CanonNeedsNormal(x: Word)
    ensures var a, b := [Region(0, 2, 0, [x, ZERO_WORD])], [Region(0, 1, 0, [x])];
      && Ordered(a) && Ordered(b) && CanonData(a) != CanonData(b)
      && forall hash, p: nat :: ByteAt(hash, a, p) == ByteAt(hash, b, p)
  {
    var a, b := [Region(0, 2, 0, [x, ZERO_WORD])], [Region(0, 1, 0, [x])];
    assert a[0].end == 2 && b[0].end == 1;
    forall hash, p: nat ensures ByteAt(hash, a, p) == ByteAt(hash, b, p) {
      AtSingle(hash, a[0], p / 4);
      AtSingle(hash, b[0], p / 4);
    }
    if CanonData(a) == CanonData(b) {
      var hash := (w: nat, m: nat) => ZERO_WORD;
      CellsInjective(DataTokens(a, 0), DataTokens(b, 0));
      ExpandData(hash, a, 0);
      ExpandData(hash, b, 0);
    }
  }

  /* ---- writing the cells ---- */

  lemma {:induction false} CellsConcat(a: seq<Token>, b: seq<Token>)
    ensures Cells(a + b) == Cells(a) + Cells(b)
  {
    if a == [] {
      EmptyConcat(b);
      EmptyConcat(Cells(b));
    } else {
      HeadOfConcat(a, b);
      CellsConcat(a[1..], b);
      Assoc(TokenCells(a[0]), Cells(a[1..]), Cells(b));
    }
  }

  lemma CellsOne(t: Token)
    ensures Cells([t]) == TokenCells(t)
  {
    assert [t][1..] == [];
    ConcatEmpty(TokenCells(t));
  }

  lemma {:induction false} RunLenFrom(b: seq<Byte>, n: nat, zero: bool)
    requires n <= |b| && forall i :: 0 <= i < n ==> (b[i] == 0) == zero
    requires n < |b| ==> (b[n] == 0) != zero
    ensures RunLen(b, zero) == n
  {
    if n > 0 {
      RunLenFrom(b[1..], n - 1, zero);
    }
  }

  /** The length of the run of zeroes, or of other bytes, at the front. */
  method SkipRun(b: seq<Byte>, zero: bool) returns (n: nat)
    ensures n == RunLen(b, zero)
  {
    n := 0;
    while n < |b| && (b[n] == 0) == zero
      invariant n <= |b| && forall i :: 0 <= i < n ==> (b[i] == 0) == zero
    {
      n := n + 1;
    }
    RunLenFrom(b, n, zero);
  }

  lemma CellsTurn(ar: seq<int>, b: seq<Byte>, n: nat, z: nat, goal: seq<int>)
    requires b != [] && n == RunLen(b, false) && z == RunLen(b[n..], true) && ar + Cells(Runs(b)) == goal
    ensures n + z <= |b| && ar + Cells(OtherRun(b[..n])) + Cells(ZeroRun(z)) + Cells(Runs(b[n + z..])) == goal
  {
    var x, y, w := OtherRun(b[..n]), ZeroRun(z), Runs(b[n + z..]);
    CellsConcat(x + y, w);
    CellsConcat(x, y);
    Assoc(ar, Cells(x) + Cells(y), Cells(w));
    Assoc(ar, Cells(x), Cells(y));
  }

  /** Writes a run of other bytes, when there is one. */
  method PutOther(was: seq<int>, b: seq<Byte>) returns (ar: seq<int>)
    ensures ar == was + Cells(OtherRun(b))
  {
    ar := was;
    if b == [] {
      ConcatEmpty(was);
    } else {
      CellsOne(Other(b));
      ar := ar + ([1, |b|] + b);
    }
  }

  method PutZeroes(was: seq<int>, n: nat) returns (ar: seq<int>)
    ensures ar == was + Cells(ZeroRun(n))
  {
    ar := was;
    if n == 0 {
      ConcatEmpty(was);
    } else {
      CellsOne(Zeroes(n));
      ar := ar + [0, n];
    }
  }

  /** The body of the loop: a run of other bytes and one of zeroes. */
  method PutTurn(was: seq<int>, b: seq<Byte>) returns (ar: seq<int>, left: seq<Byte>)
    requires b != []
    ensures |left| < |b| && ar + Cells(Runs(left)) == was + Cells(Runs(b))
  {
    var n := SkipRun(b, false);
    var z := SkipRun(b[n..], true);
    CellsTurn(was, b, n, z, was + Cells(Runs(b)));
    ar := PutOther(was, b[..n]);
    ar := PutZeroes(ar, z);
    left := b[n + z..];
  }

  /** canon_data_region. */
  method CanonRegion(was: seq<int>, r: Region) returns (ar: seq<int>)
    requires Sized(r)
    ensures ar == was + Cells(RegionTokens(r))
  {
    ar := was;
    if r.magic != 0 {
      CellsOne(Magic(r.end - r.start, r.magic));
      return ar + [2, 4 * (r.end - r.start), r.magic];
    }
    var left := BytesOf(r.data);
    while left != []
      invariant ar + Cells(Runs(left)) == was + Cells(RegionTokens(r))
      decreases |left|
    {
      ar, left := PutTurn(ar, left);
    }
    ConcatEmpty(ar);
  }

  method PutGapAndRegion(was: seq<int>, rs: seq<Region>, prev: nat) returns (ar: seq<int>)
    requires Ordered(rs) && rs != [] && prev <= rs[0].start
    ensures Ordered(rs[1..]) && (rs[1..] != [] ==> rs[0].end <= rs[1..][0].start)
    ensures ar + Cells(DataTokens(rs[1..], rs[0].end)) == was + Cells(DataTokens(rs, prev))
  {
    TailOrdered(rs);
    ghost var all, more := DataTokens(rs, prev), DataTokens(rs[1..], rs[0].end);
    DataTokensCons(rs, prev, more);
    CellsRegion(was, rs[0], prev, more, all);
    ar := CanonRegion(was + [0, 4 * (rs[0].start - prev)], rs[0]);
  }

  /** canon_data: the gaps between regions, and the regions. */
  method CanonAll(rs: seq<Region>) returns (ar: seq<int>)
    requires Ordered(rs)
    ensures ar == CanonData(rs)
  {
    var prev: nat := 0;
    ar := [];
    EmptyConcat(CanonData(rs));
    assert rs[0..] == rs;
    for i := 0 to |rs|
      invariant Ordered(rs[i..]) && (i < |rs| ==> prev <= rs[i].start)
      invariant ar + Cells(DataTokens(rs[i..], prev)) == CanonData(rs)
    {
      assert rs[i..][0] == rs[i] && rs[i..][1..] == rs[i + 1..];
      ar := PutGapAndRegion(ar, rs[i..], prev);
      prev := rs[i].end;
    }
    ConcatEmpty(ar);
  }

  lemma DataTokensCons(rs: seq<Region>, prev: nat, more: seq<Token>)
    requires Ordered(rs) && rs != [] && prev <= rs[0].start
    requires Ordered(rs[1..]) && (rs[1..] != [] ==> rs[0].end <= rs[1..][0].start)
    requires more == DataTokens(rs[1..], rs[0].end)
    ensures DataTokens(rs, prev) == [Zeroes(4 * (rs[0].start - prev))] + RegionTokens(rs[0]) + more
  {
  }

  lemma CellsRegion(ar: seq<int>, r: Region, prev: nat, more: seq<Token>, all: seq<Token>)
    requires Sized(r) && prev <= r.start && all == [Zeroes(4 * (r.start - prev))] + RegionTokens(r) + more
    ensures ar + Cells(all) == ar + [0, 4 * (r.start - prev)] + Cells(RegionTokens(r)) + Cells(more)
  {
    var z, x := [Zeroes(4 * (r.start - prev))], RegionTokens(r);
    CellsConcat(z + x, more);
    CellsConcat(z, x);
    CellsOne(z[0]);
    Assoc(ar, Cells(z) + Cells(x), Cells(more));
    Assoc(ar, Cells(z), Cells(x));
  }

  /* ---- storing and loading regions ---- */

  /** A word of an archive, put there as a number or as data. */
  datatype Cell = Num(n: int) | Raw(w: Word)

  /** What a number is read as from a word of an archive. */
  function CellInt(c: Cell): int {
    match c
    case Num(n) => n
    case Raw(w) => w.b0 + 256 * w.b1 + 65536 * w.b2 + 16777216 * w.b3
  }

  function CellWord(c: Cell): Word {
    match c
    case Num(n) => Word(n % 256, n / 256 % 256, n / 65536 % 256, n / 16777216 % 256)
    case Raw(w) => w
  }

  function RawCells(ws: seq<Word>): (cells: seq<Cell>)
    ensures |cells| == |ws| && forall k :: 0 <= k < |ws| ==> cells[k] == Raw(ws[k])
  {
    seq(|ws|, k requires 0 <= k < |ws| => Raw(ws[k]))
  }

  function CellWords(cells: seq<Cell>): (ws: seq<Word>)
    ensures |ws| == |cells| && forall k :: 0 <= k < |cells| ==> ws[k] == CellWord(cells[k])
  {
    seq(|cells|, k requires 0 <= k < |cells| => CellWord(cells[k]))
  }

  lemma RawBack(ws: seq<Word>)
    ensures CellWords(RawCells(ws)) == ws
  {
  }

  function Header(r: Region): seq<Cell> {
    [Num(4 * r.start), Num(4 * r.end), Num(r.magic)]
  }

  function Content(r: Region): seq<Cell> {
    if r.magic == 0 then RawCells(r.data) else []
  }

  function Stored(rs: seq<Region>): seq<Cell> {
    if rs == [] then [] else Header(rs[0]) + (Content(rs[0]) + Stored(rs[1..]))
  }

  /** marshal_data. */
  function Marshal(rs: seq<Region>): seq<Cell> {
    [Num(|rs|)] + Stored(rs)
  }

  /** A region as it is loaded, with byte offsets. */
  datatype Loaded = Loaded(start: int, end: int, magic: int, data: seq<Word>)

  function AsLoaded(r: Region): Loaded {
    Loaded(4 * r.start, 4 * r.end, r.magic, r.data)
  }

  /** unmarshal_data fills the buffer of a regular region by a call that writes it to the
      archive instead. It is modelled as meant, or as coded, where word `k` of the `i`-th
      buffer holds whatever memory held. */
  datatype Loading = ByGet | ByPut(junk: (nat, nat) -> Word)

  /** What memory held in the `i`-th buffer. */
  function Held(junk: (nat, nat) -> Word, i: nat, n: nat): (ws: seq<Word>)
    ensures |ws| == n && forall k :: 0 <= k < n ==> ws[k] == junk(i, k)
  {
    seq(n, k requires 0 <= k < n => junk(i, k))
  }

  /** The data of a regular region, and what is then left to read. */
  function LoadData(l: Loading, i: nat, n: nat, s: seq<Cell>): Option<(seq<Word>, seq<Cell>)> {
    match l
    case ByGet => if |s| < n then None else Some((CellWords(s[..n]), s[n..]))
    case ByPut(junk) => Some((Held(junk, i, n), s + RawCells(Held(junk, i, n))))
  }

  /** One region, and what is then left to read; None where reading past the end or asking
      for memory fails. */
  function LoadRegion(l: Loading, i: nat, s: seq<Cell>): Option<(Loaded, seq<Cell>)> {
    if |s| < 3 then None
    else
      var start, end, magic := CellInt(s[0]), CellInt(s[1]), CellInt(s[2]);
      if magic != 0 then Some((Loaded(start, end, magic, []), s[3..]))
      else if end < start then None
      else
        match LoadData(l, i, (end - start) / 4, s[3..])
        case None => None
        case Some((data, rest)) => Some((Loaded(start, end, 0, data), rest))
  }

  /** The container is a map by offset. */
  function LoadRegions(l: Loading, i: nat, n: nat, s: seq<Cell>, d: map<int, Loaded>)
      : Option<(map<int, Loaded>, seq<Cell>)>
    requires i <= n
    decreases n - i
  {
    if i == n then Some((d, s))
    else
      match LoadRegion(l, i, s)
      case None => None
      case Some((r, rest)) => LoadRegions(l, i + 1, n, rest, d[r.start := r])
  }

  function Unmarshal(l: Loading, s: seq<Cell>): Option<(map<int, Loaded>, seq<Cell>)> {
    if s == [] then None
    else LoadRegions(l, 0, if CellInt(s[0]) < 0 then 0 else CellInt(s[0]), s[1..], map[])
  }

  ghost function ByStart(rs: seq<Region>, d: map<int, Loaded>): map<int, Loaded> {
    if rs == [] then d else ByStart(rs[1..], d[4 * rs[0].start := AsLoaded(rs[0])])
  }

  predicate NoRegular(rs: seq<Region>) {
    forall i :: 0 <= i < |rs| ==> rs[i].magic != 0
  }

  lemma ReadHeader(r: Region, rest: seq<Cell>)
    ensures var s := Header(r) + rest;
      && |s| >= 3 && CellInt(s[0]) == 4 * r.start && CellInt(s[1]) == 4 * r.end && CellInt(s[2]) == r.magic
      && s[3..] == rest
  {
  }

  lemma GetData(ws: seq<Word>, i: nat, rest: seq<Cell>)
    ensures LoadData(ByGet, i, |ws|, RawCells(ws) + rest) == Some((ws, rest))
  {
    var s := RawCells(ws) + rest;
    assert s[..|ws|] == RawCells(ws) && s[|ws|..] == rest;
    RawBack(ws);
  }

  /** A region is loaded as it was stored by a get, and always when it is magic. */
  lemma LoadOne(l: Loading, i: nat, r: Region, rest: seq<Cell>)
    requires Sized(r) && (l.ByGet? || r.magic != 0)
    ensures LoadRegion(l, i, Header(r) + (Content(r) + rest)) == Some((AsLoaded(r), rest))
  {
    ReadHeader(r, Content(r) + rest);
    if r.magic == 0 {
      assert (4 * r.end - 4 * r.start) / 4 == |r.data|;
      GetData(r.data, i, rest);
    } else {
      EmptyConcat(rest);
    }
  }

  lemma LoadStep(l: Loading, i: nat, n: nat, r: Region, rest: seq<Cell>, d: map<int, Loaded>)
    requires Sized(r) && (l.ByGet? || r.magic != 0) && i < n
    ensures LoadRegions(l, i, n, Header(r) + (Content(r) + rest), d)
         == LoadRegions(l, i + 1, n, rest, d[4 * r.start := AsLoaded(r)])
  {
    LoadOne(l, i, r, rest);
  }

  lemma StoredThen(rs: seq<Region>, rest: seq<Cell>)
    requires rs != []
    ensures Stored(rs) + rest == Header(rs[0]) + (Content(rs[0]) + (Stored(rs[1..]) + rest))
  {
    Assoc(Header(rs[0]), Content(rs[0]) + Stored(rs[1..]), rest);
    Assoc(Content(rs[0]), Stored(rs[1..]), rest);
  }

  lemma {:induction false} LoadAll(l: Loading, i: nat, n: nat, rs: seq<Region>, s: seq<Cell>, rest: seq<Cell>,
                                   d: map<int, Loaded>)
    requires Ordered(rs) && (l.ByGet? || NoRegular(rs)) && n == i + |rs| && s == Stored(rs) + rest
    ensures LoadRegions(l, i, n, s, d) == Some((ByStart(rs, d), rest))
    decreases rs
  {
    if rs == [] {
      EmptyConcat(rest);
      assert s == rest;
    } else {
      TailOrdered(rs);
      var more := Stored(rs[1..]) + rest;
      StoredThen(rs, rest);
      LoadStep(l, i, n, rs[0], more, d);
      LoadAll(l, i + 1, n, rs[1..], more, rest, d[4 * rs[0].start := AsLoaded(rs[0])]);
    }
  }

  lemma MarshalHead(rs: seq<Region>, rest: seq<Cell>)
    ensures var s := Marshal(rs) + rest; s != [] && CellInt(s[0]) == |rs| && s[1..] == Stored(rs) + rest
  {
    ConsThen(Num(|rs|), Stored(rs), rest);
  }

  lemma ConsThen<T>(x: T, a: seq<T>, b: seq<T>)
    ensures [x] + a + b != [] && ([x] + a + b)[0] == x && ([x] + a + b)[1..] == a + b
  {
  }

  /** As meant, the regions stored are the regions loaded, and nothing more is read. */
  lemma LoadMeant(rs: seq<Region>, rest: seq<Cell>)
    requires Ordered(rs)
    ensures Unmarshal(ByGet, Marshal(rs) + rest) == Some((ByStart(rs, map[]), rest))
  {
    MarshalHead(rs, rest);
    LoadAll(ByGet, 0, |rs|, rs, Stored(rs) + rest, rest, map[]);
  }

  /** Every word of regular data is `x`. */
  ghost predicate FilledWith(d: map<int, Loaded>, x: Word) {
    forall k :: k in d && d[k].magic == 0 ==> forall j :: 0 <= j < |d[k].data| ==> d[k].data[j] == x
  }

  lemma {:induction false} LoadFills(x: Word, junk: (nat, nat) -> Word, i: nat, n: nat, s: seq<Cell>,
                                     d: map<int, Loaded>)
    requires i <= n && FilledWith(d, x) && forall a, b :: junk(a, b) == x
    requires LoadRegions(ByPut(junk), i, n, s, d).Some?
    ensures FilledWith(LoadRegions(ByPut(junk), i, n, s, d).value.0, x)
    decreases n - i
  {
    if i < n {
      var (r, rest) := LoadRegion(ByPut(junk), i, s).value;
      LoadFills(x, junk, i + 1, n, rest, d[r.start := r]);
    }
  }

  lemma {:induction false} ByStartHas(rs: seq<Region>, d: map<int, Loaded>, i: nat)
    requires Ordered(rs) && i < |rs|
    ensures 4 * rs[i].start in ByStart(rs, d) && ByStart(rs, d)[4 * rs[i].start] == AsLoaded(rs[i])
    decreases rs
  {
    var next := d[4 * rs[0].start := AsLoaded(rs[0])];
    TailOrdered(rs);
    if i > 0 {
      ByStartHas(rs[1..], next, i - 1);
    } else {
      ByStartKeeps(rs[1..], next, 4 * rs[0].start);
    }
  }

  lemma {:induction false} ByStartKeeps(rs: seq<Region>, d: map<int, Loaded>, k: int)
    requires k in d && forall i :: 0 <= i < |rs| ==> 4 * rs[i].start != k
    ensures k in ByStart(rs, d) && ByStart(rs, d)[k] == d[k]
    decreases rs
  {
    if rs != [] {
      assert 4 * rs[0].start != k;
      assert forall i :: 0 <= i < |rs[1..]| ==> rs[1..][i] == rs[i + 1];
      ByStartKeeps(rs[1..], d[4 * rs[0].start := AsLoaded(rs[0])], k);
    }
  }

  ghost predicate LoadsRight(rs: seq<Region>, rest: seq<Cell>, junk: (nat, nat) -> Word) {
    Unmarshal(ByPut(junk), Marshal(rs) + rest) == Some((ByStart(rs, map[]), rest))
  }

  lemma LoadWrong(rs: seq<Region>, rest: seq<Cell>, i: nat) returns (junk: (nat, nat) -> Word)
    requires Ordered(rs) && i < |rs| && rs[i].magic == 0
    ensures !LoadsRight(rs, rest, junk)
  {
    var x := RegionWrites.Other(rs[i].data[0]);
    junk := (a: nat, b: nat) => x;
    MarshalHead(rs, rest);
    ByStartHas(rs, map[], i);
    if Unmarshal(ByPut(junk), Marshal(rs) + rest).Some? {
      LoadFills(x, junk, 0, |rs|, Stored(rs) + rest, map[]);
      assert !FilledWith(ByStart(rs, map[]), x);
    }
  }

  /** As coded, loading gives back what was stored, whatever memory holds, exactly when no
      region is regular. */
  lemma LoadExact(rs: seq<Region>, rest: seq<Cell>)
    requires Ordered(rs)
    ensures NoRegular(rs) <==> forall junk: (nat, nat) -> Word :: LoadsRight(rs, rest, junk)
  {
    if NoRegular(rs) {
      forall junk: (nat, nat) -> Word ensures LoadsRight(rs, rest, junk) {
        MarshalHead(rs, rest);
        LoadAll(ByPut(junk), 0, |rs|, rs, Stored(rs) + rest, rest, map[]);
      }
    } else {
      var i :| 0 <= i < |rs| && rs[i].magic == 0;
      var junk := LoadWrong(rs, rest, i);
    }
  }

  lemma LoadJunk(r: Region, junk: (nat, nat) -> Word, n: nat)
    requires Sized(r) && r.magic == 0 && n == |r.data|
    ensures LoadRegion(ByPut(junk), 0, Header(r) + RawCells(r.data)) ==
      Some((AsLoaded(r).(data := Held(junk, 0, n)), RawCells(r.data) + RawCells(Held(junk, 0, n))))
  {
    ReadHeader(r, RawCells(r.data));
    assert (4 * r.end - 4 * r.start) / 4 == n;
  }

  /** One regular region: what is loaded is what memory held, and the data that was stored is
      left to be read as the next field. */
  lemma CopyFails(r: Region, junk: (nat, nat) -> Word, n: nat)
    requires Sized(r) && r.magic == 0 && n == |r.data|
    ensures Unmarshal(ByPut(junk), [Num(1)] + (Header(r) + RawCells(r.data))) ==
      Some((map[4 * r.start := AsLoaded(r).(data := Held(junk, 0, n))], RawCells(r.data) + RawCells(Held(junk, 0, n))))
  {
    var s := Header(r) + RawCells(r.data);
    assert ([Num(1)] + s)[1..] == s;
    LoadJunk(r, junk, n);
    var (x, rest) := LoadRegion(ByPut(junk), 0, s).value;
    assert LoadRegions(ByPut(junk), 0, 1, s, map[]) == LoadRegions(ByPut(junk), 1, 1, rest, map[x.start := x]);
  }

  /** marshal_data. */
  method MarshalData(rs: seq<Region>) returns (ar: seq<Cell>)
    ensures ar == Marshal(rs)
  {
    ar := [Num(|rs|)];
    assert rs[0..] == rs;
    for i := 0 to |rs|
      invariant ar + Stored(rs[i..]) == Marshal(rs)
    {
      assert rs[i..][0] == rs[i] && rs[i..][1..] == rs[i + 1..];
      Assoc(ar, Header(rs[i]), Content(rs[i]) + Stored(rs[i + 1..]));
      Assoc(ar + Header(rs[i]), Content(rs[i]), Stored(rs[i + 1..]));
      ar := ar + Header(rs[i]);
      ar := ar + Content(rs[i]);
    }
    ConcatEmpty(ar);
  }

  /** unmarshal_data. */
  method UnmarshalData(l: Loading, ar: seq<Cell>) returns (ok: bool, d: map<int, Loaded>, left: seq<Cell>)
    ensures ok <==> Unmarshal(l, ar).Some?
    ensures ok ==> Unmarshal(l, ar) == Some((d, left))
  {
    d, left := map[], ar;
    if ar == [] {
      return false, d, left;
    }
    var n := if CellInt(ar[0]) < 0 then 0 else CellInt(ar[0]);
    left := ar[1..];
    for i := 0 to n
      invariant LoadRegions(l, i, n, left, d) == Unmarshal(l, ar)
    {
      var r := LoadRegion(l, i, left);
      if r.None? {
        return false, d, left;
      }
      d, left := d[r.value.0.start := r.value.0], r.value.1;
    }
    ok := true;
  }
}
