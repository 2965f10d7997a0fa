/** The region container and its operations: driver/data.C. */
module RegionMaps {

  import opened Basics
  import opened ByteAccess
  import opened FlatBytes
  import opened RegionWrites
  import opened SparseData

  lemma ReachIs(rs: seq<Region>, first: nat, off: nat)
    requires Ordered(rs) && first <= |rs|
    requires first > 0 ==> 4 * rs[first - 1].end < off
    requires first < |rs| ==> 4 * rs[first].end >= off
    ensures ReachFrom(rs, first, off)
  {
  }

  lemma RangeMeets(rs: seq<Region>, first: nat, hi: nat, startIn: nat, endIn: nat)
    requires Ordered(rs) && first <= hi <= |rs| && ReachFrom(rs, first, startIn)
    requires first < hi ==> 4 * rs[hi - 1].start <= endIn
    requires hi < |rs| ==> 4 * rs[hi].start > endIn || (first < hi && 4 * rs[hi - 1].end > endIn)
    ensures forall i :: 0 <= i < |rs| ==> (first <= i < hi <==> Meets(rs[i], startIn, endIn))
  {
  }

  /** The first region that reaches `startIn`: the one before the first that starts there
      or past it, when it does. */
  method FirstMeeting(rs: seq<Region>, startIn: nat) returns (it: nat, found: bool)
    requires Ordered(rs)
    ensures it <= |rs| && ReachFrom(rs, it, startIn)
    ensures found <==> it < |rs| && 4 * rs[it].start < startIn
  {
    it, found := StartingBelow(rs, RoundUp(startIn)), false;
    if it > 0 {
      it := it - 1;
      if 4 * rs[it].end >= startIn {
        found := true;
      } else {
        it := it + 1;
      }
    }
    ReachIs(rs, it, startIn);
  }

  /** Past the last region that starts at or below `endIn`. */
  method PastMeeting(rs: seq<Region>, first: nat, endIn: nat) returns (hi: nat, end: nat)
    requires Ordered(rs) && first <= |rs|
    ensures first <= hi <= |rs|
    ensures first < hi ==> 4 * rs[hi - 1].start <= endIn
    ensures hi < |rs| ==> 4 * rs[hi].start > endIn || (first < hi && 4 * rs[hi - 1].end > endIn)
    ensures end == if first < hi then Max(endIn, 4 * rs[hi - 1].end) else endIn
  {
    hi, end := first, endIn;
    while hi != |rs|
      invariant first <= hi <= |rs| && end == endIn
      invariant first < hi ==> 4 * rs[hi - 1].start <= endIn && 4 * rs[hi - 1].end <= endIn
    {
      if 4 * rs[hi].start > endIn {
        break;
      }
      if 4 * rs[hi].end > endIn {
        hi, end := hi + 1, 4 * rs[hi].end;
        break;
      }
      hi := hi + 1;
    }
  }

  /* ---- the loop of write_region ---- */

  /** A region that a write of [s, e) to its left or right merges with. */
  predicate Joins(left: seq<Region>, s: nat, kind: Kind) {
    left != [] && left[|left| - 1].end == s && !Differs(kind, left[|left| - 1].magic)
  }

  /** What is left before `s` once the region across it is dealt with. */
  ghost predicate FrontDone(rs: seq<Region>, s: nat, kind: Kind, done: seq<Region>, mergeFront: Option<Region>)
    requires Ordered(rs)
  {
    var n := StartingBelow(rs, s);
    match mergeFront
    case None => done == Below(rs, s) && !Joins(done, s, kind)
    case Some(f) => n > 0 && f == rs[n - 1] && f.end >= s && !Differs(kind, f.magic) && done == rs[..n - 1]
  }

  /** Regions below index `k` are dealt with; `done` are those that stay in place. */
  ghost predicate Midway(o: Offsets, rs: seq<Region>, s: nat, e: nat, kind: Kind, k: nat, done: seq<Region>, p: Pending)
    requires Ordered(rs) && s <= e
  {
    var n, m := StartingBelow(rs, s), EndingBelow(rs, e);
    if k < n then
      k == n - 1 && rs[k].end >= s && done == rs[..k] && p == NOTHING
    else if k <= m then
      FrontDone(rs, s, kind, done, p.mergeFront) && p == NOTHING.(mergeFront := p.mergeFront)
    else
      && k == m + 1 && m < |rs| && rs[m].start <= e
      && if m < n then
           && Differs(kind, rs[m].magic) && done == rs[..m]
           && p == NOTHING.(insertFront := Some(Cut(rs[m], rs[m].start, s)),
                            insertBack := Some(Tail(o, rs[m], s, e, kind)))
         else
           && p.insertFront.None?
           && if Differs(kind, rs[m].magic) && rs[m].start == e then
                && p.insertBack.None? && p.mergeBack.None?
                && done != [] && done[|done| - 1] == rs[m]
                && FrontDone(rs, s, kind, done[..|done| - 1], p.mergeFront)
              else
                && FrontDone(rs, s, kind, done, p.mergeFront)
                && p.insertBack == (if Differs(kind, rs[m].magic) then Some(Tail(o, rs[m], s, e, kind)) else None)
                && p.mergeBack == (if Differs(kind, rs[m].magic) then None else Some(rs[m]))
  }

  /** The regions set aside by the loop. */
  datatype Pending = Pending(insertFront: Option<Region>, insertBack: Option<Region>,
                             mergeFront: Option<Region>, mergeBack: Option<Region>)

  const NOTHING := Pending(None, None, None, None)

  lemma DropHead<T>(a: seq<T>, rs: seq<T>, k: nat)
    requires k < |rs|
    ensures (a + rs[k..])[|a|] == rs[k]
    ensures (a + rs[k..])[..|a|] + (a + rs[k..])[|a| + 1..] == a + rs[k + 1..]
  {
  }

  lemma HeadIs<T>(a: seq<T>, rs: seq<T>, k: nat)
    requires k < |rs|
    ensures (a + rs[k..])[|a|] == rs[k]
  {
  }

  lemma KeepHead<T>(a: seq<T>, rs: seq<T>, k: nat, x: T)
    requires k < |rs|
    ensures (a + rs[k..])[|a| := x] == a + [x] + rs[k + 1..]
  {
  }

  ghost predicate InRange(rs: seq<Region>, s: nat, e: nat, k: nat) {
    k < |rs| && rs[k].start <= e && s <= rs[k].end
  }

  ghost predicate Handling(o: Offsets, rs: seq<Region>, s: nat, e: nat, kind: Kind, k: nat, done: seq<Region>,
                           p: Pending)
  {
    Ordered(rs) && s <= e && InRange(rs, s, e, k) && Midway(o, rs, s, e, kind, k, done, p)
  }

  ghost predicate Looping(o: Offsets, rs: seq<Region>, s: nat, e: nat, kind: Kind, k: nat, done: seq<Region>,
                          p: Pending, now: seq<Region>, next: nat)
    requires Ordered(rs) && s <= e
  {
    && k <= |rs| && now == done + rs[k..] && next == |done|
    && Midway(o, rs, s, e, kind, k, done, p)
  }

  lemma Halves<T>(rs: seq<T>, k: nat)
    requires k <= |rs|
    ensures rs == rs[..k] + rs[k..]
  {
  }

  lemma RangeIn(rs: seq<Region>, s: nat, e: nat, lo: nat, hi: nat)
    requires hi <= |rs| && forall i :: lo <= i < hi ==> Meets(rs[i], 4 * s, 4 * e)
    ensures forall i :: lo <= i < hi ==> InRange(rs, s, e, i)
  {
  }

  lemma StepCovered(o: Offsets, rs: seq<Region>, s: nat, e: nat, kind: Kind, k: nat, done: seq<Region>, p: Pending)
    requires Handling(o, rs, s, e, kind, k, done, p)
    requires rs[k].start >= s && rs[k].end <= e
    ensures Midway(o, rs, s, e, kind, k + 1, done, p)
  {
  }

  lemma StepFront(o: Offsets, rs: seq<Region>, s: nat, e: nat, kind: Kind, k: nat, done: seq<Region>, p: Pending)
    requires Handling(o, rs, s, e, kind, k, done, p)
    requires rs[k].start < s && rs[k].end <= e
    ensures if Differs(kind, rs[k].magic)
            then Midway(o, rs, s, e, kind, k + 1, done + [Cut(rs[k], rs[k].start, s)], p)
            else Midway(o, rs, s, e, kind, k + 1, done, p.(mergeFront := Some(rs[k])))
  {
  }

  lemma StepSplit(o: Offsets, rs: seq<Region>, s: nat, e: nat, kind: Kind, k: nat, done: seq<Region>, p: Pending)
    requires Handling(o, rs, s, e, kind, k, done, p)
    requires rs[k].start < s && rs[k].end > e && Differs(kind, rs[k].magic)
    ensures Midway(o, rs, s, e, kind, k + 1, done,
      p.(insertFront := Some(Cut(rs[k], rs[k].start, s)), insertBack := Some(SplitTail(o, rs[k], e))))
  {
    assert k > 0 ==> rs[k - 1].end <= rs[k].start;
  }

  lemma StepBack(o: Offsets, rs: seq<Region>, s: nat, e: nat, kind: Kind, k: nat, done: seq<Region>, p: Pending)
    requires Handling(o, rs, s, e, kind, k, done, p)
    requires rs[k].start >= s && rs[k].end > e
    ensures if !Differs(kind, rs[k].magic)
            then Midway(o, rs, s, e, kind, k + 1, done, p.(mergeBack := Some(rs[k])))
            else if rs[k].start == e then Midway(o, rs, s, e, kind, k + 1, done + [rs[k]], p)
            else Midway(o, rs, s, e, kind, k + 1, done, p.(insertBack := Some(Cut(rs[k], e, rs[k].end))))
  {
    assert (done + [rs[k]])[..|done|] == done;
  }

  lemma BelowWhole(rs: seq<Region>, s: nat)
    requires Ordered(rs)
    requires var n := StartingBelow(rs, s); n > 0 ==> rs[n - 1].end <= s
    ensures Below(rs, s) == rs[..StartingBelow(rs, s)]
  {
    var n := StartingBelow(rs, s);
    if n > 0 {
      assert Cut(rs[n - 1], rs[n - 1].start, rs[n - 1].end) == rs[n - 1];
      assert rs[..n] == rs[..n - 1] + [rs[n - 1]];
    }
  }

  /** Where the loop starts. */
  lemma Begin(o: Offsets, rs: seq<Region>, s: nat, e: nat, kind: Kind, lo: nat)
    requires Ordered(rs) && s <= e && lo <= |rs| && ReachFrom(rs, lo, 4 * s)
    ensures Midway(o, rs, s, e, kind, lo, rs[..lo], NOTHING)
  {
    var n := StartingBelow(rs, s);
    if n > 0 && rs[n - 1].end >= s {
      assert n > 1 ==> rs[n - 2].end <= rs[n - 1].start;
      assert lo == n - 1;
    } else {
      assert n < |rs| ==> rs[n].end > s;
      assert lo == n;
      BelowWhole(rs, s);
    }
  }

  /** What stays before the written region, and after it. */
  function LeftOf(rs: seq<Region>, s: nat, p: Pending): seq<Region>
    requires Ordered(rs)
  {
    var n := StartingBelow(rs, s);
    if p.mergeFront.Some? && n > 0 then rs[..n - 1] else Below(rs, s)
  }

  function RightOf(o: Offsets, rs: seq<Region>, s: nat, e: nat, kind: Kind, p: Pending): seq<Region>
    requires Ordered(rs)
  {
    var m := EndingBelow(rs, e);
    if p.mergeBack.Some? && m < |rs| then rs[m + 1..] else Rest(o, rs, s, e, kind)
  }

  /** No region is set aside for insertion: nothing starts between, or the last one touches. */
  lemma EndBefore(o: Offsets, rs: seq<Region>, s: nat, e: nat, kind: Kind, k: nat, done: seq<Region>, p: Pending)
    requires Ordered(rs) && s <= e && Midway(o, rs, s, e, kind, k, done, p) && k <= EndingBelow(rs, e)
    requires k < |rs| ==> rs[k].start > e
    ensures p.insertFront.None? && p.insertBack.None? && p.mergeBack.None?
    ensures done == LeftOf(rs, s, p) && rs[k..] == RightOf(o, rs, s, e, kind, p)
  {
    assert k == EndingBelow(rs, e) && k >= StartingBelow(rs, s);
    RestWhole(o, rs, s, e, kind, k);
  }

  lemma RestWhole(o: Offsets, rs: seq<Region>, s: nat, e: nat, kind: Kind, k: nat)
    requires Ordered(rs) && k == EndingBelow(rs, e) && (k < |rs| ==> rs[k].start > e)
    ensures rs[k..] == Rest(o, rs, s, e, kind)
  {
    assert k < |rs| ==> rs[k..] == [rs[k]] + rs[k + 1..];
  }

  /** All but the last of the regions that start below `s` end there. */
  lemma StartsThenEnds(rs: seq<Region>, s: nat, e: nat)
    requires Ordered(rs) && s <= e
    ensures StartingBelow(rs, s) <= EndingBelow(rs, e) + 1
  {
    var n := StartingBelow(rs, s);
    assert n > 1 ==> rs[n - 2].end <= rs[n - 1].start;
  }

  lemma TouchCase(o: Offsets, rs: seq<Region>, s: nat, e: nat, kind: Kind, k: nat, done: seq<Region>, p: Pending)
    requires Ordered(rs) && s <= e && Midway(o, rs, s, e, kind, k, done, p) && k > EndingBelow(rs, e)
    requires p.insertBack.None? && p.mergeBack.None?
    ensures p.insertFront.None? && k == EndingBelow(rs, e) + 1 <= |rs| && rs[k - 1].start == e
    ensures done != [] && done[|done| - 1] == rs[k - 1]
    ensures FrontDone(rs, s, kind, done[..|done| - 1], p.mergeFront)
  {
    StartsThenEnds(rs, s, e);
  }

  lemma EndTouch(o: Offsets, rs: seq<Region>, s: nat, e: nat, kind: Kind, k: nat, done: seq<Region>, p: Pending)
    requires Ordered(rs) && k == EndingBelow(rs, e) + 1 <= |rs| && rs[k - 1].start == e && p.mergeBack.None?
    requires FrontDone(rs, s, kind, done, p.mergeFront)
    ensures done == LeftOf(rs, s, p) && [rs[k - 1]] + rs[k..] == RightOf(o, rs, s, e, kind, p)
  {
  }

  lemma EndMerge(o: Offsets, rs: seq<Region>, s: nat, e: nat, kind: Kind, k: nat, done: seq<Region>, p: Pending)
    requires Ordered(rs) && s <= e && Midway(o, rs, s, e, kind, k, done, p) && p.mergeBack.Some?
    ensures p.insertFront.None? && p.insertBack.None? && k <= |rs|
    ensures done == LeftOf(rs, s, p) && rs[k..] == RightOf(o, rs, s, e, kind, p)
  {
  }

  lemma EndPlain(o: Offsets, rs: seq<Region>, s: nat, e: nat, kind: Kind, k: nat, done: seq<Region>, p: Pending)
    requires Ordered(rs) && s <= e && Midway(o, rs, s, e, kind, k, done, p) && k <= |rs|
    requires k < |rs| ==> rs[k].start > e
    requires p.insertBack.None?
    ensures p.insertFront.None? && done + rs[k..] == LeftOf(rs, s, p) + RightOf(o, rs, s, e, kind, p)
  {
    if p.mergeBack.Some? {
      EndMerge(o, rs, s, e, kind, k, done, p);
    } else if k <= EndingBelow(rs, e) {
      EndBefore(o, rs, s, e, kind, k, done, p);
    } else {
      TouchCase(o, rs, s, e, kind, k, done, p);
      EndTouch(o, rs, s, e, kind, k, done[..|done| - 1], p);
      MoveLast(done, rs[k..]);
    }
  }

  lemma MoveLast<T>(a: seq<T>, b: seq<T>)
    requires a != []
    ensures a + b == a[..|a| - 1] + ([a[|a| - 1]] + b)
  {
  }

  lemma EndBack(o: Offsets, rs: seq<Region>, s: nat, e: nat, kind: Kind, k: nat, done: seq<Region>, p: Pending)
    requires Ordered(rs) && s <= e && Midway(o, rs, s, e, kind, k, done, p) && k <= |rs|
    requires p.insertBack.Some?
    ensures k == EndingBelow(rs, e) + 1 && p.mergeBack.None?
    ensures [p.insertBack.value] + rs[k..] == RightOf(o, rs, s, e, kind, p)
    ensures p.insertFront.None? ==> done == LeftOf(rs, s, p)
    ensures p.insertFront.Some? ==> p.mergeFront.None? && done + [p.insertFront.value] == LeftOf(rs, s, p)
  {
  }

  /** The neighbours to merge are exactly those that touch the write and are of its kind. */
  ghost predicate FrontSettled(rs: seq<Region>, s: nat, kind: Kind, front: Option<Region>)
    requires Ordered(rs)
  {
    var n := StartingBelow(rs, s);
    match front
    case None => !Joins(Below(rs, s), s, kind)
    case Some(f) => n > 0 && f == rs[n - 1] && f.end >= s && !Differs(kind, f.magic)
  }

  ghost predicate BackSettled(o: Offsets, rs: seq<Region>, s: nat, e: nat, kind: Kind, back: Option<Region>)
    requires Ordered(rs)
  {
    var m, right := EndingBelow(rs, e), Rest(o, rs, s, e, kind);
    match back
    case None => right == [] || right[0].start != e || Differs(kind, right[0].magic)
    case Some(b) => m < |rs| && b == rs[m] && s <= b.start <= e && !Differs(kind, b.magic)
  }

  lemma SettledEnd(o: Offsets, rs: seq<Region>, s: nat, e: nat, kind: Kind, k: nat, done: seq<Region>, p: Pending)
    requires Ordered(rs) && s <= e && Midway(o, rs, s, e, kind, k, done, p) && k <= |rs|
    requires k < |rs| ==> rs[k].start > e
    ensures FrontSettled(rs, s, kind, p.mergeFront)
  {
  }

  lemma SettledEndBack(o: Offsets, rs: seq<Region>, s: nat, e: nat, kind: Kind, k: nat, done: seq<Region>, p: Pending)
    requires Ordered(rs) && s <= e && Midway(o, rs, s, e, kind, k, done, p) && k <= |rs|
    requires k < |rs| ==> rs[k].start > e
    ensures BackSettled(o, rs, s, e, kind, p.mergeBack)
  {
  }

  ghost predicate FrontOk(f: Option<Region>, s: nat, magic: nat) {
    f.Some? ==> Sized(f.value) && f.value.start < s <= f.value.end && f.value.magic == magic
  }

  ghost predicate BackOk(b: Option<Region>, e: nat, magic: nat) {
    b.Some? ==> Sized(b.value) && b.value.start <= e < b.value.end && b.value.magic == magic
  }

  function JoinFront(f: Option<Region>, w: Region): (r: Region)
    requires Sized(w) && FrontOk(f, w.start, w.magic)
    ensures Sized(r) && r.end == w.end && r.magic == w.magic && r.start <= w.start
  {
    if f.Some? then Join(Cut(f.value, f.value.start, w.start), w) else w
  }

  function JoinBack(o: Offsets, w: Region, b: Option<Region>): (r: Region)
    requires Sized(w) && BackOk(b, w.end, w.magic)
    ensures Sized(r) && r.start == w.start && r.magic == w.magic && r.end >= w.end
  {
    if b.Some? then Join(w, MergeTail(o, b.value, w.end)) else w
  }

  lemma AttachFront(rs: seq<Region>, s: nat, kind: Kind, w: Region, p: Pending)
    requires Ordered(rs) && kind.Data? && FrontSettled(rs, s, kind, p.mergeFront)
    requires Sized(w) && w.start == s && w.magic == kind.magic
    ensures FrontOk(p.mergeFront, w.start, w.magic)
    ensures Attach(Below(rs, s), [w]) == LeftOf(rs, s, p) + [JoinFront(p.mergeFront, w)]
  {
  }

  lemma MergeTouching(o: Offsets, r: Region, s: nat, e: nat, kind: Kind)
    requires Sized(r) && s <= r.start <= e < r.end && !Differs(kind, r.magic)
    ensures MergeTail(o, r, e) == Tail(o, r, s, e, kind)
  {
    if r.start == e {
      assert MergeTail(o, r, e).data == r.data;
    }
  }

  lemma AttachBack(o: Offsets, rs: seq<Region>, s: nat, e: nat, kind: Kind, left: seq<Region>, w: Region, p: Pending)
    requires Ordered(rs) && s <= e && kind.Data? && BackSettled(o, rs, s, e, kind, p.mergeBack)
    requires Ordered(left + [w]) && Sized(w) && w.end == e && w.magic == kind.magic
    ensures BackOk(p.mergeBack, w.end, w.magic)
    ensures Attach(left + [w], Rest(o, rs, s, e, kind))
         == left + [JoinBack(o, w, p.mergeBack)] + RightOf(o, rs, s, e, kind, p)
  {
    assert (left + [w])[..|left|] == left;
    if p.mergeBack.Some? {
      MergeTouching(o, p.mergeBack.value, s, e, kind);
    }
  }

  lemma JoinedOrdered(a: seq<Region>, w: Region, left: seq<Region>, f: Region)
    requires Ordered(a) && Sized(w) && Seam(a, [w], w.start)
    requires Attach(a, [w]) == left + [f]
    ensures Ordered(left + [f])
  {
    AttachOrdered(a, [w], w.start);
  }

  /** The merged region between what stays is the write as specified. */
  lemma Finished(o: Offsets, rs: seq<Region>, s: nat, e: nat, kind: Kind, buf: seq<Word>, p: Pending)
      returns (f: Region, g: Region)
    requires Ordered(rs) && s < e && kind.Data? && |buf| == e - s
    requires FrontSettled(rs, s, kind, p.mergeFront) && BackSettled(o, rs, s, e, kind, p.mergeBack)
    ensures FrontOk(p.mergeFront, s, kind.magic) && f == JoinFront(p.mergeFront, Written(s, e, kind.magic, buf))
    ensures BackOk(p.mergeBack, e, kind.magic) && g == JoinBack(o, f, p.mergeBack)
    ensures LeftOf(rs, s, p) + [g] + RightOf(o, rs, s, e, kind, p) == RegionWrites.WriteRegion(o, rs, s, e, kind, buf)
  {
    var w := Written(s, e, kind.magic, buf);
    AttachFront(rs, s, kind, w, p);
    f := JoinFront(p.mergeFront, w);
    var left := LeftOf(rs, s, p);
    JoinedOrdered(Below(rs, s), w, left, f);
    AttachBack(o, rs, s, e, kind, left, f, p);
    g := JoinBack(o, f, p.mergeBack);
  }

  /** A write inside a region of its own kind changes the region in place. */
  function Overwritten(r: Region, s: nat, e: nat, buf: seq<Word>): Region
    requires Sized(r) && r.start <= s < e <= r.end && |buf| == e - s
  {
    if r.magic != 0 then r
    else r.(data := r.data[..s - r.start] + buf + r.data[e - r.start..])
  }

  lemma OverwrittenJoins(r: Region, s: nat, e: nat, buf: seq<Word>)
    requires Sized(r) && r.start < s < e < r.end && |buf| == e - s
    ensures Join(Join(Cut(r, r.start, s), Written(s, e, r.magic, buf)), Cut(r, e, r.end)) == Overwritten(r, s, e, buf)
  {
  }

  lemma AcrossBoth(o: Offsets, rs: seq<Region>, s: nat, e: nat, kind: Kind, k: nat)
    requires Ordered(rs) && s < e
    requires k < |rs| && rs[k].start < s && rs[k].end > e && !Differs(kind, rs[k].magic)
    ensures Below(rs, s) == rs[..k] + [Cut(rs[k], rs[k].start, s)]
    ensures Rest(o, rs, s, e, kind) == [Cut(rs[k], e, rs[k].end)] + rs[k + 1..]
  {
    assert k + 1 < |rs| ==> rs[k].end <= rs[k + 1].start;
    assert k > 0 ==> rs[k - 1].end <= rs[k].start;
    assert StartingBelow(rs, s) == k + 1 && EndingBelow(rs, e) == k;
  }

  lemma AttachLast(a: seq<Region>, x: Region, y: Region)
    requires Ordered(a + [x]) && Sized(x) && Sized(y) && Touches(x, y)
    ensures Attach(a + [x], [y]) == a + [Join(x, y)]
  {
    assert (a + [x])[..|a|] == a;
  }

  lemma InPlace(o: Offsets, rs: seq<Region>, s: nat, e: nat, kind: Kind, buf: seq<Word>, k: nat)
    requires Ordered(rs) && s < e && kind.Data? && |buf| == e - s
    requires k < |rs| && rs[k].start < s && rs[k].end > e && !Differs(kind, rs[k].magic)
    ensures rs[k := Overwritten(rs[k], s, e, buf)] == RegionWrites.WriteRegion(o, rs, s, e, kind, buf)
  {
    var r, w := rs[k], Written(s, e, kind.magic, buf);
    AcrossBoth(o, rs, s, e, kind, k);
    AttachLast(rs[..k], Cut(r, r.start, s), w);
    AttachOrdered(Below(rs, s), [w], s);
    OverwrittenJoins(r, s, e, buf);
    SplitJoin(rs, k, Join(Cut(r, r.start, s), w), Cut(r, e, r.end));
  }

  lemma SplitJoin(rs: seq<Region>, k: nat, x: Region, y: Region)
    requires k < |rs| && Ordered(rs[..k] + [x]) && Ordered([y] + rs[k + 1..]) && Sized(x) && Sized(y) && Touches(x, y)
    ensures Attach(rs[..k] + [x], [y] + rs[k + 1..]) == rs[k := Join(x, y)]
  {
    assert (rs[..k] + [x])[..k] == rs[..k];
  }

  lemma UpdateAt(o: Offsets, rs: seq<Region>, s: nat, e: nat, kind: Kind, k: nat, done: seq<Region>, p: Pending,
                 r: Region)
    requires Ordered(rs) && s <= e && Midway(o, rs, s, e, kind, k, done, p)
    requires k < |rs| && rs[k].start < s && rs[k].end > e
    ensures done == rs[..k] && (done + rs[k..])[|done| := r] == rs[k := r]
  {
  }

  lemma LeftOrdered(rs: seq<Region>, s: nat, p: Pending)
    requires Ordered(rs)
    ensures Ordered(LeftOf(rs, s, p))
    ensures forall i :: 0 <= i < |LeftOf(rs, s, p)| ==> LeftOf(rs, s, p)[i].end <= s
  {
    var n := StartingBelow(rs, s);
    assert forall i :: 0 <= i && i + 1 < n ==> rs[i].end <= rs[n - 1].start;
  }

  lemma RightOrdered(o: Offsets, rs: seq<Region>, s: nat, e: nat, kind: Kind, p: Pending)
    requires Ordered(rs)
    ensures var right := RightOf(o, rs, s, e, kind, p);
      Ordered(right) && forall i :: 0 <= i < |right| ==> right[i].start >= e
  {
    var m := EndingBelow(rs, e);
    assert forall i :: m < i < |rs| ==> rs[m].end <= rs[i].start;
  }

  /** The places of the pieces that go back. */
  lemma PiecesFit(o: Offsets, rs: seq<Region>, s: nat, e: nat, kind: Kind, k: nat, done: seq<Region>, p: Pending)
    requires Ordered(rs) && s <= e && Midway(o, rs, s, e, kind, k, done, p) && k <= |rs|
    requires p.insertBack.Some?
    ensures p.insertBack.value.start == e || p.insertBack.value.start == rs[k - 1].start
    ensures p.insertFront.Some? ==> Ordered(done) && Seam(done, rs[k..], p.insertFront.value.start)
    ensures Ordered(rs[k..]) && Seam(LeftOf(rs, s, p), rs[k..], p.insertBack.value.start)
  {
    LeftOrdered(rs, s, p);
  }

  /** Where an ordered insertion goes. */
  lemma PlaceIs(a: seq<Region>, b: seq<Region>, p: nat)
    requires Ordered(a) && Ordered(b) && Seam(a, b, p)
    ensures Ordered(a + b) && StartingBelow(a + b, p) == |a|
    ensures (a + b)[..|a|] == a && (a + b)[|a|..] == b
  {
    assert a != [] ==> (a + b)[|a| - 1] == a[|a| - 1];
    assert b != [] ==> (a + b)[|a|] == b[0];
  }

  lemma MergeFits(o: Offsets, rs: seq<Region>, s: nat, e: nat, kind: Kind, p: Pending, w: Region)
    requires Ordered(rs) && s < e && FrontSettled(rs, s, kind, p.mergeFront)
    requires w.start == if p.mergeFront.Some? then p.mergeFront.value.start else s
    ensures Ordered(LeftOf(rs, s, p)) && Ordered(RightOf(o, rs, s, e, kind, p))
    ensures Seam(LeftOf(rs, s, p), RightOf(o, rs, s, e, kind, p), w.start)
  {
    LeftOrdered(rs, s, p);
    RightOrdered(o, rs, s, e, kind, p);
  }

  class FileData {

    const hash: Hash
    var regions: seq<Region>

    /** The writes and truncations so far. */
    ghost var log: seq<Op>

    /** The regions are in normal form and show the flat array. */
    ghost predicate Valid()
      reads this
    {
      ShowsFlat(hash, regions, log)
    }

    constructor (hash: Hash)
      ensures this.hash == hash && regions == [] && log == [] && Valid()
    {
      this.hash := hash;
      regions := [];
      log := [];
    }

    /** The regions that meet or touch [startIn, endIn), and the hull of all of them. */
    method IntersectedRange(startIn: nat, endIn: nat) returns (lo: nat, hi: nat, start: nat, end: nat)
      requires Ordered(regions) && startIn <= endIn
      ensures lo <= hi <= |regions|
      ensures forall i :: 0 <= i < |regions| ==> (lo <= i < hi <==> Meets(regions[i], startIn, endIn))
      ensures ReachFrom(regions, lo, startIn) && (hi < |regions| ==> 4 * regions[hi].start > endIn)
      ensures start == if lo < hi then Min(startIn, 4 * regions[lo].start) else startIn
      ensures end == if lo < hi then Max(endIn, 4 * regions[hi - 1].end) else endIn
    {
      var found;
      start := startIn;
      lo, found := FirstMeeting(regions, startIn);
      if found {
        start := 4 * regions[lo].start;
      }
      hi, end := PastMeeting(regions, lo, endIn);
      RangeMeets(regions, lo, hi, startIn, endIn);
    }

    method Erase(i: nat, ghost a: seq<Region>, ghost rs: seq<Region>, ghost k: nat)
      requires k < |rs| && regions == a + rs[k..] && i == |a|
      modifies this`regions
      ensures regions == a + rs[k + 1..]
    {
      DropHead(a, rs, k);
      regions := regions[..i] + regions[i + 1..];
    }

    method Keep(i: nat, r: Region, ghost a: seq<Region>, ghost rs: seq<Region>, ghost k: nat)
      requires k < |rs| && regions == a + rs[k..] && i == |a|
      modifies this`regions
      ensures regions == a + [r] + rs[k + 1..]
    {
      KeepHead(a, rs, k, r);
      regions := regions[i := r];
    }

    /** A region inside [s, e). */
    method HandleCovered(o: Offsets, s: nat, e: nat, kind: Kind, next: nat, p: Pending,
                         ghost rs: seq<Region>, ghost k: nat, ghost done: seq<Region>)
      requires Ordered(rs) && s <= e && Looping(o, rs, s, e, kind, k, done, p, regions, next) && InRange(rs, s, e, k)
      requires rs[k].start >= s && rs[k].end <= e
      modifies this`regions
      ensures Looping(o, rs, s, e, kind, k + 1, done, p, regions, next)
    {
      StepCovered(o, rs, s, e, kind, k, done, p);
      Erase(next, done, rs, k);
    }

    /** A region across `s` that ends by `e`. */
    method HandleFront(o: Offsets, s: nat, e: nat, kind: Kind, next: nat, p: Pending,
                       ghost rs: seq<Region>, ghost k: nat, ghost done: seq<Region>)
        returns (next': nat, p': Pending, ghost done': seq<Region>)
      requires Ordered(rs) && s <= e && Looping(o, rs, s, e, kind, k, done, p, regions, next) && InRange(rs, s, e, k)
      requires rs[k].start < s && rs[k].end <= e
      modifies this`regions
      ensures Looping(o, rs, s, e, kind, k + 1, done', p', regions, next') && next <= next' <= next + 1
    {
      StepFront(o, rs, s, e, kind, k, done, p);
      DropHead(done, rs, k);
      var dr := regions[next];
      if Differs(kind, dr.magic) {
        Keep(next, Cut(dr, dr.start, s), done, rs, k);
        next', p', done' := next + 1, p, done + [Cut(dr, dr.start, s)];
      } else {
        Erase(next, done, rs, k);
        next', p', done' := next, p.(mergeFront := Some(dr)), done;
      }
    }

    /** A region that starts at or past `s` and ends past `e`. */
    method HandleBack(o: Offsets, s: nat, e: nat, kind: Kind, next: nat, p: Pending,
                      ghost rs: seq<Region>, ghost k: nat, ghost done: seq<Region>)
        returns (next': nat, p': Pending, ghost done': seq<Region>)
      requires Ordered(rs) && s <= e && Looping(o, rs, s, e, kind, k, done, p, regions, next) && InRange(rs, s, e, k)
      requires rs[k].start >= s && rs[k].end > e
      modifies this`regions
      ensures Looping(o, rs, s, e, kind, k + 1, done', p', regions, next') && next <= next' <= next + 1
    {
      StepBack(o, rs, s, e, kind, k, done, p);
      DropHead(done, rs, k);
      var dr := regions[next];
      if Differs(kind, dr.magic) && e == dr.start {
        Keep(next, dr, done, rs, k);
        next', p', done' := next + 1, p, done + [dr];
      } else {
        Erase(next, done, rs, k);
        next', done' := next, done;
        p' := if Differs(kind, dr.magic) then p.(insertBack := Some(Cut(dr, e, dr.end)))
              else p.(mergeBack := Some(dr));
      }
    }

    /** A region across both ends. */
    method HandleAcross(o: Offsets, s: nat, e: nat, kind: Kind, buf: seq<Word>, next: nat, p: Pending,
                        ghost rs: seq<Region>, ghost k: nat, ghost done: seq<Region>)
        returns (inPlace: bool, p': Pending)
      requires Ordered(rs) && s <= e && Looping(o, rs, s, e, kind, k, done, p, regions, next) && InRange(rs, s, e, k)
      requires rs[k].start < s && rs[k].end > e
      requires kind.Data? ==> s < e && |buf| == e - s
      modifies this`regions
      ensures inPlace ==> regions == RegionWrites.WriteRegion(o, rs, s, e, kind, buf)
      ensures !inPlace ==> Looping(o, rs, s, e, kind, k + 1, done, p', regions, next)
    {
      DropHead(done, rs, k);
      var dr := regions[next];
      if Differs(kind, dr.magic) {
        StepSplit(o, rs, s, e, kind, k, done, p);
        p' := p.(insertFront := Some(Cut(dr, dr.start, s)), insertBack := Some(SplitTail(o, dr, e)));
        Erase(next, done, rs, k);
        inPlace := false;
      } else {
        InPlace(o, rs, s, e, kind, buf, k);
        UpdateAt(o, rs, s, e, kind, k, done, p, Overwritten(dr, s, e, buf));
        regions := regions[next := Overwritten(dr, s, e, buf)];
        inPlace, p' := true, p;
      }
    }

    /** One region that meets or touches [s, e): cut, set aside, dropped, or written in place. */
    method Handle(o: Offsets, s: nat, e: nat, kind: Kind, buf: seq<Word>, next: nat, p: Pending,
                  ghost rs: seq<Region>, ghost k: nat, ghost done: seq<Region>)
        returns (inPlace: bool, next': nat, p': Pending, ghost k': nat, ghost done': seq<Region>)
      requires Ordered(rs) && s <= e && Looping(o, rs, s, e, kind, k, done, p, regions, next) && InRange(rs, s, e, k)
      requires kind.Data? ==> s < e && |buf| == e - s
      modifies this`regions
      ensures inPlace ==> regions == RegionWrites.WriteRegion(o, rs, s, e, kind, buf)
      ensures !inPlace ==> Looping(o, rs, s, e, kind, k', done', p', regions, next')
      ensures k' == k + 1 && next <= next' <= next + 1
    {
      HeadIs(done, rs, k);
      var dr := regions[next];
      inPlace, next', p', k', done' := false, next, p, k + 1, done;
      if dr.start >= s && dr.end <= e {
        HandleCovered(o, s, e, kind, next, p, rs, k, done);
      } else if dr.start >= s {
        next', p', done' := HandleBack(o, s, e, kind, next, p, rs, k, done);
      } else if dr.end <= e {
        next', p', done' := HandleFront(o, s, e, kind, next, p, rs, k, done);
      } else {
        inPlace, p' := HandleAcross(o, s, e, kind, buf, next, p, rs, k, done);
      }
    }

    method Start(o: Offsets, s: nat, e: nat, kind: Kind) returns (lo: nat, hi: nat)
      requires Ordered(regions) && s <= e
      ensures lo <= hi <= |regions| && Looping(o, regions, s, e, kind, lo, regions[..lo], NOTHING, regions, lo)
      ensures forall i :: lo <= i < hi ==> InRange(regions, s, e, i)
      ensures hi < |regions| ==> regions[hi].start > e
    {
      var start, end;
      lo, hi, start, end := IntersectedRange(4 * s, 4 * e);
      RangeIn(regions, s, e, lo, hi);
      Halves(regions, lo);
      Begin(o, regions, s, e, kind, lo);
    }

    /** The loop over the regions that meet or touch [s, e). */
    method SetAside(o: Offsets, s: nat, e: nat, kind: Kind, buf: seq<Word>)
        returns (inPlace: bool, p: Pending, ghost k: nat, ghost done: seq<Region>)
      requires Ordered(regions) && s <= e
      requires kind.Data? ==> s < e && |buf| == e - s
      modifies this`regions
      ensures inPlace ==> regions == RegionWrites.WriteRegion(o, old(regions), s, e, kind, buf)
      ensures !inPlace ==> Looping(o, old(regions), s, e, kind, k, done, p, regions, |done|)
      ensures !inPlace && k < |old(regions)| ==> old(regions)[k].start > e
    {
      ghost var rs := regions;
      var next, stop := Start(o, s, e, kind);
      inPlace, p := false, NOTHING;
      k, done := next, rs[..next];
      ghost var hi := stop;
      while next != stop
        invariant next <= stop && k + (stop - next) == hi <= |rs|
        invariant Looping(o, rs, s, e, kind, k, done, p, regions, next)
      {
        var after;
        inPlace, after, p, k, done := Handle(o, s, e, kind, buf, next, p, rs, k, done);
        if inPlace {
          return;
        }
        stop := if after == next then stop - 1 else stop;
        next := after;
      }
    }

    method Add(r: Region, ghost a: seq<Region>, ghost b: seq<Region>)
      requires regions == a + b && Ordered(a) && Ordered(b) && Seam(a, b, r.start)
      modifies this`regions
      ensures regions == a + [r] + b
    {
      PlaceIs(a, b, r.start);
      var i := StartingBelow(regions, r.start);
      regions := regions[..i] + [r] + regions[i..];
    }

    /** What was set aside goes back. */
    method InsertPieces(o: Offsets, s: nat, e: nat, kind: Kind, p: Pending,
                        ghost rs: seq<Region>, ghost k: nat, ghost done: seq<Region>)
      requires Ordered(rs) && s <= e && Looping(o, rs, s, e, kind, k, done, p, regions, |done|)
      requires k < |rs| ==> rs[k].start > e
      modifies this`regions
      ensures regions == LeftOf(rs, s, p) + RightOf(o, rs, s, e, kind, p)
    {
      if p.insertBack.None? {
        EndPlain(o, rs, s, e, kind, k, done, p);
      } else {
        EndBack(o, rs, s, e, kind, k, done, p);
        PiecesFit(o, rs, s, e, kind, k, done, p);
        LeftOrdered(rs, s, p);
        if p.insertFront.Some? {
          Add(p.insertFront.value, done, rs[k..]);
        }
        Add(p.insertBack.value, LeftOf(rs, s, p), rs[k..]);
        Assoc(LeftOf(rs, s, p), [p.insertBack.value], rs[k..]);
      }
    }

    /** The written region goes in, merged with its neighbours. */
    method Merge(o: Offsets, s: nat, e: nat, kind: Kind, buf: seq<Word>, p: Pending, ghost rs: seq<Region>)
      requires Ordered(rs) && s < e && kind.Data? && |buf| == e - s
      requires FrontSettled(rs, s, kind, p.mergeFront) && BackSettled(o, rs, s, e, kind, p.mergeBack)
      requires regions == LeftOf(rs, s, p) + RightOf(o, rs, s, e, kind, p)
      modifies this`regions
      ensures regions == RegionWrites.WriteRegion(o, rs, s, e, kind, buf)
    {
      ghost var f, g := Finished(o, rs, s, e, kind, buf, p);
      var w := Written(s, e, kind.magic, buf);
      w := JoinFront(p.mergeFront, w);
      w := JoinBack(o, w, p.mergeBack);
      MergeFits(o, rs, s, e, kind, p, w);
      Add(w, LeftOf(rs, s, p), RightOf(o, rs, s, e, kind, p));
    }

    method WriteRegion(o: Offsets, s: nat, e: nat, kind: Kind, buf: seq<Word>)
      requires Ordered(regions) && s <= e
      requires kind.Data? ==> s < e && |buf| == e - s
      modifies this`regions
      ensures regions == RegionWrites.WriteRegion(o, old(regions), s, e, kind, buf)
    {
      ghost var rs := regions;
      var inPlace, p;
      ghost var k, done;
      inPlace, p, k, done := SetAside(o, s, e, kind, buf);
      if inPlace {
        return;
      }
      SettledEnd(o, rs, s, e, kind, k, done, p);
      SettledEndBack(o, rs, s, e, kind, k, done, p);
      InsertPieces(o, s, e, kind, p, rs, k, done);
      if kind.Data? {
        Merge(o, s, e, kind, buf, p, rs);
      }
    }

    /** Copies one region into a read buffer, word by word when it is magic. */
    method CopyRegion(buf: seq<Byte>, delta: nat, r: Region) returns (out: seq<Byte>)
      requires Sized(r) && delta + 4 * (r.end - r.start) <= |buf|
      ensures out == Splice(buf, delta, RegionBytes(hash, r))
    {
      if r.magic == 0 {
        assert BytesOf(r.data) == RegionBytes(hash, r);
        return Splice(buf, delta, BytesOf(r.data));
      }
      out := buf;
      var cnt := r.end - r.start;
      ghost var all := RegionBytes(hash, r);
      for i := 0 to cnt
        invariant out == Splice(buf, delta, all[..4 * i])
      {
        var sig := HashAt(hash, r.start + i, r.magic);
        RegionBytesNext(hash, r, i);
        SpliceTwice(buf, delta, all[..4 * i], BytesOf([sig]));
        out := Splice(out, delta + 4 * i, BytesOf([sig]));
      }
      assert all[..4 * cnt] == all;
    }

    /** Copies the regions of the range into the read buffer. */
    method CopyRange(o: Offsets, lo: nat, hi: nat, start: nat, size: nat, blank: seq<Byte>) returns (buf: seq<Byte>)
      requires Ordered(regions) && lo <= hi && Inside(regions, lo, hi, start, start + |blank|)
      requires Shows(hash, regions, lo, o, start, size, blank)
      ensures |buf| == |blank| && Shows(hash, regions, hi, o, start, size, buf)
    {
      buf := blank;
      for k := lo to hi
        invariant |buf| == |blank| && Shows(hash, regions, k, o, start, size, buf)
      {
        buf := CopyNext(o, k, start, size, buf);
      }
    }

    method CopyNext(o: Offsets, k: nat, start: nat, size: nat, was: seq<Byte>) returns (buf: seq<Byte>)
      requires Ordered(regions) && k < |regions| && Shows(hash, regions, k, o, start, size, was)
      requires start <= 4 * regions[k].start && 4 * regions[k].end <= start + |was|
      ensures |buf| == |was| && Shows(hash, regions, k + 1, o, start, size, buf)
    {
      buf := CopyRegion(was, 4 * regions[k].start - start, regions[k]);
      ShowsNext(hash, regions, k, o, start, size, was, buf);
    }

    /** The range of regions a read meets, and the hull of the read and them. */
    method Hull(size: nat, off: nat) returns (lo: nat, hi: nat, start: nat, end: nat)
      requires Ordered(regions)
      ensures start == HullStart(regions, off) <= off && off + size <= end
      ensures lo <= hi && Inside(regions, lo, hi, start, end)
      ensures hi < |regions| ==> 4 * regions[hi].start > off + size
      ensures forall i :: 0 <= i < lo ==> 4 * regions[i].end <= start
    {
      lo, hi, start, end := IntersectedRange(off, off + size);
      HullIs(regions, off, off + size, lo, hi);
      HullHolds(regions, lo, hi, start, end);
    }

    method Blank(o: Offsets, size: nat, off: nat) returns (lo: nat, hi: nat, start: nat, buf: seq<Byte>)
      requires Ordered(regions)
      ensures start == HullStart(regions, off) <= off && off + size <= start + |buf|
      ensures lo <= hi && Inside(regions, lo, hi, start, start + |buf|)
      ensures hi < |regions| ==> 4 * regions[hi].start > off + size
      ensures Shows(hash, regions, lo, o, start, size, buf)
    {
      var end;
      lo, hi, start, end := Hull(size, off);
      buf := seq(end - start, q requires 0 <= q => Fresh(o, start, size, start + q));
      ShowsFirst(hash, regions, lo, o, start, size, buf);
    }

    /** Reads through a buffer that spans every region met. */
    method Pread(o: Offsets, size: nat, off: nat) returns (b: seq<Byte>)
      requires Ordered(regions)
      ensures |b| == size
      ensures forall i :: 0 <= i < size ==> b[i] == ReadByte(o, hash, regions, size, off, off + i)
    {
      var lo, hi, start, buf := Blank(o, size, off);
      buf := CopyRange(o, lo, hi, start, size, buf);
      b := buf[off - start..off - start + size];
      ReadsAll(hash, regions, hi, o, start, size, off, buf, b);
    }

    /** get_type: the kind of a word. */
    method GetType(x: Word, w: nat) returns (kind: Kind)
      ensures kind == KindOf(hash, w, x)
    {
      if x == ZERO_WORD {
        return Zero;
      }
      var j := 0;
      while j < |POSITION_MAGIC|
        invariant j <= |POSITION_MAGIC|
        invariant MagicOf(hash, w, x, POSITION_MAGIC[j..]) == MagicOf(hash, w, x, POSITION_MAGIC)
      {
        assert POSITION_MAGIC[j..][1..] == POSITION_MAGIC[j + 1..];
        if x == HashAt(hash, w, POSITION_MAGIC[j]) {
          return Data(POSITION_MAGIC[j]);
        }
        j := j + 1;
      }
      kind := Data(0);
    }

    /** The longest run of words of one kind from `start` on. */
    method NextRegion(buf: Buffer, start: nat) returns (more: bool, end: nat, kind: Kind)
      requires Filled(buf) && buf.start <= start <= buf.end
      ensures more <==> start < buf.end
      ensures more ==> start < end == RunEnd(hash, buf, start, start + 1) && kind == KindAt(hash, buf, start)
    {
      if start == buf.end {
        return false, start, Zero;
      }
      more := true;
      kind := GetType(BufWord(buf, start), start);
      end := start + 1;
      while end < buf.end
        invariant start < end <= buf.end && RunEnd(hash, buf, start, end) == RunEnd(hash, buf, start, start + 1)
      {
        var found := GetType(BufWord(buf, end), end);
        if found != kind {
          break;
        }
        end := end + 1;
      }
    }

    /** Rounds a write out to word boundaries, reading what lies at its edges. */
    method Align(o: Offsets, b: seq<Byte>, off: nat) returns (buf: Buffer)
      requires Ordered(regions)
      ensures buf == Rounded(o, hash, regions, b, off)
    {
      var s, e := off / 4, RoundUp(off + |b|);
      if off % 4 == 0 && (off + |b|) % 4 == 0 {
        assert [] + b + [] == b;
        return Buffer(b, s, e);
      }
      var head := ReadEdge(o, 4 * s, off);
      var tail := ReadEdge(o, off + |b|, 4 * e);
      buf := Buffer(head + b + tail, s, e);
    }

    method ReadEdge(o: Offsets, at: nat, end: nat) returns (edge: seq<Byte>)
      requires Ordered(regions) && at <= end
      ensures edge == Edge(o, hash, regions, at, end)
    {
      edge := Pread(o, end - at, at);
    }

    /** Writes each run of one kind as a region. */
    method StoreRuns(o: Offsets, buf: Buffer)
      requires Filled(buf) && Ordered(regions)
      modifies this`regions
      ensures regions == StoreFrom(o, hash, old(regions), buf, buf.start)
    {
      var start := buf.start;
      var more, end, kind := NextRegion(buf, start);
      while more
        invariant buf.start <= start <= buf.end && Ordered(regions)
        invariant StoreFrom(o, hash, regions, buf, start) == StoreFrom(o, hash, old(regions), buf, buf.start)
        invariant more <==> start < buf.end
        invariant more ==> start < end == RunEnd(hash, buf, start, start + 1) && kind == KindAt(hash, buf, start)
        decreases buf.end - start
      {
        RunAt(o, hash, regions, buf, start, 0);
        WriteRegion(o, start, end, kind, BufWords(buf, start, end));
        start := end;
        more, end, kind := NextRegion(buf, start);
      }
    }

    /** Writes bytes at any offset. As meant the regions go on showing the flat array; as
        coded they do, whatever memory holds, under the condition of `PutRight`. */
    method Pwrite(o: Offsets, b: seq<Byte>, off: nat)
      requires Ordered(regions) && off + |b| <= 4 * MAX_WORDS
      modifies this
      ensures regions == Put(o, hash, old(regions), b, off) && log == old(log) + [Op.Write(off, b)]
      ensures old(Valid()) && (o.AsMeant? || PutRight(hash, old(regions), b, off)) ==> Valid()
    {
      var buf := Align(o, b, off);
      StoreRuns(o, buf);
      log := log + [Op.Write(off, b)];
      if old(Valid()) && (o.AsMeant? || PutRight(hash, old(regions), b, off)) {
        PutsFlat(o, hash, old(regions), old(log), b, off);
      }
    }

    /** Clears the rest of the last word, if it is cut. */
    method ClearRest(o: Offsets, length: nat)
      requires Ordered(regions)
      modifies this`regions
      ensures regions == Padded(o, hash, old(regions), length)
    {
      if length % 4 != 0 {
        var buf := Align(o, Pad(length), length);
        StoreRuns(o, buf);
      }
    }

    /** Cuts a file off, or leaves it longer with zeroes. */
    method Truncate(o: Offsets, length: nat)
      requires Ordered(regions) && length <= 4 * MAX_WORDS
      modifies this
      ensures regions == Truncated(o, hash, old(regions), length) && log == old(log) + [Op.Truncate(length)]
      ensures old(Valid()) && (o.AsMeant? || HeadRight(old(regions), length)) ==> Valid()
    {
      ClearRest(o, length);
      WriteRegion(o, RoundUp(length), MAX_WORDS, Zero, []);
      log := log + [Op.Truncate(length)];
      if old(Valid()) && (o.AsMeant? || HeadRight(old(regions), length)) {
        TruncatesFlat(o, hash, old(regions), old(log), length);
      }
    }

    /** A read returns what the flat array holds; as coded when the bytes it leaves
        uncleared lie in regions. */
    method Read(o: Offsets, size: nat, off: nat) returns (b: seq<Byte>)
      requires Valid()
      ensures |b| == size
      ensures o.AsMeant? || UnclearedCovered(regions, size, off) ==>
        forall i :: 0 <= i < size ==> b[i] == FlatByte(log, off + i)
    {
      b := Pread(o, size, off);
      if o.AsMeant? || UnclearedCovered(regions, size, off) {
        ReadsFlat(o, hash, regions, log, size, off, b);
      }
    }
  }

  ghost predicate ShowsFlat(hash: Hash, rs: seq<Region>, log: seq<Op>) {
    && Normal(hash, rs) && EndBy(rs, MAX_WORDS)
    && forall i: nat :: ByteAt(hash, rs, i) == FlatByte(log, i)
  }

  lemma FlatSnoc(log: seq<Op>, op: Op, i: nat)
    ensures FlatByte(log + [op], i) ==
      match op
      case Write(off, bytes) => if off <= i < off + |bytes| then bytes[i - off] else FlatByte(log, i)
      case Truncate(length) => if i < length then FlatByte(log, i) else 0
  {
    assert (log + [op])[..|log|] == log;
  }

  lemma PutsFlat(o: Offsets, hash: Hash, rs: seq<Region>, log: seq<Op>, b: seq<Byte>, off: nat)
    requires ShowsFlat(hash, rs, log) && off + |b| <= 4 * MAX_WORDS && (o.AsMeant? || PutRight(hash, rs, b, off))
    ensures ShowsFlat(hash, Put(o, hash, rs, b, off), log + [Op.Write(off, b)])
  {
    if o.AsCoded? {
      PutExact(hash, rs, b, off);
      assert PutAgrees(hash, rs, b, off, o.junk);
    }
    PutNormal(hash, rs, b, off);
    var now := Put(AsMeant, hash, rs, b, off);
    forall i: nat ensures ByteAt(hash, now, i) == FlatByte(log + [Op.Write(off, b)], i) {
      PutBytes(hash, rs, b, off, i);
      OverlaidFlat(hash, rs, log, b, off, i);
    }
  }

  lemma OverlaidFlat(hash: Hash, rs: seq<Region>, log: seq<Op>, b: seq<Byte>, off: nat, i: nat)
    requires ShowsFlat(hash, rs, log)
    ensures Overlaid(hash, rs, off, b, i) == FlatByte(log + [Op.Write(off, b)], i)
  {
    FlatSnoc(log, Op.Write(off, b), i);
    assert ByteAt(hash, rs, i) == FlatByte(log, i);
  }

  lemma TruncatesFlat(o: Offsets, hash: Hash, rs: seq<Region>, log: seq<Op>, length: nat)
    requires ShowsFlat(hash, rs, log) && length <= 4 * MAX_WORDS && (o.AsMeant? || HeadRight(rs, length))
    ensures ShowsFlat(hash, Truncated(o, hash, rs, length), log + [Op.Truncate(length)])
  {
    if o.AsCoded? {
      TruncateExact(hash, rs, length);
      assert TruncateAgrees(hash, rs, length, o.junk);
    }
    TruncatedMeant(hash, rs, length, 0);
    var now := Truncated(AsMeant, hash, rs, length);
    forall i: nat ensures ByteAt(hash, now, i) == FlatByte(log + [Op.Truncate(length)], i) {
      TruncatedMeant(hash, rs, length, i);
      FlatSnoc(log, Op.Truncate(length), i);
      assert ByteAt(hash, rs, i) == FlatByte(log, i);
    }
  }

  lemma ReadsFlat(o: Offsets, hash: Hash, rs: seq<Region>, log: seq<Op>, size: nat, off: nat, b: seq<Byte>)
    requires ShowsFlat(hash, rs, log) && (o.AsMeant? || UnclearedCovered(rs, size, off)) && |b| == size
    requires forall i :: 0 <= i < size ==> b[i] == ReadByte(o, hash, rs, size, off, off + i)
    ensures forall i :: 0 <= i < size ==> b[i] == FlatByte(log, off + i)
  {
    forall i | 0 <= i < size ensures b[i] == FlatByte(log, off + i) {
      ReadFlatByte(o, hash, rs, size, off, off + i);
      assert ByteAt(hash, rs, off + i) == FlatByte(log, off + i);
    }
  }

  lemma ReadFlatByte(o: Offsets, hash: Hash, rs: seq<Region>, size: nat, off: nat, p: nat)
    requires Ordered(rs) && (o.AsMeant? || UnclearedCovered(rs, size, off)) && off <= p < off + size
    ensures ReadByte(o, hash, rs, size, off, p) == ByteAt(hash, rs, p)
  {
    if o.AsMeant? {
      ReadMeant(hash, rs, size, off, p);
    } else {
      CodedByte(hash, rs, size, off, p, o.junk);
    }
  }

  /* ---- a run that fails ---- */

  lemma OneWordRight(hash: Hash, b: Buffer)
    requires Filled(b) && b.end == b.start + 1
    ensures RunsRight(hash, [], b, b.start)
  {
    assert EndingBelow([], b.end) == 0;
    assert RunRight(hash, [], b, b.start);
  }

  lemma FirstPutRight(hash: Hash, w: nat, x: Byte)
    ensures PutRight(hash, [], [x, x, x, x], 4 * w)
  {
    OneWordRight(hash, Rounded(AsMeant, hash, [], [x, x, x, x], 4 * w));
  }

  /** Exactly the words in regions are not zero. */
  lemma CoveredIsNonzero(hash: Hash, rs: seq<Region>, p: nat)
    requires Normal(hash, rs)
    ensures CoveredByte(rs, p) <==> At(hash, rs, p / 4) != ZERO_WORD
  {
    var w := p / 4;
    if CoveredByte(rs, p) {
      var i :| 0 <= i < |rs| && Holds(rs, i, w);
      AtKind(hash, rs, i, w);
    } else {
      AtNowhere(hash, rs, w);
    }
  }

  lemma NothingFlat(hash: Hash)
    ensures ShowsFlat(hash, [], [])
  {
  }

  lemma OneWordFlat(w: nat, x: Byte, i: nat)
    ensures FlatByte([Op.Write(4 * w, [x, x, x, x])], i) == if 4 * w <= i < 4 * w + 4 then x else 0
  {
    assert [] + [Op.Write(4 * w, [x, x, x, x])] == [Op.Write(4 * w, [x, x, x, x])];
    FlatSnoc([], Op.Write(4 * w, [x, x, x, x]), i);
  }

  lemma WordByte(hash: Hash, rs: seq<Region>, w: nat, i: nat)
    requires Ordered(rs) && i < 4
    ensures ByteAt(hash, rs, 4 * w + i) == ByteOf(At(hash, rs, w), i)
  {
  }

  lemma OneWordAt(hash: Hash, rs: seq<Region>, log: seq<Op>, w: nat, x: Byte, v: nat)
    requires ShowsFlat(hash, rs, log) && log == [Op.Write(4 * w, [x, x, x, x])]
    ensures At(hash, rs, v) == if v == w then Word(x, x, x, x) else ZERO_WORD
  {
    forall i | 0 <= i < 4 ensures ByteOf(At(hash, rs, v), i) == if v == w then x else 0 {
      WordByte(hash, rs, v, i);
      OneWordFlat(w, x, 4 * v + i);
    }
    WordsEqual(At(hash, rs, v), if v == w then Word(x, x, x, x) else ZERO_WORD);
  }

  lemma SecondPutWrong(hash: Hash, rs: seq<Region>, log: seq<Op>, w: nat, x: Byte)
    requires ShowsFlat(hash, rs, log) && log == [Op.Write(4 * w, [x, x, x, x])] && x != 0
    ensures !HeadRight(rs, 4 * w + 5)
  {
    OneWordAt(hash, rs, log, w, x, w);
    OneWordAt(hash, rs, log, w, x, w + 1);
    CoveredIsNonzero(hash, rs, 4 * w + 1);
    CoveredIsNonzero(hash, rs, 4 * w + 5);
  }

  lemma SecondPut(hash: Hash, rs: seq<Region>, log: seq<Op>, junk: nat -> Word, w: nat, x: Byte, y: Byte)
    requires ShowsFlat(hash, rs, log) && log == [Op.Write(4 * w, [x, x, x, x])] && x != 0
    ensures ByteAt(hash, Put(AsCoded(junk), hash, rs, [y], 4 * w + 5), 4 * w + 4) == junk(4 * w + 4).b0
    ensures FlatByte(log + [Op.Write(4 * w + 5, [y])], 4 * w + 4) == 0
  {
    SecondPutWrong(hash, rs, log, w, x);
    PutJunk(hash, rs, [y], 4 * w + 5, 4 * w + 4, junk);
    FlatSnoc(log, Op.Write(4 * w + 5, [y]), 4 * w + 4);
    assert ByteAt(hash, rs, 4 * w + 4) == FlatByte(log, 4 * w + 4);
  }

  lemma FirstPut(hash: Hash, junk: nat -> Word, w: nat, x: Byte)
    requires w < MAX_WORDS
    ensures ShowsFlat(hash, Put(AsCoded(junk), hash, [], [x, x, x, x], 4 * w), [Op.Write(4 * w, [x, x, x, x])])
  {
    NothingFlat(hash);
    FirstPutRight(hash, w, x);
    PutsFlat(AsCoded(junk), hash, [], [], [x, x, x, x], 4 * w);
    EmptyConcat([Op.Write(4 * w, [x, x, x, x])]);
  }

  /** One word written to an empty file, and then the second byte of the next word: as coded
      the byte between them is whatever memory held, and not zero. */
  lemma FailingRun(hash: Hash, junk: nat -> Word, w: nat, x: Byte, y: Byte, one: seq<Region>)
    requires x != 0 && w < MAX_WORDS && one == Put(AsCoded(junk), hash, [], [x, x, x, x], 4 * w)
    ensures ByteAt(hash, Put(AsCoded(junk), hash, one, [y], 4 * w + 5), 4 * w + 4) == junk(4 * w + 4).b0
    ensures FlatByte([Op.Write(4 * w, [x, x, x, x]), Op.Write(4 * w + 5, [y])], 4 * w + 4) == 0
  {
    var log := [Op.Write(4 * w, [x, x, x, x])];
    FirstPut(hash, junk, w, x);
    SecondPut(hash, one, log, junk, w, x, y);
    assert log + [Op.Write(4 * w + 5, [y])] == [Op.Write(4 * w, [x, x, x, x]), Op.Write(4 * w + 5, [y])];
  }
}
