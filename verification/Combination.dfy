/** Odometer over all vectors bounded by a list of ceilings: crash/Combination.C.

    The last position moves fastest, so the vectors come out as the mixed-radix
    numerals of 0, 1, 2, ... and the enumeration is the bijection `Digits`/`Value`. */
module Combinations {

  const INT_MAX := 0x7fff_ffff
  const TWO32 := 0x1_0000_0000

  type Vector = seq<nat>

  /** Two's-complement wrap-around of a 32-bit int. */
  function Wrap32(x: int): (r: int)
    ensures -INT_MAX - 1 <= r <= INT_MAX
    ensures -INT_MAX - 1 <= x <= INT_MAX ==> r == x
  {
    (x + INT_MAX + 1) % TWO32 - INT_MAX - 1
  }

  /** A counter of 32 bits, for a count below 2^32. */
  lemma WrapIs(n: nat)
    requires n < TWO32
    ensures Wrap32(n) == if n <= INT_MAX then n else n - TWO32
  {
  }

  lemma WrapStep(n: nat)
    requires n < TWO32
    ensures Wrap32(Wrap32(n) + 1) == if n + 1 == TWO32 then 0 else Wrap32(n + 1)
  {
    WrapIs(n);
    if n + 1 < TWO32 {
      WrapIs(n + 1);
    }
  }

  lemma TimesStrict(q: nat, p: nat, m: nat)
    requires q < p
    ensures q * m + m <= p * m
  {
    assert (q + 1) * m <= p * m;
  }

  lemma TimesSuccessor(q: nat, m: nat)
    ensures (q + 1) * m == q * m + m
  {
  }

  lemma TimesGrows(a: nat, b: nat)
    requires a >= 1 && b >= 1
    ensures a * b >= a
  {
  }

  /** The number of vectors below `ceils`: the product of the ceilings plus one. */
  function Product(ceils: Vector): (p: nat)
    ensures p >= 1
  {
    if ceils == [] then 1
    else
      var p, m := Product(ceils[..|ceils| - 1]), ceils[|ceils| - 1] + 1;
      TimesGrows(p, m);
      p * m
  }

  /** The same product as the code keeps it, in an int that wraps at every step. */
  function WrappedProduct(ceils: Vector): int {
    if ceils == [] then 1
    else Wrap32(WrappedProduct(ceils[..|ceils| - 1]) * (ceils[|ceils| - 1] + 1))
  }

  /** What `ceilings` stores in `total`. */
  function Total(ceils: Vector): int {
    if WrappedProduct(ceils) < 0 then 1000000 else WrappedProduct(ceils)
  }

  lemma {:induction false} WrappedProductFits(ceils: Vector)
    requires Product(ceils) <= INT_MAX
    ensures WrappedProduct(ceils) == Product(ceils)
  {
    if ceils != [] {
      var n := |ceils| - 1;
      TimesGrows(Product(ceils[..n]), ceils[n] + 1);
      WrappedProductFits(ceils[..n]);
    }
  }

  /** `total` is the number of vectors exactly when that number fits an int, so
      the assertion `iter == total` at the end of the enumeration holds exactly then. */
  lemma {:induction false} TotalExact(ceils: Vector)
    ensures Total(ceils) == Product(ceils) <==> Product(ceils) <= INT_MAX
  {
    if Product(ceils) <= INT_MAX {
      WrappedProductFits(ceils);
    }
  }

  lemma ProductOfOne(x: nat)
    ensures Product([x]) == x + 1 && WrappedProduct([x]) == Wrap32(x + 1)
  {
    assert [x][..0] == [];
    assert Product([x]) == Product([]) * (x + 1) && WrappedProduct([x]) == Wrap32(WrappedProduct([]) * (x + 1));
  }

  lemma ProductOfTwo(x: nat, y: nat)
    ensures Product([x, y]) == (x + 1) * (y + 1)
    ensures WrappedProduct([x, y]) == Wrap32(Wrap32(x + 1) * (y + 1))
  {
    assert [x, y][..1] == [x];
    ProductOfOne(x);
  }

  /** One sector with INT_MAX versions: 2^31 vectors, and a million in `total`. */
  lemma TotalFails()
    ensures Product([INT_MAX]) == 0x8000_0000 && Total([INT_MAX]) == 1000000
  {
    ProductOfOne(INT_MAX);
  }

  predicate Bounded(ceils: Vector, v: Vector) {
    |v| == |ceils| && forall i :: 0 <= i < |v| ==> v[i] <= ceils[i]
  }

  /** The position of a vector in the enumeration: its mixed-radix value. */
  function Value(ceils: Vector, v: Vector): nat
    requires |v| == |ceils|
  {
    if ceils == [] then 0
    else
      var n := |ceils| - 1;
      Value(ceils[..n], v[..n]) * (ceils[n] + 1) + v[n]
  }

  lemma {:induction false} ValueBelowProduct(ceils: Vector, v: Vector)
    requires Bounded(ceils, v)
    ensures Value(ceils, v) < Product(ceils)
  {
    if ceils != [] {
      var n := |ceils| - 1;
      ValueBelowProduct(ceils[..n], v[..n]);
      TimesStrict(Value(ceils[..n], v[..n]), Product(ceils[..n]), ceils[n] + 1);
    }
  }

  /** Different vectors stand at different positions. */
  lemma {:induction false} ValueInjective(ceils: Vector, v: Vector, w: Vector)
    requires Bounded(ceils, v) && Bounded(ceils, w)
    requires Value(ceils, v) == Value(ceils, w)
    ensures v == w
  {
    if ceils != [] {
      var n := |ceils| - 1;
      var m, a, b := ceils[n] + 1, Value(ceils[..n], v[..n]), Value(ceils[..n], w[..n]);
      if a < b {
        TimesStrict(a, b, m);
      } else if b < a {
        TimesStrict(b, a, m);
      }
      ValueInjective(ceils[..n], v[..n], w[..n]);
      assert v == v[..n] + [v[n]] && w == w[..n] + [w[n]];
    }
  }

  function Zeros(n: nat): (z: Vector)
    ensures |z| == n && forall i :: 0 <= i < n ==> z[i] == 0
  {
    seq(n, _ => 0)
  }

  lemma {:induction false} ValueOfZeros(ceils: Vector)
    ensures Value(ceils, Zeros(|ceils|)) == 0
  {
    if ceils != [] {
      var n := |ceils| - 1;
      ValueOfZeros(ceils[..n]);
      assert Zeros(n + 1)[..n] == Zeros(n);
    }
  }

  /** The vector after `v` when positions beyond `i` carry. */
  function Bumped(v: Vector, i: nat): (w: Vector)
    requires i < |v|
    ensures |w| == |v|
  {
    v[..i] + [v[i] + 1] + Zeros(|v| - 1 - i)
  }

  /** Carrying out of the positions after `i`, all at their ceilings, adds one. */
  lemma {:induction false} ValueOfBumped(ceils: Vector, v: Vector, i: nat)
    requires Bounded(ceils, v) && i < |ceils| && v[i] < ceils[i]
    requires forall j :: i < j < |ceils| ==> v[j] == ceils[j]
    ensures Bounded(ceils, Bumped(v, i))
    ensures Value(ceils, Bumped(v, i)) == Value(ceils, v) + 1
  {
    var n, w := |ceils| - 1, Bumped(v, i);
    var a, m := Value(ceils[..n], v[..n]), ceils[n] + 1;
    if i == n {
      assert w[..n] == v[..n];
    } else {
      ValueOfBumped(ceils[..n], v[..n], i);
      assert w[..n] == Bumped(v[..n], i);
      TimesSuccessor(a, m);
    }
  }

  /** The vector of ceilings is the last one. */
  lemma {:induction false} ValueOfCeilings(ceils: Vector)
    ensures Value(ceils, ceils) + 1 == Product(ceils)
  {
    if ceils != [] {
      var n := |ceils| - 1;
      ValueOfCeilings(ceils[..n]);
      TimesSuccessor(Value(ceils[..n], ceils[..n]), ceils[n] + 1);
    }
  }

  /** The first |vectors| vectors of the enumeration. */
  ghost predicate IsEnumeration(ceils: Vector, vectors: seq<Vector>) {
    forall k :: 0 <= k < |vectors| ==> Bounded(ceils, vectors[k]) && Value(ceils, vectors[k]) == k
  }

  lemma EnumerationSnoc(ceils: Vector, vectors: seq<Vector>, v: Vector)
    requires IsEnumeration(ceils, vectors) && Bounded(ceils, v) && Value(ceils, v) == |vectors|
    ensures IsEnumeration(ceils, vectors + [v])
  {
  }

  /** A complete enumeration meets every vector exactly once. */
  lemma EnumerationIsExact(ceils: Vector, vectors: seq<Vector>)
    requires IsEnumeration(ceils, vectors) && |vectors| == Product(ceils)
    ensures forall j, k :: 0 <= j < k < |vectors| ==> vectors[j] != vectors[k]
    ensures forall v :: v in vectors <==> Bounded(ceils, v)
  {
    forall v | Bounded(ceils, v) ensures v in vectors {
      ValueBelowProduct(ceils, v);
      ValueInjective(ceils, v, vectors[Value(ceils, v)]);
    }
  }

  ghost predicate AllBounded(ceils: Vector, vectors: seq<Vector>) {
    forall k :: 0 <= k < |vectors| ==> Bounded(ceils, vectors[k])
  }

  /** Two sectors with 65535 versions each: 2^32 vectors, which the counter cannot tell from
      none, and nothing in `total`. */
  method StartsAgain(draws: (nat, nat) -> nat) returns (e: Combination)
    ensures fresh(e) && e.Valid() && e.ceils == [0xffff, 0xffff] && e.Deterministic()
    ensures Product(e.ceils) == TWO32 && !e.Ends() && Total(e.ceils) == 0
  {
    e := new Combination([0xffff, 0xffff], 2, 0, draws);
    ProductOfTwo(0xffff, 0xffff);
  }

  class Combination {
    const deterministicThreshold: int
    const randomTries: int
    /** What unix_random draws for a try and a position. */
    const draws: (nat, nat) -> nat
    var ceils: Vector
    var subset: Vector
    var total: int
    var iter: int

    /** The vectors yielded since `ceilings`, and those of them since the counter was last
        zero: it wraps around at 32 bits. */
    ghost var yielded: seq<Vector>
    ghost var turn: seq<Vector>

    predicate Deterministic()
      reads this`ceils
    {
      |ceils| <= deterministicThreshold
    }

    /** How many vectors there are to yield. */
    ghost function Bound(): nat
      reads this`ceils
    {
      if |ceils| <= deterministicThreshold then Product(ceils) else if randomTries < 0 then 0 else randomTries + 1
    }

    /** The enumeration ends. */
    ghost predicate Ends()
      reads this`ceils
    {
      Bound() < TWO32
    }

    /** All vectors have been yielded. */
    ghost predicate Complete()
      reads this
    {
      |yielded| == Bound() && AllBounded(ceils, yielded) && (Deterministic() ==> IsEnumeration(ceils, yielded))
    }

    ghost predicate Valid()
      reads this
    {
      && total >= 0 && (total == Product(ceils) <==> Product(ceils) <= INT_MAX)
      && |turn| < TWO32 && iter == Wrap32(|turn|) && (turn != [] ==> subset == turn[|turn| - 1])
      && AllBounded(ceils, yielded)
      && (Ends() ==> turn == yielded && |yielded| <= Bound())
      && if Deterministic() then IsEnumeration(ceils, turn) else Bound() <= INT_MAX
    }

    /** A vector has just been yielded, after those of `done`. */
    ghost predicate YieldedAfter(done: seq<Vector>)
      reads this
    {
      Valid() && Ends() && |yielded| <= Bound() && Bounded(ceils, subset) && yielded == done + [subset]
    }

    constructor (cl: Vector, threshold: int, tries: int, draws: (nat, nat) -> nat)
      requires tries < INT_MAX
      requires forall i :: 0 <= i < |cl| ==> cl[i] > 0
      ensures Valid() && ceils == cl && yielded == []
      ensures deterministicThreshold == threshold && randomTries == tries
    {
      yielded, turn := [], [];
      deterministicThreshold, randomTries, this.draws := threshold, tries, draws;
      ceils, subset, iter := cl, [], 0;
      total := 1;
      new;
      for i := 0 to |cl|
        invariant ceils == cl && iter == 0 && yielded == [] && turn == []
        invariant total == WrappedProduct(cl[..i])
      {
        total := Wrap32(total * (cl[i] + 1));
        assert cl[..i + 1][..i] == cl[..i];
      }
      assert cl[..|cl|] == cl;
      if total < 0 {
        total := 1000000;
      }
      TotalExact(cl);
    }

    /** Below the threshold yields the next vector of the enumeration, and stops when every
        vector has been yielded; with 2^32 vectors or more it starts again instead. When it
        stops the assertion `iter == total` holds exactly when their number fits an int.
        Above the threshold yields a number of drawn vectors. */
    method Next() returns (more: bool)
      requires Valid()
      modifies this`subset, this`iter, this`yielded, this`turn
      ensures more ==> Valid() && Bounded(ceils, subset) && yielded == old(yielded) + [subset]
      ensures !more ==> yielded == old(yielded) && Ends() && Complete()
      ensures more <==> !(Ends() && |old(yielded)| == Bound())
      ensures Deterministic() && !more ==> (iter == total <==> Product(ceils) <= INT_MAX)
    {
      if |ceils| > deterministicThreshold {
        WrapIs(|turn|);
        if iter > randomTries {
          return false;
        }
        RandSubset();
      } else {
        more := Advance();
        if !more {
          return;
        }
        EnumerationSnoc(ceils, turn, subset);
      }
      Count();
      return true;
    }

    method First() returns (more: bool)
      requires Valid() && yielded == [] && Ends()
      modifies this`subset, this`iter, this`yielded, this`turn
      ensures if more then YieldedAfter([]) else yielded == [] && Complete()
    {
      more := Next();
    }

    /** The first vector, or the one after the last; none after the last of all. */
    method Advance() returns (more: bool)
      requires Valid() && Deterministic()
      modifies this`subset
      ensures more ==> Bounded(ceils, subset) && Value(ceils, subset) == |turn| < Product(ceils)
      ensures !more ==> |turn| == Product(ceils) && (iter == total <==> Product(ceils) <= INT_MAX)
    {
      WrapIs(|turn|);
      if iter == 0 {
        FirstSubset();
        more := true;
      } else {
        var carried := Carry();
        more := !carried;
      }
      if more {
        ValueBelowProduct(ceils, subset);
      }
    }

    method Count()
      requires |turn| < TWO32 && iter == Wrap32(|turn|)
      modifies this`iter, this`yielded, this`turn
      ensures yielded == old(yielded) + [subset] && iter == Wrap32(|turn|) && |turn| < TWO32
      ensures turn == if |old(turn)| + 1 == TWO32 then [] else old(turn) + [subset]
    {
      WrapStep(|turn|);
      yielded := yielded + [subset];
      turn := if |turn| + 1 == TWO32 then [] else turn + [subset];
      iter := Wrap32(iter + 1);
    }

    /** A drawn vector. */
    method RandSubset()
      modifies this`subset
      ensures Bounded(ceils, subset)
    {
      subset := [];
      for i := 0 to |ceils|
        invariant |subset| == i && forall j :: 0 <= j < i ==> subset[j] <= ceils[j]
      {
        subset := subset + [draws(if iter < 0 then 0 else iter, i) % (ceils[i] + 1)];
      }
    }

    method FirstSubset()
      modifies this`subset
      ensures Bounded(ceils, subset) && Value(ceils, subset) == 0
    {
      subset := [];
      for i := 0 to |ceils|
        invariant subset == Zeros(i)
      {
        subset := subset + [0];
      }
      ValueOfZeros(ceils);
    }

    /** The increment loop of `next`: reports whether the carry ran off the left end. */
    method Carry() returns (carried: bool)
      requires Bounded(ceils, subset)
      modifies this`subset
      ensures carried <==> Value(ceils, old(subset)) + 1 == Product(ceils)
      ensures carried ==> subset == Zeros(|ceils|)
      ensures !carried ==> Bounded(ceils, subset) && Value(ceils, subset) == Value(ceils, old(subset)) + 1
    {
      ghost var was := subset;
      var i := |subset| - 1;
      while i >= 0
        invariant -1 <= i < |subset| == |ceils|
        invariant forall j :: i < j < |ceils| ==> was[j] == ceils[j]
        invariant subset == was[..i + 1] + Zeros(|ceils| - 1 - i)
      {
        subset := subset[i := subset[i] + 1];
        if subset[i] <= ceils[i] {
          assert subset == Bumped(was, i);
          ValueOfBumped(ceils, was, i);
          ValueBelowProduct(ceils, subset);
          return false;
        }
        subset := subset[i := 0];
        i := i - 1;
      }
      assert was == ceils;
      ValueOfCeilings(ceils);
      return true;
    }
  }
}
