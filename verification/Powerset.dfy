/** Subset enumeration with prefix pruning: crash/Powerset.C, and the loop over subsets of
    deltas in driver/StableFS.C.

    A std::set<int> is the strictly ascending sequence of its elements. */
module Powersets {

  import opened Basics

  const MAX_SET := 10

  /* ---- binary numbers ---- */

  function Pow2(n: nat): (p: nat)
    ensures p >= 1
  {
    if n == 0 then 1 else 2 * Pow2(n - 1)
  }

  predicate Bit(b: nat, i: nat) {
    if i == 0 then b % 2 == 1 else Bit(b / 2, i - 1)
  }

  function BitLen(b: nat): nat {
    if b == 0 then 0 else 1 + BitLen(b / 2)
  }

  /** The `n` low bits of a number. */
  function Low(b: nat, n: nat): nat {
    if n == 0 then 0 else b % 2 + 2 * Low(b / 2, n - 1)
  }

  function BitAnd(x: nat, y: nat): nat {
    if x == 0 || y == 0 then 0 else (if x % 2 == 1 && y % 2 == 1 then 1 else 0) + 2 * BitAnd(x / 2, y / 2)
  }

  lemma {:induction false} BelowPow2(b: nat)
    ensures b < Pow2(BitLen(b)) && Low(b, BitLen(b)) == b
  {
    if b > 0 {
      BelowPow2(b / 2);
    }
  }

  lemma {:induction false} AndSelf(x: nat)
    ensures BitAnd(x, x) == x
  {
    if x > 0 {
      AndSelf(x / 2);
    }
  }

  /** x & (x - 1) tells powers of two apart, and so the length of x - 1. */
  lemma {:induction false} AndPred(x: nat)
    requires x >= 1
    ensures BitLen(x - 1) == if BitAnd(x, x - 1) == 0 then BitLen(x) - 1 else BitLen(x)
  {
    if x % 2 == 1 {
      AndSelf(x / 2);
    } else {
      AndPred(x / 2);
    }
  }

  /** Numbers with the same low bits are whole steps apart. */
  lemma {:induction false} LowStep(b: nat, n: nat)
    ensures Low(b + Pow2(n), n) == Low(b, n)
  {
    if n > 0 {
      assert (b + Pow2(n)) / 2 == b / 2 + Pow2(n - 1) && (b + Pow2(n)) % 2 == b % 2;
      LowStep(b / 2, n - 1);
    }
  }

  lemma {:induction false} LowUnique(x: nat, y: nat, n: nat)
    requires Low(x, n) == Low(y, n) && y <= x < y + Pow2(n)
    ensures x == y
  {
    if n > 0 {
      LowUnique(x / 2, y / 2, n - 1);
    }
  }

  /* ---- subsets as numbers ---- */

  /** The positions of the ones of `b`, from position `i` up. */
  function Ones(b: nat, i: nat): seq<nat> {
    if b == 0 then [] else (if b % 2 == 1 then [i] else []) + Ones(b / 2, i + 1)
  }

  function Subset(b: nat): seq<nat> {
    Ones(b, 0)
  }

  predicate Ascending(s: seq<nat>) {
    forall i, j :: 0 <= i < j < |s| ==> s[i] < s[j]
  }

  lemma {:induction false} OnesMeans(b: nat, i: nat, j: nat)
    ensures Ascending(Ones(b, i)) && (j in Ones(b, i) <==> j >= i && Bit(b, j - i))
    ensures forall k :: 0 <= k < |Ones(b, i)| ==> Ones(b, i)[k] >= i
    decreases b
  {
    if b == 0 {
      if j >= i {
        ZeroBits(j - i);
      }
    } else {
      OnesMeans(b / 2, i + 1, j);
    }
  }

  lemma {:induction false} ZeroBits(i: nat)
    ensures !Bit(0, i)
  {
    if i > 0 {
      ZeroBits(i - 1);
    }
  }

  /** The subset with number `b` holds exactly the positions of its ones, in order. */
  lemma SubsetMeans(b: nat, j: nat)
    ensures Ascending(Subset(b)) && (j in Subset(b) <==> Bit(b, j))
  {
    OnesMeans(b, 0, j);
  }

  lemma {:induction false} OnesHigh(b: nat, n: nat, i: nat)
    requires b < Pow2(n)
    ensures Ones(b + Pow2(n), i) == Ones(b, i) + [i + n]
    decreases n
  {
    if n > 0 {
      assert (b + Pow2(n)) / 2 == b / 2 + Pow2(n - 1) && (b + Pow2(n)) % 2 == b % 2;
      OnesHigh(b / 2, n - 1, i + 1);
    }
  }

  lemma {:induction false} HeadIsLow(b: nat, i: nat)
    requires b > 0
    ensures Ones(b, i) != [] && (Ones(b, i)[0] == i <==> b % 2 == 1)
  {
    if b % 2 == 0 {
      HeadIsLow(b / 2, i + 1);
      OnesMeans(b / 2, i + 1, i);
    }
  }

  lemma PrefixCons<T>(x: T, a: seq<T>, b: seq<T>)
    ensures [x] + a <= [x] + b <==> a <= b
  {
    assert ([x] + a)[1..] == a && ([x] + b)[1..] == b;
    if [x] + a <= [x] + b {
      assert b[..|a|] == ([x] + b)[1..][..|a|] == ([x] + b)[..|a| + 1][1..];
    }
  }

  lemma OnesHalf(b: nat, i: nat)
    requires b > 0
    ensures Ones(b, i) == if b % 2 == 1 then [i] + Ones(b / 2, i + 1) else Ones(b / 2, i + 1)
  {
  }

  /** One subset is an ascending prefix of another exactly when their numbers agree in the
      low bits. */
  lemma {:induction false} OnesPrefix(b: nat, c: nat, i: nat)
    ensures Ones(b, i) <= Ones(c, i) <==> Low(c, BitLen(b)) == b
    decreases b
  {
    if b > 0 {
      OnesPrefix(b / 2, c / 2, i + 1);
      HeadIsLow(b, i);
      if c > 0 {
        HeadIsLow(c, i);
        PrefixCons(i, Ones(b / 2, i + 1), Ones(c / 2, i + 1));
        OnesHalf(b, i);
        OnesHalf(c, i);
        assert Ones(b, i) <= Ones(c, i) ==> Ones(b, i)[0] == Ones(c, i)[0];
      } else {
        LowZero(BitLen(b));
      }
    }
  }

  lemma {:induction false} LowZero(n: nat)
    ensures Low(0, n) == 0
  {
    if n > 0 {
      LowZero(n - 1);
    }
  }

  /** The subsets with a prefix come at fixed steps from it. */
  ghost predicate HasPrefix(c: nat, b: nat) {
    Subset(b) <= Subset(c)
  }

  lemma PrefixSteps(b: nat, c: nat)
    ensures HasPrefix(c, b) <==> Low(c, BitLen(b)) == b
  {
    OnesPrefix(b, c, 0);
  }

  predicate CountsUp(s: seq<nat>, i: nat) {
    forall k :: 0 <= k < |s| ==> s[k] == i + k
  }

  /** The last subset holds everything. */
  lemma {:induction false} OnesFull(n: nat, i: nat)
    ensures |Ones(Pow2(n) - 1, i)| == n && CountsUp(Ones(Pow2(n) - 1, i), i)
    decreases n
  {
    if n > 0 {
      assert (Pow2(n) - 1) / 2 == Pow2(n - 1) - 1 && (Pow2(n) - 1) % 2 == 1;
      OnesFull(n - 1, i + 1);
    }
  }

  /* ---- the table ---- */

  /** gen_powerset_: fills the first 2^n entries. */
  method Generate(n: nat, table: array<seq<nat>>) returns (s: nat)
    requires Pow2(n) <= table.Length && table[0] == []
    modifies table
    ensures s == Pow2(n) && forall i :: 0 <= i < s ==> table[i] == Subset(i)
  {
    if n == 0 {
      return 1;
    }
    s := Generate(n - 1, table);
    for i := 0 to s
      invariant forall j :: 0 <= j < s + i ==> table[j] == Subset(j)
    {
      OnesHigh(i, n - 1, 0);
      table[i + s] := table[i] + [n - 1];
    }
    s := 2 * s;
  }

  /** find_order: the number of bits of x - 1. */
  method FindOrder(x: nat) returns (order: nat)
    requires x >= 1
    ensures order == BitLen(x - 1)
  {
    var t := if BitAnd(x, x - 1) != 0 then 1 else 0;
    AndPred(x);
    order := 0;
    var y := x;
    while y > 1
      invariant y >= 1 && order + BitLen(y) == BitLen(x)
    {
      order := order + 1;
      y := y / 2;
    }
    order := order + t;
  }

  /* ---- enumeration ---- */

  /** Deltas applied in order; None when one cannot be applied. */
  function ApplyAll<S>(apply: (S, nat) -> Option<S>, fs: S, s: seq<nat>): Option<S> {
    if s == [] then Some(fs)
    else
      match apply(fs, s[0])
      case None => None
      case Some(next) => ApplyAll(apply, next, s[1..])
  }

  lemma {:induction false} FailsOn<S>(apply: (S, nat) -> Option<S>, fs: S, a: seq<nat>, b: seq<nat>)
    requires a <= b && ApplyAll(apply, fs, a).None?
    ensures ApplyAll(apply, fs, b).None?
  {
    if apply(fs, a[0]).Some? {
      FailsOn(apply, apply(fs, a[0]).value, a[1..], b[1..]);
    }
  }

  class Powerset {

    const table: array<seq<nat>>
    var size: nat
    var iter: nat
    var subset: seq<nat>
    var skipTable: set<nat>

    ghost predicate Valid()
      reads this, table
    {
      && size <= MAX_SET && iter <= Pow2(size) && table.Length == Pow2(MAX_SET)
      && (forall i :: 0 <= i < table.Length ==> table[i] == Subset(i))
      && forall i :: i in skipTable ==> i < Pow2(size)
    }

    constructor (n: nat)
      requires n <= MAX_SET
      ensures Valid() && fresh(table) && size == n && iter == 0 && skipTable == {}
    {
      table := new seq<nat>[Pow2(MAX_SET)](_ => []);
      size, iter, subset, skipTable := n, 0, [], {};
      new;
      var s := Generate(MAX_SET, table);
    }

    /** The next subset that is not marked. A bit past the end of the skip table is tested
        when the enumeration of a full-sized set ends. */
    method Next() returns (more: bool, outOfRange: bool)
      requires Valid()
      modifies this`iter, this`subset
      ensures Valid()
      ensures outOfRange ==> !more && size == MAX_SET && iter == Pow2(size)
      ensures !outOfRange && !more ==> size < MAX_SET && iter == Pow2(size)
      ensures more ==> old(iter) < iter && iter - 1 !in skipTable && subset == Subset(iter - 1)
      ensures forall i :: old(iter) <= i < (if more then iter - 1 else iter) ==> i in skipTable
    {
      while iter != Pow2(MAX_SET) && iter in skipTable
        invariant old(iter) <= iter <= Pow2(size)
        invariant forall i :: old(iter) <= i < iter ==> i in skipTable
        decreases Pow2(size) - iter
      {
        iter := iter + 1;
      }
      Pow2Grows(size, MAX_SET);
      if iter == Pow2(MAX_SET) {
        return false, true;
      }
      if iter == Pow2(size) {
        return false, false;
      }
      subset := table[iter];
      iter := iter + 1;
      return true, false;
    }

    /** Marks the subsets that have the current one as an ascending prefix. */
    method SkipPrefix()
      requires Valid() && iter >= 1
      modifies this`skipTable
      ensures Valid()
      ensures forall i :: i in skipTable <==>
        i in old(skipTable) || (iter - 1 <= i < Pow2(size) && HasPrefix(i, iter - 1))
    {
      var base := iter - 1;
      var order := FindOrder(iter);
      ghost var b := base;
      BelowPow2(b);
      while base < Pow2(size)
        invariant Marked(skipTable, old(skipTable), b, base, order, Pow2(size))
        decreases Pow2(size) - base
      {
        MarkStep(skipTable, old(skipTable), b, base, order, Pow2(size));
        skipTable := skipTable + {base};
        base := base + Pow2(order);
      }
      forall i: nat ensures HasPrefix(i, b) <==> Low(i, order) == b {
        PrefixSteps(b, i);
      }
    }
  }

  /** Below `base`, the numbers that agree with `b` in the low bits are marked. */
  ghost predicate Marked(now: set<nat>, was: set<nat>, b: nat, base: nat, order: nat, limit: nat) {
    && b <= base && Low(base, order) == b
    && forall i: nat :: i in now <==> i in was || (b <= i < base && i < limit && Low(i, order) == b)
  }

  lemma MarkStep(now: set<nat>, was: set<nat>, b: nat, base: nat, order: nat, limit: nat)
    requires Marked(now, was, b, base, order, limit) && base < limit
    ensures Marked(now + {base}, was, b, base + Pow2(order), order, limit)
  {
    LowStep(base, order);
    forall i: nat | base <= i < base + Pow2(order) && Low(i, order) == b ensures i == base {
      LowUnique(i, base, order);
    }
  }

  lemma {:induction false} Pow2Grows(a: nat, b: nat)
    requires a <= b
    ensures Pow2(a) <= Pow2(b) && (a < b ==> Pow2(a) < Pow2(b))
  {
    if a < b {
      Pow2Grows(a, b - 1);
    }
  }

  /** Applies a subset of deltas in order, until one fails. */
  method ApplyInOrder<S>(apply: (S, nat) -> Option<S>, fs: S, subset: seq<nat>) returns (r: Option<S>)
    ensures r == ApplyAll(apply, fs, subset)
  {
    var now := fs;
    for i := 0 to |subset|
      invariant ApplyAll(apply, now, subset[i..]) == ApplyAll(apply, fs, subset)
    {
      assert subset[i..][1..] == subset[i + 1..];
      var next := apply(now, subset[i]);
      if next.None? {
        return None;
      }
      now := next.value;
    }
    return Some(now);
  }

  ghost predicate Applies<S>(apply: (S, nat) -> Option<S>, fs: S, i: nat) {
    ApplyAll(apply, fs, Subset(i)).Some?
  }

  /** The numbers visited, in order, are those below `upTo` whose subsets apply. */
  ghost predicate Visited<S>(apply: (S, nat) -> Option<S>, fs: S, visited: seq<nat>, upTo: nat) {
    Ascending(visited) && forall i: nat :: i in visited <==> i < upTo && Applies(apply, fs, i)
  }

  lemma PrefixFails<S>(apply: (S, nat) -> Option<S>, fs: S, b: nat, i: nat)
    requires !Applies(apply, fs, b) && HasPrefix(i, b)
    ensures !Applies(apply, fs, i)
  {
    FailsOn(apply, fs, Subset(b), Subset(i));
  }

  lemma VisitedOn<S>(apply: (S, nat) -> Option<S>, fs: S, visited: seq<nat>, a: nat, b: nat)
    requires Visited(apply, fs, visited, a) && a <= b && forall i: nat :: a <= i < b ==> !Applies(apply, fs, i)
    ensures Visited(apply, fs, visited, b)
  {
  }

  lemma VisitedAdd<S>(apply: (S, nat) -> Option<S>, fs: S, visited: seq<nat>, a: nat)
    requires Visited(apply, fs, visited, a) && Applies(apply, fs, a)
    ensures Visited(apply, fs, visited + [a], a + 1)
  {
    forall i | 0 <= i < |visited| ensures visited[i] < a {
      assert visited[i] in visited;
    }
  }

  ghost predicate SkipsFail<S>(apply: (S, nat) -> Option<S>, fs: S, skipped: set<nat>) {
    forall i :: i in skipped ==> !Applies(apply, fs, i)
  }

  /** One turn of the loop: the current subset is visited, or its prefix marked. */
  method Try<S>(c: Powerset, apply: (S, nat) -> Option<S>, fs: S, visited: seq<nat>) returns (visited': seq<nat>)
    requires c.Valid() && c.iter >= 1 && c.subset == Subset(c.iter - 1)
    requires SkipsFail(apply, fs, c.skipTable) && Visited(apply, fs, visited, c.iter - 1)
    modifies c`skipTable
    ensures c.Valid() && SkipsFail(apply, fs, c.skipTable) && Visited(apply, fs, visited', c.iter)
  {
    ghost var i := c.iter - 1;
    var r := ApplyInOrder(apply, fs, c.subset);
    if r.None? {
      visited' := visited;
      VisitedOn(apply, fs, visited, i, i + 1);
      c.SkipPrefix();
      forall j | j in c.skipTable ensures !Applies(apply, fs, j) {
        if HasPrefix(j, i) {
          PrefixFails(apply, fs, i, j);
        }
      }
    } else {
      visited' := visited + [c.iter - 1];
      VisitedAdd(apply, fs, visited, i);
    }
  }

  /** On to the next subset: what lies between was marked. */
  method Advance<S>(c: Powerset, ghost apply: (S, nat) -> Option<S>, ghost fs: S, ghost visited: seq<nat>)
      returns (more: bool, outOfRange: bool)
    requires c.Valid() && SkipsFail(apply, fs, c.skipTable) && Visited(apply, fs, visited, c.iter)
    modifies c`iter, c`subset
    ensures c.Valid() && c.iter >= old(c.iter)
    ensures more ==> c.iter > old(c.iter) && c.subset == Subset(c.iter - 1) && Visited(apply, fs, visited, c.iter - 1)
    ensures !more ==> Visited(apply, fs, visited, Pow2(c.size)) && (outOfRange <==> c.size == MAX_SET)
  {
    more, outOfRange := c.Next();
    ghost var to := if more then c.iter - 1 else c.iter;
    forall i: nat | old(c.iter) <= i < to ensures !Applies(apply, fs, i) {
      assert i in c.skipTable;
    }
    VisitedOn(apply, fs, visited, old(c.iter), to);
  }

  /** The loop over subsets of `n` deltas visits every subset whose deltas apply in order,
      each once, although failing prefixes are skipped. It ends in an out-of-range test
      exactly when there are ten deltas. */
  method Check<S>(n: nat, apply: (S, nat) -> Option<S>, fs: S) returns (visited: seq<nat>, outOfRange: bool)
    requires n <= MAX_SET
    ensures Visited(apply, fs, visited, Pow2(n))
    ensures outOfRange <==> n == MAX_SET
  {
    var c := new Powerset(n);
    var more;
    visited := [];
    more, outOfRange := Advance(c, apply, fs, visited);
    while more
      invariant c.Valid() && c.size == n && fresh(c) && SkipsFail(apply, fs, c.skipTable)
      invariant more ==> c.iter >= 1 && c.subset == Subset(c.iter - 1) && Visited(apply, fs, visited, c.iter - 1)
      invariant !more ==> Visited(apply, fs, visited, Pow2(n)) && (outOfRange <==> n == MAX_SET)
      decreases Pow2(n) - c.iter, more
    {
      visited := Try(c, apply, fs, visited);
      more, outOfRange := Advance(c, apply, fs, visited);
    }
  }
}
