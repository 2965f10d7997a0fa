/** Systematic enumeration and replay of a program's choices: mcl/Random.C.

    A deterministic piece of code that calls `random(ceil)` finitely often is a finite
    choice tree: an inner node is a call, with one subtree per possible answer, and a
    leaf is what the code computes in the end. Calls with ceiling 1 are not recorded. */
module Choices {

  import opened Basics

  const MAX_CEIL := 255

  type Trace = seq<nat>

  /** `Forced` is a call with ceiling 1, `Node` a call with one subtree per answer. */
  datatype Tree<+T> = Leaf(value: T) | Forced(next: Tree<T>) | Node(children: seq<Tree<T>>)

  datatype Run<+T> = Run(trace: Trace, value: T)

  /** Every ceiling lies between 2 and MAX_CEIL, or is 1. */
  ghost predicate WellFormed<T>(t: Tree<T>) {
    match t
    case Leaf(_) => true
    case Forced(n) => WellFormed(n)
    case Node(cs) => 2 <= |cs| <= MAX_CEIL && forall c :: c in cs ==> WellFormed(c)
  }

  /** Answering the recorded calls of `t` with `trace` ends in `value`. */
  predicate IsRun<T(==)>(t: Tree<T>, trace: Trace, value: T) {
    match t
    case Leaf(v) => trace == [] && v == value
    case Forced(n) => IsRun(n, trace, value)
    case Node(cs) => trace != [] && trace[0] < |cs| && IsRun(cs[trace[0]], trace[1..], value)
  }

  /* ---- all runs, left to right ---- */

  function Prefixed<T>(k: nat, runs: seq<Run<T>>): (r: seq<Run<T>>)
    ensures |r| == |runs|
    ensures forall i :: 0 <= i < |r| ==> r[i] == Run([k] + runs[i].trace, runs[i].value)
  {
    if runs == [] then []
    else [Run([k] + runs[0].trace, runs[0].value)] + Prefixed(k, runs[1..])
  }

  ghost function Runs<T>(t: Tree<T>): seq<Run<T>>
    requires WellFormed(t)
    decreases t, 1, 0
  {
    match t
    case Leaf(v) => [Run([], v)]
    case Forced(n) => Runs(n)
    case Node(cs) => RunsFrom(t, 0)
  }

  /** The runs through the children number `k` and up. */
  ghost function RunsFrom<T>(t: Tree<T>, k: nat): seq<Run<T>>
    requires WellFormed(t) && t.Node? && k <= |t.children|
    decreases t, 0, |t.children| - k
  {
    if k == |t.children| then []
    else Prefixed(k, Runs(t.children[k])) + RunsFrom(t, k + 1)
  }

  /** The listed runs are exactly the runs of the tree. */
  lemma {:induction false} RunsExact<T>(t: Tree<T>, r: Run<T>)
    requires WellFormed(t)
    ensures r in Runs(t) <==> IsRun(t, r.trace, r.value)
    decreases t, 1, 0
  {
    match t
    case Leaf(_) =>
    case Forced(n) => RunsExact(n, r);
    case Node(_) => RunsFromExact(t, 0, r);
  }

  lemma {:induction false} RunsFromExact<T>(t: Tree<T>, k: nat, r: Run<T>)
    requires WellFormed(t) && t.Node? && k <= |t.children|
    ensures r in RunsFrom(t, k) <==>
      && r.trace != [] && k <= r.trace[0] < |t.children|
      && IsRun(t.children[r.trace[0]], r.trace[1..], r.value)
    decreases t, 0, |t.children| - k
  {
    if k < |t.children| {
      RunsFromExact(t, k + 1, r);
      if r.trace != [] {
        RunsExact(t.children[k], Run(r.trace[1..], r.value));
      }
      PrefixedContains(k, Runs(t.children[k]), r);
    }
  }

  lemma PrefixedContains<T>(k: nat, runs: seq<Run<T>>, r: Run<T>)
    ensures r in Prefixed(k, runs) <==>
      r.trace != [] && r.trace[0] == k && Run(r.trace[1..], r.value) in runs
  {
    if r in Prefixed(k, runs) {
      var i :| 0 <= i < |runs| && Prefixed(k, runs)[i] == r;
      assert r.trace[1..] == runs[i].trace;
    }
    if r.trace != [] && r.trace[0] == k && Run(r.trace[1..], r.value) in runs {
      var i :| 0 <= i < |runs| && runs[i] == Run(r.trace[1..], r.value);
      assert [k] + r.trace[1..] == r.trace;
      assert Prefixed(k, runs)[i] == r;
    }
  }

  /* ---- lexicographic order ---- */

  predicate Before(a: Trace, b: Trace) {
    a != [] && b != [] && (a[0] < b[0] || (a[0] == b[0] && Before(a[1..], b[1..])))
  }

  ghost predicate Ascending<T>(runs: seq<Run<T>>) {
    forall i, j :: 0 <= i < j < |runs| ==> Before(runs[i].trace, runs[j].trace)
  }

  lemma {:induction false} BeforeIsStrict(a: Trace)
    ensures !Before(a, a)
  {
    if a != [] {
      BeforeIsStrict(a[1..]);
    }
  }

  /** The runs come in strictly ascending lexicographic order, so no run comes twice. */
  lemma {:induction false} RunsAscending<T>(t: Tree<T>)
    requires WellFormed(t)
    ensures Ascending(Runs(t))
    decreases t, 1, 0
  {
    match t
    case Leaf(_) =>
    case Forced(n) => RunsAscending(n);
    case Node(_) => RunsFromAscending(t, 0);
  }

  ghost predicate StartFrom<T>(runs: seq<Run<T>>, k: nat) {
    forall i :: 0 <= i < |runs| ==> runs[i].trace != [] && runs[i].trace[0] >= k
  }

  lemma PrefixedAscending<T>(k: nat, runs: seq<Run<T>>)
    requires Ascending(runs)
    ensures Ascending(Prefixed(k, runs))
    ensures forall i :: 0 <= i < |Prefixed(k, runs)| ==>
      Prefixed(k, runs)[i].trace != [] && Prefixed(k, runs)[i].trace[0] == k
  {
    var all := Prefixed(k, runs);
    forall i, j | 0 <= i < j < |all| ensures Before(all[i].trace, all[j].trace) {
      assert all[i].trace[1..] == runs[i].trace && all[j].trace[1..] == runs[j].trace;
    }
  }

  lemma AscendingConcat<T>(k: nat, a: seq<Run<T>>, b: seq<Run<T>>)
    requires Ascending(a) && Ascending(b) && StartFrom(b, k + 1)
    requires forall i :: 0 <= i < |a| ==> a[i].trace != [] && a[i].trace[0] == k
    ensures Ascending(a + b) && StartFrom(a + b, k)
  {
  }

  lemma {:induction false} RunsFromAscending<T>(t: Tree<T>, k: nat)
    requires WellFormed(t) && t.Node? && k <= |t.children|
    ensures Ascending(RunsFrom(t, k))
    ensures StartFrom(RunsFrom(t, k), k)
    decreases t, 0, |t.children| - k
  {
    if k < |t.children| {
      RunsAscending(t.children[k]);
      RunsFromAscending(t, k + 1);
      PrefixedAscending(k, Runs(t.children[k]));
      AscendingConcat(k, Prefixed(k, Runs(t.children[k])), RunsFrom(t, k + 1));
    }
  }

  /* ---- what is left to do from a choice prefix ---- */

  /** The answer to the next recorded call: an old choice, or 0 for a new choice point. */
  function First(p: Trace): nat {
    if p == [] then 0 else p[0]
  }

  function Others(p: Trace): Trace {
    if p == [] then [] else p[1..]
  }

  predicate IsPrefix<T>(t: Tree<T>, p: Trace) {
    match t
    case Leaf(_) => p == []
    case Forced(n) => IsPrefix(n, p)
    case Node(cs) => First(p) < |cs| && IsPrefix(cs[First(p)], Others(p))
  }

  /** The ceilings of the calls that `p` answers. */
  function Ceils<T>(t: Tree<T>, p: Trace): (c: seq<nat>)
    requires IsPrefix(t, p)
    ensures |c| == |p|
  {
    match t
    case Leaf(_) => []
    case Forced(n) => Ceils(n, p)
    case Node(cs) => if p == [] then [] else [|cs|] + Ceils(cs[First(p)], Others(p))
  }

  /** The run that answers with `p` first and with zeros after it. */
  function Walk<T>(t: Tree<T>, p: Trace): Run<T>
    requires IsPrefix(t, p)
  {
    match t
    case Leaf(v) => Run([], v)
    case Forced(n) => Walk(n, p)
    case Node(cs) =>
      var r := Walk(cs[First(p)], Others(p));
      Run([First(p)] + r.trace, r.value)
  }

  /** The runs from `Walk(t, p)` on. */
  ghost function Rest<T>(t: Tree<T>, p: Trace): seq<Run<T>>
    requires WellFormed(t) && IsPrefix(t, p)
  {
    match t
    case Leaf(v) => [Run([], v)]
    case Forced(n) => Rest(n, p)
    case Node(cs) =>
      Prefixed(First(p), Rest(cs[First(p)], Others(p))) + RunsFrom(t, First(p) + 1)
  }

  lemma {:induction false} RestOfNothing<T>(t: Tree<T>)
    requires WellFormed(t)
    ensures IsPrefix(t, []) && Rest(t, []) == Runs(t)
  {
    match t
    case Leaf(_) =>
    case Forced(n) => RestOfNothing(n);
    case Node(cs) => RestOfNothing(cs[0]);
  }

  /** A walk is a run, and what is left from a prefix is what is left from its walk. */
  lemma {:induction false} RestOfWalk<T>(t: Tree<T>, p: Trace)
    requires WellFormed(t) && IsPrefix(t, p)
    ensures var r := Walk(t, p);
            IsRun(t, r.trace, r.value) && IsPrefix(t, r.trace) && Rest(t, r.trace) == Rest(t, p)
  {
    match t
    case Leaf(_) =>
    case Forced(n) => RestOfWalk(n, p);
    case Node(cs) =>
      RestOfWalk(cs[First(p)], Others(p));
      assert Walk(t, p).trace[1..] == Walk(cs[First(p)], Others(p)).trace;
  }

  ghost predicate Below(choices: Trace, ceils: seq<nat>) {
    |choices| == |ceils| && forall i :: 0 <= i < |ceils| ==> choices[i] < ceils[i] <= MAX_CEIL
  }

  /** What `repeat` does to the choices: the last one that can be raised is raised and the
      later ones are dropped. */
  function Bump(choices: Trace, ceils: seq<nat>): (r: Option<Trace>)
    requires Below(choices, ceils)
    ensures r.Some? ==> |r.value| <= |choices|
  {
    if choices == [] then None
    else
      var n := |choices| - 1;
      if choices[n] + 1 < ceils[n] then Some(choices[..n] + [choices[n] + 1])
      else Bump(choices[..n], ceils[..n])
  }

  lemma {:induction false} BumpCons(k: nat, choices: Trace, n: nat, ceils: seq<nat>)
    requires Below(choices, ceils) && k < n <= MAX_CEIL
    ensures Below([k] + choices, [n] + ceils)
    ensures Bump([k] + choices, [n] + ceils) ==
            match Bump(choices, ceils)
            case Some(q) => Some([k] + q)
            case None => if k + 1 < n then Some([k + 1]) else None
  {
    var m := |choices|;
    if m == 0 {
      assert [k] + choices == [k] && [n] + ceils == [n];
      assert [k][..0] + [k + 1] == [k + 1] && Bump([k][..0], [n][..0]) == None;
    } else {
      assert ([k] + choices)[..m] == [k] + choices[..m - 1];
      assert ([n] + ceils)[..m] == [n] + ceils[..m - 1];
      var last: seq<nat> := [choices[m - 1] + 1];
      assert [k] + choices[..m - 1] + last == [k] + (choices[..m - 1] + last);
      BumpCons(k, choices[..m - 1], n, ceils[..m - 1]);
    }
  }

  lemma {:induction false} CeilsBound<T>(t: Tree<T>, p: Trace)
    requires WellFormed(t) && IsPrefix(t, p)
    ensures Below(p, Ceils(t, p))
  {
    match t
    case Leaf(_) =>
    case Forced(n) => CeilsBound(n, p);
    case Node(cs) => CeilsBound(cs[First(p)], Others(p));
  }

  /** What is left from a run is the run and what `repeat` leaves. */
  ghost predicate Continues<T>(t: Tree<T>, r: Run<T>, next: Option<Trace>)
    requires WellFormed(t) && IsPrefix(t, r.trace)
  {
    match next
    case None => Rest(t, r.trace) == [r]
    case Some(q) => IsPrefix(t, q) && Rest(t, r.trace) == [r] + Rest(t, q)
  }

  /** After a run, `repeat` leaves exactly the runs behind it. */
  lemma {:induction false} RestStep<T>(t: Tree<T>, r: Run<T>)
    requires WellFormed(t) && IsRun(t, r.trace, r.value)
    ensures IsPrefix(t, r.trace) && Below(r.trace, Ceils(t, r.trace))
    ensures Continues(t, r, Bump(r.trace, Ceils(t, r.trace)))
  {
    match t
    case Leaf(_) =>
    case Forced(n) => RestStep(n, r);
    case Node(cs) =>
      var k, inner := r.trace[0], Run(r.trace[1..], r.value);
      RestStep(cs[k], inner);
      assert r.trace == [k] + inner.trace;
      NodePrefix(t, k, inner.trace);
      var ceils := Ceils(cs[k], inner.trace);
      BumpCons(k, inner.trace, |cs|, ceils);
      match Bump(inner.trace, ceils)
      case Some(q) => StepInside(t, k, inner, q);
      case None => StepAcross(t, k, inner);
  }

  lemma StepInside<T>(t: Tree<T>, k: nat, inner: Run<T>, q: Trace)
    requires WellFormed(t) && t.Node? && k < |t.children|
    requires IsPrefix(t.children[k], inner.trace) && IsPrefix(t.children[k], q)
    requires Rest(t.children[k], inner.trace) == [inner] + Rest(t.children[k], q)
    ensures IsPrefix(t, [k] + inner.trace) && IsPrefix(t, [k] + q)
    ensures Rest(t, [k] + inner.trace)
         == [Run([k] + inner.trace, inner.value)] + Rest(t, [k] + q)
  {
    NodePrefix(t, k, inner.trace);
    NodePrefix(t, k, q);
    PrefixedSplit(k, inner, Rest(t.children[k], q), RunsFrom(t, k + 1));
  }

  lemma StepAcross<T>(t: Tree<T>, k: nat, inner: Run<T>)
    requires WellFormed(t) && t.Node? && k < |t.children|
    requires IsPrefix(t.children[k], inner.trace) && Rest(t.children[k], inner.trace) == [inner]
    ensures IsPrefix(t, [k] + inner.trace)
    ensures k + 1 < |t.children| ==>
      && IsPrefix(t, [k + 1])
      && Rest(t, [k] + inner.trace) == [Run([k] + inner.trace, inner.value)] + Rest(t, [k + 1])
    ensures k + 1 == |t.children| ==>
      Rest(t, [k] + inner.trace) == [Run([k] + inner.trace, inner.value)]
  {
    var r := Run([k] + inner.trace, inner.value);
    NodePrefix(t, k, inner.trace);
    assert Prefixed(k, [inner]) == [r];
    assert Rest(t, r.trace) == [r] + RunsFrom(t, k + 1);
    if k + 1 < |t.children| {
      RestOfChild(t, k + 1);
    }
  }

  lemma RestOfChild<T>(t: Tree<T>, k: nat)
    requires WellFormed(t) && t.Node? && k < |t.children|
    ensures IsPrefix(t, [k]) && Rest(t, [k]) == RunsFrom(t, k)
  {
    RestOfNothing(t.children[k]);
    NodePrefix(t, k, []);
    assert [k] + [] == [k];
  }

  lemma {:induction false} BumpShape(choices: Trace, ceils: seq<nat>)
    requires Below(choices, ceils)
    ensures var r := Bump(choices, ceils);
            r.Some? ==> 0 < |r.value| <= |choices| && r.value[..|r.value| - 1] == choices[..|r.value| - 1]
  {
    if choices != [] {
      var n := |choices| - 1;
      BumpShape(choices[..n], ceils[..n]);
    }
  }

  /** Ceilings depend only on the earlier choices. */
  lemma {:induction false} CeilsAgree<T>(t: Tree<T>, p: Trace, q: Trace)
    requires IsPrefix(t, p) && IsPrefix(t, q) && 0 < |q| <= |p| && q[..|q| - 1] == p[..|q| - 1]
    ensures Ceils(t, q) == Ceils(t, p)[..|q|]
  {
    match t
    case Leaf(_) =>
    case Forced(n) => CeilsAgree(n, p, q);
    case Node(cs) =>
      if |q| > 1 {
        assert q[0] == q[..|q| - 1][0] == p[..|q| - 1][0] == p[0];
        assert q[1..][..|q| - 2] == q[..|q| - 1][1..] && p[1..][..|q| - 2] == p[..|q| - 1][1..];
        CeilsAgree(cs[p[0]], p[1..], q[1..]);
      }
  }

  lemma NodePrefix<T>(t: Tree<T>, k: nat, p: Trace)
    requires WellFormed(t) && t.Node? && k < |t.children| && IsPrefix(t.children[k], p)
    ensures IsPrefix(t, [k] + p)
    ensures Ceils(t, [k] + p) == [|t.children|] + Ceils(t.children[k], p)
    ensures Rest(t, [k] + p) == Prefixed(k, Rest(t.children[k], p)) + RunsFrom(t, k + 1)
  {
    assert Others([k] + p) == p;
  }

  lemma PrefixedSplit<T>(k: nat, inner: Run<T>, runs: seq<Run<T>>, tail: seq<Run<T>>)
    ensures Prefixed(k, [inner] + runs) + tail
         == [Run([k] + inner.trace, inner.value)] + (Prefixed(k, runs) + tail)
  {
    assert ([inner] + runs)[1..] == runs;
  }

  /** From a prefix: its walk comes first, and `repeat` leads to the prefix of the rest. */
  lemma RoundStep<T>(t: Tree<T>, p: Trace, w: Run<T>)
    requires WellFormed(t) && IsPrefix(t, p) && w == Walk(t, p)
    ensures IsPrefix(t, w.trace) && Below(w.trace, Ceils(t, w.trace))
    ensures match Bump(w.trace, Ceils(t, w.trace))
            case None => Rest(t, p) == [w]
            case Some(q) =>
              && |q| <= |w.trace| && IsPrefix(t, q) && Ceils(t, q) == Ceils(t, w.trace)[..|q|]
              && Rest(t, p) == [w] + Rest(t, q)
  {
    RestOfWalk(t, p);
    RestStep(t, w);
    var next := Bump(w.trace, Ceils(t, w.trace));
    BumpShape(w.trace, Ceils(t, w.trace));
    if next.Some? {
      CeilsAgree(t, w.trace, next.value);
    }
  }

  /* ---- EnumRandom ---- */

  class EnumRandom {
    var choices: Trace
    var ceils: seq<nat>
    var cur: int

    constructor ()
      ensures choices == [] && ceils == [] && cur == 0
    {
      choices, ceils, cur := [], [], 0;
    }

    ghost predicate Valid()
      reads this
    {
      Below(choices, ceils) && -1 <= cur < |ceils|
    }

    method Reset()
      modifies this
      ensures Valid() && choices == [] && ceils == [] && cur == -1
    {
      cur, ceils, choices := -1, [], [];
    }

    /** An old choice point repeats its answer; a new one answers 0. */
    method Random(ceil: nat) returns (c: nat)
      requires Valid() && 0 < ceil <= MAX_CEIL
      modifies this
      ensures Valid() && c < MAX_CEIL
      ensures ceil == 1 ==> c == 0 && choices == old(choices) && ceils == old(ceils) && cur == old(cur)
      ensures ceil > 1 ==> cur == old(cur) + 1 && c == choices[cur]
      ensures ceil > 1 && cur < |old(ceils)| ==> choices == old(choices) && ceils == old(ceils)
      ensures ceil > 1 && cur == |old(ceils)| ==>
        choices == old(choices) + [0] && ceils == old(ceils) + [ceil]
    {
      if ceil == 1 {
        return 0;
      }
      cur := cur + 1;
      if cur < |ceils| {
        return choices[cur];
      }
      ceils := ceils + [ceil];
      choices := choices + [0];
      return 0;
    }

    /** The 8-bit increment never wraps, because no choice exceeds MAX_CEIL - 1. */
    method Repeat() returns (more: bool)
      requires Valid() && cur == |choices| - 1
      modifies this
      ensures more <==> old(Bump(choices, ceils)).Some?
      ensures more ==> Valid() && cur == -1
      ensures more ==> choices == old(Bump(choices, ceils)).value
      ensures more ==> |choices| <= |old(ceils)| && ceils == old(ceils)[..|choices|]
    {
      ghost var was := choices;
      assert was[..cur + 1] == was && ceils[..cur + 1] == ceils;
      while cur >= 0
        invariant |choices| == |ceils| && ceils == old(ceils) && -1 <= cur < |ceils|
        invariant choices[..cur + 1] == was[..cur + 1]
        invariant Bump(was[..cur + 1], ceils[..cur + 1]) == old(Bump(choices, ceils))
      {
        assert was[..cur + 1][..cur] == was[..cur] && ceils[..cur + 1][..cur] == ceils[..cur];
        assert choices[cur] == choices[..cur + 1][cur] == was[cur];
        choices := choices[cur := (choices[cur] + 1) % 256];
        if choices[cur] < ceils[cur] {
          break;
        }
        cur := cur - 1;
        assert choices[..cur + 1] == was[..cur + 1];
      }
      if cur < 0 {
        return false;
      }
      choices := choices[..cur + 1];
      ceils := ceils[..cur + 1];
      cur := -1;
      return true;
    }

    /** Choice points from `cur + 1` on are those of a prefix of `t`. */
    ghost predicate Aligned<T>(t: Tree<T>)
      reads this
    {
      && WellFormed(t) && Valid()
      && IsPrefix(t, choices[cur + 1..]) && ceils[cur + 1..] == Ceils(t, choices[cur + 1..])
    }

    /** One execution of code whose remaining choice tree is `t`: old choices are
        repeated, then every new choice point answers 0. */
    method Execute<T>(t: Tree<T>) returns (value: T)
      requires Aligned(t)
      modifies this
      ensures Valid() && cur == |choices| - 1
      ensures var w := old(Walk(t, choices[cur + 1..]));
              && value == w.value && choices == old(choices[..cur + 1]) + w.trace
              && IsPrefix(t, w.trace) && ceils == old(ceils[..cur + 1]) + Ceils(t, w.trace)
      decreases t
    {
      match t
      case Leaf(v) => value := v;
      case Forced(n) =>
        var c := Random(1);
        value := Execute(n);
      case Node(cs) =>
        ghost var p, done, top := choices[cur + 1..], choices[..cur + 1], ceils[..cur + 1];
        var c := Answer(t);
        value := Execute(cs[c]);
        ghost var w := Walk(cs[c], Others(p));
        Assoc(done, [c], w.trace);
        NodePrefix(t, c, w.trace);
        Assoc(top, [|cs|], Ceils(cs[c], w.trace));
    }

    /** One recorded call. */
    method Answer<T>(t: Tree<T>) returns (c: nat)
      requires Aligned(t) && t.Node?
      modifies this
      ensures c == First(old(choices[cur + 1..])) && c < |t.children|
      ensures Aligned(t.children[c]) && choices[cur + 1..] == Others(old(choices[cur + 1..]))
      ensures choices[..cur + 1] == old(choices[..cur + 1]) + [c]
      ensures ceils[..cur + 1] == old(ceils[..cur + 1]) + [|t.children|]
    {
      ghost var p := choices[cur + 1..];
      c := Random(|t.children|);
      assert c == First(p) && choices[cur + 1..] == Others(p);
      assert ceils[cur + 1..] == Ceils(t.children[c], Others(p));
    }

    /** An execution from the start, on the choices that `repeat` left. */
    method ExecuteAfresh<T>(t: Tree<T>) returns (value: T)
      requires Aligned(t) && cur == -1
      modifies this
      ensures Valid() && cur == |choices| - 1
      ensures Run(choices, value) == old(Walk(t, choices[cur + 1..]))
      ensures IsPrefix(t, choices) && ceils == Ceils(t, choices)
    {
      value := Execute(t);
      EmptyConcat(choices);
      EmptyConcat(ceils);
    }

    /** After the walk from `p`: leaves the choices of the runs behind it. */
    method RepeatAfter<T>(ghost t: Tree<T>, ghost p: Trace) returns (more: bool)
      requires WellFormed(t) && IsPrefix(t, p) && Valid() && cur == |choices| - 1
      requires choices == Walk(t, p).trace && IsPrefix(t, choices) && ceils == Ceils(t, choices)
      modifies this
      ensures more ==> Aligned(t) && cur == -1
      ensures Rest(t, p) == [Walk(t, p)] + if more then Rest(t, choices[cur + 1..]) else []
    {
      RoundStep(t, p, Walk(t, p));
      more := Repeat();
      ConcatEmpty([Walk(t, p)]);
      assert more ==> choices[cur + 1..] == choices && ceils[cur + 1..] == ceils;
    }

    /** The explore loop: every run of `t`, each once, in lexicographic order. */
    method Explore<T>(t: Tree<T>) returns (runs: seq<Run<T>>)
      requires WellFormed(t)
      modifies this
      ensures runs == Runs(t)
    {
      Reset();
      runs := [];
      RestOfNothing(t);
      ghost var all := Runs(t);
      ghost var left := all;
      EmptyConcat(left);
      var more := true;
      while more
        invariant more ==> Aligned(t) && cur == -1 && left == Rest(t, choices[cur + 1..])
        invariant runs + left == all && (!more ==> left == [])
        decreases |all| - |runs|, more
      {
        ghost var was, p := left, choices[cur + 1..];
        var value := ExecuteAfresh(t);
        var r := Run(choices, value);
        more := RepeatAfter(t, p);
        left := if more then Rest(t, choices[cur + 1..]) else [];
        assert was == [r] + left;
        Assoc(runs, [r], left);
        runs := runs + [r];
      }
    }
  }

  /* ---- ReplayRandom ---- */

  /** Answering the recorded calls of `t` from the front of `p`: the outcome and what is
      left of `p`, or None when the source's assertion on the next choice fails. */
  function Consume<T>(t: Tree<T>, p: Trace): Option<(T, Trace)> {
    match t
    case Leaf(v) => Some((v, p))
    case Forced(n) => Consume(n, p)
    case Node(cs) =>
      if p != [] && p[0] < |cs| then Consume(cs[p[0]], p[1..]) else None
  }

  /** Replaying a trace that starts with a run reproduces the run and stops behind it. */
  lemma {:induction false} ConsumeRun<T>(t: Tree<T>, r: Run<T>, rest: Trace)
    requires IsRun(t, r.trace, r.value)
    ensures Consume(t, r.trace + rest) == Some((r.value, rest))
  {
    match t
    case Leaf(_) => EmptyConcat(rest);
    case Forced(n) => ConsumeRun(n, r, rest);
    case Node(cs) =>
      assert (r.trace + rest)[1..] == r.trace[1..] + rest;
      ConsumeRun(cs[r.trace[0]], Run(r.trace[1..], r.value), rest);
  }

  class ReplayRandom {
    var choices: Trace
    var cur: nat

    constructor (choices: Trace)
      ensures this.choices == choices && cur == 0
    {
      this.choices, cur := choices, 0;
    }

    method Random(ceil: nat) returns (ok: bool, c: nat)
      requires 0 < ceil <= MAX_CEIL && cur <= |choices|
      modifies this`cur
      ensures cur <= |choices|
      ensures ceil == 1 ==> ok && c == 0 && cur == old(cur)
      ensures ceil > 1 ==> (ok <==> old(cur) < |choices| && choices[old(cur)] < ceil)
      ensures ceil > 1 && ok ==> c == choices[old(cur)] && cur == old(cur) + 1
    {
      if ceil == 1 {
        return true, 0;
      }
      if cur >= |choices| || choices[cur] >= ceil {
        return false, 0;
      }
      cur := cur + 1;
      return true, choices[cur - 1];
    }

    method Repeat() returns (more: bool)
      ensures more <==> cur < |choices|
    {
      return cur < |choices|;
    }

    /** One execution of code whose choice tree is `t`, answered from the trace. */
    method Execute<T>(t: Tree<T>) returns (ok: bool, value: Option<T>)
      requires WellFormed(t) && cur <= |choices|
      modifies this`cur
      ensures cur <= |choices|
      ensures ok <==> old(Consume(t, choices[cur..])).Some?
      ensures ok ==> value.Some? && old(Consume(t, choices[cur..])) == Some((value.value, choices[cur..]))
      decreases t
    {
      match t
      case Leaf(v) => ok, value := true, Some(v);
      case Forced(n) =>
        var c;
        ok, c := Random(1);
        ok, value := Execute(n);
      case Node(cs) =>
        ghost var p := choices[cur..];
        var c;
        ok, c := Random(|cs|);
        if !ok {
          return false, None;
        }
        assert p[1..] == choices[cur..];
        ok, value := Execute(cs[c]);
    }
  }
}
