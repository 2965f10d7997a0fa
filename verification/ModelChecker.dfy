/** Explicit-state search over a test harness: mcl/ModelChecker.C, mcl/StateQueue.h.

    A harness state is what a checkpoint stores. One transition is a choice tree whose
    leaves are the ways it can end. States wait in the queue as a checkpoint number and
    the choices that lead on from it, and are regenerated by replaying those choices. */
module ModelCheckers {
  import opened Basics
  import opened Choices

  type TestState = string

  type Sig = int

  datatype Outcome = Exit(next: TestState) | Bug | Abort | Skip

  datatype Harness = Harness(
    init: TestState,
    step: TestState -> Tree<Outcome>,
    sig: TestState -> Sig,
    shouldCheckpoint: TestState -> bool)

  function StepOf(h: Harness, s: TestState): Tree<Outcome> {
    h.step(s)
  }

  function SigOf(h: Harness, s: TestState): Sig {
    h.sig(s)
  }

  datatype QState = QState(id: nat, start: nat, sig: Sig, trace: Trace)

  datatype Checkpoint = Checkpoint(data: TestState, parentId: nat, trace: Trace)

  /* ---- paths ---- */

  datatype Move = Move(trace: Trace, next: TestState)

  type Path = seq<Move>

  function End(s: TestState, path: Path): TestState {
    if path == [] then s else path[|path| - 1].next
  }

  predicate IsPath(h: Harness, s: TestState, path: Path)
    decreases |path|
  {
    path == [] ||
    (IsRun(StepOf(h, s), path[0].trace, Exit(path[0].next)) && IsPath(h, path[0].next, path[1..]))
  }

  function Flat(path: Path): Trace {
    if path == [] then [] else path[0].trace + Flat(path[1..])
  }

  lemma {:induction false} FlatConcat(a: Path, b: Path)
    ensures Flat(a + b) == Flat(a) + Flat(b)
  {
    if a == [] {
      EmptyConcat(b);
      EmptyConcat(Flat(b));
    } else {
      assert (a + b)[1..] == a[1..] + b;
      FlatConcat(a[1..], b);
      Assoc(a[0].trace, Flat(a[1..]), Flat(b));
    }
  }

  lemma {:induction false} PathConcat(h: Harness, s: TestState, a: Path, b: Path)
    ensures IsPath(h, s, a + b) <==> IsPath(h, s, a) && IsPath(h, End(s, a), b)
    ensures End(s, a + b) == End(End(s, a), b)
    decreases |a|
  {
    if a == [] {
      EmptyConcat(b);
    } else {
      assert (a + b)[1..] == a[1..] + b;
      PathConcat(h, a[0].next, a[1..], b);
    }
  }

  /** A state the harness can get to. */
  ghost predicate Reachable(h: Harness, s: TestState) {
    exists path :: IsPath(h, h.init, path) && End(h.init, path) == s
  }

  lemma PathReachable(h: Harness, path: Path)
    requires IsPath(h, h.init, path)
    ensures Reachable(h, End(h.init, path))
  {
  }

  lemma ReachableOn(h: Harness, s: TestState, m: Move)
    requires Reachable(h, s) && IsRun(StepOf(h, s), m.trace, Exit(m.next))
    ensures Reachable(h, m.next)
  {
    var path :| IsPath(h, h.init, path) && End(h.init, path) == s;
    assert [m][1..] == [];
    assert IsPath(h, s, [m]);
    PathConcat(h, h.init, path, [m]);
    PathReachable(h, path + [m]);
  }

  /* ---- regenerating a state ---- */

  /** The number of moves up to the last one that recorded a choice. */
  function LastRecorded(path: Path): (n: nat)
    ensures n <= |path|
  {
    if path == [] then 0
    else if path[|path| - 1].trace != [] then |path|
    else LastRecorded(path[..|path| - 1])
  }

  lemma {:induction false} FlatSuffix(path: Path, i: nat)
    requires i < |path|
    ensures Flat(path[i..]) == path[i].trace + Flat(path[i + 1..])
  {
    assert path[i..][1..] == path[i + 1..];
  }

  lemma {:induction false} LastRecordedIs(path: Path, i: nat)
    requires i <= |path| && Flat(path[i..]) == []
    requires i > 0 ==> path[i - 1].trace != []
    ensures LastRecorded(path) == i
    decreases |path|
  {
    if i < |path| {
      FlatSnoc(path, i);
      LastRecordedIs(path[..|path| - 1], i);
    }
  }

  /** The choices of a suffix are those of all but its last move, and of that. */
  lemma FlatSnoc(path: Path, i: nat)
    requires i < |path|
    ensures var n := |path| - 1; Flat(path[i..]) == Flat(path[..n][i..]) + path[n].trace
  {
    var n := |path| - 1;
    var last := [path[n]];
    assert path[i..] == path[..n][i..] + last;
    FlatConcat(path[..n][i..], last);
    assert last[1..] == [];
    ConcatEmpty(path[n].trace);
  }

  /** Where replaying the choices of a path leads: moves that recorded no choice are run
      only as far as a later move recorded one. */
  function Regenerated(start: TestState, path: Path): TestState {
    End(start, path[..LastRecorded(path)])
  }

  /** The replay loop: runs transitions until the trace is used up. */
  method Replay(h: Harness, start: TestState, trace: Trace, ghost path: Path)
      returns (test: TestState)
    requires Runnable(h) && Reachable(h, start)
    requires IsPath(h, start, path) && trace == Flat(path) && trace != []
    ensures test == Regenerated(start, path)
  {
    var rand := new ReplayRandom(trace);
    test := start;
    ghost var i := 0;
    assert path[0..] == path && trace[0..] == trace;
    var more := true;
    while more
      invariant rand.choices == trace && rand.cur <= |trace| && i <= |path|
      invariant test == End(start, path[..i]) && IsPath(h, test, path[i..]) && Reachable(h, test)
      invariant trace[rand.cur..] == Flat(path[i..])
      invariant more <==> rand.cur < |trace|
      invariant i > 0 && !more ==> path[i - 1].trace != []
      decreases |path| - i
    {
      FlatSuffix(path, i);
      ReachableOn(h, test, path[i]);
      ConsumeRun(StepOf(h, test), Run(path[i].trace, Exit(path[i].next)), Flat(path[i + 1..]));
      var ok, outcome := rand.Execute(StepOf(h, test));
      test := outcome.value.next;
      i := i + 1;
      assert path[..i][i - 1] == path[i - 1] && path[i - 1..][1..] == path[i..];
      more := rand.Repeat();
    }
    LastRecordedIs(path, i);
  }

  lemma NothingRecorded(path: Path)
    requires Flat(path) == []
    ensures LastRecorded(path) == 0
  {
    assert path[0..] == path;
    LastRecordedIs(path, 0);
  }

  /** How a transition that records no choice ends. */
  function Silent<T>(t: Tree<T>): Option<T> {
    match t
    case Leaf(v) => Some(v)
    case Forced(next) => Silent(next)
    case Node(_) => None
  }

  /** The state after `n` transitions that record no choice. */
  function Coast(h: Harness, s: TestState, n: nat): Option<TestState>
    decreases n
  {
    if n == 0 then Some(s)
    else
      var v := Silent(StepOf(h, s));
      if v.Some? && v.value.Exit? then Coast(h, v.value.next, n - 1) else None
  }

  lemma {:induction false} SilentIs<T>(t: Tree<T>, v: T)
    requires IsRun(t, [], v)
    ensures Silent(t) == Some(v)
  {
    if t.Forced? {
      SilentIs(t.next, v);
    }
  }

  lemma {:induction false} CoastIs(h: Harness, s: TestState, path: Path)
    requires IsPath(h, s, path) && Flat(path) == []
    ensures Coast(h, s, |path|) == Some(End(s, path))
    decreases |path|
  {
    if path != [] {
      SilentIs(StepOf(h, s), Exit(path[0].next));
      CoastIs(h, path[0].next, path[1..]);
    }
  }

  lemma {:induction false} UnrecordedTail(path: Path)
    ensures Flat(path[LastRecorded(path)..]) == []
  {
    var n, k := |path|, LastRecorded(path);
    if k < n {
      UnrecordedTail(path[..n - 1]);
      FlatSnoc(path, k);
    }
  }

  /** Replaying the choices of a path leads to its end exactly when the transitions after
      the last recorded choice lead back to where they begin. */
  lemma RegeneratedExact(h: Harness, start: TestState, path: Path)
    requires IsPath(h, start, path)
    ensures Regenerated(start, path) == End(start, path) <==>
      Coast(h, Regenerated(start, path), |path| - LastRecorded(path)) == Some(Regenerated(start, path))
  {
    var k := LastRecorded(path);
    assert path == path[..k] + path[k..];
    PathConcat(h, start, path[..k], path[k..]);
    UnrecordedTail(path);
    CoastIs(h, Regenerated(start, path), path[k..]);
  }

  /** From "a" one choice leads to "b", and from there nothing is chosen. */
  function Stepper(): Harness {
    Harness("a",
            s => if s == "a" then Node([Leaf(Exit("b")), Leaf(Exit("b"))])
                 else if s == "b" then Leaf(Exit("c")) else Leaf(Skip),
            s => if s == "a" then 0 else if s == "b" then 1 else 2,
            _ => false)
  }

  /** The path to "c" of that harness, whose replay stops in "b". */
  method StopsEarly() returns (path: Path, test: TestState)
    ensures IsPath(Stepper(), "a", path) && Flat(path) == [0]
    ensures test == "b" == Regenerated("a", path) && End("a", path) == "c"
  {
    var h := Stepper();
    path := [Move([0], "b"), Move([], "c")];
    assert path[1..] == [Move([], "c")] && path[1..][1..] == [];
    assert StepOf(h, "a").children[0] == Leaf(Exit("b")) && [0][1..] == [];
    assert IsPath(h, "b", path[1..]);
    assert Flat(path[1..]) == [] + Flat(path[1..][1..]);
    assert Flat(path) == [0] + Flat(path[1..]);
    assert path[..1] == [Move([0], "b")];
    PathReachable(h, []);
    test := Replay(h, "a", [0], path);
  }

  /* ---- the search ---- */

  /** What the search demands of the states a harness can get to: they can be run, their
      transitions record a choice or end in a state with a checkpoint of its own, and those
      with one signature behave alike. */
  ghost predicate Checkable(h: Harness) {
    && Runnable(h)
    && (forall s, tr, next {:trigger Anchored(h, s, tr, next)} :: Anchored(h, s, tr, next))
    && (forall s, t {:trigger Alike(h, s, t)} ::
          Reachable(h, s) && Reachable(h, t) && SigOf(h, s) == SigOf(h, t) ==> Alike(h, s, t))
  }

  ghost predicate Runnable(h: Harness) {
    forall s :: Reachable(h, s) ==> WellFormed(StepOf(h, s))
  }

  ghost predicate Anchored(h: Harness, s: TestState, tr: Trace, next: TestState) {
    Reachable(h, s) && IsRun(StepOf(h, s), tr, Exit(next)) ==> tr != [] || h.shouldCheckpoint(next)
  }

  ghost predicate Matches(h: Harness, a: Outcome, b: Outcome) {
    if a.Exit? then b.Exit? && SigOf(h, a.next) == SigOf(h, b.next) else a == b
  }

  ghost predicate Alike(h: Harness, s: TestState, t: TestState) {
    forall tr, v :: IsRun(StepOf(h, s), tr, v) ==>
      exists w :: IsRun(StepOf(h, t), tr, w) && Matches(h, v, w)
  }

  /** A recorded bug: the choices up to the last state, and those of its buggy transition. */
  datatype BugTrace = BugTrace(before: Trace, last: Trace)

  /** The search so far; `found[id]` is the path on which state number `id` was found. */
  datatype Search = Search(
    found: seq<Path>,
    visited: map<Sig, nat>,
    ckpts: map<nat, Checkpoint>,
    queue: seq<QState>,
    bugs: seq<BugTrace>)

  ghost function StateOf(h: Harness, path: Path): TestState {
    End(h.init, path)
  }

  /** State numbers and signatures of found states determine each other. */
  ghost predicate FoundOk(h: Harness, found: seq<Path>, visited: map<Sig, nat>) {
    && |found| == |visited| > 0 && found[0] == []
    && (forall i :: 0 <= i < |found| ==> IsPath(h, h.init, found[i]))
    && (forall i :: 0 <= i < |found| ==>
          SigOf(h, StateOf(h, found[i])) in visited && visited[SigOf(h, StateOf(h, found[i]))] == i)
    && (forall g {:trigger visited[g]} :: g in visited ==> visited[g] < |found|)
    && (forall g {:trigger visited[g]} :: g in visited ==> SigOf(h, StateOf(h, found[visited[g]])) == g)
  }

  /** `trace` is the choices on the way from `a` to its extension `b`. */
  ghost predicate Extends(a: Path, b: Path, trace: Trace) {
    a <= b && Flat(b[|a|..]) == trace
  }

  /** Checkpoints hold their states; each records the choices from an earlier one. */
  ghost predicate CkptsOk(h: Harness, found: seq<Path>, ckpts: map<nat, Checkpoint>) {
    && 0 in ckpts && ckpts[0].trace == []
    && (forall c :: c in ckpts ==> c < |found|)
    && forall c {:trigger CkptOk(h, found, ckpts, c)} :: c in ckpts ==> CkptOk(h, found, ckpts, c)
  }

  ghost predicate CkptOk(h: Harness, found: seq<Path>, ckpts: map<nat, Checkpoint>, c: nat)
    requires c in ckpts
  {
    && c < |found| && ckpts[c].data == StateOf(h, found[c])
    && (c > 0 ==> ckpts[c].parentId < c && ckpts[c].parentId in ckpts
                  && Extends(found[ckpts[c].parentId], found[c], ckpts[c].trace))
  }

  ghost predicate QStateOk(h: Harness, found: seq<Path>, ckpts: map<nat, Checkpoint>, q: QState) {
    && q.id < |found| && q.sig == SigOf(h, StateOf(h, found[q.id]))
    && q.start in ckpts && q.start < |found| && Extends(found[q.start], found[q.id], q.trace)
  }

  ghost predicate QueueOk(h: Harness, found: seq<Path>, ckpts: map<nat, Checkpoint>, queue: seq<QState>) {
    forall j :: 0 <= j < |queue| ==> QStateOk(h, found, ckpts, queue[j])
  }

  ghost predicate IsBugTrace(h: Harness, b: BugTrace) {
    exists path :: IsPath(h, h.init, path) && Flat(path) == b.before
                   && IsRun(StepOf(h, StateOf(h, path)), b.last, Bug)
  }

  /** Every path but the first is that of an earlier state and one move more. */
  ghost predicate Grown(found: seq<Path>) {
    forall i {:trigger GrownAt(found, i)} :: 0 < i < |found| ==> GrownAt(found, i)
  }

  ghost predicate GrownAt(found: seq<Path>, i: nat) {
    i < |found| && found[i] != [] && exists j :: 0 <= j < i && found[j] == found[i][..|found[i]| - 1]
  }

  lemma GrownSnoc(found: seq<Path>, k: nat, m: Move)
    requires Grown(found) && k < |found|
    ensures Grown(found + [found[k] + [m]])
  {
    var p := found[k] + [m];
    var more := found + [p];
    forall i | 0 < i < |more| ensures GrownAt(more, i) {
      if i < |found| {
        assert GrownAt(found, i);
        var j :| 0 <= j < i && found[j] == found[i][..|found[i]| - 1];
        assert more[j] == more[i][..|more[i]| - 1];
      } else {
        assert p[..|p| - 1] == found[k] == more[k];
      }
    }
  }

  ghost predicate SearchOk(h: Harness, s: Search) {
    && FoundOk(h, s.found, s.visited) && Grown(s.found) && CkptsOk(h, s.found, s.ckpts)
    && QueueOk(h, s.found, s.ckpts, s.queue)
    && forall j :: 0 <= j < |s.bugs| ==> IsBugTrace(h, s.bugs[j])
  }

  ghost predicate InQueue(queue: seq<QState>, id: nat) {
    exists j :: 0 <= j < |queue| && queue[j].id == id
  }

  /** An outcome at the given depth has been dealt with: a successor is visited, at most
      one level further down when the search is breadth-first, and a bug is reported. */
  ghost predicate Covered(h: Harness, v: Outcome, depth: nat, s: Search, bfs: bool) {
    && (v.Exit? ==> SigOf(h, v.next) in s.visited && s.visited[SigOf(h, v.next)] < |s.found|)
    && (v.Exit? && bfs ==> |s.found[s.visited[SigOf(h, v.next)]]| <= depth + 1)
    && (v.Bug? ==> s.bugs != [])
  }

  /** State number `i` has taken all its transitions. */
  ghost predicate Expanded(h: Harness, i: nat, s: Search, bfs: bool)
    requires i < |s.found|
  {
    forall tr, v :: IsRun(StepOf(h, StateOf(h, s.found[i])), tr, v) ==>
      Covered(h, v, |s.found[i]|, s, bfs)
  }

  /** Every found state is expanded or still queued. */
  ghost predicate Closed(h: Harness, s: Search, bfs: bool) {
    forall i :: 0 <= i < |s.found| && !InQueue(s.queue, i) ==> Expanded(h, i, s, bfs)
  }

  /* ---- what a finished search means ---- */

  /** If the queue is empty then every path from the initial state ends in a visited
      signature, and breadth-first search found it on a path no longer than that. */
  lemma {:induction false} FinishedCovers(h: Harness, s: Search, bfs: bool, path: Path)
    requires Checkable(h) && SearchOk(h, s) && Closed(h, s, bfs) && s.queue == []
    requires IsPath(h, h.init, path)
    ensures SigOf(h, StateOf(h, path)) in s.visited
    ensures bfs ==> |s.found[s.visited[SigOf(h, StateOf(h, path))]]| <= |path|
    decreases |path|
  {
    if path == [] {
      assert StateOf(h, s.found[0]) == h.init;
    } else {
      var n := |path| - 1;
      assert path == path[..n] + [path[n]];
      PathConcat(h, h.init, path[..n], [path[n]]);
      FinishedCovers(h, s, bfs, path[..n]);
      PathReachable(h, path[..n]);
      var i, w := Simulated(h, s, bfs, StateOf(h, path[..n]), path[n].trace, Exit(path[n].next));
    }
  }

  /** The found state with the signature of `t` has taken the same transition. */
  lemma Simulated(h: Harness, s: Search, bfs: bool, t: TestState, tr: Trace, v: Outcome)
      returns (i: nat, w: Outcome)
    requires Checkable(h) && SearchOk(h, s) && Closed(h, s, bfs) && s.queue == []
    requires Reachable(h, t) && SigOf(h, t) in s.visited && IsRun(StepOf(h, t), tr, v)
    ensures i == s.visited[SigOf(h, t)] < |s.found| && Matches(h, v, w)
    ensures Covered(h, w, |s.found[i]|, s, bfs)
  {
    i := s.visited[SigOf(h, t)];
    PathReachable(h, s.found[i]);
    w := AlikeOutcome(h, t, StateOf(h, s.found[i]), tr, v);
    assert Expanded(h, i, s, bfs);
  }

  lemma AlikeOutcome(h: Harness, s: TestState, t: TestState, tr: Trace, v: Outcome)
      returns (w: Outcome)
    requires Checkable(h) && Reachable(h, s) && Reachable(h, t)
    requires SigOf(h, s) == SigOf(h, t) && IsRun(StepOf(h, s), tr, v)
    ensures IsRun(StepOf(h, t), tr, w) && Matches(h, v, w)
  {
    assert Alike(h, s, t);
    w :| IsRun(StepOf(h, t), tr, w) && Matches(h, v, w);
  }

  /** A bug anywhere in the reachable states has been reported. */
  lemma FinishedFindsBugs(h: Harness, s: Search, bfs: bool, path: Path, tr: Trace)
    requires Checkable(h) && SearchOk(h, s) && Closed(h, s, bfs) && s.queue == []
    requires IsPath(h, h.init, path) && IsRun(StepOf(h, StateOf(h, path)), tr, Bug)
    ensures s.bugs != []
  {
    FinishedCovers(h, s, bfs, path);
    PathReachable(h, path);
    var i, w := Simulated(h, s, bfs, StateOf(h, path), tr, Bug);
  }

  /* ---- growth of the search ---- */

  /** Nothing found is lost, and every newly found state is queued. */
  ghost predicate Grew(a: Search, b: Search) {
    && a.found <= b.found && a.bugs <= b.bugs
    && (forall g :: g in a.visited ==> g in b.visited && b.visited[g] == a.visited[g])
    && (forall i :: InQueue(a.queue, i) ==> InQueue(b.queue, i))
    && (forall i :: |a.found| <= i < |b.found| ==> InQueue(b.queue, i))
    && |b.queue| - |a.queue| == |b.found| - |a.found|
  }

  lemma GrewTransitive(a: Search, b: Search, c: Search)
    requires Grew(a, b) && Grew(b, c)
    ensures Grew(a, c)
  {
  }

  lemma CoveredGrew(h: Harness, v: Outcome, depth: nat, a: Search, b: Search, bfs: bool)
    requires Covered(h, v, depth, a, bfs) && Grew(a, b)
    ensures Covered(h, v, depth, b, bfs)
  {
  }

  ghost predicate AllCovered(h: Harness, runs: seq<Run<Outcome>>, depth: nat, s: Search, bfs: bool) {
    forall i :: 0 <= i < |runs| ==> Covered(h, runs[i].value, depth, s, bfs)
  }

  lemma AllCoveredGrew(h: Harness, runs: seq<Run<Outcome>>, depth: nat, a: Search, b: Search, bfs: bool)
    requires runs != [] && Grew(a, b) && AllCovered(h, runs[..|runs| - 1], depth, a, bfs)
    requires Covered(h, runs[|runs| - 1].value, depth, b, bfs)
    ensures AllCovered(h, runs, depth, b, bfs)
  {
    var n := |runs| - 1;
    forall i | 0 <= i < n ensures Covered(h, runs[i].value, depth, b, bfs) {
      assert runs[i] == runs[..n][i];
      CoveredGrew(h, runs[i].value, depth, a, b, bfs);
    }
  }

  lemma ExpandedGrew(h: Harness, i: nat, a: Search, b: Search, bfs: bool)
    requires i < |a.found| && Expanded(h, i, a, bfs) && Grew(a, b)
    ensures Expanded(h, i, b, bfs)
  {
    forall tr, v | IsRun(StepOf(h, StateOf(h, b.found[i])), tr, v)
      ensures Covered(h, v, |b.found[i]|, b, bfs)
    {
      CoveredGrew(h, v, |a.found[i]|, a, b, bfs);
    }
  }

  /** Breadth first: while state `k` is expanded the states after it wait in order, found
      at depths that never go down and never exceed that of `k` by more than one. */
  ghost predicate LevelOrder(k: nat, s: Search) {
    && |s.found| == k + 1 + |s.queue|
    && (forall j :: 0 <= j < |s.queue| ==> s.queue[j].id == k + 1 + j)
    && (forall i, j :: 0 <= i < j < |s.found| ==> |s.found[i]| <= |s.found[j]|)
    && (forall i :: 0 <= i < |s.found| ==> |s.found[i]| <= |s.found[k]| + 1)
  }

  /* ---- finding a state ---- */

  function Push(queue: seq<QState>, q: QState, bfs: bool): seq<QState> {
    if bfs then queue + [q] else [q] + queue
  }

  /** What an exit into state `next` does, from the queued state `parent` by `choices`. */
  ghost function Discover(h: Harness, s: Search, bfs: bool, parent: QState, choices: Trace,
                          next: TestState): Search
    requires parent.id < |s.found|
  {
    var sig, id := SigOf(h, next), |s.visited|;
    if sig in s.visited then s
    else if h.shouldCheckpoint(next) then
      s.(found := s.found + [s.found[parent.id] + [Move(choices, next)]],
         visited := s.visited[sig := id],
         ckpts := s.ckpts[id := Checkpoint(next, parent.start, parent.trace + choices)],
         queue := Push(s.queue, QState(id, id, sig, []), bfs))
    else
      s.(found := s.found + [s.found[parent.id] + [Move(choices, next)]],
         visited := s.visited[sig := id],
         queue := Push(s.queue, QState(id, parent.start, sig, parent.trace + choices), bfs))
  }

  lemma FoundSnoc(h: Harness, found: seq<Path>, visited: map<Sig, nat>, p: Path)
    requires FoundOk(h, found, visited) && IsPath(h, h.init, p)
    requires SigOf(h, StateOf(h, p)) !in visited
    ensures FoundOk(h, found + [p], visited[SigOf(h, StateOf(h, p)) := |visited|])
  {
    var g := SigOf(h, StateOf(h, p));
    var visited' := visited[g := |visited|];
    assert visited'.Keys == visited.Keys + {g};
    assert |visited'.Keys| == |visited.Keys| + 1;
  }

  lemma FoundMore(h: Harness, found: seq<Path>, ckpts: map<nat, Checkpoint>, queue: seq<QState>, p: Path)
    requires CkptsOk(h, found, ckpts) && QueueOk(h, found, ckpts, queue)
    ensures CkptsOk(h, found + [p], ckpts) && QueueOk(h, found + [p], ckpts, queue)
  {
    assert forall i :: 0 <= i < |found| ==> (found + [p])[i] == found[i];
    forall c | c in ckpts ensures CkptOk(h, found + [p], ckpts, c) {
      assert CkptOk(h, found, ckpts, c);
    }
  }

  lemma CheckpointMore(h: Harness, found: seq<Path>, ckpts: map<nat, Checkpoint>, queue: seq<QState>,
                       c: Checkpoint)
    requires CkptsOk(h, found, ckpts) && QueueOk(h, found, ckpts, queue)
    requires |found| > 1 && |found| - 1 !in ckpts
    requires c.data == StateOf(h, found[|found| - 1])
    requires c.parentId in ckpts && c.parentId < |found| - 1
    requires Extends(found[c.parentId], found[|found| - 1], c.trace)
    ensures CkptsOk(h, found, ckpts[|found| - 1 := c])
    ensures QueueOk(h, found, ckpts[|found| - 1 := c], queue)
  {
    var ckpts' := ckpts[|found| - 1 := c];
    forall k | k in ckpts' ensures CkptOk(h, found, ckpts', k) {
      if k in ckpts {
        assert CkptOk(h, found, ckpts, k);
      }
    }
  }

  lemma QueuePush(h: Harness, found: seq<Path>, ckpts: map<nat, Checkpoint>, queue: seq<QState>,
                  q: QState, bfs: bool)
    requires QueueOk(h, found, ckpts, queue) && QStateOk(h, found, ckpts, q)
    ensures QueueOk(h, found, ckpts, Push(queue, q, bfs))
  {
  }

  ghost predicate Taken(h: Harness, s: Search, parent: QState, choices: Trace, v: Outcome) {
    && QStateOk(h, s.found, s.ckpts, parent)
    && IsRun(StepOf(h, StateOf(h, s.found[parent.id])), choices, v)
  }

  /** A new path behind that of `parent`: everything but its queue entry. */
  lemma DiscoverPath(h: Harness, s: Search, parent: QState, m: Move)
    requires SearchOk(h, s) && Taken(h, s, parent, m.trace, Exit(m.next))
    requires SigOf(h, m.next) !in s.visited
    ensures var p := s.found[parent.id] + [m];
            && StateOf(h, p) == m.next
            && FoundOk(h, s.found + [p], s.visited[SigOf(h, m.next) := |s.visited|])
            && CkptsOk(h, s.found + [p], s.ckpts)
            && QueueOk(h, s.found + [p], s.ckpts, s.queue + [parent])
            && Extends(s.found[parent.start], p, parent.trace + m.trace)
  {
    var p := s.found[parent.id] + [m];
    PathConcat(h, h.init, s.found[parent.id], [m]);
    FoundSnoc(h, s.found, s.visited, p);
    FoundMore(h, s.found, s.ckpts, s.queue + [parent], p);
    ExtendsSnoc(s.found[parent.start], s.found[parent.id], parent.trace, m);
  }

  lemma QueueSplit(h: Harness, found: seq<Path>, ckpts: map<nat, Checkpoint>, queue: seq<QState>, q: QState)
    requires QueueOk(h, found, ckpts, queue + [q])
    ensures QueueOk(h, found, ckpts, queue) && QStateOk(h, found, ckpts, q)
  {
    assert (queue + [q])[|queue|] == q;
    assert forall j :: 0 <= j < |queue| ==> (queue + [q])[j] == queue[j];
  }

  lemma DiscoverOk(h: Harness, s: Search, bfs: bool, parent: QState, choices: Trace, next: TestState)
    requires SearchOk(h, s) && Taken(h, s, parent, choices, Exit(next))
    ensures var t := Discover(h, s, bfs, parent, choices, next);
            SearchOk(h, t) && QStateOk(h, t.found, t.ckpts, parent)
  {
    if SigOf(h, next) !in s.visited {
      var m, sig, id := Move(choices, next), SigOf(h, next), |s.found|;
      var path := s.found[parent.id] + [m];
      var found := s.found + [path];
      DiscoverPath(h, s, parent, m);
      GrownSnoc(s.found, parent.id, m);
      if h.shouldCheckpoint(next) {
        var ckpt := Checkpoint(next, parent.start, parent.trace + choices);
        CheckpointMore(h, found, s.ckpts, s.queue + [parent], ckpt);
        QueueSplit(h, found, s.ckpts[id := ckpt], s.queue, parent);
        assert path[|path|..] == [];
        QueuePush(h, found, s.ckpts[id := ckpt], s.queue, QState(id, id, sig, []), bfs);
      } else {
        QueueSplit(h, found, s.ckpts, s.queue, parent);
        QueuePush(h, found, s.ckpts, s.queue, QState(id, parent.start, sig, parent.trace + choices), bfs);
      }
    }
  }

  lemma RegenerableMore(found: seq<Path>, p: Path, q: QState)
    requires Regenerable(found, q)
    ensures Regenerable(found + [p], q)
  {
  }

  lemma ReplayablePush(s: Search, p: Path, q: QState, bfs: bool, t: Search)
    requires Replayable(s) && Regenerable(s.found + [p], q)
    requires t.found == s.found + [p] && t.queue == Push(s.queue, q, bfs)
    ensures Replayable(t)
  {
    forall j | 0 <= j < |t.queue| ensures Regenerable(t.found, t.queue[j]) {
      var k := if bfs then j else j - 1;
      if 0 <= k < |s.queue| {
        assert Regenerable(s.found, s.queue[k]);
        RegenerableMore(s.found, p, s.queue[k]);
      }
    }
  }

  /** States that are found by a move without a choice are checkpointed. */
  lemma DiscoverReplayable(h: Harness, s: Search, bfs: bool, parent: QState, choices: Trace, next: TestState)
    requires |s.found| == |s.visited| && parent.id < |s.found| && Replayable(s) && Regenerable(s.found, parent)
    requires choices != [] || h.shouldCheckpoint(next)
    ensures var t := Discover(h, s, bfs, parent, choices, next);
            Replayable(t) && Regenerable(t.found, parent)
  {
    var t := Discover(h, s, bfs, parent, choices, next);
    if SigOf(h, next) !in s.visited {
      var p := s.found[parent.id] + [Move(choices, next)];
      var id, sig := |s.visited|, SigOf(h, next);
      var q := if h.shouldCheckpoint(next) then QState(id, id, sig, [])
               else QState(id, parent.start, sig, parent.trace + choices);
      RegenerableMore(s.found, p, parent);
      ReplayablePush(s, p, q, bfs, t);
    }
  }

  lemma DiscoverGrows(h: Harness, s: Search, bfs: bool, parent: QState, choices: Trace, next: TestState)
    requires FoundOk(h, s.found, s.visited) && parent.id < |s.found|
    ensures Grew(s, Discover(h, s, bfs, parent, choices, next))
  {
    var t := Discover(h, s, bfs, parent, choices, next);
    if SigOf(h, next) !in s.visited {
      PushContains(s.queue, t.queue[if bfs then |s.queue| else 0], bfs);
    }
  }

  lemma DiscoverCovers(h: Harness, s: Search, bfs: bool, parent: QState, choices: Trace, next: TestState)
    requires FoundOk(h, s.found, s.visited) && parent.id < |s.found|
    requires bfs ==> LevelOrder(parent.id, s)
    ensures var t := Discover(h, s, bfs, parent, choices, next);
            && Covered(h, Exit(next), |s.found[parent.id]|, t, bfs)
            && (bfs ==> LevelOrder(parent.id, t))
  {
  }

  lemma PushContains(queue: seq<QState>, q: QState, bfs: bool)
    ensures forall i :: InQueue(Push(queue, q, bfs), i) <==> InQueue(queue, i) || i == q.id
  {
    var pushed := Push(queue, q, bfs);
    forall i ensures InQueue(pushed, i) <==> InQueue(queue, i) || i == q.id {
      if InQueue(queue, i) {
        var j :| 0 <= j < |queue| && queue[j].id == i;
        assert pushed[if bfs then j else j + 1].id == i;
      }
      if i == q.id {
        assert pushed[if bfs then |queue| else 0].id == i;
      }
    }
  }

  /** What an outcome does to the search. */
  ghost function Process(h: Harness, s: Search, bfs: bool, parent: QState, r: Run<Outcome>): Search
    requires parent.id < |s.found|
  {
    match r.value
    case Exit(next) => Discover(h, s, bfs, parent, r.trace, next)
    case Bug => s.(bugs := s.bugs + [BugTrace(Flat(s.found[parent.id]), r.trace)])
    case Abort => s
    case Skip => s
  }

  /** The state `parent` can be expanded in search `s`. */
  ghost predicate Ready(h: Harness, s: Search, bfs: bool, parent: QState) {
    && SearchOk(h, s) && QStateOk(h, s.found, s.ckpts, parent)
    && Replayable(s) && Regenerable(s.found, parent)
    && (bfs ==> LevelOrder(parent.id, s))
  }

  lemma ProcessOk(h: Harness, s: Search, bfs: bool, parent: QState, r: Run<Outcome>)
    requires Checkable(h) && Ready(h, s, bfs, parent)
    requires IsRun(StepOf(h, StateOf(h, s.found[parent.id])), r.trace, r.value)
    ensures Ready(h, Process(h, s, bfs, parent, r), bfs, parent)
  {
    if r.value.Exit? {
      PathReachable(h, s.found[parent.id]);
      assert Anchored(h, StateOf(h, s.found[parent.id]), r.trace, r.value.next);
      DiscoverOk(h, s, bfs, parent, r.trace, r.value.next);
      DiscoverReplayable(h, s, bfs, parent, r.trace, r.value.next);
      DiscoverCovers(h, s, bfs, parent, r.trace, r.value.next);
    } else if r.value.Bug? {
      assert IsBugTrace(h, BugTrace(Flat(s.found[parent.id]), r.trace));
    }
  }

  lemma ProcessGrows(h: Harness, s: Search, bfs: bool, parent: QState, r: Run<Outcome>)
    requires Ready(h, s, bfs, parent)
    ensures Grew(s, Process(h, s, bfs, parent, r))
    ensures Covered(h, r.value, |s.found[parent.id]|, Process(h, s, bfs, parent, r), bfs)
  {
    if r.value.Exit? {
      DiscoverGrows(h, s, bfs, parent, r.trace, r.value.next);
      DiscoverCovers(h, s, bfs, parent, r.trace, r.value.next);
    }
  }

  ghost predicate AreRuns(h: Harness, s: TestState, runs: seq<Run<Outcome>>) {
    forall i :: 0 <= i < |runs| ==> IsRun(StepOf(h, s), runs[i].trace, runs[i].value)
  }

  /** The outcomes of several runs, one after the other. */
  ghost function ProcessAll(h: Harness, s: Search, bfs: bool, parent: QState, runs: seq<Run<Outcome>>)
      : (t: Search)
    requires parent.id < |s.found|
    ensures s.found <= t.found
    decreases |runs|
  {
    if runs == [] then s
    else Process(h, ProcessAll(h, s, bfs, parent, runs[..|runs| - 1]), bfs, parent, runs[|runs| - 1])
  }

  lemma {:induction false} ProcessAllReady(h: Harness, s: Search, bfs: bool, parent: QState,
                                           runs: seq<Run<Outcome>>)
    requires Checkable(h) && Ready(h, s, bfs, parent) && AreRuns(h, StateOf(h, s.found[parent.id]), runs)
    ensures Ready(h, ProcessAll(h, s, bfs, parent, runs), bfs, parent)
    decreases |runs|
  {
    if runs != [] {
      var n := |runs| - 1;
      ProcessAllReady(h, s, bfs, parent, runs[..n]);
      ProcessOk(h, ProcessAll(h, s, bfs, parent, runs[..n]), bfs, parent, runs[n]);
    }
  }

  lemma {:induction false} ProcessAllCovers(h: Harness, s: Search, bfs: bool, parent: QState,
                                            runs: seq<Run<Outcome>>)
    requires Checkable(h) && Ready(h, s, bfs, parent) && AreRuns(h, StateOf(h, s.found[parent.id]), runs)
    ensures var t := ProcessAll(h, s, bfs, parent, runs);
            && Grew(s, t)
            && AllCovered(h, runs, |s.found[parent.id]|, t, bfs)
    decreases |runs|
  {
    if runs != [] {
      var n := |runs| - 1;
      ProcessAllCovers(h, s, bfs, parent, runs[..n]);
      ProcessAllReady(h, s, bfs, parent, runs[..n]);
      var u, t := ProcessAll(h, s, bfs, parent, runs[..n]), ProcessAll(h, s, bfs, parent, runs);
      ProcessGrows(h, u, bfs, parent, runs[n]);
      GrewTransitive(s, u, t);
      AllCoveredGrew(h, runs, |s.found[parent.id]|, u, t, bfs);
    }
  }

  /** Processing all runs of its transition expands a state. */
  lemma AllRunsExpand(h: Harness, s: Search, bfs: bool, parent: QState, runs: seq<Run<Outcome>>)
    requires Checkable(h) && Ready(h, s, bfs, parent)
    requires runs == Runs(StepOf(h, StateOf(h, s.found[parent.id])))
    ensures AreRuns(h, StateOf(h, s.found[parent.id]), runs)
    ensures Grew(s, ProcessAll(h, s, bfs, parent, runs))
    ensures Expanded(h, parent.id, ProcessAll(h, s, bfs, parent, runs), bfs)
  {
    var tree := StepOf(h, StateOf(h, s.found[parent.id]));
    PathReachable(h, s.found[parent.id]);
    forall i | 0 <= i < |runs| ensures IsRun(tree, runs[i].trace, runs[i].value) {
      RunsExact(tree, runs[i]);
    }
    ProcessAllCovers(h, s, bfs, parent, runs);
    var t := ProcessAll(h, s, bfs, parent, runs);
    forall tr, v | IsRun(StepOf(h, StateOf(h, t.found[parent.id])), tr, v)
      ensures Covered(h, v, |t.found[parent.id]|, t, bfs)
    {
      RunsExact(tree, Run(tr, v));
      var i :| 0 <= i < |runs| && runs[i] == Run(tr, v);
    }
  }

  /* ---- stored traces ---- */

  lemma ExtendsFlat(a: Path, b: Path, trace: Trace)
    requires Extends(a, b, trace)
    ensures Flat(b) == Flat(a) + trace
  {
    assert b == a + b[|a|..];
    FlatConcat(a, b[|a|..]);
  }

  lemma ExtendsSnoc(a: Path, b: Path, trace: Trace, m: Move)
    requires Extends(a, b, trace)
    ensures Extends(a, b + [m], trace + m.trace) && Extends(b, b + [m], m.trace)
  {
    assert (b + [m])[|a|..] == b[|a|..] + [m] && (b + [m])[|b|..] == [m];
    FlatConcat(b[|a|..], [m]);
    assert Flat([m]) == m.trace + Flat([m][1..]) && Flat([m][1..]) == [];
  }

  ghost predicate ChainOk(ckpts: map<nat, Checkpoint>) {
    && 0 in ckpts
    && forall k {:trigger ckpts[k].parentId} :: k in ckpts && k > 0 ==>
         ckpts[k].parentId < k && ckpts[k].parentId in ckpts
  }

  /** The choices along the parent chain of checkpoint `c`. */
  ghost function ChainTrace(ckpts: map<nat, Checkpoint>, c: nat): Trace
    requires ChainOk(ckpts) && c in ckpts
  {
    if c == 0 then ckpts[0].trace
    else ChainTrace(ckpts, ckpts[c].parentId) + ckpts[c].trace
  }

  lemma {:induction false} ChainTraceIsPath(h: Harness, found: seq<Path>, ckpts: map<nat, Checkpoint>, c: nat)
    requires CkptsOk(h, found, ckpts) && |found| > 0 && found[0] == [] && c in ckpts
    ensures ChainOk(ckpts) && ChainTrace(ckpts, c) == Flat(found[c])
  {
    assert CkptOk(h, found, ckpts, c);
    forall k | k in ckpts && k > 0 ensures ckpts[k].parentId < k && ckpts[k].parentId in ckpts {
      assert CkptOk(h, found, ckpts, k);
    }
    if c > 0 {
      var p := ckpts[c].parentId;
      ChainTraceIsPath(h, found, ckpts, p);
      ExtendsFlat(found[p], found[c], ckpts[c].trace);
    }
  }

  ghost function Traces(ckpts: map<nat, Checkpoint>, ids: seq<nat>): Trace
    requires forall j :: 0 <= j < |ids| ==> ids[j] in ckpts
  {
    if ids == [] then [] else ckpts[ids[0]].trace + Traces(ckpts, ids[1..])
  }

  /** The checkpoints from number 0 to `start`, by walking up the parent chain. */
  method Chain(ckpts: map<nat, Checkpoint>, start: nat) returns (ids: seq<nat>)
    requires ChainOk(ckpts) && start in ckpts
    ensures forall j :: 0 <= j < |ids| ==> ids[j] in ckpts
    ensures Traces(ckpts, ids) == ChainTrace(ckpts, start)
  {
    ids := [];
    var id := start;
    while id != 0
      invariant id in ckpts && (forall j :: 0 <= j < |ids| ==> ids[j] in ckpts)
      invariant ChainTrace(ckpts, start) == ChainTrace(ckpts, id) + Traces(ckpts, ids)
    {
      Assoc(ChainTrace(ckpts, ckpts[id].parentId), ckpts[id].trace, Traces(ckpts, ids));
      assert ([id] + ids)[1..] == ids;
      ids := [id] + ids;
      id := ckpts[id].parentId;
    }
    assert ([0] + ids)[1..] == ids;
    ids := [0] + ids;
  }

  /** The choices of the parent chain, then those since the last checkpoint: a stored
      trace is the choices of a path from the initial state. */
  method StoredTrace(h: Harness, ckpts: map<nat, Checkpoint>, q: QState, ghost found: seq<Path>)
      returns (trace: Trace)
    requires CkptsOk(h, found, ckpts) && |found| > 0 && found[0] == [] && QStateOk(h, found, ckpts, q)
    ensures trace == Flat(found[q.id])
  {
    ChainTraceIsPath(h, found, ckpts, q.start);
    var ids := Chain(ckpts, q.start);
    trace := [];
    ghost var all := Traces(ckpts, ids);
    EmptyConcat(all);
    assert ids[0..] == ids;
    for i := 0 to |ids|
      invariant all == trace + Traces(ckpts, ids[i..])
    {
      Assoc(trace, ckpts[ids[i]].trace, Traces(ckpts, ids[i + 1..]));
      assert ids[i..][1..] == ids[i + 1..];
      trace := trace + ckpts[ids[i]].trace;
    }
    assert trace + [] == trace;
    trace := trace + q.trace;
    ExtendsFlat(found[q.start], found[q.id], q.trace);
  }

  /* ---- regenerating found states ---- */

  /** The state has a checkpoint of its own, or its last move recorded a choice. */
  ghost predicate Regenerable(found: seq<Path>, q: QState) {
    q.id < |found| && (q.start == q.id || (found[q.id] != [] && found[q.id][|found[q.id]| - 1].trace != []))
  }

  ghost predicate Replayable(s: Search) {
    forall j {:trigger Regenerable(s.found, s.queue[j])} :: 0 <= j < |s.queue| ==> Regenerable(s.found, s.queue[j])
  }

  lemma {:induction false} PrefixFound(found: seq<Path>, i: nat, n: nat) returns (j: nat)
    requires Grown(found) && i < |found| && n <= |found[i]| && found[0] == []
    ensures j < |found| && found[j] == found[i][..n]
    decreases i
  {
    j := i;
    if n == |found[i]| {
      assert found[i][..n] == found[i];
    } else {
      assert GrownAt(found, i);
      var k :| 0 <= k < i && found[k] == found[i][..|found[i]| - 1];
      j := PrefixFound(found, k, n);
      assert found[k][..n] == found[i][..n];
    }
  }

  /** The states along the path of a found state have other signatures. */
  lemma OtherAlong(h: Harness, s: Search, i: nat, n: nat)
    requires SearchOk(h, s) && i < |s.found| && n < |s.found[i]|
    ensures SigOf(h, StateOf(h, s.found[i][..n])) != SigOf(h, StateOf(h, s.found[i]))
  {
    var j := PrefixFound(s.found, i, n);
  }

  /** Where the choices kept with a found state lead. */
  ghost function Kept(h: Harness, found: seq<Path>, q: QState): TestState
    requires q.id < |found| && q.start < |found| && found[q.start] <= found[q.id]
  {
    Regenerated(StateOf(h, found[q.start]), found[q.id][|found[q.start]|..])
  }

  /** They lead to the state that is so many moves along its path. */
  lemma KeptIs(h: Harness, found: seq<Path>, q: QState, k: nat)
    requires q.id < |found| && q.start < |found| && found[q.start] <= found[q.id]
    requires k == LastRecorded(found[q.id][|found[q.start]|..])
    ensures Kept(h, found, q) == StateOf(h, found[q.id][..|found[q.start]| + k])
  {
    var from, to := found[q.start], found[q.id];
    var path := to[|from|..];
    assert to[..|from| + k] == from + path[..k];
    PathConcat(h, h.init, from, path[..k]);
  }

  /** The last move was recorded exactly when none is left out. */
  lemma LastRecordedAll(path: Path)
    ensures LastRecorded(path) == |path| <==> path == [] || path[|path| - 1].trace != []
  {
  }

  lemma LastOfSuffix<T>(from: seq<T>, to: seq<T>)
    requires from <= to && to != from
    ensures to[|from|..] != [] && to[|to| - 1] == to[|from|..][|to[|from|..]| - 1]
  {
  }

  /** The choices kept with a found state lead to it exactly when it is checkpointed or its
      last move recorded a choice; else they lead to a state with another signature. */
  lemma KeptChoicesExact(h: Harness, s: Search, q: QState)
    requires SearchOk(h, s) && QStateOk(h, s.found, s.ckpts, q)
    ensures Kept(h, s.found, q) == StateOf(h, s.found[q.id]) <==> Regenerable(s.found, q)
    ensures SigOf(h, Kept(h, s.found, q)) == SigOf(h, StateOf(h, s.found[q.id])) <==> Regenerable(s.found, q)
  {
    var from, to := s.found[q.start], s.found[q.id];
    var path := to[|from|..];
    var k := LastRecorded(path);
    KeptIs(h, s.found, q, k);
    LastRecordedAll(path);
    if to == from {
      SameState(h, s, q.start, q.id);
      assert to[..|to|] == to;
    } else {
      LastOfSuffix(from, to);
      if k == |path| {
        assert to[..|to|] == to;
      } else {
        OtherAlong(h, s, q.id, |from| + k);
      }
    }
  }

  lemma SameState(h: Harness, s: Search, i: nat, j: nat)
    requires SearchOk(h, s) && i < |s.found| && j < |s.found| && s.found[i] == s.found[j]
    ensures i == j
  {
    assert SigOf(h, StateOf(h, s.found[i])) == SigOf(h, StateOf(h, s.found[j]));
  }

  /* ---- the model checker ---- */

  class ModelChecker {
    const h: Harness
    const bfs: bool
    var queue: seq<QState>
    var visited: map<Sig, nat>
    var ckpts: map<nat, Checkpoint>
    /** The current state of the checked system. */
    var test: TestState
    var bugs: seq<BugTrace>
    ghost var found: seq<Path>

    constructor (h: Harness, bfs: bool)
      ensures this.h == h && this.bfs == bfs
    {
      this.h, this.bfs := h, bfs;
      queue, visited, ckpts, bugs, found, test := [], map[], map[], [], [], h.init;
    }

    ghost function Current(): Search
      reads this
    {
      Search(found, visited, ckpts, queue, bugs)
    }

    /** Restores the checkpoint and replays the choices made since. That gives the state
        exactly when it is checkpointed or its last move recorded a choice. */
    method SetState(q: QState)
      requires Runnable(h) && SearchOk(h, Current()) && QStateOk(h, found, ckpts, q)
      modifies this`test
      ensures test == Kept(h, found, q)
      ensures test == StateOf(h, found[q.id]) <==> Regenerable(found, q)
    {
      ghost var from, to := found[q.start], found[q.id];
      ghost var path := to[|from|..];
      assert to == from + path;
      PathConcat(h, h.init, from, path);
      assert CkptOk(h, found, ckpts, q.start);
      test := ckpts[q.start].data;
      if |q.trace| > 0 {
        test := Replay(h, test, q.trace, path);
      } else {
        NothingRecorded(path);
      }
      KeptChoicesExact(h, Current(), q);
    }

    /** A new state for the current system, unless its signature has been seen; pushed. */
    method GetState(parent: QState, choices: Trace)
      requires parent.id < |found| && |found| == |visited|
      modifies this`visited, this`ckpts, this`queue, this`found
      ensures Current() == Discover(h, old(Current()), bfs, parent, choices, test)
    {
      var sig := h.sig(test);
      if sig in visited {
        return;
      }
      var id := |visited|;
      found := found + [found[parent.id] + [Move(choices, test)]];
      visited := visited[sig := id];
      var q := QState(id, 0, sig, []);
      if h.shouldCheckpoint(test) {
        ckpts := ckpts[id := Checkpoint(test, parent.start, parent.trace + choices)];
        q := q.(start := id);
      } else {
        q := q.(start := parent.start, trace := parent.trace + choices);
      }
      queue := if bfs then queue + [q] else [q] + queue;
    }

    /** What a finished transition means: a new state, a reported bug, or nothing. */
    method ProcessReturn(parent: QState, choices: Trace, v: Outcome)
      requires Ready(h, Current(), bfs, parent)
      modifies this
      ensures Current() == Process(h, old(Current()), bfs, parent, Run(choices, v))
    {
      match v
      case Exit(next) =>
        test := next;
        GetState(parent, choices);
      case Bug =>
        var trace := StoredTrace(h, ckpts, parent, found);
        bugs := bugs + [BugTrace(trace, choices)];
      case Abort =>
      case Skip =>
    }

    /** Regenerates a state that is ready to be expanded, and runs its transition. */
    method RunTransition(curr: QState, rand: EnumRandom, ghost tree: Tree<Outcome>) returns (v: Outcome)
      requires Runnable(h) && Ready(h, Current(), bfs, curr)
      requires tree == StepOf(h, StateOf(h, found[curr.id])) && rand.Aligned(tree) && rand.cur == -1
      modifies this`test, rand
      ensures Current() == old(Current()) && rand.Valid() && rand.cur == |rand.choices| - 1
      ensures Run(rand.choices, v) == old(Walk(tree, rand.choices[rand.cur + 1..]))
      ensures IsPrefix(tree, rand.choices) && rand.ceils == Ceils(tree, rand.choices)
    {
      SetState(curr);
      v := rand.ExecuteAfresh(h.step(test));
    }

    /** One round: regenerate the state, run the transition, deal with its outcome. */
    method Transition(curr: QState, rand: EnumRandom, ghost tree: Tree<Outcome>)
        returns (more: bool, ghost r: Run<Outcome>)
      requires Checkable(h) && Ready(h, Current(), bfs, curr)
      requires tree == StepOf(h, StateOf(h, found[curr.id])) && rand.Aligned(tree) && rand.cur == -1
      modifies this, rand
      ensures r == old(Walk(tree, rand.choices[rand.cur + 1..]))
      ensures Current() == Process(h, old(Current()), bfs, curr, r)
      ensures more ==> rand.Aligned(tree) && rand.cur == -1
      ensures old(Rest(tree, rand.choices[rand.cur + 1..]))
           == [r] + if more then Rest(tree, rand.choices[rand.cur + 1..]) else []
    {
      ghost var p := rand.choices[rand.cur + 1..];
      r := Walk(tree, p);
      var v := RunTransition(curr, rand, tree);
      ProcessReturn(curr, rand.choices, v);
      more := rand.RepeatAfter(tree, p);
    }

    /** One round, as a step of dealing with all runs of the transition. */
    method NextRun(curr: QState, rand: EnumRandom, ghost tree: Tree<Outcome>, ghost before: Search,
                   ghost done: seq<Run<Outcome>>, ghost left: seq<Run<Outcome>>)
        returns (more: bool, ghost r: Run<Outcome>, ghost left': seq<Run<Outcome>>)
      requires Checkable(h) && Ready(h, Current(), bfs, curr) && curr.id < |before.found|
      requires tree == StepOf(h, StateOf(h, found[curr.id])) && rand.Aligned(tree) && rand.cur == -1
      requires left == Rest(tree, rand.choices[rand.cur + 1..])
      requires Current() == ProcessAll(h, before, bfs, curr, done)
      modifies this, rand
      ensures more ==> rand.Aligned(tree) && rand.cur == -1
      ensures left' == (if more then Rest(tree, rand.choices[rand.cur + 1..]) else []) && left == [r] + left'
      ensures Ready(h, Current(), bfs, curr) && Current() == ProcessAll(h, before, bfs, curr, done + [r])
    {
      ghost var s := Current();
      RestOfWalk(tree, rand.choices[rand.cur + 1..]);
      more, r := Transition(curr, rand, tree);
      left' := if more then Rest(tree, rand.choices[rand.cur + 1..]) else [];
      ProcessOk(h, s, bfs, curr, r);
      assert (done + [r])[..|done|] == done;
    }

    /** The loop over all choices of one state's transition. */
    method Expand(curr: QState, ghost tree: Tree<Outcome>, ghost all: seq<Run<Outcome>>)
      requires Checkable(h) && Ready(h, Current(), bfs, curr)
      requires tree == StepOf(h, StateOf(h, found[curr.id])) && all == Runs(tree)
      modifies this
      ensures Current() == ProcessAll(h, old(Current()), bfs, curr, all)
    {
      ghost var before := Current();
      ghost var done: seq<Run<Outcome>>, left := [], all;
      EmptyConcat(all);
      RestOfNothing(tree);
      var rand := new EnumRandom();
      rand.Reset();
      var more := true;
      while more
        invariant fresh(rand)
        invariant more ==> rand.Aligned(tree) && rand.cur == -1
        invariant left == if more then Rest(tree, rand.choices[rand.cur + 1..]) else []
        invariant done + left == all
        invariant Ready(h, Current(), bfs, curr)
        invariant Current() == ProcessAll(h, before, bfs, curr, done)
        decreases |left|, more
      {
        ghost var r, left' := *, *;
        more, r, left' := NextRun(curr, rand, tree, before, done, left);
        SnocShift(done, r, left', left);
        done, left := done + [r], left';
      }
      ConcatEmpty(done);
    }

    /** The initial state is number 0, with a checkpoint of its own. */
    method InitState()
      modifies this
      ensures Current() == Initial(h)
    {
      test := h.init;
      var sig := h.sig(test);
      visited, bugs, found := map[sig := 0], [], [[]];
      ckpts := map[0 := Checkpoint(test, 0, [])];
      queue := [QState(0, 0, sig, [])];
    }

    /** Takes one state off the queue and expands it. */
    method ExpandNext()
      requires Checkable(h) && SearchOk(h, Current()) && Replayable(Current()) && Closed(h, Current(), bfs)
      requires queue != [] && (bfs ==> Levels(Current()))
      modifies this
      ensures SearchOk(h, Current()) && Replayable(Current()) && Closed(h, Current(), bfs)
      ensures bfs ==> Levels(Current())
      ensures |visited| > old(|visited|) || (|visited| == old(|visited|) && |queue| < old(|queue|))
    {
      ghost var s := Current();
      var curr := queue[0];
      queue := queue[1..];
      PopReady(h, s, bfs, curr);
      ghost var tree := StepOf(h, StateOf(h, found[curr.id]));
      AllRunsExpand(h, Current(), bfs, curr, Runs(tree));
      ProcessAllReady(h, Current(), bfs, curr, Runs(tree));
      Expand(curr, tree, Runs(tree));
      ExpandClosed(h, s, curr, Current(), bfs);
    }

    /** The whole search. With finitely many reachable signatures it ends, the visited
        signatures are the reachable ones, a bug is reported exactly when one can be
        reached, and (`SearchOk`) every report is the choices of a run into a bug. Breadth
        first, each state is found on a path with the fewest transitions of any path to
        its signature, and states are expanded in the order of their depths. */
    method ModelCheck(ghost universe: set<Sig>)
      requires Checkable(h) && forall t :: Reachable(h, t) ==> SigOf(h, t) in universe
      modifies this
      ensures SearchOk(h, Current())
      ensures forall g :: g in visited <==> ReachableSig(h, g)
      ensures bugs != [] <==> CanFail(h)
      ensures bfs ==> Shortest(h, Current()) && Levels(Current())
    {
      InitState();
      InitialOk(h, bfs);
      while queue != []
        invariant SearchOk(h, Current()) && Replayable(Current()) && Closed(h, Current(), bfs)
        invariant bfs ==> Levels(Current())
        decreases |universe| - |visited|, |queue|
      {
        ExpandNext();
        VisitedBound(h, Current(), universe);
      }
      FinishedMeans(h, Current(), bfs);
    }
  }

  /* ---- around the main loop ---- */

  ghost predicate ReachableSig(h: Harness, g: Sig) {
    exists path :: IsPath(h, h.init, path) && SigOf(h, StateOf(h, path)) == g
  }

  /** No path to a signature is shorter than the one its state was found on. */
  ghost predicate Shortest(h: Harness, s: Search) {
    forall path :: IsPath(h, h.init, path) ==>
      var g := SigOf(h, StateOf(h, path));
      g in s.visited && s.visited[g] < |s.found| && |s.found[s.visited[g]]| <= |path|
  }

  ghost predicate CanFail(h: Harness) {
    exists path, tr :: IsPath(h, h.init, path) && IsRun(StepOf(h, StateOf(h, path)), tr, Bug)
  }

  ghost function Initial(h: Harness): Search {
    Search([[]], map[SigOf(h, h.init) := 0], map[0 := Checkpoint(h.init, 0, [])],
           [QState(0, 0, SigOf(h, h.init), [])], [])
  }

  /** Breadth first: the queue holds the last states found, in order. */
  ghost predicate Levels(s: Search) {
    var k := |s.found| - |s.queue|;
    && 0 <= k
    && (forall j :: 0 <= j < |s.queue| ==> s.queue[j].id == k + j)
    && (forall i, j :: 0 <= i < j < |s.found| ==> |s.found[i]| <= |s.found[j]|)
    && (s.queue != [] ==> forall i :: 0 <= i < |s.found| ==> |s.found[i]| <= |s.found[k]| + 1)
  }

  lemma InitialOk(h: Harness, bfs: bool)
    ensures SearchOk(h, Initial(h)) && Replayable(Initial(h)) && Closed(h, Initial(h), bfs) && Levels(Initial(h))
  {
    var s := Initial(h);
    assert s.queue[0].id == 0 && InQueue(s.queue, 0);
    assert CkptOk(h, s.found, s.ckpts, 0);
  }

  lemma PopReady(h: Harness, s: Search, bfs: bool, curr: QState)
    requires SearchOk(h, s) && Replayable(s) && s.queue != [] && curr == s.queue[0]
    requires bfs ==> Levels(s)
    ensures Ready(h, s.(queue := s.queue[1..]), bfs, curr)
  {
  }

  lemma ExpandClosed(h: Harness, s: Search, curr: QState, t: Search, bfs: bool)
    requires Closed(h, s, bfs) && s.queue != [] && curr == s.queue[0] && curr.id < |s.found|
    requires Grew(s.(queue := s.queue[1..]), t) && Expanded(h, curr.id, t, bfs)
    ensures Closed(h, t, bfs)
    ensures bfs && LevelOrder(curr.id, t) ==> Levels(t)
  {
    var u := s.(queue := s.queue[1..]);
    forall i | 0 <= i < |t.found| && !InQueue(t.queue, i) ensures Expanded(h, i, t, bfs) {
      if i != curr.id {
        assert !InQueue(u.queue, i) && i < |s.found|;
        InQueueTail(s.queue, i);
        ExpandedGrew(h, i, u, t, bfs);
      }
    }
  }

  lemma InQueueTail(queue: seq<QState>, i: nat)
    requires queue != []
    ensures InQueue(queue, i) ==> queue[0].id == i || InQueue(queue[1..], i)
  {
    if InQueue(queue, i) && queue[0].id != i {
      var j :| 0 <= j < |queue| && queue[j].id == i;
      assert queue[1..][j - 1].id == i;
    }
  }

  lemma VisitedReachable(h: Harness, s: Search, g: Sig)
    requires FoundOk(h, s.found, s.visited) && g in s.visited
    ensures ReachableSig(h, g)
    ensures exists t :: Reachable(h, t) && SigOf(h, t) == g
  {
    var path := s.found[s.visited[g]];
    assert IsPath(h, h.init, path) && SigOf(h, StateOf(h, path)) == g;
    assert Reachable(h, StateOf(h, path));
  }

  lemma VisitedBound(h: Harness, s: Search, universe: set<Sig>)
    requires FoundOk(h, s.found, s.visited)
    requires forall t :: Reachable(h, t) ==> SigOf(h, t) in universe
    ensures |s.visited| <= |universe|
  {
    forall g | g in s.visited ensures g in universe {
      VisitedReachable(h, s, g);
    }
    SubsetSize(s.visited.Keys, universe);
  }

  lemma {:induction false} SubsetSize<T>(a: set<T>, b: set<T>)
    requires a <= b
    ensures |a| <= |b|
  {
    if x :| x in a {
      SubsetSize(a - {x}, b - {x});
    }
  }

  lemma FinishedMeans(h: Harness, s: Search, bfs: bool)
    requires Checkable(h) && SearchOk(h, s) && Closed(h, s, bfs) && s.queue == []
    ensures forall g :: g in s.visited <==> ReachableSig(h, g)
    ensures s.bugs != [] <==> CanFail(h)
    ensures bfs ==> Shortest(h, s)
  {
    forall g ensures g in s.visited <==> ReachableSig(h, g) {
      if g in s.visited {
        VisitedReachable(h, s, g);
      }
      if path :| IsPath(h, h.init, path) && SigOf(h, StateOf(h, path)) == g {
        FinishedCovers(h, s, bfs, path);
      }
    }
    if s.bugs != [] {
      assert IsBugTrace(h, s.bugs[0]);
    }
    if path, tr :| IsPath(h, h.init, path) && IsRun(StepOf(h, StateOf(h, path)), tr, Bug) {
      FinishedFindsBugs(h, s, bfs, path, tr);
    }
    if bfs {
      forall path | IsPath(h, h.init, path)
        ensures var g := SigOf(h, StateOf(h, path));
                g in s.visited && s.visited[g] < |s.found| && |s.found[s.visited[g]]| <= |path|
      {
        FinishedCovers(h, s, bfs, path);
      }
    }
  }

  lemma SnocShift<T>(done: seq<T>, r: T, left': seq<T>, left: seq<T>)
    requires left == [r] + left'
    ensures done + [r] + left' == done + left && |left'| < |left|
    ensures (done + [r])[..|done|] == done
  {
  }
}
