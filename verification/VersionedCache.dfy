/** Replay of a sector log through the versioned cache, and the crash disks that are
    checked on the way: crash/BufferCache.C, crash/Permuter.C.

    The cache is a sector's pending versions, oldest first. A crash may leave on each
    sector what is on the current disk or any one pending version. Crashes are
    checked only when the cache is about to shrink, and once at the end. */
module VersionedCaches {
  import opened Basics
  import opened Combinations
  import opened Sectors

  type Cache = map<Loc, seq<Sig>>

  datatype Epoch = LongGonePast | RecentPast | Now

  datatype PermRec = Sector(s: SectorRec) | LastCheck | CurCheck

  datatype State = State(disk: Disk, cache: Cache, epoch: Epoch)

  /* ---- one replay step ---- */

  function Rank(e: Epoch): nat {
    match e case LongGonePast => 0 case RecentPast => 1 case Now => 2
  }

  predicate Enabled(st: State, start: Epoch) {
    Rank(st.epoch) >= Rank(start)
  }

  /** A known version moves to the back; a new one is appended. */
  function AddVersion(vs: seq<Sig>, sig: Sig): seq<Sig>
    requires vs != []
  {
    if vs[|vs| - 1] == sig then vs else Erase(vs, sig) + [sig]
  }

  /** Erases the first occurrence. */
  function Erase(vs: seq<Sig>, sig: Sig): seq<Sig> {
    if vs == [] then []
    else if vs[0] == sig then vs[1..]
    else [vs[0]] + Erase(vs[1..], sig)
  }

  function Step(st: State, r: PermRec): State
    requires StateOk(st)
  {
    match r
    case LastCheck => st.(epoch := RecentPast)
    case CurCheck => st.(epoch := Now)
    case Sector(Add(loc, sig)) =>
      if loc in st.disk && st.disk[loc] == sig then st
      else if loc in st.cache then st.(cache := st.cache[loc := AddVersion(st.cache[loc], sig)])
      else st.(cache := st.cache[loc := [sig]])
    case Sector(Remove(loc)) => st.(cache := st.cache - {loc})
    case Sector(Write(loc, sig)) => st.(cache := st.cache - {loc}, disk := st.disk[loc := sig])
    case Sector(Read(_, _)) => st
  }

  /** The cache is about to lose a sector, so crashes are checked first. */
  predicate Shrinks(st: State, r: PermRec) {
    r.Sector? && (r.s.Remove? || r.s.Write?) && r.s.loc in st.cache
  }

  /** The record names a sector of the disk, as the device demands. */
  predicate InRange(st: State, r: PermRec) {
    r.Sector? ==> r.s.loc in st.disk
  }

  /* ---- the cache invariant ---- */

  ghost predicate StateOk(st: State) {
    forall loc :: loc in st.cache ==>
      && loc in st.disk
      && st.cache[loc] != []
      && Distinct(st.cache[loc])
      && st.disk[loc] !in st.cache[loc]
  }

  lemma {:induction false} EraseContents(vs: seq<Sig>, sig: Sig)
    requires Distinct(vs)
    ensures Distinct(Erase(vs, sig)) && sig !in Erase(vs, sig)
    ensures forall x :: x in Erase(vs, sig) <==> x in vs && x != sig
  {
    if vs != [] {
      assert Distinct(vs[1..]);
      EraseContents(vs[1..], sig);
      var e := Erase(vs[1..], sig);
      assert forall i :: 0 <= i < |e| ==> e[i] in e;
      assert forall x :: x in vs <==> x == vs[0] || x in vs[1..];
    }
  }

  lemma AddVersionContents(vs: seq<Sig>, sig: Sig)
    requires vs != [] && Distinct(vs)
    ensures Distinct(AddVersion(vs, sig)) && AddVersion(vs, sig) != []
    ensures forall x :: x in AddVersion(vs, sig) <==> x in vs || x == sig
  {
    EraseContents(vs, sig);
  }

  /** Version lists stay non-empty, duplicate-free and different from the disk. */
  lemma StepOk(st: State, r: PermRec)
    requires StateOk(st) && InRange(st, r)
    ensures StateOk(Step(st, r))
    ensures Step(st, r).disk.Keys == st.disk.Keys
  {
    if r.Sector? && r.s.Add? && r.s.loc in st.cache {
      AddVersionContents(st.cache[r.s.loc], r.s.sig);
    }
  }

  /* ---- crash disks ---- */

  ghost predicate IsCrashDisk(st: State, d: Disk) {
    && d.Keys == st.disk.Keys
    && forall loc :: loc in d ==>
         d[loc] == st.disk[loc] || (loc in st.cache && d[loc] in st.cache[loc])
  }

  /** The one record that changes the disk without a check: a write of a new value to
      a sector that has no pending version. */
  predicate OverwritesUnseen(st: State, r: PermRec)
    requires InRange(st, r)
  {
    r.Sector? && r.s.Write? && r.s.loc !in st.cache && st.disk[r.s.loc] != r.s.sig
  }

  /** The crash disks of `st` are checked at this step or are still crash disks after it. */
  ghost predicate KeepsCrashes(st: State, r: PermRec, start: Epoch)
    requires StateOk(st)
  {
    forall d :: IsCrashDisk(st, d) ==>
      Shrinks(st, r) || (Enabled(Step(st, r), start) && IsCrashDisk(Step(st, r), d))
  }

  /** A step loses crash disks exactly when it overwrites a sector unseen or turns
      checking off. */
  lemma StepKeepsCrashes(st: State, r: PermRec, start: Epoch)
    requires StateOk(st) && InRange(st, r) && Enabled(st, start)
    ensures KeepsCrashes(st, r, start)
       <==> !OverwritesUnseen(st, r) && Enabled(Step(st, r), start)
  {
    var st' := Step(st, r);
    assert IsCrashDisk(st, st.disk);
    if OverwritesUnseen(st, r) {
      assert !IsCrashDisk(st', st.disk) by {
        assert st.disk[r.s.loc] != st'.disk[r.s.loc];
      }
    } else if Enabled(st', start) {
      forall d | IsCrashDisk(st, d) && !Shrinks(st, r) ensures IsCrashDisk(st', d) {
        if r.Sector? && r.s.Add? && r.s.loc in st.cache {
          AddVersionContents(st.cache[r.s.loc], r.s.sig);
        }
      }
    }
  }

  /* ---- whole runs ---- */

  ghost predicate Replayable(st: State, log: seq<PermRec>) {
    StateOk(st) && forall k :: 0 <= k < |log| ==> InRange(st, log[k])
  }

  lemma StepReplayable(st: State, log: seq<PermRec>)
    requires Replayable(st, log) && log != []
    ensures Replayable(Step(st, log[0]), log[1..])
    ensures Step(st, log[0]).disk.Keys == st.disk.Keys
  {
    StepOk(st, log[0]);
    forall k | 0 <= k < |log[1..]| ensures InRange(Step(st, log[0]), log[1..][k]) {
      assert InRange(st, log[k + 1]);
    }
  }

  ghost function StateAt(st: State, log: seq<PermRec>, i: nat): (r: State)
    requires Replayable(st, log) && i <= |log|
    ensures StateOk(r) && r.disk.Keys == st.disk.Keys
    decreases |log|
  {
    if i == 0 then st
    else
      StepReplayable(st, log);
      StateAt(Step(st, log[0]), log[1..], i - 1)
  }

  /** Replaying `log` from `st` and finishing hands `d` to the checker. */
  ghost predicate IsChecked(st: State, log: seq<PermRec>, start: Epoch, d: Disk)
    requires Replayable(st, log)
    decreases |log|
  {
    if log == [] then Enabled(st, start) && IsCrashDisk(st, d)
    else
      StepReplayable(st, log);
      || (Shrinks(st, log[0]) && Enabled(st, start) && IsCrashDisk(st, d))
      || IsChecked(Step(st, log[0]), log[1..], start, d)
  }

  /** Crash disk `d` was possible at point `i` of the replay, while checking was on. */
  ghost predicate PossibleAt(st: State, log: seq<PermRec>, start: Epoch, d: Disk, i: nat)
    requires Replayable(st, log) && i <= |log|
  {
    Enabled(StateAt(st, log, i), start) && IsCrashDisk(StateAt(st, log, i), d)
  }

  /** Soundness: whatever is checked was possible at some point of the replay. */
  lemma {:induction false} CheckedWasPossible(st: State, log: seq<PermRec>, start: Epoch, d: Disk)
      returns (i: nat)
    requires Replayable(st, log)
    requires IsChecked(st, log, start, d)
    ensures i <= |log| && PossibleAt(st, log, start, d, i)
    decreases |log|
  {
    if log == [] || (Shrinks(st, log[0]) && Enabled(st, start) && IsCrashDisk(st, d)) {
      i := 0;
    } else {
      StepReplayable(st, log);
      i := CheckedWasPossible(Step(st, log[0]), log[1..], start, d);
      i := i + 1;
    }
  }

  /** No record of the replay overwrites a sector unseen or turns checking off, while it
      is on. */
  ghost predicate LosesNothing(st: State, log: seq<PermRec>, start: Epoch)
    requires Replayable(st, log)
    decreases |log|
  {
    if log == [] then true
    else
      StepReplayable(st, log);
      && (Enabled(st, start) ==> !OverwritesUnseen(st, log[0]) && Enabled(Step(st, log[0]), start))
      && LosesNothing(Step(st, log[0]), log[1..], start)
  }

  /** Coverage: checking only when the cache shrinks, and at the end, misses no crash
      disk that was possible after any prefix of the log. */
  lemma {:induction false} Coverage(st: State, log: seq<PermRec>, start: Epoch, d: Disk, i: nat)
    requires Replayable(st, log) && i <= |log|
    requires LosesNothing(st, log, start)
    requires PossibleAt(st, log, start, d, i)
    ensures IsChecked(st, log, start, d)
    decreases |log|
  {
    if log != [] {
      StepReplayable(st, log);
      if i > 0 {
        Coverage(Step(st, log[0]), log[1..], start, d, i - 1);
      } else if !Shrinks(st, log[0]) {
        StepKeepsCrashes(st, log[0], start);
        Coverage(Step(st, log[0]), log[1..], start, d, 0);
      }
    }
  }

  /** The checked disks are exactly the possible ones. */
  lemma CheckedIffPossible(st: State, log: seq<PermRec>, start: Epoch, d: Disk)
    requires Replayable(st, log)
    requires LosesNothing(st, log, start)
    ensures IsChecked(st, log, start, d)
       <==> exists i: nat :: i <= |log| && PossibleAt(st, log, start, d, i)
  {
    if IsChecked(st, log, start, d) {
      var i := CheckedWasPossible(st, log, start, d);
    }
    if i: nat :| i <= |log| && PossibleAt(st, log, start, d, i) {
      Coverage(st, log, start, d, i);
    }
  }

  /** Record `i` overwrites a sector unseen or turns checking off, while it is on. */
  ghost predicate LosesAt(st: State, log: seq<PermRec>, start: Epoch, i: nat)
    requires Replayable(st, log) && i < |log|
  {
    StateAtStep(st, log, i);
    && Enabled(StateAt(st, log, i), start)
    && (OverwritesUnseen(StateAt(st, log, i), log[i]) || !Enabled(StateAt(st, log, i + 1), start))
  }

  /** Every crash disk that was possible at some point is checked. */
  ghost predicate CoversAll(st: State, log: seq<PermRec>, start: Epoch)
    requires Replayable(st, log)
  {
    forall d, i: nat :: i <= |log| && PossibleAt(st, log, start, d, i) ==> IsChecked(st, log, start, d)
  }

  /** The crash disks that were possible where something is lost are checked at some time. */
  ghost predicate ChecksLost(st: State, log: seq<PermRec>, start: Epoch)
    requires Replayable(st, log)
  {
    forall d, i: nat :: i < |log| && LosesAt(st, log, start, i) && PossibleAt(st, log, start, d, i) ==>
      IsChecked(st, log, start, d)
  }

  /** A crash disk of the state before a record that shrinks the cache, or of the last
      state, is checked. */
  lemma {:induction false} CheckedAt(st: State, log: seq<PermRec>, start: Epoch, d: Disk, i: nat)
    requires Replayable(st, log) && i <= |log| && PossibleAt(st, log, start, d, i)
    requires i < |log| ==> Shrinks(StateAt(st, log, i), log[i])
    ensures IsChecked(st, log, start, d)
    decreases |log|
  {
    if log != [] && i > 0 {
      StepReplayable(st, log);
      CheckedAt(Step(st, log[0]), log[1..], start, d, i - 1);
    }
  }

  lemma {:induction false} CoveredFrom(st: State, log: seq<PermRec>, start: Epoch, d: Disk, i: nat)
    requires Replayable(st, log) && i <= |log| && PossibleAt(st, log, start, d, i) && ChecksLost(st, log, start)
    ensures IsChecked(st, log, start, d)
    decreases |log| - i
  {
    if i == |log| || Shrinks(StateAt(st, log, i), log[i]) {
      CheckedAt(st, log, start, d, i);
    } else if !LosesAt(st, log, start, i) {
      StateAtStep(st, log, i);
      StepKeepsCrashes(StateAt(st, log, i), log[i], start);
      CoveredFrom(st, log, start, d, i + 1);
    }
  }

  /** Coverage of a whole replay, exactly: it holds when and only when the crash disks at the
      records that lose some are checked at another time. */
  lemma CoverageExact(st: State, log: seq<PermRec>, start: Epoch)
    requires Replayable(st, log)
    ensures CoversAll(st, log, start) <==> ChecksLost(st, log, start)
  {
    if ChecksLost(st, log, start) {
      forall d, i: nat | i <= |log| && PossibleAt(st, log, start, d, i) ensures IsChecked(st, log, start, d) {
        CoveredFrom(st, log, start, d, i);
      }
    }
  }

  /** By default all crashes are wanted, and then checking never turns off again. */
  lemma CheckingStaysOn(st: State, r: PermRec)
    requires StateOk(st) && Enabled(st, RecentPast)
    ensures Enabled(Step(st, r), RecentPast)
  {
  }

  /** Without the condition coverage fails: the value overwritten here is never checked. */
  lemma UnseenOverwriteLosesCrash()
    ensures var l := Loc(0, 0);
            var st := State(map[l := 1], map[], RecentPast);
            var log := [Sector(Write(l, 2))];
            && PossibleAt(st, log, RecentPast, map[l := 1], 0)
            && !IsChecked(st, log, RecentPast, map[l := 1])
  {
    var l := Loc(0, 0);
    var st := State(map[l := 1], map[], RecentPast);
    var log := [Sector(Write(l, 2))];
    assert !IsChecked(Step(st, log[0]), log[1..], RecentPast, map[l := 1]) by {
      assert Step(st, log[0]).disk[l] == 2;
    }
  }

  /* ---- enumerating the crash disks of one state ---- */

  /** An iteration order of the cache's hash map. */
  ghost predicate IsOrder(order: seq<Loc>, cache: Cache) {
    Distinct(order) && forall loc :: loc in order <==> loc in cache
  }

  function Counts(order: seq<Loc>, cache: Cache): (counts: Vector)
    requires forall loc :: loc in order ==> loc in cache
    ensures |counts| == |order|
    ensures forall i :: 0 <= i < |order| ==> counts[i] == |cache[order[i]]|
  {
    if order == [] then [] else [|cache[order[0]]|] + Counts(order[1..], cache)
  }

  /** Number 0 leaves the sector as it is; number k writes its k-th version. */
  function Pick(vs: seq<Sig>, k: nat, onDisk: Sig): Sig
    requires k <= |vs|
  {
    if k == 0 then onDisk else vs[k - 1]
  }

  /** `d` is the crash disk that the vector `v` stands for. */
  ghost predicate IsCrashOf(st: State, order: seq<Loc>, v: Vector, d: Disk)
    requires StateOk(st) && IsOrder(order, st.cache) && Bounded(Counts(order, st.cache), v)
  {
    && d.Keys == st.disk.Keys
    && (forall i :: 0 <= i < |order| ==>
          d[order[i]] == Pick(st.cache[order[i]], v[i], st.disk[order[i]]))
    && forall loc :: loc in d && loc !in st.cache ==> d[loc] == st.disk[loc]
  }

  lemma CrashOfIsCrashDisk(st: State, order: seq<Loc>, v: Vector, d: Disk)
    requires StateOk(st) && IsOrder(order, st.cache) && Bounded(Counts(order, st.cache), v)
    requires IsCrashOf(st, order, v, d)
    ensures IsCrashDisk(st, d)
  {
    forall loc | loc in d && loc in st.cache
      ensures d[loc] == st.disk[loc] || d[loc] in st.cache[loc]
    {
      assert loc in order;
      var i :| 0 <= i < |order| && order[i] == loc;
    }
  }

  /** Different vectors give different crash disks. */
  lemma CrashOfInjective(st: State, order: seq<Loc>, v: Vector, w: Vector, d: Disk)
    requires StateOk(st) && IsOrder(order, st.cache)
    requires Bounded(Counts(order, st.cache), v) && Bounded(Counts(order, st.cache), w)
    requires IsCrashOf(st, order, v, d) && IsCrashOf(st, order, w, d)
    ensures v == w
  {
    forall i | 0 <= i < |order| ensures v[i] == w[i] {
      var vs := st.cache[order[i]];
      assert order[i] in order;
      assert Pick(vs, v[i], st.disk[order[i]]) == Pick(vs, w[i], st.disk[order[i]]);
      assert forall k :: 0 <= k < |vs| ==> vs[k] in vs;
    }
  }

  /** Every crash disk has a vector. */
  lemma {:induction false} CrashDiskVector(st: State, order: seq<Loc>, d: Disk) returns (v: Vector)
    requires StateOk(st) && IsOrder(order, st.cache) && IsCrashDisk(st, d)
    ensures Bounded(Counts(order, st.cache), v) && IsCrashOf(st, order, v, d)
  {
    v := [];
    for i := 0 to |order|
      invariant |v| == i
      invariant forall j :: 0 <= j < i ==>
        && order[j] in st.cache && v[j] <= |st.cache[order[j]]|
        && d[order[j]] == Pick(st.cache[order[j]], v[j], st.disk[order[j]])
    {
      var loc := order[i];
      assert loc in order;
      if d[loc] == st.disk[loc] {
        v := v + [0];
      } else {
        var k :| 0 <= k < |st.cache[loc]| && st.cache[loc][k] == d[loc];
        v := v + [k + 1];
      }
    }
  }

  /** `batch` lists every crash disk of `st` exactly once. */
  ghost predicate IsBatch(st: State, batch: seq<Disk>) {
    Distinct(batch) && forall d :: d in batch <==> IsCrashDisk(st, d)
  }

  ghost predicate IsSelection(order: seq<Loc>, cache: Cache, v: Vector) {
    && |v| == |order|
    && forall i :: 0 <= i < |order| ==> order[i] in cache && v[i] <= |cache[order[i]]|
  }

  /** The writes that the vector `v` selects. */
  function Writes(order: seq<Loc>, cache: Cache, v: Vector): WriteSet
    requires IsSelection(order, cache, v)
  {
    if order == [] then map[]
    else
      var n := |order| - 1;
      var w := Writes(order[..n], cache, v[..n]);
      if v[n] == 0 then w else w[order[n] := cache[order[n]][v[n] - 1]]
  }

  ghost predicate AllSelected(order: seq<Loc>, cache: Cache, vectors: seq<Vector>) {
    forall k :: 0 <= k < |vectors| ==> IsSelection(order, cache, vectors[k])
  }

  lemma BoundedIsSelection(order: seq<Loc>, cache: Cache, v: Vector)
    requires IsOrder(order, cache) && Bounded(Counts(order, cache), v)
    ensures IsSelection(order, cache, v)
  {
    assert forall i :: 0 <= i < |order| ==> order[i] in order;
  }

  lemma {:induction false} WritesAt(order: seq<Loc>, cache: Cache, v: Vector)
    requires Distinct(order) && IsSelection(order, cache, v)
    ensures Writes(order, cache, v).Keys <= cache.Keys
    ensures forall loc :: loc in Writes(order, cache, v) ==> loc in order
    ensures forall i :: 0 <= i < |order| ==>
      && (order[i] in Writes(order, cache, v) <==> v[i] != 0)
      && (v[i] != 0 ==> Writes(order, cache, v)[order[i]] == cache[order[i]][v[i] - 1])
  {
    if order != [] {
      var n := |order| - 1;
      WritesAt(order[..n], cache, v[..n]);
      forall i | 0 <= i < n
        ensures order[i] != order[n] && order[i] == order[..n][i] && v[i] == v[..n][i]
      {
      }
      assert order[n] !in order[..n];
    }
  }

  /** The current disk with the selected writes on it. */
  function CrashOf(st: State, order: seq<Loc>, v: Vector): Disk
    requires IsSelection(order, st.cache, v)
  {
    st.disk + Writes(order, st.cache, v)
  }

  lemma CrashOfIs(st: State, order: seq<Loc>, v: Vector)
    requires StateOk(st) && IsOrder(order, st.cache) && Bounded(Counts(order, st.cache), v)
    ensures IsSelection(order, st.cache, v) && IsCrashOf(st, order, v, CrashOf(st, order, v))
  {
    BoundedIsSelection(order, st.cache, v);
    WritesAt(order, st.cache, v);
  }

  /** The crash disks of a list of vectors. */
  ghost function Crashes(st: State, order: seq<Loc>, vectors: seq<Vector>): (batch: seq<Disk>)
    requires forall k :: 0 <= k < |vectors| ==> IsSelection(order, st.cache, vectors[k])
    ensures |batch| == |vectors|
    ensures forall k :: 0 <= k < |vectors| ==> batch[k] == CrashOf(st, order, vectors[k])
  {
    if vectors == [] then []
    else
      var n := |vectors| - 1;
      Crashes(st, order, vectors[..n]) + [CrashOf(st, order, vectors[n])]
  }

  lemma CrashesSnoc(st: State, order: seq<Loc>, vectors: seq<Vector>, v: Vector, base: seq<Disk>)
    requires forall k :: 0 <= k < |vectors| ==> IsSelection(order, st.cache, vectors[k])
    requires IsSelection(order, st.cache, v)
    ensures forall k :: 0 <= k <= |vectors| ==> IsSelection(order, st.cache, (vectors + [v])[k])
    ensures base + Crashes(st, order, vectors + [v])
         == base + Crashes(st, order, vectors) + [CrashOf(st, order, v)]
  {
    assert (vectors + [v])[..|vectors|] == vectors;
  }

  /** Walking all vectors lists every crash disk exactly once. */
  lemma EnumerationIsBatch(st: State, order: seq<Loc>, vectors: seq<Vector>)
    requires StateOk(st) && IsOrder(order, st.cache)
    requires Distinct(vectors)
    requires forall v :: v in vectors <==> Bounded(Counts(order, st.cache), v)
    requires forall k :: 0 <= k < |vectors| ==> IsSelection(order, st.cache, vectors[k])
    ensures IsBatch(st, Crashes(st, order, vectors))
  {
    var batch := Crashes(st, order, vectors);
    forall k | 0 <= k < |vectors|
      ensures Bounded(Counts(order, st.cache), vectors[k])
      ensures IsCrashOf(st, order, vectors[k], batch[k])
    {
      assert vectors[k] in vectors;
      CrashOfIs(st, order, vectors[k]);
    }
    forall j, k | 0 <= j < k < |batch| ensures batch[j] != batch[k] {
      if batch[j] == batch[k] {
        CrashOfInjective(st, order, vectors[j], vectors[k], batch[j]);
      }
    }
    CrashesPossible(st, order, vectors);
    forall d | IsCrashDisk(st, d) ensures d in batch {
      CrashDiskWalked(st, order, vectors, d);
    }
  }

  /** The crash disk is that of its vector. */
  lemma CrashDiskWalked(st: State, order: seq<Loc>, vectors: seq<Vector>, d: Disk)
    requires StateOk(st) && IsOrder(order, st.cache) && IsCrashDisk(st, d)
    requires forall v :: Bounded(Counts(order, st.cache), v) ==> v in vectors
    requires AllSelected(order, st.cache, vectors)
    ensures d in Crashes(st, order, vectors)
  {
    var v := CrashDiskVector(st, order, d);
    var k :| 0 <= k < |vectors| && vectors[k] == v;
    CrashOfIs(st, order, v);
    CrashOfUnique(st, order, v, d, CrashOf(st, order, v));
    assert Crashes(st, order, vectors)[k] == d;
  }

  lemma CrashOfUnique(st: State, order: seq<Loc>, v: Vector, d: Disk, e: Disk)
    requires StateOk(st) && IsOrder(order, st.cache) && Bounded(Counts(order, st.cache), v)
    requires IsCrashOf(st, order, v, d) && IsCrashOf(st, order, v, e)
    ensures d == e
  {
    forall loc | loc in d ensures d[loc] == e[loc] {
      if loc in st.cache {
        assert loc in order;
        var i :| 0 <= i < |order| && order[i] == loc;
      }
    }
  }

  /* ---- the permuter and its cache ---- */

  /** The number of crash disks fits a counter of 32 bits; else the enumeration of them
      starts again when it does, and never ends. */
  ghost predicate Countable(cache: Cache) {
    forall order :: IsOrder(order, cache) ==> Product(Counts(order, cache)) < TWO32
  }

  class BufferPermuter {
    const threshold: int
    const tries: int
    const draws: (nat, nat) -> nat
    const startChecking: Epoch
    var curDisk: Disk
    var cache: Cache
    var epoch: Epoch
    /** Every crash disk handed to the recovery checker so far. */
    var checked: seq<Disk>

    constructor (disk: Disk, threshold: int, tries: int, draws: (nat, nat) -> nat, startChecking: Epoch)
      requires tries < INT_MAX
      ensures curDisk == disk && cache == map[] && epoch == LongGonePast && checked == [] && Valid()
      ensures this.threshold == threshold && this.tries == tries && this.startChecking == startChecking
    {
      this.threshold, this.tries, this.draws, this.startChecking := threshold, tries, draws, startChecking;
      curDisk, cache, epoch, checked := disk, map[], LongGonePast, [];
    }

    ghost function Current(): State
      reads this
    {
      State(curDisk, cache, epoch)
    }

    ghost predicate Valid()
      reads this
    {
      StateOk(Current()) && tries < INT_MAX
    }

    /** All crash disks of a cache of this size are checked; else only some, drawn at random. */
    predicate Exhaustive(cache: Cache) {
      |cache| <= threshold
    }

    /** Checking the crash disks of a cache comes to an end. */
    ghost predicate Ends(cache: Cache) {
      Exhaustive(cache) ==> Countable(cache)
    }

    /** The hash map's iteration order: any order will do. */
    method IterationOrder() returns (order: seq<Loc>)
      ensures IsOrder(order, cache) && |order| == |cache|
    {
      order := [];
      var rest := cache.Keys;
      while rest != {}
        invariant rest <= cache.Keys && |order| + |rest| == |cache.Keys|
        invariant Distinct(order)
        invariant forall loc :: loc in order <==> loc in cache.Keys && loc !in rest
        decreases rest
      {
        var loc :| loc in rest;
        order, rest := order + [loc], rest - {loc};
      }
    }

    method WrSet(order: seq<Loc>, subset: Vector) returns (wset: WriteSet)
      requires IsSelection(order, cache, subset)
      ensures wset == Writes(order, cache, subset)
    {
      wset := map[];
      for i := 0 to |order|
        invariant wset == Writes(order[..i], cache, subset[..i])
      {
        assert order[..i + 1][..i] == order[..i] && subset[..i + 1][..i] == subset[..i];
        if subset[i] != 0 {
          wset := wset[order[i] := cache[order[i]][subset[i] - 1]];
        }
      }
      assert order[..|order|] == order && subset[..|order|] == subset;
    }

    /** Builds one crash disk and runs recovery and the checker on it. */
    method CheckOneCrash(order: seq<Loc>, subset: Vector)
      requires IsSelection(order, cache, subset)
      modifies this`checked
      ensures checked == old(checked) + [CrashOf(Current(), order, subset)]
    {
      var wset := WrSet(order, subset);
      var crashDisk := curDisk + wset;
      checked := checked + [crashDisk];
    }

    /** The crash of one more vector. */
    method CheckVector(order: seq<Loc>, v: Vector, ghost done: seq<Vector>, ghost base: seq<Disk>)
      requires IsOrder(order, cache) && Bounded(Counts(order, cache), v) && AllSelected(order, cache, done)
      requires checked == base + Crashes(Current(), order, done)
      modifies this`checked
      ensures AllSelected(order, cache, done + [v]) && checked == base + Crashes(Current(), order, done + [v])
    {
      BoundedIsSelection(order, cache, v);
      CrashesSnoc(Current(), order, done, v, base);
      CheckOneCrash(order, v);
    }

    /** Checks the crash of the vector at hand and moves on. */
    method CheckAndAdvance(order: seq<Loc>, e: Combination, ghost done: seq<Vector>, ghost base: seq<Disk>)
        returns (more: bool)
      requires IsOrder(order, cache) && e.ceils == Counts(order, cache) && e.YieldedAfter(done)
      requires AllSelected(order, cache, done)
      requires checked == base + Crashes(Current(), order, done)
      modifies this`checked, e
      ensures e.ceils == old(e.ceils) && AllSelected(order, cache, old(e.yielded))
      ensures checked == base + Crashes(Current(), order, old(e.yielded))
      ensures if more then e.YieldedAfter(old(e.yielded)) else e.yielded == old(e.yielded) && e.Complete()
    {
      CheckVector(order, e.subset, done, base);
      more := e.Next();
    }

    /** The permuter's loop: one crash per vector of the iterator. */
    method Permute(order: seq<Loc>, e: Combination)
      requires IsOrder(order, cache)
      requires e.Valid() && e.yielded == [] && e.ceils == Counts(order, cache) && e.Ends()
      modifies this`checked, e
      ensures e.ceils == old(e.ceils) && e.Complete() && AllSelected(order, cache, e.yielded)
      ensures checked == old(checked) + Crashes(Current(), order, e.yielded)
    {
      ghost var base, bound := checked, e.Bound();
      ghost var done: seq<Vector> := [];
      var more := e.First();
      ConcatEmpty(checked);
      while more
        invariant e.ceils == old(e.ceils)
        invariant if more then e.YieldedAfter(done) else e.yielded == done && e.Complete()
        invariant AllSelected(order, cache, done) && checked == base + Crashes(Current(), order, done)
        decreases bound - |done|, more
      {
        ghost var now := e.yielded;
        more := CheckAndAdvance(order, e, done, base);
        done := now;
      }
    }

    /** Checks every crash disk of the current state exactly once, their number being the
        product over the sectors of the number of versions plus one; above the threshold a
        number of them drawn at random. */
    method CheckCrashes() returns (ghost order: seq<Loc>, ghost batch: seq<Disk>)
      requires Valid() && Ends(cache)
      modifies this`checked
      ensures checked == old(checked) + batch
      ensures !Enabled(Current(), startChecking) ==> batch == []
      ensures forall d :: d in batch ==> IsCrashDisk(Current(), d)
      ensures Enabled(Current(), startChecking) && Exhaustive(cache) ==>
        && IsBatch(Current(), batch)
        && IsOrder(order, cache) && |batch| == Product(Counts(order, cache))
    {
      order, batch := [], [];
      if Rank(epoch) < Rank(startChecking) {
        return;
      }
      var o := IterationOrder();
      var e := CreateIterator(o);
      Permute(o, e);
      WalkIs(Current(), o, e.yielded, Exhaustive(cache));
      order, batch := o, Crashes(Current(), o, e.yielded);
    }

    method CreateIterator(order: seq<Loc>) returns (e: Combination)
      requires Valid() && IsOrder(order, cache) && |order| == |cache|
      ensures fresh(e) && e.Valid() && e.yielded == [] && e.ceils == Counts(order, cache)
      ensures e.randomTries == tries && (e.Deterministic() <==> Exhaustive(cache))
    {
      var counts := Counts(order, cache);
      forall i | 0 <= i < |counts| ensures counts[i] > 0 {
        assert order[i] in order;
      }
      e := new Combination(counts, threshold, tries, draws);
    }

    /** A list of versions without one of them. */
    method EraseVersion(v: seq<Sig>, sig: Sig) returns (w: seq<Sig>)
      ensures w == Erase(v, sig)
    {
      var i := 0;
      while i < |v| && v[i] != sig
        invariant 0 <= i <= |v| && v[..i] + Erase(v[i..], sig) == Erase(v, sig)
      {
        assert v[i..][1..] == v[i + 1..];
        i := i + 1;
      }
      w := v;
      if i < |v| {
        assert Erase(v[i..], sig) == v[i + 1..];
        w := v[..i] + v[i + 1..];
      }
    }

    method Add(loc: Loc, sig: Sig)
      requires Valid() && loc in curDisk
      modifies this`cache
      ensures Current() == Step(old(Current()), Sector(SectorRec.Add(loc, sig)))
    {
      if curDisk[loc] == sig {
        return;
      }
      if loc !in cache {
        cache := cache[loc := [sig]];
        return;
      }
      var v := cache[loc];
      if v[|v| - 1] == sig {
        return;
      }
      v := EraseVersion(v, sig);
      cache := cache[loc := v + [sig]];
    }

    /** Returns the batch checked before the cache shrinks. */
    method RemoveOrWrite(r: SectorRec) returns (ghost batch: seq<Disk>)
      requires Valid() && Ends(cache) && (r.Remove? || r.Write?) && r.loc in curDisk
      modifies this
      ensures Current() == Step(old(Current()), Sector(r))
      ensures checked == old(checked) + batch
      ensures forall d :: d in batch ==> Due(old(Current()), Sector(r), startChecking, d)
      ensures Exhaustive(old(cache)) ==>
        forall d :: Due(old(Current()), Sector(r), startChecking, d) ==> d in batch
    {
      batch := [];
      if r.loc !in cache {
        if r.Write? {
          curDisk := curDisk[r.loc := r.sig];
        }
        assert cache - {r.loc} == cache;
        return;
      }
      ghost var order;
      order, batch := CheckCrashes();
      cache := cache - {r.loc};
      if r.Write? {
        curDisk := curDisk[r.loc := r.sig];
      }
    }

    /** One record, dispatched to the epoch manager or the cache. */
    method Replay(r: PermRec) returns (ghost batch: seq<Disk>)
      requires Valid() && Ends(cache) && InRange(Current(), r)
      modifies this
      ensures Valid() && Current() == Step(old(Current()), r)
      ensures checked == old(checked) + batch
      ensures forall d :: d in batch ==> Due(old(Current()), r, startChecking, d)
      ensures Exhaustive(old(cache)) ==> forall d :: Due(old(Current()), r, startChecking, d) ==> d in batch
    {
      batch := [];
      StepOk(Current(), r);
      match r
      case LastCheck => epoch := RecentPast;
      case CurCheck => epoch := Now;
      case Sector(s) =>
        match s
        case Add(loc, sig) => Add(loc, sig);
        case Remove(_) => batch := RemoveOrWrite(s);
        case Write(_, _) => batch := RemoveOrWrite(s);
        case Read(_, _) =>
    }

    /** Replays a whole log and finishes: only disks of `IsChecked` are checked, and all of
        them as long as no cache is above the threshold. */
    method ReplayAll(log: seq<PermRec>)
      requires Valid() && Replayable(Current(), log) && checked == []
      requires forall i :: 0 <= i <= |log| ==> Ends(StateAt(Current(), log, i).cache)
      modifies this
      ensures forall d :: d in checked ==> old(IsChecked(Current(), log, startChecking, d))
      ensures old(forall i :: 0 <= i <= |log| ==> Exhaustive(StateAt(Current(), log, i).cache)) ==>
        forall d :: old(IsChecked(Current(), log, startChecking, d)) ==> d in checked
      ensures cache == map[]
    {
      ghost var st0 := Current();
      ghost var all := forall i :: 0 <= i <= |log| ==> Exhaustive(StateAt(st0, log, i).cache);
      for i := 0 to |log|
        invariant Valid() && Replayable(Current(), log[i..]) && Current() == StateAt(st0, log, i)
        invariant Accounted(st0, log, i, checked, all)
      {
        assert Ends(StateAt(st0, log, i).cache) && (all ==> Exhaustive(StateAt(st0, log, i).cache));
        StateAtStep(st0, log, i);
        assert log[i..][0] == log[i] && log[i..][1..] == log[i + 1..];
        StepReplayable(Current(), log[i..]);
        ghost var before := checked;
        ghost var batch := Replay(log[i]);
        AccountedStep(st0, log, i, before, batch, all);
      }
      assert Ends(StateAt(st0, log, |log|).cache) && (all ==> Exhaustive(StateAt(st0, log, |log|).cache));
      ghost var before := checked;
      ghost var order, batch := CheckCrashes();
      AccountedEnd(st0, log, before, batch, all);
      cache := map[];
    }

    /** What is checked so far is to be checked, and what is to be checked is or still will be,
        if every cache is small enough. */
    ghost predicate Accounted(st0: State, log: seq<PermRec>, i: nat, checked: seq<Disk>, all: bool)
      requires Replayable(st0, log) && i <= |log| && Replayable(StateAt(st0, log, i), log[i..])
    {
      && (forall d :: d in checked ==> IsChecked(st0, log, startChecking, d))
      && (forall d :: IsChecked(StateAt(st0, log, i), log[i..], startChecking, d) ==>
            IsChecked(st0, log, startChecking, d))
      && (all ==> forall d :: IsChecked(st0, log, startChecking, d) ==>
            d in checked || IsChecked(StateAt(st0, log, i), log[i..], startChecking, d))
    }

    lemma AccountedStep(st0: State, log: seq<PermRec>, i: nat, before: seq<Disk>, batch: seq<Disk>, all: bool)
      requires Replayable(st0, log) && i < |log| && Replayable(StateAt(st0, log, i), log[i..])
      requires Accounted(st0, log, i, before, all)
      requires forall d :: d in batch ==> Due(StateAt(st0, log, i), log[i], startChecking, d)
      requires all ==> forall d :: Due(StateAt(st0, log, i), log[i], startChecking, d) ==> d in batch
      ensures Replayable(StateAt(st0, log, i + 1), log[i + 1..])
      ensures Accounted(st0, log, i + 1, before + batch, all)
    {
      var st := StateAt(st0, log, i);
      StateAtStep(st0, log, i);
      assert log[i..][0] == log[i] && log[i..][1..] == log[i + 1..];
      StepReplayable(st, log[i..]);
      forall d ensures IsChecked(st, log[i..], startChecking, d) <==>
        Due(st, log[i], startChecking, d) || IsChecked(StateAt(st0, log, i + 1), log[i + 1..], startChecking, d)
      {
      }
    }

    lemma AccountedEnd(st0: State, log: seq<PermRec>, before: seq<Disk>, batch: seq<Disk>, all: bool)
      requires Replayable(st0, log) && Replayable(StateAt(st0, log, |log|), log[|log|..])
      requires Accounted(st0, log, |log|, before, all)
      requires var st := StateAt(st0, log, |log|);
        && (!Enabled(st, startChecking) ==> batch == [])
        && (forall d :: d in batch ==> IsCrashDisk(st, d))
        && (Enabled(st, startChecking) && all ==> forall d :: IsCrashDisk(st, d) ==> d in batch)
      ensures forall d :: d in before + batch ==> IsChecked(st0, log, startChecking, d)
      ensures all ==> forall d :: IsChecked(st0, log, startChecking, d) ==> d in before + batch
    {
      assert log[|log|..] == [];
    }
  }

  /** The disk is to be checked before this record. */
  ghost predicate Due(st: State, r: PermRec, start: Epoch, d: Disk) {
    Shrinks(st, r) && Enabled(st, start) && IsCrashDisk(st, d)
  }

  /** What a walk checks: crash disks, and all of them once if it is an enumeration. */
  lemma WalkIs(st: State, order: seq<Loc>, vectors: seq<Vector>, exhaustive: bool)
    requires StateOk(st) && IsOrder(order, st.cache) && AllSelected(order, st.cache, vectors)
    requires AllBounded(Counts(order, st.cache), vectors)
    requires exhaustive ==>
      IsEnumeration(Counts(order, st.cache), vectors) && |vectors| == Product(Counts(order, st.cache))
    ensures forall d :: d in Crashes(st, order, vectors) ==> IsCrashDisk(st, d)
    ensures exhaustive ==> IsBatch(st, Crashes(st, order, vectors))
  {
    CrashesPossible(st, order, vectors);
    if exhaustive {
      EnumerationIsExact(Counts(order, st.cache), vectors);
      EnumerationIsBatch(st, order, vectors);
    }
  }

  /** Every vector gives a possible crash disk. */
  lemma CrashesPossible(st: State, order: seq<Loc>, vectors: seq<Vector>)
    requires StateOk(st) && IsOrder(order, st.cache)
    requires forall k :: 0 <= k < |vectors| ==> Bounded(Counts(order, st.cache), vectors[k])
    requires forall k :: 0 <= k < |vectors| ==> IsSelection(order, st.cache, vectors[k])
    ensures forall d :: d in Crashes(st, order, vectors) ==> IsCrashDisk(st, d)
  {
    var batch := Crashes(st, order, vectors);
    forall d | d in batch ensures IsCrashDisk(st, d) {
      var k :| 0 <= k < |batch| && batch[k] == d;
      CrashOfIs(st, order, vectors[k]);
      CrashOfIsCrashDisk(st, order, vectors[k], d);
    }
  }

  lemma {:induction false} StateAtStep(st: State, log: seq<PermRec>, i: nat)
    requires Replayable(st, log) && i < |log|
    ensures InRange(StateAt(st, log, i), log[i])
    ensures StateAt(st, log, i + 1) == Step(StateAt(st, log, i), log[i])
    decreases i
  {
    if i > 0 {
      StepReplayable(st, log);
      StateAtStep(Step(st, log[0]), log[1..], i - 1);
    }
  }
}
