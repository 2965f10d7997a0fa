/** From raw Linux buffer operations to sector records: crash/LinuxLog.h.

    Clearing a dirty buffer does not always take its sectors out of the potential
    write set: a submitted sector stays until its write is done, and a locked one is
    decided at unlock time. The source's `prev_dirty` is only ever NULL, so its test
    for redundant adds never fires and is not modelled. */
module LinuxLogs {
  import opened Basics
  import opened Sectors
  import opened VersionedCaches

  /** `Submit` stands for BH_write, BH_write_sync and BIO_start_write. */
  datatype Op = Dirty | Submit | Clean | WriteDone | Lock | Unlock | ReadDone | Ignored

  /** One raw record over the sectors `sector`, ..., `sector + nsector - 1`. */
  datatype RawRec = RawRec(op: Op, dev: int, sector: int, nsector: nat, sigs: seq<Sig>)

  datatype SectorState = SectorState(
    locked: bool, dirtied: bool, submitted: bool, delayedClear: bool, delayedRec: Loc)

  const FRESH := SectorState(false, false, false, false, Loc(0, 0))

  type States = map<Loc, SectorState>

  datatype Parser = Parser(states: States, out: seq<SectorRec>)

  predicate HasData(op: Op) {
    op.Dirty? || op.Submit? || op.WriteDone? || op.ReadDone?
  }

  /** Records that carry data carry it for every sector. */
  predicate WellFormed(r: RawRec) {
    HasData(r.op) ==> |r.sigs| == r.nsector
  }

  ghost predicate WellFormedLog(log: seq<RawRec>) {
    forall k :: 0 <= k < |log| ==> WellFormed(log[k])
  }

  function LocAt(r: RawRec, i: nat): Loc {
    Loc(r.dev, r.sector + i)
  }

  function GetState(states: States, loc: Loc): SectorState {
    if loc in states then states[loc] else FRESH
  }

  /** The effect of record `r` on its i-th sector: the new state and the records emitted,
      or None when a lock assertion fails. */
  function SectorStep(r: RawRec, i: nat, s: SectorState, xfs: bool)
      : Option<(SectorState, seq<SectorRec>)>
    requires WellFormed(r) && i < r.nsector
  {
    var loc := LocAt(r, i);
    match r.op
    case Lock =>
      if s.locked then None else Some((s.(locked := true), []))
    case Unlock =>
      if !s.locked && !xfs then None
      else if !s.delayedClear then Some((s.(locked := false), []))
      else Some((s.(locked := false, dirtied := false, delayedClear := false),
                 if s.submitted then []
                 else [Remove(Loc(s.delayedRec.dev, s.delayedRec.sector + i))]))
    case Dirty => Some((s.(dirtied := true), [Add(loc, r.sigs[i])]))
    case Submit => Some((s.(submitted := true), [Add(loc, r.sigs[i])]))
    case Clean =>
      if s.submitted then Some((s.(dirtied := false), []))
      else if s.locked then
        Some((s.(delayedClear := true, delayedRec := Loc(r.dev, r.sector)), []))
      else Some((s.(dirtied := false), [Remove(loc)]))
    case WriteDone =>
      Some((s.(dirtied := false, delayedClear := false, submitted := false),
            [Write(loc, r.sigs[i])]))
    case ReadDone => Some((s, [Read(loc, r.sigs[i])]))
    case Ignored => Some((s, []))
  }

  /** Sectors `i`, `i + 1`, ... of one record. */
  function ParseFrom(r: RawRec, i: nat, p: Parser, xfs: bool): Option<Parser>
    requires WellFormed(r) && i <= r.nsector
    decreases r.nsector - i
  {
    if i == r.nsector then Some(p)
    else
      match SectorStep(r, i, GetState(p.states, LocAt(r, i)), xfs)
      case None => None
      case Some((s, emitted)) =>
        ParseFrom(r, i + 1, Parser(p.states[LocAt(r, i) := s], p.out + emitted), xfs)
  }

  ghost function ParseAll(log: seq<RawRec>, p: Parser, xfs: bool): Option<Parser>
    requires WellFormedLog(log)
  {
    if log == [] then Some(p)
    else
      match ParseFrom(log[0], 0, p, xfs)
      case None => None
      case Some(q) => ParseAll(log[1..], q, xfs)
  }

  class LinuxBlockRecParser {
    const xfs: bool
    var states: States
    var log: seq<SectorRec>

    constructor (xfs: bool)
      ensures Current() == Parser(map[], []) && this.xfs == xfs
    {
      this.xfs := xfs;
      states, log := map[], [];
    }

    ghost function Current(): Parser
      reads this
    {
      Parser(states, log)
    }

    /** One record; `ok` is false when a lock assertion fails. */
    method Parse(r: RawRec) returns (ok: bool)
      requires WellFormed(r)
      modifies this
      ensures ok <==> old(ParseFrom(r, 0, Current(), xfs)).Some?
      ensures ok ==> old(ParseFrom(r, 0, Current(), xfs)) == Some(Current())
    {
      for i := 0 to r.nsector
        invariant ParseFrom(r, i, Current(), xfs) == old(ParseFrom(r, 0, Current(), xfs))
      {
        ok := ParseSector(r, i);
        if !ok {
          return;
        }
      }
      ok := true;
    }

    /** The loop bodies of parse_lock, parse_unlock, parse_add, parse_remove, parse_write
        and parse_read. */
    method ParseSector(r: RawRec, i: nat) returns (ok: bool)
      requires WellFormed(r) && i < r.nsector
      modifies this
      ensures ok <==> old(SectorStep(r, i, GetState(states, LocAt(r, i)), xfs)).Some?
      ensures ok ==>
        var (s, emitted) := old(SectorStep(r, i, GetState(states, LocAt(r, i)), xfs)).value;
        states == old(states)[LocAt(r, i) := s] && log == old(log) + emitted
    {
      var loc := LocAt(r, i);
      var s := GetState(states, loc);
      match r.op {
        case Lock =>
          if s.locked {
            return false;
          }
          s := s.(locked := true);
        case Unlock =>
          if !xfs && !s.locked {
            return false;
          }
          s := s.(locked := false);
          if s.delayedClear {
            s := s.(dirtied := false);
            if !s.submitted {
              log := log + [Remove(Loc(s.delayedRec.dev, s.delayedRec.sector + i))];
            }
            s := s.(delayedClear := false);
          }
        case Dirty =>
          s := s.(dirtied := true);
          log := log + [Add(loc, r.sigs[i])];
        case Submit =>
          s := s.(submitted := true);
          log := log + [Add(loc, r.sigs[i])];
        case Clean =>
          if s.submitted {
            s := s.(dirtied := false);
          } else if s.locked {
            s := s.(delayedClear := true, delayedRec := Loc(r.dev, r.sector));
          } else {
            s := s.(dirtied := false);
            log := log + [Remove(loc)];
          }
        case WriteDone =>
          s := s.(dirtied := false, delayedClear := false, submitted := false);
          log := log + [Write(loc, r.sigs[i])];
        case ReadDone => log := log + [Read(loc, r.sigs[i])];
        case Ignored =>
      }
      states := states[loc := s];
      return true;
    }
  }

  /* ---- delayed clears ---- */

  /** An unlock can take another sector, with a write in flight, out of the write set: here
      sector 0 is submitted and the unlock of sector 1 removes it. */
  lemma MixedGranularityLosesWrite()
    ensures var log := [RawRec(Submit, 0, 0, 1, [7]), RawRec(Lock, 0, 1, 1, [])]
                     + [RawRec(Clean, 0, 0, 2, []), RawRec(Unlock, 0, 1, 1, [])];
            && ParseAll(log, Parser(map[], []), false).Some?
            && ParseAll(log, Parser(map[], []), false).value.out
               == [Add(Loc(0, 0), 7), Remove(Loc(0, 0))]
  {
    var s0, s1 := FRESH.(submitted := true), FRESH.(locked := true);
    var p := Parser(map[Loc(0, 0) := s0, Loc(0, 1) := s1], [Add(Loc(0, 0), 7)]);
    SubmitThenLock(p);
    CleanThenUnlock(p);
    ParseAllConcat([RawRec(Submit, 0, 0, 1, [7]), RawRec(Lock, 0, 1, 1, [])],
                   [RawRec(Clean, 0, 0, 2, []), RawRec(Unlock, 0, 1, 1, [])],
                   Parser(map[], []), false);
  }

  lemma SubmitThenLock(p: Parser)
    requires p == Parser(map[Loc(0, 0) := FRESH.(submitted := true),
                             Loc(0, 1) := FRESH.(locked := true)], [Add(Loc(0, 0), 7)])
    ensures ParseAll([RawRec(Submit, 0, 0, 1, [7]), RawRec(Lock, 0, 1, 1, [])],
                     Parser(map[], []), false) == Some(p)
  {
    var r0, r1 := RawRec(Submit, 0, 0, 1, [7]), RawRec(Lock, 0, 1, 1, []);
    var q := Parser(map[Loc(0, 0) := FRESH.(submitted := true)], p.out);
    assert [] + p.out == p.out && p.out + [] == p.out;
    assert ParseFrom(r0, 0, Parser(map[], []), false) == ParseFrom(r0, 1, q, false);
    assert q.states[Loc(0, 1) := FRESH.(locked := true)] == p.states;
    assert ParseFrom(r1, 0, q, false) == ParseFrom(r1, 1, p, false);
    assert [r0, r1][1..] == [r1];
  }

  lemma CleanThenUnlock(p: Parser)
    requires p == Parser(map[Loc(0, 0) := FRESH.(submitted := true),
                             Loc(0, 1) := FRESH.(locked := true)], [Add(Loc(0, 0), 7)])
    ensures ParseAll([RawRec(Clean, 0, 0, 2, []), RawRec(Unlock, 0, 1, 1, [])], p, false).Some?
    ensures ParseAll([RawRec(Clean, 0, 0, 2, []), RawRec(Unlock, 0, 1, 1, [])], p, false).value.out
         == [Add(Loc(0, 0), 7), Remove(Loc(0, 0))]
  {
    var r2, r3 := RawRec(Clean, 0, 0, 2, []), RawRec(Unlock, 0, 1, 1, []);
    var q := p.(states := p.states[Loc(0, 1) := FRESH.(locked := true, delayedClear := true)]);
    assert p.out + [] == p.out && p.states[Loc(0, 0) := p.states[Loc(0, 0)]] == p.states;
    assert ParseFrom(r2, 0, p, false) == ParseFrom(r2, 1, p, false) == ParseFrom(r2, 2, q, false);
    var q' := Parser(q.states[Loc(0, 1) := FRESH], p.out + [Remove(Loc(0, 0))]);
    assert ParseFrom(r3, 0, q, false) == ParseFrom(r3, 1, q', false);
    assert [r2, r3][1..] == [r3] && ParseAll([r3], q, false) == Some(q');
  }

  lemma {:induction false} ParseAllConcat(a: seq<RawRec>, b: seq<RawRec>, p: Parser, xfs: bool)
    requires WellFormedLog(a) && WellFormedLog(b)
    ensures WellFormedLog(a + b)
    ensures ParseAll(a + b, p, xfs) ==
            match ParseAll(a, p, xfs) case None => None case Some(q) => ParseAll(b, q, xfs)
  {
    if a == [] {
      assert a + b == b;
    } else {
      assert (a + b)[1..] == a[1..] + b;
      if ParseFrom(a[0], 0, p, xfs).Some? {
        ParseAllConcat(a[1..], b, ParseFrom(a[0], 0, p, xfs).value, xfs);
      }
    }
  }

  /* ---- writes in flight ---- */

  predicate Takes(s: SectorRec, loc: Loc) {
    (s.Remove? || s.Write?) && s.loc == loc
  }

  predicate Covers(r: RawRec, loc: Loc) {
    r.dev == loc.dev && r.sector <= loc.sector < r.sector + r.nsector
  }

  predicate CompletesWrite(r: RawRec, loc: Loc) {
    r.op.WriteDone? && Covers(r, loc)
  }

  predicate InFlight(p: Parser, loc: Loc) {
    GetState(p.states, loc).submitted
  }

  /** The record gives the sector contents with this signature. */
  predicate Gives(r: RawRec, loc: Loc, sig: Sig)
    requires WellFormed(r)
  {
    (r.op.Dirty? || r.op.Submit?) && Covers(r, loc) && r.sigs[loc.sector - r.sector] == sig
  }

  /** Unlocking the j-th sector makes up for a delayed clear, and removes `loc`. */
  predicate RemovesAt(states: States, r: RawRec, j: nat, loc: Loc) {
    var s := GetState(states, LocAt(r, j));
    s.delayedClear && !s.submitted && Loc(s.delayedRec.dev, s.delayedRec.sector + j) == loc
  }

  /** The record is an unlock of some sector whose delayed clear removes `loc`. */
  predicate Misdirects(states: States, r: RawRec, i: nat, loc: Loc) {
    r.op.Unlock? && exists j: nat :: i <= j < r.nsector && RemovesAt(states, r, j, loc)
  }

  predicate NoneTakes(recs: seq<SectorRec>, loc: Loc) {
    forall x :: x in recs ==> !Takes(x, loc)
  }

  predicate NoneWrites(recs: seq<SectorRec>, loc: Loc) {
    forall x :: x in recs && x.Write? ==> x.loc != loc
  }

  lemma NoneTakesWrites(recs: seq<SectorRec>, loc: Loc)
    requires NoneTakes(recs, loc)
    ensures NoneWrites(recs, loc)
  {
    forall x | x in recs && x.Write? ensures x.loc != loc {
      assert !Takes(x, loc);
    }
  }

  /** `q` is `p` after more output, none of which takes `loc` out of the write set. */
  predicate Spares(p: Parser, q: Parser, loc: Loc) {
    p.out <= q.out && NoneTakes(q.out[|p.out|..], loc)
  }

  lemma NoneTakesConcat(a: seq<SectorRec>, b: seq<SectorRec>, loc: Loc)
    ensures NoneTakes(a + b, loc) <==> NoneTakes(a, loc) && NoneTakes(b, loc)
  {
    assert forall x :: x in a || x in b ==> x in a + b;
  }

  /** What one record does to the output, seen from a sector in flight: it takes the sector
      exactly when it is a misdirected unlock, and it adds what it gives. */
  ghost predicate SeenFrom(r: RawRec, i: nat, p: Parser, q: Parser, loc: Loc, sig: Sig)
    requires WellFormed(r) && i <= r.nsector
  {
    && InFlight(q, loc) && p.out <= q.out
    && var more := q.out[|p.out|..];
    && (NoneTakes(more, loc) <==> !Misdirects(p.states, r, i, loc))
    && (Add(loc, sig) in more <==> Gives(r, loc, sig) && i <= loc.sector - r.sector)
    && NoneWrites(more, loc)
  }

  lemma StepSeen(r: RawRec, i: nat, p: Parser, xfs: bool, loc: Loc, sig: Sig)
    requires WellFormed(r) && i < r.nsector && InFlight(p, loc) && !CompletesWrite(r, loc)
    requires SectorStep(r, i, GetState(p.states, LocAt(r, i)), xfs).Some?
    ensures var (s, emitted) := SectorStep(r, i, GetState(p.states, LocAt(r, i)), xfs).value;
      && GetState(p.states[LocAt(r, i) := s], loc).submitted
      && (NoneTakes(emitted, loc) <==> !(r.op.Unlock? && RemovesAt(p.states, r, i, loc)))
      && (Add(loc, sig) in emitted <==> Gives(r, loc, sig) && LocAt(r, i) == loc)
      && NoneWrites(emitted, loc)
  {
    var (s, emitted) := SectorStep(r, i, GetState(p.states, LocAt(r, i)), xfs).value;
    assert emitted == [] || (|emitted| == 1 && emitted[0] in emitted);
  }

  lemma MisdirectsNext(states: States, s: SectorState, r: RawRec, i: nat, loc: Loc)
    requires i < r.nsector
    ensures Misdirects(states, r, i, loc) <==>
      (r.op.Unlock? && RemovesAt(states, r, i, loc)) || Misdirects(states[LocAt(r, i) := s], r, i + 1, loc)
  {
    var next := states[LocAt(r, i) := s];
    forall j: nat | i < j < r.nsector ensures RemovesAt(states, r, j, loc) <==> RemovesAt(next, r, j, loc) {
      assert LocAt(r, j) != LocAt(r, i);
    }
  }

  lemma {:induction false} RecordSeen(r: RawRec, i: nat, p: Parser, xfs: bool, loc: Loc, sig: Sig)
    requires WellFormed(r) && i <= r.nsector && InFlight(p, loc) && !CompletesWrite(r, loc)
    requires ParseFrom(r, i, p, xfs).Some?
    ensures SeenFrom(r, i, p, ParseFrom(r, i, p, xfs).value, loc, sig)
    decreases r.nsector - i
  {
    if i < r.nsector {
      StepSeen(r, i, p, xfs, loc, sig);
      var (s, emitted) := SectorStep(r, i, GetState(p.states, LocAt(r, i)), xfs).value;
      var mid := Parser(p.states[LocAt(r, i) := s], p.out + emitted);
      RecordSeen(r, i + 1, mid, xfs, loc, sig);
      MisdirectsNext(p.states, s, r, i, loc);
      var q := ParseFrom(r, i, p, xfs).value;
      assert q.out[|p.out|..] == emitted + q.out[|mid.out|..];
      NoneTakesConcat(emitted, q.out[|mid.out|..], loc);
    }
  }

  /** A record that does not complete the write spares the sector exactly when it is no
      unlock that makes up for a clear delayed at that distance. */
  lemma RecordSpares(r: RawRec, p: Parser, xfs: bool, loc: Loc)
    requires WellFormed(r) && InFlight(p, loc) && !CompletesWrite(r, loc) && ParseFrom(r, 0, p, xfs).Some?
    ensures InFlight(ParseFrom(r, 0, p, xfs).value, loc)
    ensures Spares(p, ParseFrom(r, 0, p, xfs).value, loc) <==> !Misdirects(p.states, r, 0, loc)
  {
    RecordSeen(r, 0, p, xfs, loc, 0);
  }

  /* ---- whole logs ---- */

  /** Record number `j` of a log is a misdirected unlock. */
  ghost predicate MisdirectsIn(log: seq<RawRec>, j: nat, p: Parser, xfs: bool, loc: Loc)
    requires WellFormedLog(log) && j < |log|
  {
    var q := ParseAll(log[..j], p, xfs);
    q.Some? && Misdirects(q.value.states, log[j], 0, loc)
  }

  ghost predicate NeverCompletes(log: seq<RawRec>, loc: Loc) {
    forall k :: 0 <= k < |log| ==> !CompletesWrite(log[k], loc)
  }

  lemma ParseAllSnoc(log: seq<RawRec>, r: RawRec, p: Parser, xfs: bool)
    requires WellFormedLog(log) && WellFormed(r)
    ensures WellFormedLog(log + [r])
    ensures ParseAll(log + [r], p, xfs) ==
            match ParseAll(log, p, xfs) case None => None case Some(q) => ParseFrom(r, 0, q, xfs)
  {
    ParseAllConcat(log, [r], p, xfs);
    var q := ParseAll(log, p, xfs);
    if q.Some? && ParseFrom(r, 0, q.value, xfs).Some? {
      assert [r][1..] == [];
    }
  }

  lemma MisdirectsSnoc(log: seq<RawRec>, r: RawRec, j: nat, p: Parser, xfs: bool, loc: Loc)
    requires WellFormedLog(log) && WellFormed(r) && WellFormedLog(log + [r]) && j < |log|
    ensures MisdirectsIn(log + [r], j, p, xfs, loc) <==> MisdirectsIn(log, j, p, xfs, loc)
  {
    assert (log + [r])[..j] == log[..j];
  }

  /** Up to its completion a sector in flight is taken from the write set exactly when some
      unlock is misdirected, whatever blocks the records cover. */
  lemma {:induction false} LogSpares(log: seq<RawRec>, p: Parser, xfs: bool, loc: Loc)
    requires WellFormedLog(log) && InFlight(p, loc) && NeverCompletes(log, loc) && ParseAll(log, p, xfs).Some?
    ensures InFlight(ParseAll(log, p, xfs).value, loc) && p.out <= ParseAll(log, p, xfs).value.out
    ensures Spares(p, ParseAll(log, p, xfs).value, loc) <==>
      forall j :: 0 <= j < |log| ==> !MisdirectsIn(log, j, p, xfs, loc)
    decreases |log|
  {
    if log != [] {
      var n := |log| - 1;
      var front, r := log[..n], log[n];
      assert log == front + [r] && log[..n] == front;
      ParseAllSnoc(front, r, p, xfs);
      LogSpares(front, p, xfs, loc);
      var mid, q := ParseAll(front, p, xfs).value, ParseAll(log, p, xfs).value;
      RecordSeen(r, 0, mid, xfs, loc, 0);
      assert q.out[|p.out|..] == mid.out[|p.out|..] + q.out[|mid.out|..];
      NoneTakesConcat(mid.out[|p.out|..], q.out[|mid.out|..], loc);
      forall j | 0 <= j < n ensures MisdirectsIn(log, j, p, xfs, loc) <==> MisdirectsIn(front, j, p, xfs, loc) {
        MisdirectsSnoc(front, r, j, p, xfs, loc);
      }
      assert MisdirectsIn(log, n, p, xfs, loc) <==> Misdirects(mid.states, r, 0, loc);
      assert Spares(p, q, loc) <==> Spares(p, mid, loc) && !MisdirectsIn(log, n, p, xfs, loc);
    }
  }

  /** Some record from the start on gives the sector this signature, and no unlock after
      that is misdirected. At the start it has been given. */
  ghost predicate Held(log: seq<RawRec>, p: Parser, xfs: bool, loc: Loc, sig: Sig)
    requires WellFormedLog(log)
  {
    exists m: nat :: m <= |log| && HeldFrom(log, m, p, xfs, loc, sig)
  }

  ghost predicate HeldFrom(log: seq<RawRec>, m: nat, p: Parser, xfs: bool, loc: Loc, sig: Sig)
    requires WellFormedLog(log) && m <= |log|
  {
    && (m == 0 || Gives(log[m - 1], loc, sig))
    && forall j :: m <= j < |log| ==> !MisdirectsIn(log, j, p, xfs, loc)
  }

  lemma HeldFromSnoc(log: seq<RawRec>, r: RawRec, m: nat, p: Parser, xfs: bool, loc: Loc, sig: Sig)
    requires WellFormedLog(log) && WellFormed(r) && WellFormedLog(log + [r]) && m <= |log|
    ensures HeldFrom(log + [r], m, p, xfs, loc, sig) <==>
      HeldFrom(log, m, p, xfs, loc, sig) && !MisdirectsIn(log + [r], |log|, p, xfs, loc)
  {
    forall j | 0 <= j < |log|
      ensures MisdirectsIn(log + [r], j, p, xfs, loc) <==> MisdirectsIn(log, j, p, xfs, loc)
    {
      MisdirectsSnoc(log, r, j, p, xfs, loc);
    }
  }

  lemma HeldSnoc(log: seq<RawRec>, r: RawRec, p: Parser, xfs: bool, loc: Loc, sig: Sig)
    requires WellFormedLog(log) && WellFormed(r) && WellFormedLog(log + [r])
    ensures Held(log + [r], p, xfs, loc, sig) <==>
      Gives(r, loc, sig) || (Held(log, p, xfs, loc, sig) && !MisdirectsIn(log + [r], |log|, p, xfs, loc))
  {
    var more := log + [r];
    if Gives(r, loc, sig) {
      assert HeldFrom(more, |more|, p, xfs, loc, sig);
    }
    if m: nat :| m <= |log| && HeldFrom(log, m, p, xfs, loc, sig) {
      HeldFromSnoc(log, r, m, p, xfs, loc, sig);
    }
    if m: nat :| m <= |more| && HeldFrom(more, m, p, xfs, loc, sig) {
      if m <= |log| {
        HeldFromSnoc(log, r, m, p, xfs, loc, sig);
      }
    }
  }

  /* ---- the submitted value after replay ---- */

  /** The signature is on disk or among the pending versions. */
  ghost predicate Pending(st: State, loc: Loc, sig: Sig) {
    || (loc in st.disk && st.disk[loc] == sig)
    || (loc in st.cache && sig in st.cache[loc])
  }

  function Lift(recs: seq<SectorRec>): (log: seq<PermRec>)
    ensures |log| == |recs| && forall k :: 0 <= k < |log| ==> log[k] == Sector(recs[k])
  {
    seq(|recs|, k requires 0 <= k < |recs| => Sector(recs[k]))
  }

  /** One sector record that does not write the sector: the signature is pending after it
      when it adds it, or when it was and the record does not take the sector. */
  lemma PendingStep(st: State, r: SectorRec, loc: Loc, sig: Sig)
    requires StateOk(st) && InRange(st, Sector(r)) && loc in st.disk && !(r.Write? && r.loc == loc)
    ensures var now := Step(st, Sector(r));
      && loc in now.disk && now.disk[loc] == st.disk[loc]
      && (Pending(now, loc, sig) <==>
            st.disk[loc] == sig || r == Add(loc, sig) || (Pending(st, loc, sig) && !Takes(r, loc)))
  {
    if r.Add? && r.loc in st.cache {
      AddVersionContents(st.cache[r.loc], r.sig);
    }
  }

  lemma PrefixSlice<T>(a: nat, q: seq<T>, out: seq<T>)
    requires a <= |q| && q <= out
    ensures out[a..|q|] == q[a..]
  {
  }

  /** One record after several. */
  lemma PendingJoin(was: State, mid: State, now: State, part: seq<SectorRec>, r: SectorRec, loc: Loc, sig: Sig)
    requires loc in was.disk && loc in mid.disk && mid.disk[loc] == was.disk[loc]
    requires NoneTakes(part + [r], loc) || Add(loc, sig) !in part + [r]
    requires Pending(mid, loc, sig) <==>
      was.disk[loc] == sig || Add(loc, sig) in part || (Pending(was, loc, sig) && NoneTakes(part, loc))
    requires Pending(now, loc, sig) <==>
      mid.disk[loc] == sig || r == Add(loc, sig) || (Pending(mid, loc, sig) && !Takes(r, loc))
    ensures Pending(now, loc, sig) <==>
      was.disk[loc] == sig || Add(loc, sig) in part + [r] || (Pending(was, loc, sig) && NoneTakes(part + [r], loc))
  {
    NoneTakesConcat(part, [r], loc);
    assert r in [r];
  }

  /** None writes the sector, and if one takes it then none adds the signature. */
  predicate Settled(recs: seq<SectorRec>, loc: Loc, sig: Sig) {
    NoneWrites(recs, loc) && (NoneTakes(recs, loc) || Add(loc, sig) !in recs)
  }

  lemma SettledSnoc(part: seq<SectorRec>, r: SectorRec, loc: Loc, sig: Sig)
    requires Settled(part + [r], loc, sig)
    ensures Settled(part, loc, sig) && !(r.Write? && r.loc == loc)
  {
    NoneTakesConcat(part, [r], loc);
    assert (part + [r])[|part|] == r;
    assert forall x :: x in part ==> x in part + [r];
  }

  lemma SliceSnoc<T>(s: seq<T>, i: nat, j: nat)
    requires i < j <= |s|
    ensures s[i..j] == s[i..j - 1] + [s[j - 1]]
  {
  }

  /** Several of them, one after the other. */
  lemma {:induction false} PendingRange(st: State, out: seq<SectorRec>, log: seq<PermRec>, i: nat, j: nat,
                                        loc: Loc, sig: Sig)
    requires log == Lift(out) && Replayable(st, log) && i <= j <= |out| && loc in st.disk
    requires Settled(out[i..j], loc, sig)
    ensures var was, now := StateAt(st, log, i), StateAt(st, log, j);
      && was.disk[loc] == now.disk[loc]
      && (Pending(now, loc, sig) <==>
            || was.disk[loc] == sig || Add(loc, sig) in out[i..j]
            || (Pending(was, loc, sig) && NoneTakes(out[i..j], loc)))
    decreases j
  {
    if i < j {
      var part, r := out[i..j - 1], out[j - 1];
      SliceSnoc(out, i, j);
      SettledSnoc(part, r, loc, sig);
      PendingRange(st, out, log, i, j - 1, loc, sig);
      StateAtStep(st, log, j - 1);
      var mid := StateAt(st, log, j - 1);
      PendingStep(mid, r, loc, sig);
      PendingJoin(StateAt(st, log, i), mid, Step(mid, Sector(r)), part, r, loc, sig);
    }
  }

  lemma RecordPending(st: State, out: seq<SectorRec>, r: RawRec, p: Parser, xfs: bool, loc: Loc, sig: Sig)
    requires WellFormed(r) && InFlight(p, loc) && !CompletesWrite(r, loc) && ParseFrom(r, 0, p, xfs).Some?
    requires p.out <= ParseFrom(r, 0, p, xfs).value.out <= out && Replayable(st, Lift(out)) && loc in st.disk
    ensures var was := StateAt(st, Lift(out), |p.out|);
      var now := StateAt(st, Lift(out), |ParseFrom(r, 0, p, xfs).value.out|);
      && was.disk[loc] == now.disk[loc]
      && (Pending(now, loc, sig) <==>
            || was.disk[loc] == sig || Gives(r, loc, sig)
            || (Pending(was, loc, sig) && !Misdirects(p.states, r, 0, loc)))
  {
    var q := ParseFrom(r, 0, p, xfs).value;
    RecordSeen(r, 0, p, xfs, loc, sig);
    PrefixSlice(|p.out|, q.out, out);
    PendingRange(st, out, Lift(out), |p.out|, |q.out|, loc, sig);
  }

  /** A signature that is pending at the start is pending up to completion exactly when it
      is on disk or held by the log. */
  lemma {:induction false} LogPending(log: seq<RawRec>, st: State, out: seq<SectorRec>, p: Parser, xfs: bool,
                                      loc: Loc, sig: Sig)
    requires WellFormedLog(log) && InFlight(p, loc) && NeverCompletes(log, loc) && ParseAll(log, p, xfs).Some?
    requires p.out <= ParseAll(log, p, xfs).value.out <= out && Replayable(st, Lift(out)) && loc in st.disk
    requires Pending(StateAt(st, Lift(out), |p.out|), loc, sig)
    ensures var was := StateAt(st, Lift(out), |p.out|);
      var now := StateAt(st, Lift(out), |ParseAll(log, p, xfs).value.out|);
      && was.disk[loc] == now.disk[loc]
      && (Pending(now, loc, sig) <==> was.disk[loc] == sig || Held(log, p, xfs, loc, sig))
    decreases |log|
  {
    if log == [] {
      assert HeldFrom(log, 0, p, xfs, loc, sig);
    } else {
      var n := |log| - 1;
      var front, r := log[..n], log[n];
      assert log == front + [r] && log[..n] == front;
      ParseAllSnoc(front, r, p, xfs);
      LogSpares(front, p, xfs, loc);
      var mid := ParseAll(front, p, xfs).value;
      RecordSeen(r, 0, mid, xfs, loc, sig);
      LogPending(front, st, out, p, xfs, loc, sig);
      RecordPending(st, out, r, mid, xfs, loc, sig);
      HeldSnoc(front, r, p, xfs, loc, sig);
    }
  }

  predicate EndsWithAdd(p: Parser, loc: Loc, sig: Sig) {
    p.out != [] && p.out[|p.out| - 1] == Add(loc, sig)
  }

  /** A submit puts its sector in flight, and nothing in it takes the sector again. */
  lemma {:induction false} SubmitStarts(r: RawRec, i: nat, p: Parser, xfs: bool, k: nat) returns (mid: Parser)
    requires WellFormed(r) && r.op.Submit? && i <= k < r.nsector && ParseFrom(r, i, p, xfs).Some?
    ensures InFlight(ParseFrom(r, i, p, xfs).value, LocAt(r, k))
    ensures EndsWithAdd(mid, LocAt(r, k), r.sigs[k]) && Spares(mid, ParseFrom(r, i, p, xfs).value, LocAt(r, k))
    decreases r.nsector - i
  {
    var (s, emitted) := SectorStep(r, i, GetState(p.states, LocAt(r, i)), xfs).value;
    var q := Parser(p.states[LocAt(r, i) := s], p.out + emitted);
    if i < k {
      mid := SubmitStarts(r, i + 1, q, xfs, k);
    } else {
      mid := q;
      RecordSeen(r, i + 1, q, xfs, LocAt(r, k), 0);
    }
  }

  lemma AddedPending(st: State, out: seq<SectorRec>, n: nat, loc: Loc, sig: Sig)
    requires n < |out| && out[n] == Add(loc, sig) && Replayable(st, Lift(out))
    ensures loc in st.disk && Pending(StateAt(st, Lift(out), n + 1), loc, sig)
  {
    assert InRange(st, Lift(out)[n]);
    StateAtStep(st, Lift(out), n);
    PendingStep(StateAt(st, Lift(out), n), out[n], loc, sig);
  }

  lemma SparedPending(st: State, out: seq<SectorRec>, p: Parser, q: Parser, loc: Loc, sig: Sig)
    requires Spares(p, q, loc) && q.out <= out && Replayable(st, Lift(out)) && loc in st.disk
    requires Pending(StateAt(st, Lift(out), |p.out|), loc, sig)
    ensures Pending(StateAt(st, Lift(out), |q.out|), loc, sig)
  {
    PrefixSlice(|p.out|, q.out, out);
    NoneTakesWrites(q.out[|p.out|..], loc);
    PendingRange(st, out, Lift(out), |p.out|, |q.out|, loc, sig);
  }

  lemma SubmitPending(st: State, out: seq<SectorRec>, r: RawRec, p: Parser, xfs: bool, k: nat)
    requires WellFormed(r) && r.op.Submit? && k < r.nsector && ParseFrom(r, 0, p, xfs).Some?
    requires ParseFrom(r, 0, p, xfs).value.out <= out && Replayable(st, Lift(out))
    ensures LocAt(r, k) in st.disk && InFlight(ParseFrom(r, 0, p, xfs).value, LocAt(r, k))
    ensures Pending(StateAt(st, Lift(out), |ParseFrom(r, 0, p, xfs).value.out|), LocAt(r, k), r.sigs[k])
  {
    var mid := SubmitStarts(r, 0, p, xfs, k);
    var n := |mid.out|;
    assert out[n - 1] == mid.out[n - 1];
    AddedPending(st, out, n - 1, LocAt(r, k), r.sigs[k]);
    SparedPending(st, out, mid, ParseFrom(r, 0, p, xfs).value, LocAt(r, k), r.sigs[k]);
  }

  /** From the submit of a sector up to its completion, whatever blocks the records cover:
      the sector is taken from the write set exactly when some unlock is misdirected, and
      the submitted signature is pending or on disk after replay exactly when it was on
      disk before or is given to the sector with no misdirected unlock after that. */
  lemma InFlightExact(before: seq<RawRec>, submit: RawRec, after: seq<RawRec>,
                      k: nat, xfs: bool, st: State, p1: Parser, p2: Parser)
    requires WellFormedLog(before) && WellFormed(submit) && WellFormedLog(after)
    requires submit.op.Submit? && k < submit.nsector && NeverCompletes(after, LocAt(submit, k))
    requires ParseAll(before + [submit], Parser(map[], []), xfs) == Some(p1)
    requires ParseAll(before + [submit] + after, Parser(map[], []), xfs) == Some(p2)
    requires Replayable(st, Lift(p2.out))
    ensures p1.out <= p2.out && LocAt(submit, k) in st.disk
    ensures Spares(p1, p2, LocAt(submit, k)) <==>
      forall j :: 0 <= j < |after| ==> !MisdirectsIn(after, j, p1, xfs, LocAt(submit, k))
    ensures Pending(StateAt(st, Lift(p2.out), |p2.out|), LocAt(submit, k), submit.sigs[k]) <==>
      || StateAt(st, Lift(p2.out), |p1.out|).disk[LocAt(submit, k)] == submit.sigs[k]
      || Held(after, p1, xfs, LocAt(submit, k), submit.sigs[k])
  {
    var p0, loc, sig := Parser(map[], []), LocAt(submit, k), submit.sigs[k];
    ParseAllConcat(before + [submit], after, p0, xfs);
    ParseAllSnoc(before, submit, p0, xfs);
    var p := ParseAll(before, p0, xfs).value;
    var mid := SubmitStarts(submit, 0, p, xfs, k);
    LogSpares(after, p1, xfs, loc);
    SubmitPending(st, p2.out, submit, p, xfs, k);
    LogPending(after, st, p2.out, p1, xfs, loc, sig);
  }

  /* ---- one block granularity ---- */

  /** Every record covers one aligned block of `g` sectors. */
  predicate OneBlock(r: RawRec, g: nat)
    requires g > 0
  {
    r.nsector == g && r.sector % g == 0
  }

  function BlockOf(loc: Loc, g: nat): Loc
    requires g > 0
  {
    Loc(loc.dev, loc.sector - loc.sector % g)
  }

  /** A delayed clear remembers the block its sector lies in. */
  ghost predicate DelayedInBlock(states: States, g: nat)
    requires g > 0
  {
    forall loc :: loc in states && states[loc].delayedClear ==> states[loc].delayedRec == BlockOf(loc, g)
  }

  lemma BlockOfLocAt(r: RawRec, i: nat, g: nat)
    requires g > 0 && WellFormed(r) && OneBlock(r, g) && i < g
    ensures BlockOf(LocAt(r, i), g) == Loc(r.dev, r.sector)
  {
    var q := r.sector / g;
    assert r.sector == q * g;
    RemainderOfSum(q, i, g);
  }

  lemma RemainderOfSum(q: int, i: nat, g: nat)
    requires i < g
    ensures (q * g + i) % g == i
  {
    var x := q * g + i;
    var k := q - x / g;
    assert k * g == x % g - i;
    assert k >= 1 ==> k * g >= g;
    assert k <= -1 ==> k * g <= 0 - g;
  }

  /** Any block record keeps the delayed-clear invariant. */
  lemma {:induction false} ParseKeepsDelayed(r: RawRec, i: nat, p: Parser, xfs: bool, g: nat)
    requires g > 0 && WellFormed(r) && OneBlock(r, g) && i <= g && DelayedInBlock(p.states, g)
    requires ParseFrom(r, i, p, xfs).Some?
    ensures DelayedInBlock(ParseFrom(r, i, p, xfs).value.states, g)
    decreases g - i
  {
    if i < g {
      BlockOfLocAt(r, i, g);
      var (s, emitted) := SectorStep(r, i, GetState(p.states, LocAt(r, i)), xfs).value;
      ParseKeepsDelayed(r, i + 1, Parser(p.states[LocAt(r, i) := s], p.out + emitted), xfs, g);
    }
  }

  lemma {:induction false} ParseAllKeepsDelayed(log: seq<RawRec>, p: Parser, xfs: bool, g: nat)
    requires g > 0 && DelayedInBlock(p.states, g) && WellFormedLog(log)
    requires forall k :: 0 <= k < |log| ==> OneBlock(log[k], g)
    requires ParseAll(log, p, xfs).Some?
    ensures DelayedInBlock(ParseAll(log, p, xfs).value.states, g)
  {
    if log != [] {
      ParseKeepsDelayed(log[0], 0, p, xfs, g);
      ParseAllKeepsDelayed(log[1..], ParseFrom(log[0], 0, p, xfs).value, xfs, g);
    }
  }

  /** With one block size no unlock is misdirected to a sector in flight. */
  lemma OneBlockDirects(r: RawRec, p: Parser, loc: Loc, g: nat)
    requires g > 0 && WellFormed(r) && OneBlock(r, g) && DelayedInBlock(p.states, g) && InFlight(p, loc)
    ensures !Misdirects(p.states, r, 0, loc)
  {
    forall j: nat | j < r.nsector ensures !RemovesAt(p.states, r, j, loc) {
      BlockOfLocAt(r, j, g);
    }
  }

  /** So in a log of one block size a submitted sector stays in the write set up to its
      completion, and its signature is pending or on disk after replay. */
  lemma InFlightWritesSurvive(before: seq<RawRec>, submit: RawRec, after: seq<RawRec>,
                              k: nat, xfs: bool, g: nat, st: State, p1: Parser, p2: Parser)
    requires g > 0 && WellFormedLog(before) && WellFormed(submit) && WellFormedLog(after)
    requires forall j :: 0 <= j < |before| ==> OneBlock(before[j], g)
    requires forall j :: 0 <= j < |after| ==> OneBlock(after[j], g)
    requires OneBlock(submit, g) && submit.op.Submit? && k < g && NeverCompletes(after, LocAt(submit, k))
    requires ParseAll(before + [submit], Parser(map[], []), xfs) == Some(p1)
    requires ParseAll(before + [submit] + after, Parser(map[], []), xfs) == Some(p2)
    requires Replayable(st, Lift(p2.out))
    ensures Spares(p1, p2, LocAt(submit, k))
    ensures Pending(StateAt(st, Lift(p2.out), |p2.out|), LocAt(submit, k), submit.sigs[k])
  {
    var p0, loc := Parser(map[], []), LocAt(submit, k);
    InFlightExact(before, submit, after, k, xfs, st, p1, p2);
    ParseAllKeepsDelayed(before + [submit], p0, xfs, g);
    ParseAllSnoc(before, submit, p0, xfs);
    var mid := SubmitStarts(submit, 0, ParseAll(before, p0, xfs).value, xfs, k);
    forall j | 0 <= j < |after| ensures !MisdirectsIn(after, j, p1, xfs, loc) {
      var q := ParseAll(after[..j], p1, xfs);
      if q.Some? {
        ParseAllKeepsDelayed(after[..j], p1, xfs, g);
        LogSpares(after[..j], p1, xfs, loc);
        OneBlockDirects(after[j], q.value, loc, g);
      }
    }
    assert HeldFrom(after, 0, p1, xfs, loc, submit.sigs[k]);
  }
}
