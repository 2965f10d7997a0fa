/** The recovery cache: crash/Fsck.C.

    A recovery program is deterministic: what it does next depends on the signatures it
    has read. The cache is a tree of reads with the writes of a run at each leaf. */
module FsckCaches {

  import opened Basics
  import opened Sectors

  /* ---- recovery programs ---- */

  datatype Prog =
    | Done
    | Read(loc: Loc, next: map<Sig, Prog>, other: Prog)
    | Write(loc: Loc, sig: Sig, after: Prog)

  function SigAt(d: Disk, loc: Loc): Sig {
    if loc in d then d[loc] else 0
  }

  function Pick(p: Prog, sig: Sig): (q: Prog)
    requires p.Read?
    ensures q < p
  {
    if sig in p.next then p.next[sig] else p.other
  }

  /** Running recovery on a disk. */
  function Exec(p: Prog, d: Disk): Disk {
    match p
    case Done => d
    case Read(loc, _, _) => Exec(Pick(p, SigAt(d, loc)), d)
    case Write(loc, sig, after) => Exec(after, d[loc := sig])
  }

  /** The sector records of a run. */
  function Trace(p: Prog, d: Disk): seq<SectorRec> {
    match p
    case Done => []
    case Read(loc, _, _) => [SectorRec.Read(loc, SigAt(d, loc))] + Trace(Pick(p, SigAt(d, loc)), d)
    case Write(loc, sig, after) => [SectorRec.Write(loc, sig)] + Trace(after, d[loc := sig])
  }

  /* ---- what a run depends on ---- */

  /** A run that stopped: at a first read of a sector it has not written, or at its end. */
  datatype Halt =
    | Need(prog: Prog, known: WriteSet, written: WriteSet)
    | Fin(written: WriteSet)

  /** Runs on from what is known. With `firstOnly` the run is cut at its first write. */
  function Advance(p: Prog, known: WriteSet, written: WriteSet, firstOnly: bool): (h: Halt)
    ensures h.Need? ==> h.prog.Read? && (h.prog == p || h.prog < p)
    ensures h.Need? ==> h.prog.loc !in h.known && h.prog.loc !in h.written
  {
    match p
    case Done => Fin(written)
    case Read(loc, _, _) =>
      if loc in written then Advance(Pick(p, written[loc]), known, written, firstOnly)
      else if loc in known then Advance(Pick(p, known[loc]), known, written, firstOnly)
      else Need(p, known, written)
    case Write(loc, sig, after) =>
      if firstOnly then Fin(written[loc := sig])
      else Advance(after, known, written[loc := sig], firstOnly)
  }

  function Feed(h: Halt, sig: Sig, firstOnly: bool): (r: Halt)
    requires h.Need? && h.prog.Read?
    ensures r.Need? ==> r.prog.Read? && r.prog < h.prog
  {
    Advance(Pick(h.prog, sig), h.known[h.prog.loc := sig], h.written, firstOnly)
  }

  ghost predicate Ready(h: Halt) {
    h.Need? ==> h.prog.Read?
  }

  ghost function Rank(h: Halt): Prog {
    if h.Need? then h.prog else Done
  }

  /** The sectors read first on a disk, in order. */
  ghost function Needs(h: Halt, d: Disk, firstOnly: bool): seq<Loc>
    requires Ready(h)
    decreases h.Need?, Rank(h)
  {
    if h.Fin? then [] else [h.prog.loc] + Needs(Feed(h, SigAt(d, h.prog.loc), firstOnly), d, firstOnly)
  }

  ghost function Writes(h: Halt, d: Disk, firstOnly: bool): WriteSet
    requires Ready(h)
    decreases h.Need?, Rank(h)
  {
    if h.Fin? then h.written else Writes(Feed(h, SigAt(d, h.prog.loc), firstOnly), d, firstOnly)
  }

  function Start(p: Prog, firstOnly: bool): (h: Halt)
    ensures h.Need? ==> h.prog.Read?
  {
    Advance(p, map[], map[], firstOnly)
  }

  ghost predicate Agrees(known: WriteSet, d: Disk) {
    forall loc :: loc in known ==> known[loc] == SigAt(d, loc)
  }

  /** The writes that follow from the first reads are what recovery does to the disk. */
  lemma {:induction false} ExecIsWrites(p: Prog, d: Disk, known: WriteSet, written: WriteSet)
    requires Agrees(known, d)
    ensures Exec(p, d + written) == d + Writes(Advance(p, known, written, false), d, false)
    decreases p
  {
    match p
    case Done =>
    case Read(loc, _, _) =>
      var sig := SigAt(d + written, loc);
      if loc in written || loc in known {
        ExecIsWrites(Pick(p, sig), d, known, written);
      } else {
        ExecIsWrites(Pick(p, sig), d, known[loc := sig], written);
      }
    case Write(loc, sig, after) =>
      assert (d + written)[loc := sig] == d + written[loc := sig];
      ExecIsWrites(after, d, known, written[loc := sig]);
  }

  /* ---- trace extraction ---- */

  datatype Deps = Deps(order: seq<Loc>, rdSet: WriteSet, wrSet: WriteSet)

  const NOTHING := Deps([], map[], map[])

  function Note(r: SectorRec, acc: Deps): Deps {
    match r
    case Read(loc, sig) =>
      if loc !in acc.wrSet && loc !in acc.rdSet
      then Deps(acc.order + [loc], acc.rdSet[loc := sig], acc.wrSet) else acc
    case Write(loc, sig) => acc.(wrSet := acc.wrSet[loc := sig])
    case _ => acc
  }

  ghost function Extract(log: seq<SectorRec>, acc: Deps, firstOnly: bool): Deps {
    if log == [] then acc
    else if firstOnly && log[0].Write? then Note(log[0], acc)
    else Extract(log[1..], Note(log[0], acc), firstOnly)
  }

  method ExtractTrace(log: seq<SectorRec>, firstOnly: bool) returns (r: Deps)
    ensures r == Extract(log, NOTHING, firstOnly)
  {
    r := NOTHING;
    var i := 0;
    while i < |log|
      invariant i <= |log| && Extract(log, NOTHING, firstOnly) == Extract(log[i..], r, firstOnly)
    {
      assert log[i..][1..] == log[i + 1..];
      r := Note(log[i], r);
      if firstOnly && log[i].Write? {
        return;
      }
      i := i + 1;
    }
  }

  lemma ExtractCons(r: SectorRec, log: seq<SectorRec>, acc: Deps, firstOnly: bool)
    ensures Extract([r] + log, acc, firstOnly)
         == if firstOnly && r.Write? then Note(r, acc) else Extract(log, Note(r, acc), firstOnly)
  {
    assert ([r] + log)[1..] == log;
  }

  ghost predicate DepsOk(acc: Deps, d: Disk) {
    Agrees(acc.rdSet, d) && forall loc :: loc in acc.order ==> loc in acc.rdSet
  }

  /** The dependencies `r` extend `acc` by what the run does from `h` on. */
  ghost predicate Extends(acc: Deps, r: Deps, h: Halt, d: Disk, firstOnly: bool)
    requires Ready(h)
  {
    DepsOk(r, d) && r.order == acc.order + Needs(h, d, firstOnly) && r.wrSet == Writes(h, d, firstOnly)
  }

  /** From the log of a run come its first reads and its writes. */
  lemma {:induction false} ExtractIs(p: Prog, d: Disk, acc: Deps, firstOnly: bool)
    requires DepsOk(acc, d)
    ensures Extends(acc, Extract(Trace(p, d + acc.wrSet), acc, firstOnly),
                    Advance(p, acc.rdSet, acc.wrSet, firstOnly), d, firstOnly)
    decreases p
  {
    match p
    case Done =>
      assert acc.order + [] == acc.order;
    case Read(loc, _, _) =>
      var sig := SigAt(d + acc.wrSet, loc);
      ExtractCons(SectorRec.Read(loc, sig), Trace(Pick(p, sig), d + acc.wrSet), acc, firstOnly);
      if loc !in acc.wrSet && loc !in acc.rdSet {
        ExtractRead(p, d, acc, firstOnly);
      } else {
        ExtractIs(Pick(p, sig), d, acc, firstOnly);
      }
    case Write(loc, sig, after) =>
      var next := acc.(wrSet := acc.wrSet[loc := sig]);
      assert (d + acc.wrSet)[loc := sig] == d + next.wrSet;
      ExtractCons(SectorRec.Write(loc, sig), Trace(after, d + next.wrSet), acc, firstOnly);
      if firstOnly {
        assert acc.order + [] == acc.order;
      } else {
        ExtractIs(after, d, next, firstOnly);
      }
  }

  lemma {:induction false} ExtractRead(p: Prog, d: Disk, acc: Deps, firstOnly: bool)
    requires DepsOk(acc, d) && p.Read? && p.loc !in acc.wrSet && p.loc !in acc.rdSet
    ensures Extends(acc, Extract(Trace(Pick(p, SigAt(d, p.loc)), d + acc.wrSet),
                                 Note(SectorRec.Read(p.loc, SigAt(d, p.loc)), acc), firstOnly),
                    Need(p, acc.rdSet, acc.wrSet), d, firstOnly)
    decreases p, 0
  {
    var sig := SigAt(d, p.loc);
    var next := Note(SectorRec.Read(p.loc, sig), acc);
    ExtractIs(Pick(p, sig), d, next, firstOnly);
    var rest := Needs(Feed(Need(p, acc.rdSet, acc.wrSet), sig, firstOnly), d, firstOnly);
    assert acc.order + [p.loc] + rest == acc.order + ([p.loc] + rest);
  }

  /* ---- the cache ---- */

  /** Nodes of the tree; the root is node 0, and a missing entry is a null pointer. */
  datatype Node = Leaf(writes: WriteSet) | Inner(loc: Loc, next: map<Sig, nat>)

  /** Node `i` stands for the runs that halt at `halts[i]`. */
  ghost predicate NodeOk(nodes: seq<Node>, halts: seq<Halt>, i: nat, firstOnly: bool)
    requires |halts| == |nodes| && i < |nodes|
  {
    match nodes[i]
    case Leaf(writes) => halts[i] == Fin(writes)
    case Inner(loc, next) =>
      && halts[i].Need? && halts[i].prog.Read? && halts[i].prog.loc == loc
      && forall sig :: sig in next ==>
           i < next[sig] < |nodes| && halts[next[sig]] == Feed(halts[i], sig, firstOnly)
  }

  ghost predicate TreeOk(nodes: seq<Node>, halts: seq<Halt>, p: Prog, firstOnly: bool) {
    && |halts| == |nodes| && (nodes != [] ==> halts[0] == Start(p, firstOnly))
    && forall i :: 0 <= i < |nodes| ==> NodeOk(nodes, halts, i, firstOnly)
  }

  /** Children come after their parents. */
  ghost predicate Forward(nodes: seq<Node>) {
    forall i, sig :: 0 <= i < |nodes| && nodes[i].Inner? && sig in nodes[i].next ==> i < nodes[i].next[sig] < |nodes|
  }

  datatype Outcome = Hit(writes: WriteSet) | Miss(at: nat, sig: Sig)

  /** Where the reads of a disk lead from node `i`. */
  ghost function Lookup(nodes: seq<Node>, i: nat, d: Disk): Outcome
    requires Forward(nodes) && i < |nodes|
    decreases |nodes| - i
  {
    match nodes[i]
    case Leaf(writes) => Hit(writes)
    case Inner(loc, next) =>
      var sig := SigAt(d, loc);
      if sig in next then Lookup(nodes, next[sig], d) else Miss(i, sig)
  }

  lemma TreeForward(nodes: seq<Node>, halts: seq<Halt>, p: Prog, firstOnly: bool)
    requires TreeOk(nodes, halts, p, firstOnly)
    ensures Forward(nodes)
  {
    forall i, sig | 0 <= i < |nodes| && nodes[i].Inner? && sig in nodes[i].next
      ensures i < nodes[i].next[sig] < |nodes|
    {
      assert NodeOk(nodes, halts, i, firstOnly);
    }
  }

  /** A hit gives the writes of the run. */
  lemma {:induction false} HitIsRun(nodes: seq<Node>, halts: seq<Halt>, p: Prog, firstOnly: bool, i: nat, d: Disk)
    requires TreeOk(nodes, halts, p, firstOnly) && Forward(nodes) && i < |nodes| && Lookup(nodes, i, d).Hit?
    ensures Ready(halts[i]) && Lookup(nodes, i, d).writes == Writes(halts[i], d, firstOnly)
    decreases |nodes| - i
  {
    assert NodeOk(nodes, halts, i, firstOnly);
    if nodes[i].Inner? {
      HitIsRun(nodes, halts, p, firstOnly, nodes[i].next[SigAt(d, nodes[i].loc)], d);
    }
  }

  /* ---- adding a run ---- */

  /** The tree with a new node, under child `sig` of `prev` or as the root. */
  function Linked(nodes: seq<Node>, prev: Option<nat>, sig: Sig, node: Node): seq<Node>
    requires prev.Some? ==> prev.value < |nodes| && nodes[prev.value].Inner?
  {
    match prev
    case None => nodes + [node]
    case Some(j) => nodes[j := Inner(nodes[j].loc, nodes[j].next[sig := |nodes|])] + [node]
  }

  ghost predicate NewFor(node: Node, h: Halt) {
    match node
    case Leaf(writes) => h == Fin(writes)
    case Inner(loc, next) => h.Need? && h.prog.Read? && h.prog.loc == loc && next == map[]
  }

  /** The loop stands below child `sig` of `prev`, or at the root, where the run halts at `h`. */
  ghost predicate Cursor(nodes: seq<Node>, halts: seq<Halt>, p: Prog, firstOnly: bool, d: Disk,
                         prev: Option<nat>, sig: Sig, cur: Option<nat>, h: Halt)
    requires TreeOk(nodes, halts, p, firstOnly) && Forward(nodes)
  {
    && (cur.Some? ==>
          cur.value < |nodes| && halts[cur.value] == h && Lookup(nodes, 0, d) == Lookup(nodes, cur.value, d))
    && match prev
       case None => h == Start(p, firstOnly) && cur == if nodes == [] then None else Some(0)
       case Some(j) =>
         && j < |nodes| && nodes[j].Inner? && NodeOk(nodes, halts, j, firstOnly)
         && h == Feed(halts[j], sig, firstOnly) && sig == SigAt(d, nodes[j].loc)
         && cur == (if sig in nodes[j].next then Some(nodes[j].next[sig]) else None)
         && (cur.None? ==> Lookup(nodes, 0, d) == Miss(j, sig))
  }

  lemma LinkOk(nodes: seq<Node>, halts: seq<Halt>, p: Prog, firstOnly: bool, d: Disk,
               prev: Option<nat>, sig: Sig, h: Halt, node: Node)
    requires TreeOk(nodes, halts, p, firstOnly) && Forward(nodes)
    requires Cursor(nodes, halts, p, firstOnly, d, prev, sig, None, h) && NewFor(node, h)
    ensures TreeOk(Linked(nodes, prev, sig, node), halts + [h], p, firstOnly)
    ensures Forward(Linked(nodes, prev, sig, node))
  {
    var nodes', halts' := Linked(nodes, prev, sig, node), halts + [h];
    forall i | 0 <= i < |nodes'| ensures NodeOk(nodes', halts', i, firstOnly) {
      if i < |nodes| {
        assert NodeOk(nodes, halts, i, firstOnly);
      }
    }
    TreeForward(nodes', halts', p, firstOnly);
  }

  /** A new node only changes where lookups that ended at its place lead. */
  lemma {:induction false} LinkLookup(nodes: seq<Node>, j: nat, sig: Sig, node: Node, i: nat, d: Disk)
    requires Forward(nodes) && i < |nodes| && j < |nodes| && nodes[j].Inner? && sig !in nodes[j].next
    requires Forward(Linked(nodes, Some(j), sig, node))
    ensures var nodes' := Linked(nodes, Some(j), sig, node);
      Lookup(nodes', i, d) ==
        if Lookup(nodes, i, d) == Miss(j, sig) then Lookup(nodes', |nodes|, d) else Lookup(nodes, i, d)
    decreases |nodes| - i
  {
    if nodes[i].Inner? {
      var read := SigAt(d, nodes[i].loc);
      if read in nodes[i].next {
        LinkLookup(nodes, j, sig, node, nodes[i].next[read], d);
      }
    }
  }

  /** The loop follows an existing node: the run needs what the node reads. */
  lemma Follow(nodes: seq<Node>, halts: seq<Halt>, p: Prog, firstOnly: bool, d: Disk,
               prev: Option<nat>, sig: Sig, i: nat, h: Halt)
    requires TreeOk(nodes, halts, p, firstOnly) && Forward(nodes)
    requires Cursor(nodes, halts, p, firstOnly, d, prev, sig, Some(i), h) && h.Need? && h.prog.Read?
    ensures nodes[i].Inner? && nodes[i].loc == h.prog.loc
    ensures var sig' := SigAt(d, h.prog.loc);
      Cursor(nodes, halts, p, firstOnly, d, Some(i), sig',
             if sig' in nodes[i].next then Some(nodes[i].next[sig']) else None, Feed(h, sig', firstOnly))
  {
    assert NodeOk(nodes, halts, i, firstOnly);
  }

  /** A new node is where the lookup of the disk now leads. */
  lemma LinkLeads(nodes: seq<Node>, halts: seq<Halt>, p: Prog, firstOnly: bool, d: Disk,
                  prev: Option<nat>, sig: Sig, h: Halt, node: Node)
    requires TreeOk(nodes, halts, p, firstOnly) && Forward(nodes)
    requires Cursor(nodes, halts, p, firstOnly, d, prev, sig, None, h)
    requires Forward(Linked(nodes, prev, sig, node))
    ensures var nodes' := Linked(nodes, prev, sig, node); Lookup(nodes', 0, d) == Lookup(nodes', |nodes|, d)
  {
    if prev.Some? {
      LinkLookup(nodes, prev.value, sig, node, 0, d);
    }
  }

  /** The loop adds a node for a read that is not there yet. */
  lemma Extend(nodes: seq<Node>, halts: seq<Halt>, p: Prog, firstOnly: bool, d: Disk,
               prev: Option<nat>, sig: Sig, h: Halt)
    requires TreeOk(nodes, halts, p, firstOnly) && Forward(nodes)
    requires Cursor(nodes, halts, p, firstOnly, d, prev, sig, None, h) && h.Need? && h.prog.Read?
    ensures var nodes', sig' := Linked(nodes, prev, sig, Inner(h.prog.loc, map[])), SigAt(d, h.prog.loc);
      && TreeOk(nodes', halts + [h], p, firstOnly) && Forward(nodes')
      && Cursor(nodes', halts + [h], p, firstOnly, d, Some(|nodes|), sig', None, Feed(h, sig', firstOnly))
  {
    var node := Inner(h.prog.loc, map[]);
    LinkOk(nodes, halts, p, firstOnly, d, prev, sig, h, node);
    LinkLeads(nodes, halts, p, firstOnly, d, prev, sig, h, node);
    assert NodeOk(Linked(nodes, prev, sig, node), halts + [h], |nodes|, firstOnly);
  }

  /** Disks that hit in one tree hit in the other, with the same writes. */
  ghost predicate KeepsHits(nodes: seq<Node>, nodes': seq<Node>)
    requires Forward(nodes) && Forward(nodes')
  {
    nodes != [] ==>
      && nodes' != []
      && forall d: Disk :: Lookup(nodes, 0, d).Hit? ==> Lookup(nodes', 0, d) == Lookup(nodes, 0, d)
  }

  lemma LinkKeepsHits(nodes0: seq<Node>, nodes: seq<Node>, prev: Option<nat>, sig: Sig, node: Node)
    requires Forward(nodes0) && Forward(nodes) && KeepsHits(nodes0, nodes)
    requires if prev.None? then nodes == []
             else prev.value < |nodes| && nodes[prev.value].Inner? && sig !in nodes[prev.value].next
    requires Forward(Linked(nodes, prev, sig, node))
    ensures KeepsHits(nodes0, Linked(nodes, prev, sig, node))
  {
    if nodes0 != [] {
      forall d: Disk | Lookup(nodes0, 0, d).Hit?
        ensures Lookup(Linked(nodes, prev, sig, node), 0, d) == Lookup(nodes0, 0, d)
      {
        LinkLookup(nodes, prev.value, sig, node, 0, d);
      }
    }
  }

  /** The rest of the run to add is what the reads from `k` on lead to. */
  ghost predicate Adding(nodes: seq<Node>, halts: seq<Halt>, p: Prog, firstOnly: bool, d: Disk,
                         prev: Option<nat>, sig: Sig, cur: Option<nat>, h: Halt, deps: Deps, k: nat) {
    && TreeOk(nodes, halts, p, firstOnly) && Forward(nodes)
    && Cursor(nodes, halts, p, firstOnly, d, prev, sig, cur, h)
    && (cur.Some? ==> Lookup(nodes, cur.value, d).Miss?)
    && Ready(h) && k <= |deps.order| && (k > 0 ==> prev.Some?)
    && Needs(h, d, firstOnly) == deps.order[k..] && Writes(h, d, firstOnly) == deps.wrSet
  }

  lemma MissIsNeed(nodes: seq<Node>, halts: seq<Halt>, p: Prog, firstOnly: bool, i: nat, d: Disk)
    requires TreeOk(nodes, halts, p, firstOnly) && Forward(nodes) && i < |nodes| && Lookup(nodes, i, d).Miss?
    ensures halts[i].Need?
  {
    assert NodeOk(nodes, halts, i, firstOnly);
  }

  lemma AddingNeeds(nodes: seq<Node>, halts: seq<Halt>, p: Prog, firstOnly: bool, d: Disk,
                    prev: Option<nat>, sig: Sig, cur: Option<nat>, h: Halt, deps: Deps, k: nat)
    requires Adding(nodes, halts, p, firstOnly, d, prev, sig, cur, h, deps, k)
    ensures k < |deps.order| ==> h.Need? && h.prog.Read? && h.prog.loc == deps.order[k]
    ensures k < |deps.order| ==> Needs(Feed(h, SigAt(d, h.prog.loc), firstOnly), d, firstOnly) == deps.order[k + 1..]
    ensures k < |deps.order| ==> Writes(Feed(h, SigAt(d, h.prog.loc), firstOnly), d, firstOnly) == deps.wrSet
    ensures k == |deps.order| ==> h == Fin(deps.wrSet) && cur.None?
  {
    if k < |deps.order| {
      assert deps.order[k..][1..] == deps.order[k + 1..];
    }
    if cur.Some? {
      MissIsNeed(nodes, halts, p, firstOnly, cur.value, d);
    }
  }

  /* ---- runs cut at their first write ---- */

  /** What a hit leaves on a disk. */
  ghost function CachedDisk(p: Prog, d: Disk, firstOnly: bool): Disk {
    d + Writes(Start(p, firstOnly), d, firstOnly)
  }

  /** With all writes recorded, a hit is the same as running recovery. */
  lemma CachedIsExec(p: Prog, d: Disk)
    ensures CachedDisk(p, d, false) == Exec(p, d)
  {
    ExecIsWrites(p, d, map[], map[]);
    assert d + map[] == d;
  }

  /** The first write of a log. */
  function FirstWrite(log: seq<SectorRec>): Option<(Loc, Sig)> {
    if log == [] then None
    else if log[0].Write? then Some((log[0].loc, log[0].sig))
    else FirstWrite(log[1..])
  }

  /** The last signature that a log writes to a sector. */
  function LastWrite(log: seq<SectorRec>, loc: Loc): Option<Sig> {
    if log == [] then None
    else
      var later := LastWrite(log[1..], loc);
      if later.None? && log[0].Write? && log[0].loc == loc then Some(log[0].sig) else later
  }

  /** What is last written to a sector is the first write of the log, or there already. */
  predicate SufficesAt(log: seq<SectorRec>, d: Disk, loc: Loc) {
    LastWrite(log, loc).Some? ==>
      if FirstWrite(log).Some? && FirstWrite(log).value.0 == loc
      then LastWrite(log, loc).value == FirstWrite(log).value.1
      else loc in d && d[loc] == LastWrite(log, loc).value
  }

  /** The first write of the log is the last one to its sector, and every other sector that
      the log writes already holds what is last written to it. */
  ghost predicate FirstWriteSuffices(log: seq<SectorRec>, d: Disk) {
    forall loc :: SufficesAt(log, d, loc)
  }

  lemma {:induction false} ExtractWrites(log: seq<SectorRec>, acc: Deps, loc: Loc)
    ensures var all := Extract(log, acc, false).wrSet;
      && (loc in all <==> LastWrite(log, loc).Some? || loc in acc.wrSet)
      && (LastWrite(log, loc).Some? ==> all[loc] == LastWrite(log, loc).value)
      && (LastWrite(log, loc).None? && loc in acc.wrSet ==> all[loc] == acc.wrSet[loc])
    decreases log
  {
    if log != [] {
      ExtractWrites(log[1..], Note(log[0], acc), loc);
    }
  }

  lemma {:induction false} ExtractFirst(log: seq<SectorRec>, acc: Deps)
    ensures Extract(log, acc, true).wrSet ==
      match FirstWrite(log) case None => acc.wrSet case Some((loc, sig)) => acc.wrSet[loc := sig]
    decreases log
  {
    if log != [] {
      ExtractFirst(log[1..], Note(log[0], acc));
    }
  }

  lemma {:induction false} FirstHasLast(log: seq<SectorRec>)
    requires FirstWrite(log).Some?
    ensures LastWrite(log, FirstWrite(log).value.0).Some?
  {
    if !log[0].Write? {
      FirstHasLast(log[1..]);
    }
  }

  /** The map holds exactly what is last written to each sector. */
  ghost predicate HoldsLast(log: seq<SectorRec>, w: WriteSet) {
    forall loc :: (loc in w <==> LastWrite(log, loc).Some?) && (loc in w ==> w[loc] == LastWrite(log, loc).value)
  }

  function FirstOnly(log: seq<SectorRec>): WriteSet {
    match FirstWrite(log) case None => map[] case Some((loc, sig)) => map[loc := sig]
  }

  /** A run writes what is last written in its log; cut at the first write, only that. */
  lemma LogWrites(p: Prog, d: Disk)
    ensures HoldsLast(Trace(p, d), Writes(Start(p, false), d, false))
    ensures Writes(Start(p, true), d, true) == FirstOnly(Trace(p, d))
  {
    assert d + map[] == d;
    ExtractIs(p, d, NOTHING, false);
    ExtractIs(p, d, NOTHING, true);
    ExtractFirst(Trace(p, d), NOTHING);
    forall loc
      ensures loc in Writes(Start(p, false), d, false) <==> LastWrite(Trace(p, d), loc).Some?
      ensures loc in Writes(Start(p, false), d, false) ==>
        Writes(Start(p, false), d, false)[loc] == LastWrite(Trace(p, d), loc).value
    {
      ExtractWrites(Trace(p, d), NOTHING, loc);
    }
  }

  lemma SufficesOn(log: seq<SectorRec>, d: Disk, w: WriteSet, loc: Loc)
    requires HoldsLast(log, w)
    ensures var a, b := d + FirstOnly(log), d + w;
      SufficesAt(log, d, loc) <==> (loc in a <==> loc in b) && (loc in a && loc in b ==> a[loc] == b[loc])
  {
    if FirstWrite(log).Some? {
      FirstHasLast(log);
    }
  }

  /** As coded, a hit is right on a disk exactly when the first write of the run suffices. */
  lemma FirstOnlyExact(p: Prog, d: Disk)
    ensures CachedDisk(p, d, true) == Exec(p, d) <==> FirstWriteSuffices(Trace(p, d), d)
  {
    CachedIsExec(p, d);
    LogWrites(p, d);
    var log, w := Trace(p, d), Writes(Start(p, false), d, false);
    var a, b := d + FirstOnly(log), d + w;
    forall loc
      ensures SufficesAt(log, d, loc) <==> (loc in a <==> loc in b) && (loc in a && loc in b ==> a[loc] == b[loc])
    {
      SufficesOn(log, d, w, loc);
    }
    SameMaps(a, b);
  }

  lemma SameMaps<K, V>(a: map<K, V>, b: map<K, V>)
    ensures a == b <==> forall k :: (k in a <==> k in b) && (k in a && k in b ==> a[k] == b[k])
  {
  }

  predicate NoWrite(p: Prog) {
    match p
    case Done => true
    case Read(_, next, other) => NoWrite(other) && forall sig :: sig in next ==> NoWrite(next[sig])
    case Write(_, _, _) => false
  }

  predicate OneWrite(p: Prog) {
    match p
    case Done => true
    case Read(_, next, other) => OneWrite(other) && forall sig :: sig in next ==> OneWrite(next[sig])
    case Write(_, _, after) => NoWrite(after)
  }

  lemma {:induction false} NoWriteKeeps(p: Prog, d: Disk, known: WriteSet, written: WriteSet)
    requires NoWrite(p)
    ensures Writes(Advance(p, known, written, false), d, false) == written
    decreases p
  {
    if p.Read? {
      var loc := p.loc;
      var sig := if loc in written then written[loc] else if loc in known then known[loc] else SigAt(d, loc);
      if loc in written || loc in known {
        NoWriteKeeps(Pick(p, sig), d, known, written);
      } else {
        NoWriteKeeps(Pick(p, sig), d, known[loc := sig], written);
      }
    }
  }

  lemma {:induction false} OneWriteSame(p: Prog, d: Disk, known: WriteSet, written: WriteSet)
    requires OneWrite(p)
    ensures Writes(Advance(p, known, written, true), d, true) == Writes(Advance(p, known, written, false), d, false)
    decreases p
  {
    match p
    case Done =>
    case Read(loc, _, _) =>
      var sig := if loc in written then written[loc] else if loc in known then known[loc] else SigAt(d, loc);
      if loc in written || loc in known {
        OneWriteSame(Pick(p, sig), d, known, written);
      } else {
        OneWriteSame(Pick(p, sig), d, known[loc := sig], written);
      }
    case Write(loc, sig, after) => NoWriteKeeps(after, d, known, written[loc := sig]);
  }

  /** As coded, a hit is right for recovery that makes at most one write. */
  lemma OneWriteRight(p: Prog, d: Disk)
    requires OneWrite(p)
    ensures CachedDisk(p, d, true) == Exec(p, d)
  {
    OneWriteSame(p, d, map[], map[]);
    CachedIsExec(p, d);
  }

  /** Recovery that writes two sectors is not repeated by a hit. */
  lemma SecondWriteLost(a: Loc, b: Loc, c: Loc, d: Disk)
    requires b != c && SigAt(d, c) != 2
    ensures var p := Prog.Read(a, map[], Prog.Write(b, 1, Prog.Write(c, 2, Done)));
      CachedDisk(p, d, true) == d[b := 1] && Exec(p, d) == d[b := 1][c := 2] && d[b := 1] != d[b := 1][c := 2]
  {
    var p := Prog.Read(a, map[], Prog.Write(b, 1, Prog.Write(c, 2, Done)));
    var h := Start(p, true);
    assert h == Need(p, map[], map[]);
    assert Feed(h, SigAt(d, a), true) == Fin(map[b := 1]);
    assert Writes(h, d, true) == map[b := 1];
    assert d + map[b := 1] == d[b := 1];
    assert Exec(p, d) == Exec(p.other, d) == Exec(p.other.after, d[b := 1]) == Exec(Done, d[b := 1][c := 2]);
    assert d[b := 1][c := 2][c] != SigAt(d[b := 1], c);
  }

  lemma KeepsHitsOn(a: seq<Node>, b: seq<Node>, c: seq<Node>)
    requires Forward(a) && Forward(b) && Forward(c) && KeepsHits(a, b) && KeepsHits(b, c)
    ensures KeepsHits(a, c)
  {
  }

  class Fsck {

    const prog: Prog
    const firstOnly: bool
    var nodes: seq<Node>
    ghost var halts: seq<Halt>

    ghost predicate Valid()
      reads this
    {
      TreeOk(nodes, halts, prog, firstOnly) && Forward(nodes)
    }

    /** Whether the cache answers for a disk. */
    ghost predicate Hits(d: Disk)
      requires Valid()
      reads this
    {
      nodes != [] && Lookup(nodes, 0, d).Hit?
    }

    constructor (prog: Prog, firstOnly: bool)
      ensures Valid() && nodes == [] && this.prog == prog && this.firstOnly == firstOnly
    {
      this.prog := prog;
      this.firstOnly := firstOnly;
      nodes, halts := [], [];
    }

    /** One step of the loop: to the node for the next read, made if it is not there. */
    method Visit(deps: Deps, k: nat, prev: Option<nat>, sig: Sig, cur: Option<nat>, ghost h: Halt, ghost d: Disk)
        returns (panicked: bool, at: nat, sig': Sig, cur': Option<nat>, ghost h': Halt)
      requires Adding(nodes, halts, prog, firstOnly, d, prev, sig, cur, h, deps, k)
      requires k < |deps.order| && DepsOk(deps, d)
      modifies this
      ensures !panicked && Adding(nodes, halts, prog, firstOnly, d, Some(at), sig', cur', h', deps, k + 1)
      ensures Forward(old(nodes)) && KeepsHits(old(nodes), nodes)
    {
      var loc := deps.order[k];
      AddingNeeds(nodes, halts, prog, firstOnly, d, prev, sig, cur, h, deps, k);
      panicked := false;
      if cur.Some? {
        Follow(nodes, halts, prog, firstOnly, d, prev, sig, cur.value, h);
        at := cur.value;
        panicked := nodes[at].Leaf? || nodes[at].loc != loc;
      } else {
        Extend(nodes, halts, prog, firstOnly, d, prev, sig, h);
        LinkKeepsHits(nodes, nodes, prev, sig, Inner(loc, map[]));
        at := |nodes|;
        nodes, halts := Linked(nodes, prev, sig, Inner(loc, map[])), halts + [h];
      }
      sig' := deps.rdSet[loc];
      cur' := if sig' in nodes[at].next then Some(nodes[at].next[sig']) else None;
      h' := Feed(h, sig', firstOnly);
    }

    /** Adds the first reads and the writes of a run on a disk that misses. The reads always
        fit the tree, so the determinism check never fires. */
    method AddToCache(deps: Deps, ghost d: Disk) returns (panicked: bool)
      requires Valid() && !Hits(d) && deps.order != [] && DepsOk(deps, d)
      requires deps.order == Needs(Start(prog, firstOnly), d, firstOnly)
      requires deps.wrSet == Writes(Start(prog, firstOnly), d, firstOnly)
      modifies this
      ensures !panicked && Valid() && Hits(d) && KeepsHits(old(nodes), nodes)
    {
      var cur: Option<nat>, prev: Option<nat>, sig := if nodes == [] then None else Some(0), None, 0;
      ghost var h := Start(prog, firstOnly);
      panicked := false;
      assert deps.order[0..] == deps.order;
      for k := 0 to |deps.order|
        invariant Adding(nodes, halts, prog, firstOnly, d, prev, sig, cur, h, deps, k)
        invariant KeepsHits(old(nodes), nodes) && !panicked
      {
        var at;
        ghost var before := nodes;
        panicked, at, sig, cur, h := Visit(deps, k, prev, sig, cur, h, d);
        if panicked {
          return;
        }
        prev := Some(at);
        KeepsHitsOn(old(nodes), before, nodes);
      }
      AddLeaf(deps, prev, sig, cur, h, d);
    }

    /** The leaf of a new run. */
    method AddLeaf(deps: Deps, prev: Option<nat>, sig: Sig, cur: Option<nat>, ghost h: Halt, ghost d: Disk)
      requires Adding(nodes, halts, prog, firstOnly, d, prev, sig, cur, h, deps, |deps.order|)
      modifies this
      ensures Valid() && Hits(d) && Forward(old(nodes)) && KeepsHits(old(nodes), nodes)
    {
      AddingNeeds(nodes, halts, prog, firstOnly, d, prev, sig, cur, h, deps, |deps.order|);
      LinkOk(nodes, halts, prog, firstOnly, d, prev, sig, h, Leaf(deps.wrSet));
      LinkLeads(nodes, halts, prog, firstOnly, d, prev, sig, h, Leaf(deps.wrSet));
      LinkKeepsHits(nodes, nodes, prev, sig, Leaf(deps.wrSet));
      nodes, halts := Linked(nodes, prev, sig, Leaf(deps.wrSet)), halts + [h];
    }

    /** Follows the reads of a disk through the tree. */
    method RunCached(d: Disk) returns (hit: bool, d': Disk)
      requires Valid()
      ensures hit <==> Hits(d)
      ensures d' == if hit then CachedDisk(prog, d, firstOnly) else d
    {
      var n := 0;
      while n < |nodes|
        invariant 0 <= n && (n < |nodes| ==> Lookup(nodes, n, d) == Lookup(nodes, 0, d))
        invariant n >= |nodes| ==> !Hits(d)
        decreases |nodes| - n
      {
        match nodes[n]
        case Leaf(writes) =>
          HitIsRun(nodes, halts, prog, firstOnly, 0, d);
          return true, d + writes;
        case Inner(loc, next) =>
          var sig := SigAt(d, loc);
          n := if sig in next then next[sig] else |nodes|;
      }
      return false, d;
    }

    /** Runs recovery and adds what it did to the cache. */
    method RunReal(d: Disk) returns (d': Disk)
      requires Valid() && !Hits(d) && Needs(Start(prog, firstOnly), d, firstOnly) != []
      modifies this
      ensures d' == Exec(prog, d)
      ensures Valid() && Hits(d) && KeepsHits(old(nodes), nodes)
    {
      d' := Exec(prog, d);
      var log := Trace(prog, d);
      var deps := ExtractTrace(log, firstOnly);
      assert d + map[] == d;
      ExtractIs(prog, d, NOTHING, firstOnly);
      assert [] + Needs(Start(prog, firstOnly), d, firstOnly) == Needs(Start(prog, firstOnly), d, firstOnly);
      var panicked := AddToCache(deps, d);
    }

    /** Recovery of a disk, from the cache when it answers. */
    method Run(d: Disk) returns (d': Disk)
      requires Valid() && Needs(Start(prog, firstOnly), d, firstOnly) != []
      modifies this
      ensures Valid() && Hits(d) && KeepsHits(old(nodes), nodes)
      ensures d' == if old(Hits(d)) then CachedDisk(prog, d, firstOnly) else Exec(prog, d)
      ensures d' == Exec(prog, d) <==> !old(Hits(d)) || !firstOnly || FirstWriteSuffices(Trace(prog, d), d)
    {
      var hit;
      hit, d' := RunCached(d);
      if !hit {
        d' := RunReal(d);
      } else if firstOnly {
        FirstOnlyExact(prog, d);
      } else {
        CachedIsExec(prog, d);
      }
    }
  }
}
