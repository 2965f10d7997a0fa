/** The abstract file system: driver/AbstFS.C and driver/AbstFS.h.

    Objects are kept by id, directories map names to ids, and every object counts the
    entries that point to it. File contents are the flat bytes of the file. A file stores a
    signature with them: 0 when it is created, and that of its bytes once it is truncated or
    written, so it is kept whether that has happened. */
module AbstFs {

  import opened Basics

  type Id = int

  type Name = string

  /** The data of a file that was never truncated or written, or what it was left with. */
  datatype Content = Untouched | Written(bytes: seq<int>)

  function BytesIn(c: Content): seq<int> {
    if c.Untouched? then [] else c.bytes
  }

  datatype Obj =
    | File(ref: int, mode: int, content: Content)
    | Dir(ref: int, mode: int, entries: map<Name, Id>)
    | Sym(ref: int, mode: int, text: string)

  type Objs = map<Id, Obj>

  const ROOT: Id := 0
  const ALL_PERM := 511

  /* ---- entries ---- */

  predicate Edge(objs: Objs, p: Id, n: Name, c: Id) {
    p in objs && objs[p].Dir? && n in objs[p].entries && objs[p].entries[n] == c
  }

  /** The entries that point to an id. */
  function InEdges(objs: Objs, c: Id): set<(Id, Name)> {
    set p, n | p in objs && objs[p].Dir? && n in objs[p].entries && objs[p].entries[n] == c :: (p, n)
  }

  predicate IsDir(objs: Objs, p: Id) {
    p in objs && objs[p].Dir?
  }

  predicate HasEntry(objs: Objs, p: Id, n: Name) {
    IsDir(objs, p) && n in objs[p].entries
  }

  /** No entry dangles, and every count is the number of entries. */
  ghost predicate Counted(objs: Objs) {
    && IsDir(objs, ROOT)
    && (forall p, n, c :: Edge(objs, p, n, c) ==> c in objs && c != ROOT)
    && forall c :: c in objs ==> objs[c].ref == |InEdges(objs, c)|
  }

  /** Every entry leads to a higher rank, so there is no cycle. */
  ghost predicate Ranked(objs: Objs, rank: map<Id, nat>) {
    && (forall c :: c in objs ==> c in rank)
    && forall p, n, c :: Edge(objs, p, n, c) ==> p in rank && c in rank && rank[p] < rank[c]
  }

  ghost predicate Acyclic(objs: Objs) {
    exists rank: map<Id, nat> :: Ranked(objs, rank)
  }

  /** The invariant of a file system: a counted, acyclic graph without orphans. */
  ghost predicate WellFormed(objs: Objs) {
    Counted(objs) && Acyclic(objs) && forall c :: c in objs && c != ROOT ==> objs[c].ref > 0
  }

  /* ---- link and unlink ---- */

  function Linked(objs: Objs, p: Id, n: Name, c: Id): Objs
    requires IsDir(objs, p)
  {
    var now := objs[p := objs[p].(entries := objs[p].entries[n := c])];
    if c in now then now[c := now[c].(ref := now[c].ref + 1)] else now
  }

  function Unlinked(objs: Objs, p: Id, n: Name): Objs
    requires HasEntry(objs, p, n)
  {
    var c := objs[p].entries[n];
    var now := objs[p := objs[p].(entries := objs[p].entries - {n})];
    if c !in now then now
    else if now[c].ref == 1 then now - {c}
    else now[c := now[c].(ref := now[c].ref - 1)]
  }

  lemma LinkedEdges(objs: Objs, p: Id, n: Name, c: Id)
    requires IsDir(objs, p) && !HasEntry(objs, p, n)
    ensures forall p', n', c' :: Edge(Linked(objs, p, n, c), p', n', c') <==>
      Edge(objs, p', n', c') || (p' == p && n' == n && c' == c)
  {
  }

  lemma LinkedInEdges(objs: Objs, p: Id, n: Name, c: Id, id: Id)
    requires IsDir(objs, p) && !HasEntry(objs, p, n)
    ensures |InEdges(Linked(objs, p, n, c), id)| == |InEdges(objs, id)| + if id == c then 1 else 0
  {
    LinkedEdges(objs, p, n, c);
    var was, now := InEdges(objs, id), InEdges(Linked(objs, p, n, c), id);
    forall p', n' ensures (p', n') in now <==> Edge(Linked(objs, p, n, c), p', n', id) {
    }
    forall p', n' ensures (p', n') in was <==> Edge(objs, p', n', id) {
    }
    if id == c {
      assert now == was + {(p, n)};
    } else {
      assert now == was;
    }
  }

  /** A link to an object that is there keeps the counts right. */
  lemma LinkedCounted(objs: Objs, p: Id, n: Name, c: Id)
    requires Counted(objs) && IsDir(objs, p) && !HasEntry(objs, p, n) && c in objs && c != ROOT
    ensures Counted(Linked(objs, p, n, c))
  {
    LinkedEdges(objs, p, n, c);
    forall id | id in Linked(objs, p, n, c)
      ensures Linked(objs, p, n, c)[id].ref == |InEdges(Linked(objs, p, n, c), id)|
    {
      LinkedInEdges(objs, p, n, c, id);
    }
  }

  lemma UnlinkedEdges(objs: Objs, p: Id, n: Name)
    requires HasEntry(objs, p, n)
    requires var c := objs[p].entries[n];
      c != p && (c in objs && objs[c].ref == 1 && objs[c].Dir? ==> objs[c].entries == map[])
    ensures forall p', n', c' :: Edge(Unlinked(objs, p, n), p', n', c') <==>
      Edge(objs, p', n', c') && !(p' == p && n' == n)
  {
  }

  lemma UnlinkedInEdges(objs: Objs, p: Id, n: Name, id: Id)
    requires HasEntry(objs, p, n)
    requires forall p', n', c' :: Edge(Unlinked(objs, p, n), p', n', c') <==>
      Edge(objs, p', n', c') && !(p' == p && n' == n)
    ensures |InEdges(Unlinked(objs, p, n), id)| == |InEdges(objs, id)| - if id == objs[p].entries[n] then 1 else 0
  {
    var was, now := InEdges(objs, id), InEdges(Unlinked(objs, p, n), id);
    forall p', n' ensures (p', n') in now <==> Edge(Unlinked(objs, p, n), p', n', id) {
    }
    forall p', n' ensures (p', n') in was <==> Edge(objs, p', n', id) {
    }
    if id == objs[p].entries[n] {
      assert now == was - {(p, n)};
    } else {
      assert now == was;
    }
  }

  lemma UnlinkedObj(objs: Objs, p: Id, n: Name, id: Id)
    requires HasEntry(objs, p, n) && objs[p].entries[n] != p && objs[p].entries[n] in objs
    ensures var c, now := objs[p].entries[n], Unlinked(objs, p, n);
      && (id in now <==> id in objs && !(id == c && objs[c].ref == 1))
      && (id in now ==> now[id].ref == objs[id].ref - (if id == c then 1 else 0) && (now[id].Dir? <==> objs[id].Dir?))
  {
  }

  lemma UnlinkedPoints(objs: Objs, p: Id, n: Name, p': Id, n': Name, c': Id)
    requires Counted(objs) && HasEntry(objs, p, n) && objs[p].entries[n] != p
    requires Edge(Unlinked(objs, p, n), p', n', c') && Edge(objs, p', n', c')
    requires |InEdges(Unlinked(objs, p, n), c')| == |InEdges(objs, c')| - if c' == objs[p].entries[n] then 1 else 0
    ensures c' in Unlinked(objs, p, n) && c' != ROOT
  {
    var now := Unlinked(objs, p, n);
    assert Edge(objs, p, n, objs[p].entries[n]);
    assert (p', n') in InEdges(now, c');
    UnlinkedObj(objs, p, n, c');
  }

  /** An unlink keeps the counts right; the object goes exactly when its last entry does. */
  lemma UnlinkedCounted(objs: Objs, p: Id, n: Name)
    requires Counted(objs) && HasEntry(objs, p, n) && objs[p].entries[n] != p
    requires var c := objs[p].entries[n]; c in objs && objs[c].Dir? && objs[c].ref == 1 ==> objs[c].entries == map[]
    ensures Counted(Unlinked(objs, p, n))
    ensures forall id :: id in Unlinked(objs, p, n) <==>
      id in objs && !(id == objs[p].entries[n] && |InEdges(objs, id)| == 1)
  {
    var now := Unlinked(objs, p, n);
    assert Edge(objs, p, n, objs[p].entries[n]);
    UnlinkedEdges(objs, p, n);
    UnlinkedObj(objs, p, n, ROOT);
    forall id
      ensures id in now <==> id in objs && !(id == objs[p].entries[n] && |InEdges(objs, id)| == 1)
      ensures id in now ==> now[id].ref == |InEdges(now, id)|
    {
      UnlinkedObj(objs, p, n, id);
      UnlinkedInEdges(objs, p, n, id);
    }
    forall p', n', c' | Edge(now, p', n', c') ensures c' in now && c' != ROOT {
      UnlinkedInEdges(objs, p, n, c');
      UnlinkedPoints(objs, p, n, p', n', c');
    }
  }

  lemma AddedEdges(objs: Objs, id: Id, o: Obj, now: Objs)
    requires id !in objs && (o.Dir? ==> o.entries == map[]) && now == objs[id := o]
    ensures forall p, n, c :: Edge(now, p, n, c) <==> Edge(objs, p, n, c)
    ensures forall c :: InEdges(now, c) == InEdges(objs, c)
  {
    assert forall p, n, c :: Edge(now, p, n, c) <==> Edge(objs, p, n, c);
    forall c ensures InEdges(now, c) == InEdges(objs, c) {
      forall p, n ensures (p, n) in InEdges(now, c) <==> Edge(now, p, n, c) {
      }
      forall p, n ensures (p, n) in InEdges(objs, c) <==> Edge(objs, p, n, c) {
      }
    }
  }

  lemma NothingPointsTo(objs: Objs, c: Id)
    requires forall p, n :: !Edge(objs, p, n, c)
    ensures InEdges(objs, c) == {}
  {
    forall p, n ensures (p, n) !in InEdges(objs, c) {
      assert !Edge(objs, p, n, c);
    }
  }

  /** A new object that nothing points to yet. */
  lemma AddedCounted(objs: Objs, id: Id, o: Obj)
    requires Counted(objs) && id !in objs && o.ref == 0 && (o.Dir? ==> o.entries == map[])
    ensures Counted(objs[id := o])
  {
    var now := objs[id := o];
    AddedEdges(objs, id, o, now);
    NothingPointsTo(objs, id);
    forall c | c in now ensures now[c].ref == |InEdges(now, c)| {
      assert InEdges(now, c) == InEdges(objs, c);
    }
    forall p, n, c | Edge(now, p, n, c) ensures c in now && c != ROOT {
      assert Edge(objs, p, n, c);
    }
  }

  /* ---- paths ---- */

  function Resolve(objs: Objs, id: Id, path: seq<Name>): Option<Id>
    decreases path
  {
    if path == [] then Some(id)
    else if !HasEntry(objs, id, path[0]) then None
    else Resolve(objs, objs[id].entries[path[0]], path[1..])
  }

  ghost predicate Reaches(objs: Objs, a: Id, b: Id) {
    exists path :: Resolve(objs, a, path) == Some(b)
  }

  lemma {:induction false} ResolveSnoc(objs: Objs, a: Id, path: seq<Name>, n: Name)
    ensures Resolve(objs, a, path + [n]) ==
      match Resolve(objs, a, path)
      case None => None
      case Some(p) => if HasEntry(objs, p, n) then Some(objs[p].entries[n]) else None
    decreases path
  {
    if path != [] {
      assert (path + [n])[1..] == path[1..] + [n];
      if HasEntry(objs, a, path[0]) {
        ResolveSnoc(objs, objs[a].entries[path[0]], path[1..], n);
      }
    }
  }

  lemma ReachesOn(objs: Objs, a: Id, p: Id, n: Name, c: Id)
    requires Reaches(objs, a, p) && Edge(objs, p, n, c)
    ensures Reaches(objs, a, c)
  {
    var path :| Resolve(objs, a, path) == Some(p);
    ResolveSnoc(objs, a, path, n);
  }

  lemma LeafReaches(objs: Objs, a: Id, b: Id)
    requires (IsDir(objs, a) ==> objs[a].entries == map[]) && a != b
    ensures !Reaches(objs, a, b)
  {
  }

  /* ---- no cycles ---- */

  /** A link keeps the graph acyclic when the child does not lead to the parent: the child
      and all below it are lifted above the parent. */
  lemma LinkedAcyclic(objs: Objs, p: Id, n: Name, c: Id)
    requires Acyclic(objs) && IsDir(objs, p) && !HasEntry(objs, p, n) && c in objs && !Reaches(objs, c, p)
    ensures Acyclic(Linked(objs, p, n, c))
  {
    var rank :| Ranked(objs, rank);
    var now := Linked(objs, p, n, c);
    var lifted := map id | id in rank :: if Reaches(objs, c, id) then rank[id] + rank[p] + 1 else rank[id];
    LinkedEdges(objs, p, n, c);
    assert Resolve(objs, c, []) == Some(c);
    forall p', n', c' | Edge(now, p', n', c')
      ensures p' in lifted && c' in lifted && lifted[p'] < lifted[c']
    {
      if Edge(objs, p', n', c') && Reaches(objs, c, p') {
        ReachesOn(objs, c, p', n', c');
      }
    }
    assert Ranked(now, lifted);
  }

  lemma FewerEdgesAcyclic(objs: Objs, now: Objs)
    requires Acyclic(objs) && now.Keys <= objs.Keys
    requires forall p, n, c :: Edge(now, p, n, c) ==> Edge(objs, p, n, c)
    ensures Acyclic(now)
  {
    var rank :| Ranked(objs, rank);
    assert Ranked(now, rank);
  }

  lemma AddedAcyclic(objs: Objs, id: Id, o: Obj)
    requires Acyclic(objs) && id !in objs && (o.Dir? ==> o.entries == map[])
    requires forall p, n, c :: Edge(objs, p, n, c) ==> c in objs
    ensures Acyclic(objs[id := o])
  {
    var rank :| Ranked(objs, rank);
    var now, more := objs[id := o], rank[id := 0];
    AddedEdges(objs, id, o, now);
    forall p, n, c | Edge(now, p, n, c) ensures p in more && c in more && more[p] < more[c] {
      assert Edge(objs, p, n, c);
    }
    assert Ranked(now, more);
  }

  /* ---- cycles ---- */

  lemma LinkKeepsEntry(objs: Objs, p: Id, n: Name, q: Id, m: Name, c: Id)
    requires HasEntry(objs, p, n) && IsDir(objs, q) && !HasEntry(objs, q, m)
    ensures HasEntry(Linked(objs, q, m, c), p, n) && Linked(objs, q, m, c)[p].entries[n] == objs[p].entries[n]
  {
  }

  lemma {:induction false} LinkedResolve(objs: Objs, p: Id, n: Name, c: Id, a: Id, path: seq<Name>)
    requires IsDir(objs, p) && !HasEntry(objs, p, n) && Resolve(objs, a, path).Some?
    ensures Resolve(Linked(objs, p, n, c), a, path) == Resolve(objs, a, path)
    decreases path
  {
    if path != [] {
      LinkKeepsEntry(objs, a, path[0], p, n, c);
      LinkedResolve(objs, p, n, c, objs[a].entries[path[0]], path[1..]);
    }
  }

  lemma {:induction false} RankAlong(objs: Objs, rank: map<Id, nat>, a: Id, path: seq<Name>)
    requires Ranked(objs, rank) && a in rank && Resolve(objs, a, path).Some?
    ensures Resolve(objs, a, path).value in rank && rank[a] <= rank[Resolve(objs, a, path).value]
    decreases path
  {
    if path != [] {
      assert Edge(objs, a, path[0], objs[a].entries[path[0]]);
      RankAlong(objs, rank, objs[a].entries[path[0]], path[1..]);
    }
  }

  lemma NoWayBack(objs: Objs, p: Id, n: Name)
    requires Acyclic(objs) && HasEntry(objs, p, n)
    ensures !Reaches(objs, objs[p].entries[n], p)
  {
    var c := objs[p].entries[n];
    assert Edge(objs, p, n, c);
    var rank :| Ranked(objs, rank);
    forall path ensures Resolve(objs, c, path) != Some(p) {
      if Resolve(objs, c, path).Some? {
        RankAlong(objs, rank, c, path);
      }
    }
  }

  /** A way from an object to one that has it as an entry is a cycle. */
  lemma Circle(objs: Objs, p: Id, n: Name, path: seq<Name>)
    requires HasEntry(objs, p, n) && Resolve(objs, objs[p].entries[n], path) == Some(p)
    ensures !Acyclic(objs)
  {
    if Acyclic(objs) {
      NoWayBack(objs, p, n);
    }
  }

  /** A way that does not lead to `p` is still there without an entry of `p`. */
  lemma {:induction false} WayKept(objs: Objs, now: Objs, p: Id, n: Name, c: Id, a: Id, path: seq<Name>)
    requires forall p', n', c' :: Edge(objs, p', n', c') && !(p' == p && n' == n) ==> Edge(now, p', n', c')
    requires Reaches(objs, c, a) && !Reaches(objs, c, p) && Resolve(objs, a, path).Some?
    ensures Resolve(now, a, path) == Resolve(objs, a, path)
    decreases path
  {
    if path != [] {
      var b := objs[a].entries[path[0]];
      assert Edge(objs, a, path[0], b);
      ReachesOn(objs, c, a, path[0], b);
      WayKept(objs, now, p, n, c, b, path[1..]);
    }
  }

  /** A link keeps the graph free of cycles exactly when the child does not lead to the
      parent. */
  lemma LinkedExact(objs: Objs, p: Id, n: Name, c: Id)
    requires WellFormed(objs) && IsDir(objs, p) && !HasEntry(objs, p, n) && c in objs && c != ROOT
    ensures Counted(Linked(objs, p, n, c)) && Linked(objs, p, n, c).Keys == objs.Keys
    ensures WellFormed(Linked(objs, p, n, c)) <==> !Reaches(objs, c, p)
  {
    LinkedCounted(objs, p, n, c);
    if Reaches(objs, c, p) {
      LinkedCircle(objs, p, n, c);
    } else {
      LinkedAcyclic(objs, p, n, c);
      LinkedRefs(objs, p, n, c);
    }
  }

  lemma LinkedCircle(objs: Objs, p: Id, n: Name, c: Id)
    requires IsDir(objs, p) && !HasEntry(objs, p, n) && Reaches(objs, c, p)
    ensures !Acyclic(Linked(objs, p, n, c))
  {
    var path :| Resolve(objs, c, path) == Some(p);
    LinkedResolve(objs, p, n, c, c, path);
    Circle(Linked(objs, p, n, c), p, n, path);
  }

  lemma LinkedRefs(objs: Objs, p: Id, n: Name, c: Id)
    requires IsDir(objs, p) && forall x :: x in objs && x != ROOT ==> objs[x].ref > 0
    ensures forall x :: x in Linked(objs, p, n, c) && x != ROOT ==> Linked(objs, p, n, c)[x].ref > 0
  {
  }

  /* ---- the operations on values ---- */

  function Created(objs: Objs, p: Id, n: Name, id: Id, o: Obj): Objs
    requires IsDir(objs, p) && id != p
  {
    Linked(objs[id := o], p, n, id)
  }

  function Renamed(objs: Objs, p: Id, n: Name, q: Id, m: Name): Objs
    requires HasEntry(objs, p, n) && IsDir(objs, q) && !HasEntry(objs, q, m)
  {
    var c := objs[p].entries[n];
    var now := Linked(objs, q, m, c);
    assert HasEntry(now, p, n);
    Unlinked(now, p, n)
  }

  lemma FirstLink(objs: Objs, p: Id, n: Name, id: Id)
    requires Counted(objs) && Acyclic(objs) && IsDir(objs, p) && !HasEntry(objs, p, n)
    requires id in objs && id != ROOT && id != p && (objs[id].Dir? ==> objs[id].entries == map[])
    requires forall c :: c in objs && c != ROOT && c != id ==> objs[c].ref > 0
    ensures WellFormed(Linked(objs, p, n, id)) && Linked(objs, p, n, id).Keys == objs.Keys
  {
    LinkedCounted(objs, p, n, id);
    LeafReaches(objs, id, p);
    LinkedAcyclic(objs, p, n, id);
  }

  lemma CreatedWellFormed(objs: Objs, p: Id, n: Name, id: Id, o: Obj)
    requires WellFormed(objs) && IsDir(objs, p) && !HasEntry(objs, p, n) && id !in objs
    requires o.ref == 0 && (o.Dir? ==> o.entries == map[])
    ensures WellFormed(Created(objs, p, n, id, o))
    ensures Created(objs, p, n, id, o).Keys == objs.Keys + {id}
  {
    AddedCounted(objs, id, o);
    AddedAcyclic(objs, id, o);
    FirstLink(objs[id := o], p, n, id);
  }

  lemma LinkedWellFormed(objs: Objs, p: Id, n: Name, c: Id)
    requires WellFormed(objs) && IsDir(objs, p) && !HasEntry(objs, p, n) && c in objs && c != ROOT
    requires !Reaches(objs, c, p)
    ensures WellFormed(Linked(objs, p, n, c)) && Linked(objs, p, n, c).Keys == objs.Keys
  {
    LinkedCounted(objs, p, n, c);
    LinkedAcyclic(objs, p, n, c);
  }

  lemma SelfEdge(objs: Objs, p: Id, n: Name)
    requires Acyclic(objs)
    ensures !Edge(objs, p, n, p)
  {
    var rank :| Ranked(objs, rank);
  }

  lemma UnlinkedRefs(objs: Objs, p: Id, n: Name)
    requires HasEntry(objs, p, n) && forall c :: c in objs && c != ROOT ==> objs[c].ref > 0
    ensures forall c :: c in Unlinked(objs, p, n) && c != ROOT ==> Unlinked(objs, p, n)[c].ref > 0
    ensures Unlinked(objs, p, n).Keys <= objs.Keys
  {
  }

  lemma UnlinkedAcyclic(objs: Objs, p: Id, n: Name)
    requires Acyclic(objs) && HasEntry(objs, p, n) && Unlinked(objs, p, n).Keys <= objs.Keys
    requires forall p', n', c' :: Edge(Unlinked(objs, p, n), p', n', c') <==>
      Edge(objs, p', n', c') && !(p' == p && n' == n)
    ensures Acyclic(Unlinked(objs, p, n))
  {
    FewerEdgesAcyclic(objs, Unlinked(objs, p, n));
  }

  lemma UnlinkedWellFormed(objs: Objs, p: Id, n: Name)
    requires WellFormed(objs) && HasEntry(objs, p, n)
    requires var c := objs[p].entries[n]; c in objs && objs[c].Dir? && objs[c].ref == 1 ==> objs[c].entries == map[]
    ensures WellFormed(Unlinked(objs, p, n))
    ensures forall id :: id in Unlinked(objs, p, n) <==>
      id in objs && !(id == objs[p].entries[n] && |InEdges(objs, id)| == 1)
  {
    SelfEdge(objs, p, n);
    assert objs[p].entries[n] != p;
    UnlinkedRefs(objs, p, n);
    UnlinkedEdges(objs, p, n);
    UnlinkedAcyclic(objs, p, n);
    UnlinkedCounted(objs, p, n);
  }

  /** Whatever a rename moves where, it changes one entry and keeps the counts right. */
  lemma RenamedCounted(objs: Objs, p: Id, n: Name, q: Id, m: Name)
    requires WellFormed(objs) && HasEntry(objs, p, n) && IsDir(objs, q) && !HasEntry(objs, q, m)
    ensures Counted(Renamed(objs, p, n, q, m)) && Renamed(objs, p, n, q, m).Keys == objs.Keys
    ensures forall p', n', c' :: Edge(Renamed(objs, p, n, q, m), p', n', c') <==>
      (Edge(objs, p', n', c') && !(p' == p && n' == n)) || (p' == q && n' == m && c' == objs[p].entries[n])
  {
    var c := objs[p].entries[n];
    var now := Linked(objs, q, m, c);
    assert Edge(objs, p, n, c);
    SelfEdge(objs, p, n);
    LinkedCounted(objs, q, m, c);
    LinkedEdges(objs, q, m, c);
    LinkedMore(objs, q, m, c);
    assert Edge(now, p, n, c);
    UnlinkedCounted(now, p, n);
    UnlinkedEdges(now, p, n);
    UnlinkedKeys(now, p, n);
  }

  lemma LinkedMore(objs: Objs, q: Id, m: Name, c: Id)
    requires IsDir(objs, q) && !HasEntry(objs, q, m) && c in objs && objs[c].ref > 0
    ensures c in Linked(objs, q, m, c) && Linked(objs, q, m, c)[c].ref > 1 && Linked(objs, q, m, c).Keys == objs.Keys
  {
  }

  lemma UnlinkedKeys(objs: Objs, p: Id, n: Name)
    requires HasEntry(objs, p, n)
    requires var c := objs[p].entries[n]; c != p && c in objs && objs[c].ref != 1
    ensures Unlinked(objs, p, n).Keys == objs.Keys
  {
  }

  /** It keeps the file system well formed exactly when what it moves does not lead to where
      it is moved. */
  lemma RenamedExact(objs: Objs, p: Id, n: Name, q: Id, m: Name)
    requires WellFormed(objs) && HasEntry(objs, p, n) && IsDir(objs, q) && !HasEntry(objs, q, m)
    ensures Counted(Renamed(objs, p, n, q, m)) && Renamed(objs, p, n, q, m).Keys == objs.Keys
    ensures WellFormed(Renamed(objs, p, n, q, m)) <==> !Reaches(objs, objs[p].entries[n], q)
  {
    var c, now := objs[p].entries[n], Renamed(objs, p, n, q, m);
    RenamedCounted(objs, p, n, q, m);
    if Reaches(objs, c, q) {
      var path :| Resolve(objs, c, path) == Some(q);
      NoWayBack(objs, p, n);
      assert Resolve(objs, c, []) == Some(c);
      WayKept(objs, now, p, n, c, c, path);
      assert Edge(now, q, m, c);
      Circle(now, q, m, path);
    } else {
      RenamedWellFormed(objs, p, n, q, m);
    }
  }

  /** A rename keeps every object and its count. */
  lemma RenamedWellFormed(objs: Objs, p: Id, n: Name, q: Id, m: Name)
    requires WellFormed(objs) && HasEntry(objs, p, n) && IsDir(objs, q) && !HasEntry(objs, q, m)
    requires !Reaches(objs, objs[p].entries[n], q)
    ensures WellFormed(Renamed(objs, p, n, q, m)) && Renamed(objs, p, n, q, m).Keys == objs.Keys
    ensures forall p', n', c' :: Edge(Renamed(objs, p, n, q, m), p', n', c') <==>
      (Edge(objs, p', n', c') && !(p' == p && n' == n)) || (p' == q && n' == m && c' == objs[p].entries[n])
  {
    var c := objs[p].entries[n];
    var now := Linked(objs, q, m, c);
    assert Edge(objs, p, n, c);
    LinkedWellFormed(objs, q, m, c);
    LinkedEdges(objs, q, m, c);
    LinkedInEdges(objs, q, m, c, c);
    assert Edge(now, p, n, c) && now[c].ref > 1;
    SelfEdge(now, p, n);
    UnlinkedWellFormed(now, p, n);
    UnlinkedEdges(now, p, n);
  }

  /* ---- cycles that the code makes ---- */

  lemma EmptyWellFormed()
    ensures WellFormed(map[ROOT := Dir(0, ALL_PERM, map[])])
  {
    var objs: Objs := map[ROOT := Dir(0, ALL_PERM, map[])];
    NothingPointsTo(objs, ROOT);
    assert Ranked(objs, map[ROOT := 0]);
  }

  /** A file system with one directory, /d. */
  function OneDir(): Objs {
    map[ROOT := Dir(0, ALL_PERM, map["d" := 1]), 1 := Dir(1, ALL_PERM, map[])]
  }

  lemma OneDirWellFormed()
    ensures WellFormed(OneDir())
  {
    var empty: Objs := map[ROOT := Dir(0, ALL_PERM, map[])];
    EmptyWellFormed();
    CreatedWellFormed(empty, ROOT, "d", 1, Dir(0, ALL_PERM, map[]));
    assert Created(empty, ROOT, "d", 1, Dir(0, ALL_PERM, map[])) == OneDir();
  }

  /** Linking /d as /d/e, and renaming it to that. */
  lemma BelowItselfFails()
    ensures WellFormed(OneDir())
    ensures Counted(Linked(OneDir(), 1, "e", 1)) && !WellFormed(Linked(OneDir(), 1, "e", 1))
    ensures Counted(Renamed(OneDir(), ROOT, "d", 1, "e")) && !WellFormed(Renamed(OneDir(), ROOT, "d", 1, "e"))
  {
    OneDirWellFormed();
    assert Resolve(OneDir(), 1, []) == Some(1);
    LinkedExact(OneDir(), 1, "e", 1);
    RenamedExact(OneDir(), ROOT, "d", 1, "e");
  }

  /* ---- file contents ---- */

  function Padded(b: seq<int>, size: nat): (r: seq<int>)
    ensures |r| >= size && |r| >= |b|
  {
    if |b| >= size then b else b + seq(size - |b|, _ => 0)
  }

  function PwriteBytes(b: seq<int>, off: nat, data: seq<int>): seq<int> {
    var r := Padded(b, off + |data|);
    r[..off] + data + r[off + |data|..]
  }

  function TruncateBytes(b: seq<int>, length: nat): seq<int> {
    Padded(b, length)[..length]
  }

  predicate IsFile(objs: Objs, id: Id) {
    id in objs && objs[id].File?
  }

  function Rewritten(objs: Objs, id: Id, bytes: seq<int>): Objs
    requires IsFile(objs, id)
  {
    objs[id := objs[id].(content := Written(bytes))]
  }

  lemma RewrittenEdges(objs: Objs, id: Id, bytes: seq<int>, now: Objs)
    requires IsFile(objs, id) && now == Rewritten(objs, id, bytes)
    ensures forall p, n, c :: Edge(now, p, n, c) <==> Edge(objs, p, n, c)
    ensures forall c :: InEdges(now, c) == InEdges(objs, c)
  {
    assert forall p, n, c :: Edge(now, p, n, c) <==> Edge(objs, p, n, c);
    forall c ensures InEdges(now, c) == InEdges(objs, c) {
      forall p, n ensures (p, n) in InEdges(now, c) <==> Edge(now, p, n, c) {
      }
      forall p, n ensures (p, n) in InEdges(objs, c) <==> Edge(objs, p, n, c) {
      }
    }
  }

  lemma RewrittenCounted(objs: Objs, id: Id, bytes: seq<int>)
    requires Counted(objs) && IsFile(objs, id)
    ensures Counted(Rewritten(objs, id, bytes))
  {
    var now := Rewritten(objs, id, bytes);
    RewrittenEdges(objs, id, bytes, now);
    forall c | c in now ensures now[c].ref == |InEdges(now, c)| {
      assert InEdges(now, c) == InEdges(objs, c);
    }
  }

  lemma RewrittenWellFormed(objs: Objs, id: Id, bytes: seq<int>)
    requires WellFormed(objs) && IsFile(objs, id)
    ensures WellFormed(Rewritten(objs, id, bytes))
  {
    RewrittenCounted(objs, id, bytes);
    RewrittenEdges(objs, id, bytes, Rewritten(objs, id, bytes));
    FewerEdgesAcyclic(objs, Rewritten(objs, id, bytes));
  }

  /* ---- the operations ---- */

  /** The directory and the name that a path ends in, when the name is free there. */
  function Place(objs: Objs, path: seq<Name>): Option<(Id, Name)> {
    if path == [] then None
    else
      match Resolve(objs, ROOT, path[..|path| - 1])
      case None => None
      case Some(p) =>
        if IsDir(objs, p) && !HasEntry(objs, p, path[|path| - 1]) then Some((p, path[|path| - 1])) else None
  }

  /** The directory and the name of the entry that a path ends in. */
  function Spot(objs: Objs, path: seq<Name>): Option<(Id, Name)> {
    if path == [] then None
    else
      match Resolve(objs, ROOT, path[..|path| - 1])
      case None => None
      case Some(p) => if HasEntry(objs, p, path[|path| - 1]) then Some((p, path[|path| - 1])) else None
  }

  /** Taking an entry of the object away does not delete a directory that has entries. */
  predicate Removable(objs: Objs, c: Id) {
    IsDir(objs, c) && objs[c].ref == 1 ==> objs[c].entries == map[]
  }

  predicate EmptyDirAt(objs: Objs, path: seq<Name>) {
    var at := Spot(objs, path);
    && at.Some? && IsDir(objs, objs[at.value.0].entries[at.value.1])
    && objs[objs[at.value.0].entries[at.value.1]].entries == map[]
  }

  class AbstFS {
    var objs: Objs
    var nextId: Id

    ghost predicate Valid()
      reads this
    {
      WellFormed(objs) && forall c :: c in objs ==> 0 <= c < nextId
    }

    constructor ()
      ensures Valid() && objs == map[ROOT := Dir(0, ALL_PERM, map[])]
    {
      objs := map[ROOT := Dir(0, ALL_PERM, map[])];
      nextId := 1;
      new;
      EmptyWellFormed();
    }

    /** walk_path from the root; the code's assertions fail where this is None. */
    method WalkPath(path: seq<Name>) returns (r: Option<Id>)
      ensures r == Resolve(objs, ROOT, path)
    {
      var o := ROOT;
      for i := 0 to |path|
        invariant Resolve(objs, ROOT, path) == Resolve(objs, o, path[i..])
      {
        assert path[i..][1..] == path[i + 1..];
        if !HasEntry(objs, o, path[i]) {
          return None;
        }
        o := objs[o].entries[path[i]];
      }
      return Some(o);
    }

    method FindPlace(path: seq<Name>) returns (r: Option<(Id, Name)>)
      ensures r == Place(objs, path)
    {
      if path == [] {
        return None;
      }
      var p := WalkPath(path[..|path| - 1]);
      r := if p.Some? && IsDir(objs, p.value) && !HasEntry(objs, p.value, path[|path| - 1])
           then Some((p.value, path[|path| - 1])) else None;
    }

    method FindSpot(path: seq<Name>) returns (r: Option<(Id, Name)>)
      ensures r == Spot(objs, path)
    {
      if path == [] {
        return None;
      }
      var p := WalkPath(path[..|path| - 1]);
      r := if p.Some? && HasEntry(objs, p.value, path[|path| - 1]) then Some((p.value, path[|path| - 1])) else None;
    }

    /** creat, mkdir and symlink: a new object under a free name. */
    method AddNew(path: seq<Name>, o: Obj) returns (ok: bool)
      requires Valid() && o.ref == 0 && (o.Dir? ==> o.entries == map[])
      modifies this
      ensures Valid() && (ok <==> old(Place(objs, path)).Some?)
      ensures !ok ==> unchanged(this)
      ensures ok ==> old(nextId) !in old(objs) && nextId == old(nextId) + 1
      ensures ok ==> var (p, n) := old(Place(objs, path)).value;
        objs == Created(old(objs), p, n, old(nextId), o)
    {
      var at := FindPlace(path);
      if at.None? {
        return false;
      }
      var (p, n) := at.value;
      CreatedWellFormed(objs, p, n, nextId, o);
      objs := Created(objs, p, n, nextId, o);
      nextId := nextId + 1;
      return true;
    }

    method Creat(path: seq<Name>, mode: int) returns (ok: bool)
      requires Valid()
      modifies this
      ensures Valid() && (ok <==> old(Place(objs, path)).Some?)
      ensures !ok ==> unchanged(this)
      ensures ok ==> old(nextId) !in old(objs) && nextId == old(nextId) + 1
      ensures ok ==> var (p, n) := old(Place(objs, path)).value;
        objs == Created(old(objs), p, n, old(nextId), File(0, mode, Untouched))
    {
      ok := AddNew(path, File(0, mode, Untouched));
    }

    method Mkdir(path: seq<Name>, mode: int) returns (ok: bool)
      requires Valid()
      modifies this
      ensures Valid() && (ok <==> old(Place(objs, path)).Some?)
      ensures !ok ==> unchanged(this)
      ensures ok ==> old(nextId) !in old(objs) && nextId == old(nextId) + 1
      ensures ok ==> var (p, n) := old(Place(objs, path)).value;
        objs == Created(old(objs), p, n, old(nextId), Dir(0, mode, map[]))
    {
      ok := AddNew(path, Dir(0, mode, map[]));
    }

    method Symlink(text: string, path: seq<Name>) returns (ok: bool)
      requires Valid()
      modifies this
      ensures Valid() && (ok <==> old(Place(objs, path)).Some?)
      ensures !ok ==> unchanged(this)
      ensures ok ==> old(nextId) !in old(objs) && nextId == old(nextId) + 1
      ensures ok ==> var (p, n) := old(Place(objs, path)).value;
        objs == Created(old(objs), p, n, old(nextId), Sym(0, ALL_PERM, text))
    {
      ok := AddNew(path, Sym(0, ALL_PERM, text));
    }

    /** A hard link. One to a directory that leads to the new place makes a cycle. One to the
        root is refused by the assertion that an entry's id is positive. */
    method Link(from: seq<Name>, path: seq<Name>) returns (ok: bool)
      requires Valid()
      modifies this
      ensures nextId == old(nextId) && (!ok ==> unchanged(this))
      ensures ok <==> LinkTarget(old(objs), from).Some? && old(Place(objs, path)).Some?
      ensures ok ==> var (p, n) := old(Place(objs, path)).value; var c := LinkTarget(old(objs), from).value;
        && objs == Linked(old(objs), p, n, c) && Counted(objs)
        && (Valid() <==> !Reaches(old(objs), c, p))
    {
      var c := WalkPath(from);
      var at := FindPlace(path);
      if c.None? || c.value == ROOT || at.None? {
        return false;
      }
      var (p, n) := at.value;
      ResolvedIn(objs, ROOT, from);
      LinkedExact(objs, p, n, c.value);
      objs := Linked(objs, p, n, c.value);
      return true;
    }

    /** Removes an entry, and with its last entry the object. */
    method Unlink(path: seq<Name>) returns (ok: bool)
      requires Valid()
      requires var at := Spot(objs, path); at.Some? ==> Removable(objs, objs[at.value.0].entries[at.value.1])
      modifies this
      ensures Valid() && nextId == old(nextId) && (ok <==> old(Spot(objs, path)).Some?)
      ensures !ok ==> unchanged(this)
      ensures ok ==> var (p, n) := old(Spot(objs, path)).value;
        && objs == Unlinked(old(objs), p, n)
        && forall id :: id in old(objs) && id !in objs <==>
             id in old(objs) && id == old(objs)[p].entries[n] && |InEdges(old(objs), id)| == 1
    {
      var at := FindSpot(path);
      if at.None? {
        return false;
      }
      var (p, n) := at.value;
      UnlinkedWellFormed(objs, p, n);
      objs := Unlinked(objs, p, n);
      return true;
    }

    /** Removes an empty directory. */
    method Rmdir(path: seq<Name>) returns (ok: bool)
      requires Valid()
      modifies this
      ensures Valid() && nextId == old(nextId)
      ensures ok <==> EmptyDirAt(old(objs), path)
      ensures !ok ==> unchanged(this)
      ensures ok ==> var (p, n) := old(Spot(objs, path)).value; objs == Unlinked(old(objs), p, n)
    {
      var at := FindSpot(path);
      if at.None? {
        return false;
      }
      var (p, n) := at.value;
      var c := objs[p].entries[n];
      if !IsDir(objs, c) || objs[c].entries != map[] {
        return false;
      }
      UnlinkedWellFormed(objs, p, n);
      objs := Unlinked(objs, p, n);
      return true;
    }

    /** Moves an entry to a free name. Moving it below itself makes a cycle. */
    method Rename(from: seq<Name>, path: seq<Name>) returns (ok: bool)
      requires Valid()
      modifies this
      ensures nextId == old(nextId) && (!ok ==> unchanged(this))
      ensures ok <==> old(Spot(objs, from)).Some? && old(Place(objs, path)).Some?
      ensures ok ==> var (p, n) := old(Spot(objs, from)).value; var (q, m) := old(Place(objs, path)).value;
        && objs == Renamed(old(objs), p, n, q, m) && objs.Keys == old(objs).Keys && Counted(objs)
        && (Valid() <==> !Reaches(old(objs), old(objs)[p].entries[n], q))
    {
      var a := FindSpot(from);
      var b := FindPlace(path);
      if a.None? || b.None? {
        return false;
      }
      var (p, n) := a.value;
      var (q, m) := b.value;
      RenamedExact(objs, p, n, q, m);
      objs := Renamed(objs, p, n, q, m);
      return true;
    }

    method Truncate(path: seq<Name>, length: nat) returns (ok: bool)
      requires Valid()
      modifies this`objs
      ensures Valid() && (ok <==> FileAt(old(objs), path))
      ensures !ok ==> objs == old(objs)
      ensures ok ==> var id := Resolve(old(objs), ROOT, path).value;
        objs == Rewritten(old(objs), id, TruncateBytes(BytesIn(old(objs)[id].content), length))
    {
      var id := WalkPath(path);
      if id.None? || !IsFile(objs, id.value) {
        return false;
      }
      var bytes := TruncateBytes(BytesIn(objs[id.value].content), length);
      RewrittenWellFormed(objs, id.value, bytes);
      objs := Rewritten(objs, id.value, bytes);
      return true;
    }

    method Pwrite(path: seq<Name>, off: nat, data: seq<int>) returns (ok: bool)
      requires Valid()
      modifies this`objs
      ensures Valid() && (ok <==> FileAt(old(objs), path))
      ensures !ok ==> objs == old(objs)
      ensures ok ==> var id := Resolve(old(objs), ROOT, path).value;
        objs == Rewritten(old(objs), id, PwriteBytes(BytesIn(old(objs)[id].content), off, data))
    {
      var id := WalkPath(path);
      if id.None? || !IsFile(objs, id.value) {
        return false;
      }
      var bytes := PwriteBytes(BytesIn(objs[id.value].content), off, data);
      RewrittenWellFormed(objs, id.value, bytes);
      objs := Rewritten(objs, id.value, bytes);
      return true;
    }
  }

  /** What a path names, other than the root. */
  function LinkTarget(objs: Objs, path: seq<Name>): Option<Id> {
    var c := Resolve(objs, ROOT, path);
    if c.Some? && c.value != ROOT then c else None
  }

  /** The file that a path names. */
  predicate FileAt(objs: Objs, path: seq<Name>) {
    Resolve(objs, ROOT, path).Some? && IsFile(objs, Resolve(objs, ROOT, path).value)
  }

  lemma {:induction false} ResolvedIn(objs: Objs, id: Id, path: seq<Name>)
    requires Counted(objs) && id in objs
    ensures Resolve(objs, id, path).Some? ==> Resolve(objs, id, path).value in objs
    decreases path
  {
    if path != [] && HasEntry(objs, id, path[0]) {
      assert Edge(objs, id, path[0], objs[id].entries[path[0]]);
      ResolvedIn(objs, objs[id].entries[path[0]], path[1..]);
    }
  }
}
