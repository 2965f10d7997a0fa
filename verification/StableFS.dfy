/** Pending deltas between the stable and the volatile file system: driver/StableFS.C.

    Calls are replayed as completed pairs on file systems that are not mounted
    synchronously, with files not opened O_SYNC. */
module StableFs {

  import opened AbstFs
  import opened Basics

  datatype Delta =
    | Add(id: Id, obj: Obj)
    | SetLength(id: Id, length: nat)
    | WriteAt(id: Id, off: nat, data: seq<int>)
    | AddEntry(id: Id, name: Name, child: Id)
    | RemoveEntry(id: Id, name: Name, child: Id)

  /** make_delta_stable: None when the delta does not fit. */
  function Apply(objs: Objs, d: Delta): Option<Objs> {
    match d
    case Add(id, obj) => if id in objs then None else Some(objs[id := obj])
    case SetLength(id, length) =>
      if IsFile(objs, id) then Some(Rewritten(objs, id, TruncateBytes(BytesIn(objs[id].content), length))) else None
    case WriteAt(id, off, data) =>
      if IsFile(objs, id) then Some(Rewritten(objs, id, PwriteBytes(BytesIn(objs[id].content), off, data))) else None
    case AddEntry(id, name, child) =>
      if IsDir(objs, id) && !HasEntry(objs, id, name) then Some(Linked(objs, id, name, child)) else None
    case RemoveEntry(id, name, child) =>
      if HasEntry(objs, id, name) && objs[id].entries[name] == child then Some(Unlinked(objs, id, name)) else None
  }

  function ApplyAll(objs: Objs, ds: seq<Delta>): Option<Objs>
    decreases ds
  {
    if ds == [] then Some(objs)
    else
      match Apply(objs, ds[0])
      case None => None
      case Some(next) => ApplyAll(next, ds[1..])
  }

  /** AbstFS::copy: objects are rebuilt with their counts taken from the entries. */
  function Copy(objs: Objs): Objs {
    map id | id in objs :: objs[id].(ref := |InEdges(objs, id)|)
  }

  lemma CopyOfCounted(objs: Objs)
    requires Counted(objs)
    ensures Copy(objs) == objs
  {
  }

  /** unmarshal: objects come back without entries and with no count. */
  function Stripped(o: Obj): Obj {
    match o
    case File(_, mode, content) => File(0, mode, content)
    case Dir(_, mode, _) => Dir(0, mode, map[])
    case Sym(_, mode, text) => Sym(0, mode, text)
  }

  function StripAll(objs: Objs): Objs {
    map id | id in objs :: Stripped(objs[id])
  }

  /** The delayed links, made one after the other. */
  function Relinked(objs: Objs, links: seq<(Id, Name, Id)>): Objs
    decreases links
  {
    if links == [] then objs
    else
      var n := |links| - 1;
      var now, (p, name, c) := Relinked(objs, links[..n]), links[n];
      if IsDir(now, p) then Linked(now, p, name, c) else now
  }

  /** The links are the entries of a file system, each once, in any order. */
  ghost predicate ListsEntries(objs: Objs, links: seq<(Id, Name, Id)>) {
    Distinct(links) && forall p, n, c :: (p, n, c) in links <==> Edge(objs, p, n, c)
  }

  /** Some entries of a file system are in place: objects differ from it in no others, and
      counts are right. */
  ghost predicate PartlyLinked(objs: Objs, links: seq<(Id, Name, Id)>, now: Objs) {
    && now.Keys == objs.Keys
    && (forall id :: id in objs ==> Stripped(now[id]) == Stripped(objs[id]))
    && (forall p, n, c :: Edge(now, p, n, c) <==> (p, n, c) in links)
    && forall c :: c in now ==> now[c].ref == |InEdges(now, c)|
  }

  lemma NothingLinked(objs: Objs)
    ensures PartlyLinked(objs, [], StripAll(objs))
  {
    var now := StripAll(objs);
    forall c | c in now ensures now[c].ref == |InEdges(now, c)| {
      NothingPointsTo(now, c);
    }
  }

  lemma LinkedStripped(now: Objs, p: Id, n: Name, c: Id, id: Id)
    requires IsDir(now, p) && id in now
    ensures Linked(now, p, n, c).Keys == now.Keys && Stripped(Linked(now, p, n, c)[id]) == Stripped(now[id])
  {
  }

  lemma LinkedRef(now: Objs, p: Id, n: Name, c: Id, id: Id)
    requires IsDir(now, p) && !HasEntry(now, p, n) && id in now && now[id].ref == |InEdges(now, id)|
    ensures id in Linked(now, p, n, c) && Linked(now, p, n, c)[id].ref == |InEdges(Linked(now, p, n, c), id)|
  {
    LinkedInEdges(now, p, n, c, id);
  }

  lemma OneMoreLinked(objs: Objs, links: seq<(Id, Name, Id)>, now: Objs, p: Id, n: Name, c: Id)
    requires PartlyLinked(objs, links, now) && Edge(objs, p, n, c) && !HasEntry(now, p, n)
    ensures IsDir(now, p) && PartlyLinked(objs, links + [(p, n, c)], Linked(now, p, n, c))
  {
    assert Stripped(now[p]) == Stripped(objs[p]);
    var next := Linked(now, p, n, c);
    LinkedStripped(now, p, n, c, p);
    forall id | id in objs ensures Stripped(next[id]) == Stripped(objs[id]) {
      LinkedStripped(now, p, n, c, id);
    }
    LinkedEdges(now, p, n, c);
    forall x | x in next ensures next[x].ref == |InEdges(next, x)| {
      LinkedRef(now, p, n, c, x);
    }
  }

  lemma SplitLast<T>(s: seq<T>)
    requires s != []
    ensures s == s[..|s| - 1] + [s[|s| - 1]]
  {
  }

  lemma NotYetLinked(objs: Objs, links: seq<(Id, Name, Id)>, now: Objs, k: nat)
    requires Distinct(links) && k < |links| && PartlyLinked(objs, links[..k], now)
    requires forall i :: 0 <= i < |links| ==> Edge(objs, links[i].0, links[i].1, links[i].2)
    ensures !HasEntry(now, links[k].0, links[k].1)
  {
    var (p, n, c) := links[k];
    assert Edge(objs, p, n, c);
    if HasEntry(now, p, n) {
      assert Edge(now, p, n, now[p].entries[n]);
    }
  }

  lemma {:induction false} RelinkedIs(objs: Objs, links: seq<(Id, Name, Id)>)
    requires Distinct(links) && forall i :: 0 <= i < |links| ==> Edge(objs, links[i].0, links[i].1, links[i].2)
    ensures PartlyLinked(objs, links, Relinked(StripAll(objs), links))
    decreases links
  {
    if links == [] {
      NothingLinked(objs);
    } else {
      var k := |links| - 1;
      var (p, n, c) := links[k];
      RelinkedIs(objs, links[..k]);
      var now := Relinked(StripAll(objs), links[..k]);
      assert Edge(objs, p, n, c);
      NotYetLinked(objs, links, now, k);
      OneMoreLinked(objs, links[..k], now, p, n, c);
      SplitLast(links);
    }
  }

  /** A copy that is rebuilt by making all links again has the same objects and entries, and
      every count is the number of entries. */
  lemma CopyIsRelinked(objs: Objs, links: seq<(Id, Name, Id)>)
    requires ListsEntries(objs, links)
    ensures Relinked(StripAll(objs), links) == Copy(objs)
  {
    forall i | 0 <= i < |links| ensures Edge(objs, links[i].0, links[i].1, links[i].2) {
      assert (links[i].0, links[i].1, links[i].2) in links;
    }
    RelinkedIs(objs, links);
    var now := Relinked(StripAll(objs), links);
    SameEntries(objs, now);
  }

  lemma SameEntries(objs: Objs, now: Objs)
    requires now.Keys == objs.Keys && forall id :: id in objs ==> Stripped(now[id]) == Stripped(objs[id])
    requires forall p, n, c :: Edge(now, p, n, c) <==> Edge(objs, p, n, c)
    requires forall c :: c in now ==> now[c].ref == |InEdges(now, c)|
    ensures now == Copy(objs)
  {
    forall id | id in objs ensures now[id] == Copy(objs)[id] {
      assert Stripped(now[id]) == Stripped(objs[id]);
      forall p, n ensures (p, n) in InEdges(now, id) <==> (p, n) in InEdges(objs, id) {
        assert Edge(now, p, n, id) <==> Edge(objs, p, n, id);
      }
      assert InEdges(now, id) == InEdges(objs, id);
      if objs[id].Dir? {
        SameDir(objs, now, id);
      }
    }
  }

  lemma SameDir(objs: Objs, now: Objs, id: Id)
    requires IsDir(objs, id) && IsDir(now, id)
    requires forall p, n, c :: Edge(now, p, n, c) <==> Edge(objs, p, n, c)
    ensures now[id].entries == objs[id].entries
  {
    forall n ensures n in now[id].entries <==> n in objs[id].entries {
      if n in now[id].entries {
        assert Edge(now, id, n, now[id].entries[n]);
      }
      if n in objs[id].entries {
        assert Edge(objs, id, n, objs[id].entries[n]);
      }
    }
    forall n | n in now[id].entries ensures now[id].entries[n] == objs[id].entries[n] {
      assert Edge(now, id, n, now[id].entries[n]);
    }
  }

  ghost predicate Pointed(objs: Objs) {
    IsDir(objs, ROOT) && forall p, n, c :: Edge(objs, p, n, c) ==> c in objs && c != ROOT
  }

  lemma CopyEdges(objs: Objs)
    ensures forall p, n, c :: Edge(Copy(objs), p, n, c) <==> Edge(objs, p, n, c)
    ensures forall c :: InEdges(Copy(objs), c) == InEdges(objs, c)
  {
    var now := Copy(objs);
    assert forall p, n, c :: Edge(now, p, n, c) <==> Edge(objs, p, n, c);
    forall c ensures InEdges(now, c) == InEdges(objs, c) {
      forall p, n ensures (p, n) in InEdges(now, c) <==> Edge(now, p, n, c) {
      }
      forall p, n ensures (p, n) in InEdges(objs, c) <==> Edge(objs, p, n, c) {
      }
    }
  }

  lemma CopyCounted(objs: Objs)
    requires Pointed(objs)
    ensures Counted(Copy(objs))
  {
    CopyEdges(objs);
  }

  /* ---- deltas that fit ---- */

  /** The delta does what a call did to a file system in this state. */
  ghost predicate Fits(objs: Objs, d: Delta) {
    match d
    case Add(id, obj) => id !in objs && obj.ref == 0 && (obj.Dir? ==> obj.entries == map[])
    case SetLength(id, _) => IsFile(objs, id)
    case WriteAt(id, _, _) => IsFile(objs, id)
    case AddEntry(id, name, child) =>
      IsDir(objs, id) && !HasEntry(objs, id, name) && child in objs && child != ROOT
    case RemoveEntry(id, name, child) =>
      && HasEntry(objs, id, name) && objs[id].entries[name] == child && child != id
      && (child in objs && objs[child].Dir? && objs[child].ref == 1 ==> objs[child].entries == map[])
  }

  function After(objs: Objs, d: Delta): Objs
  {
    match Apply(objs, d)
    case None => objs
    case Some(next) => next
  }

  lemma FitsCounted(objs: Objs, d: Delta)
    requires Counted(objs) && Fits(objs, d)
    ensures Apply(objs, d) == Some(After(objs, d)) && Counted(After(objs, d))
  {
    match d
    case Add(id, obj) => AddedCounted(objs, id, obj);
    case SetLength(id, length) => RewrittenCounted(objs, id, TruncateBytes(BytesIn(objs[id].content), length));
    case WriteAt(id, off, data) => RewrittenCounted(objs, id, PwriteBytes(BytesIn(objs[id].content), off, data));
    case AddEntry(id, name, child) => LinkedCounted(objs, id, name, child);
    case RemoveEntry(id, name, child) => UnlinkedCounted(objs, id, name);
  }

  /** Deltas that lead from one state to another, each fitting in its turn. */
  ghost predicate Leads(objs: Objs, ds: seq<Delta>, final: Objs)
    decreases ds
  {
    if ds == [] then objs == final
    else Fits(objs, ds[0]) && Leads(After(objs, ds[0]), ds[1..], final)
  }

  lemma {:induction false} LeadsApply(objs: Objs, ds: seq<Delta>, final: Objs)
    requires Counted(objs) && Leads(objs, ds, final)
    ensures ApplyAll(objs, ds) == Some(final) && Counted(final)
    decreases ds
  {
    if ds != [] {
      FitsCounted(objs, ds[0]);
      LeadsApply(After(objs, ds[0]), ds[1..], final);
    }
  }

  lemma {:induction false} LeadsOn(objs: Objs, ds: seq<Delta>, mid: Objs, more: seq<Delta>, final: Objs)
    requires Leads(objs, ds, mid) && Leads(mid, more, final)
    ensures Leads(objs, ds + more, final)
    decreases ds
  {
    if ds == [] {
      assert ds + more == more;
    } else {
      assert (ds + more)[1..] == ds[1..] + more;
      LeadsOn(After(objs, ds[0]), ds[1..], mid, more, final);
    }
  }

  /* ---- making one file stable ---- */

  /** The deltas that do not target an object. */
  function Without(ds: seq<Delta>, o: Id): seq<Delta> {
    if ds == [] then []
    else if ds[0].id == o then Without(ds[1..], o)
    else [ds[0]] + Without(ds[1..], o)
  }

  predicate Adds(d: Delta, o: Id) {
    d.Add? && d.id == o
  }

  ghost predicate NeverAdds(ds: seq<Delta>, o: Id) {
    forall i :: 0 <= i < |ds| ==> !Adds(ds[i], o)
  }

  /** An object is added at most once, and not when it is there. */
  ghost predicate AddsOnce(there: bool, ds: seq<Delta>, o: Id)
    decreases ds
  {
    if there then NeverAdds(ds, o)
    else ds == [] || AddsOnce(Adds(ds[0], o), ds[1..], o)
  }

  /** The state with the final contents of one file already in place. */
  function Made(objs: Objs, o: Id, f: Obj): Objs
    requires f.File?
  {
    objs[o := File(if o in objs then objs[o].ref else 0, f.mode, f.content)]
  }

  /** What is not a file, and is not added, does not become one. */
  lemma {:induction false} NotFileStays(objs: Objs, ds: seq<Delta>, final: Objs, o: Id)
    requires Leads(objs, ds, final) && !IsFile(objs, o) && NeverAdds(ds, o)
    ensures !IsFile(final, o)
    decreases ds
  {
    if ds != [] {
      NotFileStep(objs, ds[0], o);
      NotFileStays(After(objs, ds[0]), ds[1..], final, o);
    }
  }

  lemma NotFileStep(objs: Objs, d: Delta, o: Id)
    requires !IsFile(objs, o) && Fits(objs, d) && !Adds(d, o)
    ensures !IsFile(After(objs, d), o) && (o !in objs ==> o !in After(objs, d))
  {
  }

  /** A delta on the file itself makes no difference once its final contents are in place. */
  lemma MadeOwn(objs: Objs, d: Delta, o: Id, f: Obj)
    requires Fits(objs, d) && d.id == o && f.File? && (o in objs ==> IsFile(objs, o))
    ensures Made(After(objs, d), o, f) == Made(objs, o, f) && o in After(objs, d)
  {
  }

  /** Any other delta fits as before, unless it removes the file. */
  lemma MadeStep(objs: Objs, d: Delta, o: Id, f: Obj)
    requires Counted(objs) && Fits(objs, d) && d.id != o && f.File?
    requires o in objs ==> IsFile(objs, o) && o in After(objs, d)
    ensures Fits(Made(objs, o, f), d) && After(Made(objs, o, f), d) == Made(After(objs, d), o, f)
    ensures o in After(objs, d) <==> o in objs
  {
    match d
    case Add(id, obj) =>
    case SetLength(id, length) =>
    case WriteAt(id, off, data) =>
    case AddEntry(id, name, child) => MadeLink(objs, id, name, child, o, f);
    case RemoveEntry(id, name, child) =>
      assert Edge(objs, id, name, child);
      MadeUnlink(objs, id, name, o, f);
  }

  lemma MadeLink(objs: Objs, p: Id, n: Name, c: Id, o: Id, f: Obj)
    requires IsDir(objs, p) && !HasEntry(objs, p, n) && c in objs && p != o && f.File?
    requires o in objs ==> IsFile(objs, o)
    ensures IsDir(Made(objs, o, f), p) && Linked(Made(objs, o, f), p, n, c) == Made(Linked(objs, p, n, c), o, f)
  {
  }

  lemma MadeUnlink(objs: Objs, p: Id, n: Name, o: Id, f: Obj)
    requires HasEntry(objs, p, n) && objs[p].entries[n] != p && objs[p].entries[n] in objs && p != o && f.File?
    requires o in objs ==> IsFile(objs, o) && o in Unlinked(objs, p, n)
    ensures HasEntry(Made(objs, o, f), p, n) && Unlinked(Made(objs, o, f), p, n) == Made(Unlinked(objs, p, n), o, f)
    ensures o in Unlinked(objs, p, n) <==> o in objs
  {
    var c := objs[p].entries[n];
    var cut := objs[p].(entries := objs[p].entries - {n});
    var made := Made(objs, o, f);
    assert made[p := cut] == Made(objs[p := cut], o, f);
    if c == o {
      assert objs[o].ref != 1;
    } else if objs[c].ref == 1 {
      MadeDrop(objs[p := cut], c, o, f);
    } else {
      MadeRef(objs[p := cut], c, o, f, objs[c].ref - 1);
    }
  }

  lemma MadeDrop(objs: Objs, c: Id, o: Id, f: Obj)
    requires f.File? && c != o
    ensures Made(objs, o, f) - {c} == Made(objs - {c}, o, f)
  {
  }

  lemma MadeRef(objs: Objs, c: Id, o: Id, f: Obj, ref: int)
    requires f.File? && c != o && c in objs
    ensures Made(objs, o, f)[c := objs[c].(ref := ref)] == Made(objs[c := objs[c].(ref := ref)], o, f)
  {
  }

  /** With the final contents of a file in place, the other deltas lead to the same state. */
  lemma {:induction false} MadeLeads(objs: Objs, ds: seq<Delta>, final: Objs, o: Id)
    requires Counted(objs) && Leads(objs, ds, final) && IsFile(final, o) && AddsOnce(o in objs, ds, o)
    ensures Leads(Made(objs, o, final[o]), Without(ds, o), final)
    decreases ds
  {
    if ds == [] {
      assert Made(final, o, final[o]) == final;
    } else {
      var d, next := ds[0], After(objs, ds[0]);
      FitsCounted(objs, d);
      FileNow(objs, ds, final, o);
      if d.id == o {
        MadeOwn(objs, d, o, final[o]);
        assert AddsOnce(true, ds[1..], o);
      } else {
        MadeStep(objs, d, o, final[o]);
      }
      MadeLeads(next, ds[1..], final, o);
      WithoutCons(ds, o);
    }
  }

  lemma FileNow(objs: Objs, ds: seq<Delta>, final: Objs, o: Id)
    requires Leads(objs, ds, final) && IsFile(final, o) && AddsOnce(o in objs, ds, o) && ds != []
    ensures o in objs ==> IsFile(objs, o) && IsFile(After(objs, ds[0]), o)
  {
    if o in objs && !IsFile(objs, o) {
      NotFileStays(objs, ds, final, o);
    }
    if o in objs && !IsFile(After(objs, ds[0]), o) {
      NotFileStays(After(objs, ds[0]), ds[1..], final, o);
    }
  }

  lemma WithoutCons(ds: seq<Delta>, o: Id)
    requires ds != []
    ensures Without(ds, o) == if ds[0].id == o then Without(ds[1..], o) else [ds[0]] + Without(ds[1..], o)
    ensures ds[0].id != o ==> Without(ds, o)[0] == ds[0] && Without(ds, o)[1..] == Without(ds[1..], o)
  {
  }

  /* ---- what each call adds ---- */

  lemma LeadsTwo(objs: Objs, a: Delta, b: Delta)
    requires Fits(objs, a) && Fits(After(objs, a), b)
    ensures Leads(objs, [a, b], After(After(objs, a), b))
  {
    assert [a, b][1..] == [b] && [b][1..] == [];
    assert Leads(After(objs, a), [b], After(After(objs, a), b));
  }

  lemma CreateLeads(objs: Objs, p: Id, n: Name, id: Id, o: Obj)
    requires IsDir(objs, p) && !HasEntry(objs, p, n) && id !in objs && id != ROOT
    requires o.ref == 0 && (o.Dir? ==> o.entries == map[])
    ensures Leads(objs, [Add(id, o), AddEntry(p, n, id)], Created(objs, p, n, id, o))
  {
    LeadsTwo(objs, Add(id, o), AddEntry(p, n, id));
  }

  /** The name left in a reused buffer: the old leaf is copied over the new one without a
      terminator, so a longer new leaf shows through. */
  function LeftName(newLeaf: Name, oldLeaf: Name): Name {
    if |newLeaf| > |oldLeaf| then oldLeaf + newLeaf[|oldLeaf|..] else oldLeaf
  }

  function RenameDeltas(objs: Objs, p: Id, n: Name, q: Id, m: Name): seq<Delta>
    requires HasEntry(objs, p, n)
  {
    [AddEntry(q, m, objs[p].entries[n]), RemoveEntry(p, LeftName(m, n), objs[p].entries[n])]
  }

  lemma RenameLeads(objs: Objs, p: Id, n: Name, q: Id, m: Name)
    requires WellFormed(objs) && HasEntry(objs, p, n) && IsDir(objs, q) && !HasEntry(objs, q, m)
    requires |m| <= |n|
    ensures Leads(objs, RenameDeltas(objs, p, n, q, m), Renamed(objs, p, n, q, m))
  {
    var c := objs[p].entries[n];
    var mid := Linked(objs, q, m, c);
    assert Edge(objs, p, n, c);
    SelfEdge(objs, p, n);
    assert HasEntry(mid, p, n) && mid[p].entries[n] == c && mid[c].ref > 1;
    LeadsTwo(objs, AddEntry(q, m, c), RemoveEntry(p, n, c));
  }

  /** The deltas of a rename do what the rename did exactly when the new leaf is not longer
      than the old one. */
  lemma RenameDeltasExact(objs: Objs, p: Id, n: Name, q: Id, m: Name)
    requires WellFormed(objs) && HasEntry(objs, p, n) && IsDir(objs, q) && !HasEntry(objs, q, m)
    ensures ApplyAll(objs, RenameDeltas(objs, p, n, q, m)) == Some(Renamed(objs, p, n, q, m)) <==> |m| <= |n|
  {
    var c := objs[p].entries[n];
    if |m| <= |n| {
      RenameLeads(objs, p, n, q, m);
      LeadsApply(objs, RenameDeltas(objs, p, n, q, m), Renamed(objs, p, n, q, m));
    } else {
      var mid, wrong := Linked(objs, q, m, c), RemoveEntry(p, LeftName(m, n), c);
      ApplyTwo(objs, AddEntry(q, m, c), wrong);
      if Apply(mid, wrong).Some? {
        WrongEntryStays(objs, p, n, q, m);
      }
    }
  }

  lemma ApplyTwo(objs: Objs, a: Delta, b: Delta)
    ensures ApplyAll(objs, [a, b]) ==
      match Apply(objs, a)
      case None => None
      case Some(next) => Apply(next, b)
  {
    assert [a, b][1..] == [b] && [b][1..] == [];
    if Apply(objs, a).Some? {
      var next := Apply(objs, a).value;
      assert ApplyAll(objs, [a, b]) == ApplyAll(next, [b]);
      if Apply(next, b).Some? {
        assert ApplyAll(next, [b]) == ApplyAll(Apply(next, b).value, []);
      }
    }
  }

  lemma OtherEntryStays(objs: Objs, p: Id, n: Name, w: Name)
    requires HasEntry(objs, p, n) && HasEntry(objs, p, w) && w != n && objs[p].entries[w] != p
    ensures Edge(Unlinked(objs, p, w), p, n, objs[p].entries[n])
  {
  }

  lemma WrongEntryStays(objs: Objs, p: Id, n: Name, q: Id, m: Name)
    requires WellFormed(objs) && HasEntry(objs, p, n) && IsDir(objs, q) && !HasEntry(objs, q, m)
    requires |m| > |n|
    requires var c := objs[p].entries[n]; Apply(Linked(objs, q, m, c), RemoveEntry(p, LeftName(m, n), c)).Some?
    ensures var c := objs[p].entries[n];
      Apply(Linked(objs, q, m, c), RemoveEntry(p, LeftName(m, n), c)).value != Renamed(objs, p, n, q, m)
  {
    var c := objs[p].entries[n];
    SelfEdge(objs, p, n);
    assert Edge(objs, p, n, c);
    LinkKeepsEntry(objs, p, n, q, m, c);
    assert |LeftName(m, n)| == |m|;
    OtherEntryStays(Linked(objs, q, m, c), p, n, LeftName(m, n));
    NotRenamedEdge(objs, p, n, q, m);
  }

  lemma NotRenamedEdge(objs: Objs, p: Id, n: Name, q: Id, m: Name)
    requires HasEntry(objs, p, n) && IsDir(objs, q) && !HasEntry(objs, q, m)
    ensures !Edge(Renamed(objs, p, n, q, m), p, n, objs[p].entries[n])
  {
  }

  /** Renaming /a to /bb leaves a delta that does not fit. */
  lemma LongerRenameFails()
    ensures var objs: Objs := map[ROOT := Dir(0, ALL_PERM, map["a" := 1]), 1 := File(1, ALL_PERM, Untouched)];
      HasEntry(objs, ROOT, "a") && ApplyAll(objs, RenameDeltas(objs, ROOT, "a", ROOT, "bb")).None?
  {
    var objs: Objs := map[ROOT := Dir(0, ALL_PERM, map["a" := 1]), 1 := File(1, ALL_PERM, Untouched)];
    var ds := RenameDeltas(objs, ROOT, "a", ROOT, "bb");
    var mid := Linked(objs, ROOT, "bb", 1);
    assert LeftName("bb", "a") == "ab";
    ApplyTwo(objs, ds[0], ds[1]);
    assert Apply(objs, ds[0]) == Some(mid);
    assert "ab" !in mid[ROOT].entries;
    assert Apply(mid, ds[1]).None?;
    assert ds == [ds[0], ds[1]];
  }

  /* ---- the invariant ---- */

  ghost predicate Explained(stable: Objs, pending: seq<Delta>, vol: Objs) {
    Pointed(stable) && Leads(Copy(stable), pending, vol) && forall o :: AddsOnce(o in stable, pending, o)
  }

  ghost predicate Below(stable: Objs, pending: seq<Delta>, nextId: Id) {
    && (forall id :: id in stable ==> id < nextId)
    && forall i :: 0 <= i < |pending| && pending[i].Add? ==> pending[i].id < nextId
  }

  /** The pending deltas, applied in order to a copy of the stable file system, give the
      volatile one. */
  lemma ExplainedApplies(stable: Objs, pending: seq<Delta>, vol: Objs)
    requires Explained(stable, pending, vol)
    ensures ApplyAll(Copy(stable), pending) == Some(vol)
  {
    CopyCounted(stable);
    LeadsApply(Copy(stable), pending, vol);
  }

  lemma {:induction false} ApplyAllConcat(objs: Objs, a: seq<Delta>, b: seq<Delta>)
    ensures ApplyAll(objs, a + b) ==
      match ApplyAll(objs, a) case None => None case Some(next) => ApplyAll(next, b)
    decreases a
  {
    if a == [] {
      EmptyConcat(b);
    } else {
      assert (a + b)[1..] == a[1..] + b;
      if Apply(objs, a[0]).Some? {
        ApplyAllConcat(Apply(objs, a[0]).value, a[1..], b);
      }
    }
  }

  /** With the deltas of a rename to a longer leaf, nothing is explained any more. */
  lemma WrongUnexplained(stable: Objs, pending: seq<Delta>, was: Objs, p: Id, n: Name, q: Id, m: Name)
    requires Explained(stable, pending, was) && WellFormed(was)
    requires HasEntry(was, p, n) && IsDir(was, q) && !HasEntry(was, q, m) && |m| > |n|
    ensures !Explained(stable, pending + RenameDeltas(was, p, n, q, m), Renamed(was, p, n, q, m))
  {
    var more, now := RenameDeltas(was, p, n, q, m), Renamed(was, p, n, q, m);
    ExplainedApplies(stable, pending, was);
    ApplyAllConcat(Copy(stable), pending, more);
    RenameDeltasExact(was, p, n, q, m);
    if Explained(stable, pending + more, now) {
      ExplainedApplies(stable, pending + more, now);
    }
  }

  lemma {:induction false} NeverAddsOnce(ds: seq<Delta>, o: Id)
    requires NeverAdds(ds, o)
    ensures AddsOnce(false, ds, o)
    decreases ds
  {
    if ds != [] {
      assert !Adds(ds[0], o);
      NeverAddsOnce(ds[1..], o);
    }
  }

  lemma {:induction false} AddsOnceMore(there: bool, ds: seq<Delta>, more: seq<Delta>, o: Id)
    requires AddsOnce(there, ds, o) && NeverAdds(more, o)
    ensures AddsOnce(there, ds + more, o)
    decreases ds
  {
    if !there {
      if ds == [] {
        assert ds + more == more;
        NeverAddsOnce(more, o);
      } else {
        assert (ds + more)[1..] == ds[1..] + more;
        AddsOnceMore(Adds(ds[0], o), ds[1..], more, o);
      }
    }
  }

  lemma {:induction false} AddsOnceLater(ds: seq<Delta>, more: seq<Delta>, o: Id)
    requires NeverAdds(ds, o) && AddsOnce(false, more, o)
    ensures AddsOnce(false, ds + more, o)
    decreases ds
  {
    if ds == [] {
      assert ds + more == more;
    } else {
      assert !Adds(ds[0], o);
      assert (ds + more)[1..] == ds[1..] + more;
      AddsOnceLater(ds[1..], more, o);
    }
  }

  /** A call's deltas keep the volatile file system explained. */
  lemma Grows(stable: Objs, pending: seq<Delta>, vol: Objs, nextId: Id, more: seq<Delta>, vol': Objs, nextId': Id)
    requires Explained(stable, pending, vol) && Below(stable, pending, nextId)
    requires Leads(vol, more, vol') && nextId <= nextId'
    requires forall i :: 0 <= i < |more| && more[i].Add? ==> nextId <= more[i].id < nextId'
    requires forall o :: AddsOnce(false, more, o)
    ensures Explained(stable, pending + more, vol') && Below(stable, pending + more, nextId')
  {
    LeadsOn(Copy(stable), pending, vol, more, vol');
    forall o ensures AddsOnce(o in stable, pending + more, o) {
      if o >= nextId {
        AddsOnceLater(pending, more, o);
      } else {
        AddsOnceMore(o in stable, pending, more, o);
      }
    }
  }

  lemma {:induction false} WithoutNever(ds: seq<Delta>, o: Id, x: Id)
    ensures NeverAdds(Without(ds, o), o)
    ensures NeverAdds(ds, x) ==> NeverAdds(Without(ds, o), x)
    ensures forall i :: 0 <= i < |Without(ds, o)| ==> Without(ds, o)[i] in ds
  {
    if ds != [] {
      WithoutNever(ds[1..], o, x);
    }
  }

  lemma {:induction false} WithoutOnce(there: bool, ds: seq<Delta>, o: Id, x: Id)
    requires AddsOnce(there, ds, x) && x != o
    ensures AddsOnce(there, Without(ds, o), x)
    decreases ds
  {
    if there {
      WithoutNever(ds, o, x);
    } else if ds != [] {
      WithoutOnce(Adds(ds[0], x), ds[1..], o, x);
      WithoutCons(ds, o);
    }
  }

  lemma MadeCopy(stable: Objs, o: Id, f: Obj)
    requires Pointed(stable) && f.File? && (o in stable ==> IsFile(stable, o))
    ensures Pointed(stable[o := f]) && Copy(stable[o := f]) == Made(Copy(stable), o, f)
  {
    var now := stable[o := f];
    assert forall p, n, c :: Edge(now, p, n, c) <==> Edge(stable, p, n, c);
    forall c ensures InEdges(now, c) == InEdges(stable, c) {
      forall p, n ensures (p, n) in InEdges(now, c) <==> Edge(now, p, n, c) {
      }
      forall p, n ensures (p, n) in InEdges(stable, c) <==> Edge(stable, p, n, c) {
      }
    }
    if o !in stable {
      NothingPointsTo(stable, o);
    }
  }

  /** fsync of a file keeps the volatile file system explained. */
  lemma FsyncExplained(stable: Objs, pending: seq<Delta>, vol: Objs, nextId: Id, o: Id)
    requires Explained(stable, pending, vol) && Below(stable, pending, nextId) && IsFile(vol, o) && o < nextId
    ensures Explained(stable[o := vol[o]], Without(pending, o), vol)
    ensures Below(stable[o := vol[o]], Without(pending, o), nextId)
  {
    CopyCounted(stable);
    MadeLeads(Copy(stable), pending, vol, o);
    if o in stable && !IsFile(stable, o) {
      NotFileStays(Copy(stable), pending, vol, o);
    }
    MadeCopy(stable, o, vol[o]);
    var now, rest := stable[o := vol[o]], Without(pending, o);
    forall x ensures AddsOnce(x in now, rest, x) {
      if x == o {
        WithoutNever(pending, o, o);
      } else {
        WithoutOnce(x in stable, pending, o, x);
      }
    }
    WithoutNever(pending, o, o);
  }

  /* ---- names after a call ---- */

  /** The directory and the name that a path ends in. */
  function ParentOf(objs: Objs, path: seq<Name>): Option<(Id, Name)> {
    if path == [] then None
    else
      match Resolve(objs, ROOT, path[..|path| - 1])
      case None => None
      case Some(p) => Some((p, path[|path| - 1]))
  }

  lemma {:induction false} AddedResolve(objs: Objs, id: Id, o: Obj, a: Id, path: seq<Name>)
    requires id !in objs && Resolve(objs, a, path).Some?
    ensures Resolve(objs[id := o], a, path) == Resolve(objs, a, path)
    decreases path
  {
    if path != [] {
      AddedResolve(objs, id, o, objs[a].entries[path[0]], path[1..]);
    }
  }

  lemma UnlinkKeepsEntry(objs: Objs, p: Id, n: Name, a: Id, m: Name)
    requires HasEntry(objs, p, n) && HasEntry(objs, a, m) && objs[p].entries[n] != a && !(a == p && m == n)
    ensures HasEntry(Unlinked(objs, p, n), a, m) && Unlinked(objs, p, n)[a].entries[m] == objs[a].entries[m]
  {
  }

  /** A path to where the unlinked object does not lead is still there. */
  lemma {:induction false} UnlinkedResolve(objs: Objs, p: Id, n: Name, a: Id, path: seq<Name>)
    requires HasEntry(objs, p, n) && Resolve(objs, a, path).Some?
    requires !Reaches(objs, objs[p].entries[n], Resolve(objs, a, path).value)
    ensures Resolve(Unlinked(objs, p, n), a, path) == Resolve(objs, a, path)
    decreases path
  {
    if path != [] {
      var c := objs[p].entries[n];
      assert Resolve(objs, a, path) == Resolve(objs, objs[a].entries[path[0]], path[1..]);
      assert a != c;
      assert !(a == p && path[0] == n);
      UnlinkKeepsEntry(objs, p, n, a, path[0]);
      UnlinkedResolve(objs, p, n, objs[a].entries[path[0]], path[1..]);
    }
  }

  lemma CreatedNames(objs: Objs, path: seq<Name>, id: Id, o: Obj)
    requires Place(objs, path).Some? && id !in objs
    ensures var (p, n) := Place(objs, path).value; var now := Created(objs, p, n, id, o);
      && Resolve(now, ROOT, path) == Some(id) && ParentOf(now, path) == Some((p, n))
      && HasEntry(now, p, n) && now[p].entries[n] == id
  {
    var (p, n) := Place(objs, path).value;
    var mid, now := objs[id := o], Created(objs, p, n, id, o);
    AddedResolve(objs, id, o, ROOT, path[..|path| - 1]);
    LinkedResolve(mid, p, n, id, ROOT, path[..|path| - 1]);
    SplitLast(path);
    ResolveSnoc(now, ROOT, path[..|path| - 1], n);
  }

  lemma LinkedNames(objs: Objs, path: seq<Name>, c: Id)
    requires Place(objs, path).Some?
    ensures var (p, n) := Place(objs, path).value; var now := Linked(objs, p, n, c);
      ParentOf(now, path) == Some((p, n)) && HasEntry(now, p, n) && now[p].entries[n] == c
  {
    var (p, n) := Place(objs, path).value;
    LinkedResolve(objs, p, n, c, ROOT, path[..|path| - 1]);
  }

  lemma UnlinkedNames(objs: Objs, path: seq<Name>)
    requires WellFormed(objs) && Spot(objs, path).Some?
    ensures var (p, n) := Spot(objs, path).value;
      && ParentOf(Unlinked(objs, p, n), path) == Some((p, n))
      && Resolve(objs, ROOT, path) == Some(objs[p].entries[n])
  {
    var (p, n) := Spot(objs, path).value;
    NoWayBack(objs, p, n);
    UnlinkedResolve(objs, p, n, ROOT, path[..|path| - 1]);
    SplitLast(path);
    ResolveSnoc(objs, ROOT, path[..|path| - 1], n);
  }

  /** All entries but one are still there, and that one is not. */
  ghost predicate OneGone(objs: Objs, now: Objs, p: Id, n: Name) {
    && !HasEntry(now, p, n)
    && forall p', n', c' :: Edge(objs, p', n', c') && !(p' == p && n' == n) ==> Edge(now, p', n', c')
  }

  /** A path leads where it did or is cut off; it is not cut off when the object behind the
      entry that is gone does not lead to its end. */
  lemma {:induction false} PathKept(objs: Objs, now: Objs, p: Id, n: Name, a: Id, path: seq<Name>)
    requires HasEntry(objs, p, n) && OneGone(objs, now, p, n) && Resolve(objs, a, path).Some?
    ensures Resolve(now, a, path).None? || Resolve(now, a, path) == Resolve(objs, a, path)
    ensures !Reaches(objs, objs[p].entries[n], Resolve(objs, a, path).value) ==> Resolve(now, a, path).Some?
    decreases path
  {
    if path != [] {
      var b := objs[a].entries[path[0]];
      assert Edge(objs, a, path[0], b);
      PathKept(objs, now, p, n, b, path[1..]);
    }
  }

  /** After a rename the old name is free and its directory is where it was; the new one is
      found at its path unless that leads through what was moved. */
  lemma RenamedNames(objs: Objs, from: seq<Name>, path: seq<Name>)
    requires WellFormed(objs) && Spot(objs, from).Some? && Place(objs, path).Some?
    ensures var (p, n) := Spot(objs, from).value; var (q, m) := Place(objs, path).value;
      var now := Renamed(objs, p, n, q, m);
      && (ParentOf(now, path).Some? ==> ParentOf(now, path) == Some((q, m)))
      && (!Reaches(objs, objs[p].entries[n], q) ==> ParentOf(now, path).Some?)
      && ParentOf(now, from) == Some((p, n))
      && HasEntry(now, q, m) && now[q].entries[m] == objs[p].entries[n]
      && Resolve(objs, ROOT, from) == Some(objs[p].entries[n])
  {
    var (p, n) := Spot(objs, from).value;
    var (q, m) := Place(objs, path).value;
    var now := Renamed(objs, p, n, q, m);
    RenamedCounted(objs, p, n, q, m);
    RenamedOneGone(objs, p, n, q, m, now);
    UnlinkedNames(objs, from);
    NoWayBack(objs, p, n);
    PathKept(objs, now, p, n, ROOT, from[..|from| - 1]);
    PathKept(objs, now, p, n, ROOT, path[..|path| - 1]);
    assert Edge(now, q, m, objs[p].entries[n]);
  }

  lemma RenamedOneGone(objs: Objs, p: Id, n: Name, q: Id, m: Name, now: Objs)
    requires HasEntry(objs, p, n) && !HasEntry(objs, q, m)
    requires forall p', n', c' :: Edge(now, p', n', c') <==>
      (Edge(objs, p', n', c') && !(p' == p && n' == n)) || (p' == q && n' == m && c' == objs[p].entries[n])
    ensures OneGone(objs, now, p, n)
  {
    if HasEntry(now, p, n) {
      assert Edge(now, p, n, now[p].entries[n]);
    }
  }

  /** What a creat or mkdir does, and the deltas that say so. */
  ghost predicate CreateDone(was: Objs, path: seq<Name>, id: Id, o: Obj, now: Objs) {
    id !in was && Place(was, path).Some? &&
    var (p, n) := Place(was, path).value; now == Created(was, p, n, id, o)
  }

  function CreateDeltas(was: Objs, path: seq<Name>, id: Id, o: Obj): seq<Delta> {
    match Place(was, path)
    case None => []
    case Some((p, n)) => [Add(id, o), AddEntry(p, n, id)]
  }

  /** What an unlink or rmdir does, and the delta that says so. */
  ghost predicate RemovalDone(was: Objs, path: seq<Name>, now: Objs) {
    Spot(was, path).Some? && var (p, n) := Spot(was, path).value; now == Unlinked(was, p, n)
  }

  function RemovalDeltas(was: Objs, path: seq<Name>): seq<Delta> {
    match Spot(was, path)
    case None => []
    case Some((p, n)) => [RemoveEntry(p, n, was[p].entries[n])]
  }

  class StableFS {
    const volatileFs: AbstFS
    var stable: Objs
    var pending: seq<Delta>

    /** The pending deltas explain the volatile file system. */
    ghost predicate Explains()
      reads this, volatileFs
    {
      Explained(stable, pending, volatileFs.objs) && Below(stable, pending, volatileFs.nextId)
    }

    ghost predicate Valid()
      reads this, volatileFs
    {
      volatileFs.Valid() && Explains()
    }

    constructor ()
      ensures Valid() && fresh(volatileFs) && pending == [] && stable == volatileFs.objs
    {
      volatileFs := new AbstFS();
      stable, pending := map[ROOT := Dir(0, ALL_PERM, map[])], [];
      new;
      CopyOfCounted(stable);
    }

    method FindParent(path: seq<Name>) returns (r: Option<(Id, Name)>)
      ensures r == ParentOf(volatileFs.objs, path)
    {
      if path == [] {
        return None;
      }
      var p := volatileFs.WalkPath(path[..|path| - 1]);
      r := if p.Some? then Some((p.value, path[|path| - 1])) else None;
    }

    /** Records the deltas of a call on the volatile file system. */
    method Record(more: seq<Delta>, ghost was: Objs, ghost nextId: Id)
      requires Explained(stable, pending, was) && Below(stable, pending, nextId)
      requires Leads(was, more, volatileFs.objs) && nextId <= volatileFs.nextId
      requires forall i :: 0 <= i < |more| && more[i].Add? ==> nextId <= more[i].id < volatileFs.nextId
      requires forall o :: AddsOnce(false, more, o)
      modifies this`pending
      ensures Explains() && pending == old(pending) + more
    {
      Grows(stable, pending, was, nextId, more, volatileFs.objs, volatileFs.nextId);
      pending := pending + more;
    }

    /** A successful creat: one delta for the file, one for its directory. */
    method Creat(path: seq<Name>, mode: int) returns (ok: bool)
      requires Valid()
      modifies this`pending, volatileFs
      ensures Valid() && (ok <==> old(Place(volatileFs.objs, path)).Some?)
      ensures !ok ==> pending == old(pending) && volatileFs.objs == old(volatileFs.objs)
      ensures ok ==> var o := File(0, mode, Untouched);
        && CreateDone(old(volatileFs.objs), path, old(volatileFs.nextId), o, volatileFs.objs)
        && pending == old(pending) + CreateDeltas(old(volatileFs.objs), path, old(volatileFs.nextId), o)
    {
      ghost var was, nextId := volatileFs.objs, volatileFs.nextId;
      ok := volatileFs.Creat(path, mode);
      if ok {
        ghost var o := File(0, mode, Untouched);
        CreatedNames(was, path, nextId, o);
        var child := volatileFs.WalkPath(path);
        var at := FindParent(path);
        var more := [Add(child.value, File(0, mode, Untouched)),
                     AddEntry(at.value.0, at.value.1, volatileFs.objs[at.value.0].entries[at.value.1])];
        CreateLeads(was, at.value.0, at.value.1, nextId, o);
        OneAdd(more);
        Record(more, was, nextId);
      }
    }

    method Mkdir(path: seq<Name>, mode: int) returns (ok: bool)
      requires Valid()
      modifies this`pending, volatileFs
      ensures Valid() && (ok <==> old(Place(volatileFs.objs, path)).Some?)
      ensures !ok ==> pending == old(pending) && volatileFs.objs == old(volatileFs.objs)
      ensures ok ==>
        CreateDone(old(volatileFs.objs), path, old(volatileFs.nextId), Dir(0, mode, map[]), volatileFs.objs)
      ensures ok ==>
        pending == old(pending) + CreateDeltas(old(volatileFs.objs), path, old(volatileFs.nextId), Dir(0, mode, map[]))
    {
      ghost var was, nextId := volatileFs.objs, volatileFs.nextId;
      ok := volatileFs.Mkdir(path, mode);
      if ok {
        ghost var o := Dir(0, mode, map[]);
        CreatedNames(was, path, nextId, o);
        var child := volatileFs.WalkPath(path);
        var at := FindParent(path);
        var more := [Add(child.value, Dir(0, mode, map[])),
                     AddEntry(at.value.0, at.value.1, volatileFs.objs[at.value.0].entries[at.value.1])];
        CreateLeads(was, at.value.0, at.value.1, nextId, o);
        OneAdd(more);
        Record(more, was, nextId);
      }
    }

    /** A successful link. One to a directory that leads to the new place makes a cycle. */
    method Link(from: seq<Name>, path: seq<Name>) returns (ok: bool)
      requires Valid()
      modifies this`pending, volatileFs
      ensures ok <==> LinkTarget(old(volatileFs.objs), from).Some? && old(Place(volatileFs.objs, path)).Some?
      ensures !ok ==> Valid() && pending == old(pending) && volatileFs.objs == old(volatileFs.objs)
      ensures ok ==> var (p, n) := old(Place(volatileFs.objs, path)).value;
        var c := LinkTarget(old(volatileFs.objs), from).value;
        && volatileFs.objs == Linked(old(volatileFs.objs), p, n, c) && pending == old(pending) + [AddEntry(p, n, c)]
        && Explains() && (Valid() <==> !Reaches(old(volatileFs.objs), c, p))
    {
      ghost var was, nextId := volatileFs.objs, volatileFs.nextId;
      ok := volatileFs.Link(from, path);
      if ok {
        ghost var c := LinkTarget(was, from).value;
        ResolvedIn(was, ROOT, from);
        LinkedNames(was, path, c);
        var at := FindParent(path);
        var more := [AddEntry(at.value.0, at.value.1, volatileFs.objs[at.value.0].entries[at.value.1])];
        LeadsOne(was, more[0]);
        NoAdds(more);
        Record(more, was, nextId);
      }
    }

    method Unlink(path: seq<Name>) returns (ok: bool)
      requires Valid()
      requires var at := Spot(volatileFs.objs, path);
        at.Some? ==> Removable(volatileFs.objs, volatileFs.objs[at.value.0].entries[at.value.1])
      modifies this`pending, volatileFs
      ensures Valid() && (ok <==> old(Spot(volatileFs.objs, path)).Some?)
      ensures !ok ==> pending == old(pending) && volatileFs.objs == old(volatileFs.objs)
      ensures ok ==> RemovalDone(old(volatileFs.objs), path, volatileFs.objs)
      ensures ok ==> pending == old(pending) + RemovalDeltas(old(volatileFs.objs), path)
    {
      ghost var was, nextId := volatileFs.objs, volatileFs.nextId;
      var target := volatileFs.WalkPath(path);
      ok := volatileFs.Unlink(path);
      if ok {
        RecordRemoval(path, target, was, nextId);
      }
    }

    method Rmdir(path: seq<Name>) returns (ok: bool)
      requires Valid()
      modifies this`pending, volatileFs
      ensures Valid() && (ok <==> EmptyDirAt(old(volatileFs.objs), path))
      ensures !ok ==> pending == old(pending) && volatileFs.objs == old(volatileFs.objs)
      ensures ok ==> RemovalDone(old(volatileFs.objs), path, volatileFs.objs)
      ensures ok ==> pending == old(pending) + RemovalDeltas(old(volatileFs.objs), path)
    {
      ghost var was, nextId := volatileFs.objs, volatileFs.nextId;
      var target := volatileFs.WalkPath(path);
      ok := volatileFs.Rmdir(path);
      if ok {
        RecordRemoval(path, target, was, nextId);
      }
    }

    /** The delta of unlink and rmdir. */
    method RecordRemoval(path: seq<Name>, target: Option<Id>, ghost was: Objs, ghost nextId: Id)
      requires Explained(stable, pending, was) && Below(stable, pending, nextId) && volatileFs.Valid()
      requires nextId == volatileFs.nextId && WellFormed(was) && Spot(was, path).Some?
      requires target == Resolve(was, ROOT, path)
      requires var (p, n) := Spot(was, path).value;
        Removable(was, was[p].entries[n]) && volatileFs.objs == Unlinked(was, p, n)
      modifies this`pending
      ensures Valid() && pending == old(pending) + RemovalDeltas(was, path)
    {
      UnlinkedNames(was, path);
      var at := FindParent(path);
      SelfEdge(was, at.value.0, at.value.1);
      var more := [RemoveEntry(at.value.0, at.value.1, target.value)];
      LeadsOne(was, more[0]);
      NoAdds(more);
      Record(more, was, nextId);
    }

    /** A rename. The buffer of the new name is reused for the old one, so the deltas are
        right exactly when the new leaf is not longer. Nothing is recorded where looking the
        new name up fails an assertion: the entry was moved below itself and its new
        directory is cut off. */
    method Rename(from: seq<Name>, path: seq<Name>) returns (ok: bool, recorded: bool)
      requires Valid()
      modifies this`pending, volatileFs
      ensures ok <==> old(Spot(volatileFs.objs, from)).Some? && old(Place(volatileFs.objs, path)).Some?
      ensures !ok ==> Valid() && volatileFs.objs == old(volatileFs.objs)
      ensures recorded <==> ok && ParentOf(volatileFs.objs, path).Some?
      ensures !recorded ==> pending == old(pending)
      ensures ok ==> var (p, n) := old(Spot(volatileFs.objs, from)).value;
        var (q, m) := old(Place(volatileFs.objs, path)).value;
        var below := Reaches(old(volatileFs.objs), old(volatileFs.objs)[p].entries[n], q);
        && volatileFs.objs == Renamed(old(volatileFs.objs), p, n, q, m)
        && (volatileFs.Valid() <==> !below) && (!below ==> recorded)
        && (recorded ==> pending == old(pending) + RenameDeltas(old(volatileFs.objs), p, n, q, m))
        && (recorded ==> (Explains() <==> |m| <= |n|))
    {
      ghost var was, nextId := volatileFs.objs, volatileFs.nextId;
      var child := volatileFs.WalkPath(from);
      ok := volatileFs.Rename(from, path);
      recorded := false;
      if ok {
        RenamedNames(was, from, path);
        var at := FindParent(path);
        if at.Some? {
          recorded := true;
          RecordRename(from, path, at.value, child, was, nextId);
        }
      }
    }

    method RecordRename(from: seq<Name>, path: seq<Name>, at: (Id, Name), child: Option<Id>, ghost was: Objs,
                        ghost nextId: Id)
      requires Explained(stable, pending, was) && Below(stable, pending, nextId)
      requires nextId == volatileFs.nextId && WellFormed(was) && Spot(was, from).Some? && Place(was, path).Some?
      requires child == Resolve(was, ROOT, from) && Some(at) == Place(was, path)
      requires var (p, n) := Spot(was, from).value; volatileFs.objs == Renamed(was, p, n, at.0, at.1)
      modifies this`pending
      ensures var (p, n) := Spot(was, from).value;
        pending == old(pending) + RenameDeltas(was, p, n, at.0, at.1) && (Explains() <==> |at.1| <= |n|)
    {
      RenamedNames(was, from, path);
      var newChild := volatileFs.objs[at.0].entries[at.1];
      var at2 := FindParent(from);
      var more := [AddEntry(at.0, at.1, newChild),
                   RemoveEntry(at2.value.0, LeftName(at.1, at2.value.1), child.value)];
      if |at.1| <= |at2.value.1| {
        NoAdds(more);
        RenameLeads(was, at2.value.0, at2.value.1, at.0, at.1);
        Record(more, was, nextId);
      } else {
        WrongUnexplained(stable, pending, was, at2.value.0, at2.value.1, at.0, at.1);
        pending := pending + more;
      }
    }

    method Ftruncate(path: seq<Name>, length: nat) returns (ok: bool)
      requires Valid()
      modifies this`pending, volatileFs`objs
      ensures Valid() && (ok <==> FileAt(old(volatileFs.objs), path))
      ensures !ok ==> pending == old(pending) && volatileFs.objs == old(volatileFs.objs)
      ensures ok ==> var id := Resolve(old(volatileFs.objs), ROOT, path).value;
        && volatileFs.objs ==
             Rewritten(old(volatileFs.objs), id, TruncateBytes(BytesIn(old(volatileFs.objs)[id].content), length))
        && pending == old(pending) + [SetLength(id, length)]
    {
      ghost var was, nextId := volatileFs.objs, volatileFs.nextId;
      ok := volatileFs.Truncate(path, length);
      if ok {
        ghost var o := Resolve(was, ROOT, path).value;
        RewrittenResolve(was, o, TruncateBytes(BytesIn(was[o].content), length), ROOT, path);
        var id := volatileFs.WalkPath(path);
        var more := [SetLength(id.value, length)];
        LeadsOne(was, more[0]);
        NoAdds(more);
        Record(more, was, nextId);
      }
    }

    method Pwrite(path: seq<Name>, off: nat, data: seq<int>) returns (ok: bool)
      requires Valid()
      modifies this`pending, volatileFs`objs
      ensures Valid() && (ok <==> FileAt(old(volatileFs.objs), path))
      ensures !ok ==> pending == old(pending) && volatileFs.objs == old(volatileFs.objs)
      ensures ok ==> var id := Resolve(old(volatileFs.objs), ROOT, path).value;
        && volatileFs.objs ==
             Rewritten(old(volatileFs.objs), id, PwriteBytes(BytesIn(old(volatileFs.objs)[id].content), off, data))
        && pending == old(pending) + [WriteAt(id, off, data)]
    {
      ghost var was, nextId := volatileFs.objs, volatileFs.nextId;
      ok := volatileFs.Pwrite(path, off, data);
      if ok {
        ghost var o := Resolve(was, ROOT, path).value;
        RewrittenResolve(was, o, PwriteBytes(BytesIn(was[o].content), off, data), ROOT, path);
        var id := volatileFs.WalkPath(path);
        var more := [WriteAt(id.value, off, data)];
        LeadsOne(was, more[0]);
        NoAdds(more);
        Record(more, was, nextId);
      }
    }

    /** sync: nothing is pending, and the stable file system is a copy of the volatile one. */
    method Sync()
      requires Valid()
      modifies this`pending, this`stable
      ensures Valid() && pending == [] && stable == volatileFs.objs
    {
      pending := [];
      CopyOfCounted(volatileFs.objs);
      stable := volatileFs.objs;
    }

    /** fsync of a regular file: it is made stable and its own deltas are dropped. */
    method Fsync(path: seq<Name>) returns (ok: bool)
      requires Valid()
      modifies this`pending, this`stable
      ensures Valid() && (ok <==> FileAt(volatileFs.objs, path))
      ensures !ok ==> stable == old(stable) && pending == old(pending)
      ensures ok ==> var o := Resolve(volatileFs.objs, ROOT, path).value;
        stable == old(stable)[o := volatileFs.objs[o]] && pending == Without(old(pending), o)
    {
      var id := volatileFs.WalkPath(path);
      if id.None? || !IsFile(volatileFs.objs, id.value) {
        return false;
      }
      var o := id.value;
      FsyncExplained(stable, pending, volatileFs.objs, volatileFs.nextId, o);
      stable := stable[o := volatileFs.objs[o]];
      pending := Others(o);
      return true;
    }

    /** The pending deltas on other objects. */
    method Others(o: Id) returns (rest: seq<Delta>)
      ensures rest == Without(pending, o)
    {
      rest := [];
      for i := 0 to |pending|
        invariant rest + Without(pending[i..], o) == Without(pending, o)
      {
        assert pending[i..][1..] == pending[i + 1..];
        if pending[i].id != o {
          Assoc(rest, [pending[i]], Without(pending[i + 1..], o));
          rest := rest + [pending[i]];
        }
      }
      ConcatEmpty(rest);
    }
  }

  lemma LeadsOne(objs: Objs, d: Delta)
    requires Fits(objs, d)
    ensures Leads(objs, [d], After(objs, d))
  {
    assert [d][1..] == [];
  }

  lemma {:induction false} RewrittenResolve(objs: Objs, o: Id, bytes: seq<int>, a: Id, path: seq<Name>)
    requires IsFile(objs, o) && Resolve(objs, a, path).Some?
    ensures Resolve(Rewritten(objs, o, bytes), a, path) == Resolve(objs, a, path)
    decreases path
  {
    if path != [] {
      RewrittenResolve(objs, o, bytes, objs[a].entries[path[0]], path[1..]);
    }
  }

  lemma OneAdd(ds: seq<Delta>)
    requires |ds| == 2 && !ds[1].Add?
    ensures forall o :: AddsOnce(false, ds, o)
  {
    forall o ensures AddsOnce(false, ds, o) {
      assert NeverAdds(ds[1..], o);
      NeverAddsOnce(ds[1..], o);
    }
  }

  lemma NoAdds(ds: seq<Delta>)
    requires forall i :: 0 <= i < |ds| ==> !ds[i].Add?
    ensures forall o :: AddsOnce(false, ds, o)
  {
    forall o ensures AddsOnce(false, ds, o) {
      NeverAddsOnce(ds, o);
    }
  }
}
