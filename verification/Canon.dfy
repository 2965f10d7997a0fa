/** Canonical archives of file systems: driver/AbstFS.C.

    Objects are numbered in depth-first pre-order from the root and written in that order,
    with numbers in place of ids. */
module Canons {

  import opened AbstFs
  import opened Basics
  import ByteAccess
  import DataArchives
  import FlatBytes
  import Hashes
  import RegionWrites
  import SparseData

  /** MAX_PATH / 2. */
  const MAX_DEPTH := 2048

  /** Directories are walked in the order of their names, which depends on the names alone. */
  type Sorter = set<Name> -> seq<Name>

  function Sorted(sort: Sorter, names: set<Name>): seq<Name> {
    sort(names)
  }

  ghost predicate Sorts(sort: Sorter) {
    forall names, n :: n in Sorted(sort, names) <==> n in names
  }

  /* ---- numbering ---- */

  /** dfs_ with the numbering visitor; None when the recursion is too deep. */
  function Dfs(objs: Objs, sort: Sorter, id: Id, depth: nat, acc: seq<Id>): Option<seq<Id>>
    decreases MAX_DEPTH - depth, 0, 0
  {
    if depth >= MAX_DEPTH then None
    else if id !in objs then Some(acc)
    else
      var now := if id in acc then acc else acc + [id];
      if objs[id].Dir? then DfsEntries(objs, sort, objs[id].entries, Sorted(sort, objs[id].entries.Keys), depth, now)
      else Some(now)
  }

  function DfsEntries(objs: Objs, sort: Sorter, entries: map<Name, Id>, names: seq<Name>, depth: nat, acc: seq<Id>)
      : Option<seq<Id>>
    requires depth < MAX_DEPTH
    decreases MAX_DEPTH - depth - 1, 1, |names|
  {
    if names == [] then Some(acc)
    else if names[0] !in entries then DfsEntries(objs, sort, entries, names[1..], depth, acc)
    else
      match Dfs(objs, sort, entries[names[0]], depth + 1, acc)
      case None => None
      case Some(next) => DfsEntries(objs, sort, entries, names[1..], depth, next)
  }

  function Order(objs: Objs, sort: Sorter): Option<seq<Id>> {
    Dfs(objs, sort, ROOT, 0, [])
  }

  /** The result of a walk from `id`: what was numbered before, then only what is reached. */
  ghost predicate Numbers(objs: Objs, id: Id, acc: seq<Id>, r: seq<Id>) {
    && acc <= r && (Distinct(acc) ==> Distinct(r))
    && forall x :: x in r ==> x in acc || (x in objs && Reaches(objs, id, x))
  }

  lemma {:induction false} DfsNumbers(objs: Objs, sort: Sorter, id: Id, depth: nat, acc: seq<Id>)
    requires Dfs(objs, sort, id, depth, acc).Some?
    ensures Numbers(objs, id, acc, Dfs(objs, sort, id, depth, acc).value)
    ensures id in objs ==> id in Dfs(objs, sort, id, depth, acc).value
    decreases MAX_DEPTH - depth, 0, 0
  {
    if id in objs {
      var now := if id in acc then acc else acc + [id];
      assert Resolve(objs, id, []) == Some(id);
      if objs[id].Dir? {
        var names := Sorted(sort, objs[id].entries.Keys);
        EntriesNumber(objs, sort, id, names, depth, now);
        var r := DfsEntries(objs, sort, objs[id].entries, names, depth, now).value;
        assert now <= r && id in now;
        assert r[..|acc|] == r[..|now|][..|acc|];
        assert id == r[..|now|][IndexIn(now, id)];
      }
    }
  }

  ghost function IndexIn(s: seq<Id>, x: Id): (i: nat)
    requires x in s
    ensures i < |s| && s[i] == x
  {
    var i :| 0 <= i < |s| && s[i] == x;
    i
  }

  lemma {:induction false} EntriesNumber(objs: Objs, sort: Sorter, id: Id, names: seq<Name>, depth: nat, acc: seq<Id>)
    requires depth < MAX_DEPTH && IsDir(objs, id)
    requires DfsEntries(objs, sort, objs[id].entries, names, depth, acc).Some?
    ensures Numbers(objs, id, acc, DfsEntries(objs, sort, objs[id].entries, names, depth, acc).value)
    decreases MAX_DEPTH - depth - 1, 1, |names|
  {
    if names != [] {
      if names[0] !in objs[id].entries {
        EntriesNumber(objs, sort, id, names[1..], depth, acc);
      } else {
        var child := objs[id].entries[names[0]];
        DfsNumbers(objs, sort, child, depth + 1, acc);
        var next := Dfs(objs, sort, child, depth + 1, acc).value;
        EntriesNumber(objs, sort, id, names[1..], depth, next);
        var r := DfsEntries(objs, sort, objs[id].entries, names, depth, acc).value;
        assert r[..|acc|] == r[..|next|][..|acc|];
        forall x | Reaches(objs, child, x) ensures Reaches(objs, id, x) {
          ReachesFrom(objs, id, names[0], x);
        }
      }
    }
  }

  lemma ReachesFrom(objs: Objs, id: Id, n: Name, x: Id)
    requires HasEntry(objs, id, n) && Reaches(objs, objs[id].entries[n], x)
    ensures Reaches(objs, id, x)
  {
    var path :| Resolve(objs, objs[id].entries[n], path) == Some(x);
    assert ([n] + path)[1..] == path;
    assert Resolve(objs, id, [n] + path) == Some(x);
  }

  /** Everything along a path is numbered. */
  lemma {:induction false} DfsCovers(objs: Objs, sort: Sorter, id: Id, depth: nat, acc: seq<Id>, path: seq<Name>)
    requires Sorts(sort) && Dfs(objs, sort, id, depth, acc).Some?
    requires Resolve(objs, id, path).Some? && Resolve(objs, id, path).value in objs
    ensures Resolve(objs, id, path).value in Dfs(objs, sort, id, depth, acc).value
    decreases MAX_DEPTH - depth, 0, 0
  {
    DfsNumbers(objs, sort, id, depth, acc);
    if path != [] {
      var now := if id in acc then acc else acc + [id];
      EntriesCover(objs, sort, id, Sorted(sort, objs[id].entries.Keys), depth, now, path);
    }
  }

  lemma {:induction false} EntriesCover(objs: Objs, sort: Sorter, id: Id, names: seq<Name>, depth: nat, acc: seq<Id>,
                                        path: seq<Name>)
    requires Sorts(sort) && depth < MAX_DEPTH && path != [] && HasEntry(objs, id, path[0]) && path[0] in names
    requires DfsEntries(objs, sort, objs[id].entries, names, depth, acc).Some?
    requires Resolve(objs, id, path).Some? && Resolve(objs, id, path).value in objs
    ensures Resolve(objs, id, path).value in DfsEntries(objs, sort, objs[id].entries, names, depth, acc).value
    decreases MAX_DEPTH - depth - 1, 1, |names|
  {
    var x := Resolve(objs, id, path).value;
    if names[0] !in objs[id].entries {
      EntriesCover(objs, sort, id, names[1..], depth, acc, path);
    } else {
      var child := objs[id].entries[names[0]];
      var next := Dfs(objs, sort, child, depth + 1, acc).value;
      if names[0] == path[0] {
        DfsCovers(objs, sort, child, depth + 1, acc, path[1..]);
        EntriesNumber(objs, sort, id, names[1..], depth, next);
        var r := DfsEntries(objs, sort, objs[id].entries, names[1..], depth, next).value;
        assert r[..|next|][IndexIn(next, x)] == x;
      } else {
        EntriesCover(objs, sort, id, names[1..], depth, next, path);
      }
    }
  }

  /** The numbering holds exactly the objects that the root reaches, each once. */
  lemma OrderIs(objs: Objs, sort: Sorter)
    requires Sorts(sort) && Order(objs, sort).Some? && ROOT in objs
    ensures Distinct(Order(objs, sort).value)
    ensures forall x :: x in Order(objs, sort).value <==> x in objs && Reaches(objs, ROOT, x)
  {
    var r := Order(objs, sort).value;
    DfsNumbers(objs, sort, ROOT, 0, []);
    forall x | x in objs && Reaches(objs, ROOT, x) ensures x in r {
      var path :| Resolve(objs, ROOT, path) == Some(x);
      DfsCovers(objs, sort, ROOT, 0, [], path);
    }
  }

  /* ---- archives ---- */

  /** What is written for one object. */
  datatype Body = Contents(data: seq<int>) | Listing(entries: seq<(Name, int)>) | Target(text: string)

  datatype Record = Record(num: int, ref: int, mode: int, body: Body)

  function TypeOf(b: Body): int {
    match b
    case Contents(_) => 0
    case Listing(_) => 1
    case Target(_) => 2
  }

  function Text(s: string): seq<int> {
    [|s|] + seq(|s|, i requires 0 <= i < |s| => s[i] as int)
  }

  function Listed(entries: seq<(Name, int)>): seq<int> {
    if entries == [] then [] else Text(entries[0].0) + [entries[0].1] + Listed(entries[1..])
  }

  function BodyCells(b: Body): seq<int> {
    match b
    case Contents(data) => data
    case Listing(entries) => [|entries|] + Listed(entries)
    case Target(text) => Text(text)
  }

  function Cells(r: Record): seq<int> {
    [TypeOf(r.body), r.num, r.ref, r.mode] + BodyCells(r.body)
  }

  function Archive(rs: seq<Record>): seq<int> {
    if rs == [] then [] else Cells(rs[0]) + Archive(rs[1..])
  }

  lemma TextPrefix(s: string, t: string, x: seq<int>, y: seq<int>)
    requires Text(s) + x == Text(t) + y
    ensures s == t && x == y
  {
    assert (Text(s) + x)[0] == |s| && (Text(t) + y)[0] == |t|;
    SameHead(Text(s), Text(t), x, y);
    forall i | 0 <= i < |s| ensures s[i] == t[i] {
      assert Text(s)[i + 1] == s[i] as int && Text(t)[i + 1] == t[i] as int;
    }
  }

  lemma Regroup<T>(a: seq<T>, b: seq<T>, c: seq<T>, d: seq<T>)
    ensures a + b + c + d == a + (b + (c + d))
  {
  }

  lemma {:induction false} ListedPrefix(a: seq<(Name, int)>, b: seq<(Name, int)>, x: seq<int>, y: seq<int>)
    requires |a| == |b| && Listed(a) + x == Listed(b) + y
    ensures a == b && x == y
  {
    if a == [] {
      assert Listed(a) + x == x && Listed(b) + y == y;
    } else {
      Regroup(Text(a[0].0), [a[0].1], Listed(a[1..]), x);
      Regroup(Text(b[0].0), [b[0].1], Listed(b[1..]), y);
      TextPrefix(a[0].0, b[0].0, [a[0].1] + (Listed(a[1..]) + x), [b[0].1] + (Listed(b[1..]) + y));
      SameHead([a[0].1], [b[0].1], Listed(a[1..]) + x, Listed(b[1..]) + y);
      assert [a[0].1][0] == [b[0].1][0];
      ListedPrefix(a[1..], b[1..], x, y);
      SameCons(a, b);
    }
  }

  /** Metadata only, or also file contents, written by some function of them. */
  datatype Purpose = Metadata | Objects(canon: Content -> seq<int>)

  function Writes(p: Purpose, c: Content): seq<int> {
    match p
    case Metadata => []
    case Objects(canon) => canon(c)
  }

  /** What is written for a file tells its content, whatever follows it. */
  ghost predicate Told(p: Purpose, x: Content, y: Content, s: seq<int>, t: seq<int>) {
    p.Objects? && Writes(p, x) + s == Writes(p, y) + t ==> x == y
  }

  ghost predicate TellsContent(p: Purpose) {
    forall x, y, s, t {:trigger Told(p, x, y, s, t)} :: Told(p, x, y, s, t)
  }

  /** Contents are what is written for some file. */
  ghost predicate WrittenBody(p: Purpose, b: Body) {
    b.Contents? ==> exists c :: b.data == Writes(p, c)
  }

  lemma ContentsPrefix(p: Purpose, a: seq<int>, b: seq<int>, x: seq<int>, y: seq<int>)
    requires TellsContent(p) && WrittenBody(p, Contents(a)) && WrittenBody(p, Contents(b)) && a + x == b + y
    ensures a == b && x == y
  {
    var u :| a == Writes(p, u);
    var v :| b == Writes(p, v);
    assert Told(p, u, v, x, y);
    SameHead(a, b, x, y);
  }

  lemma BodyPrefix(p: Purpose, a: Body, b: Body, x: seq<int>, y: seq<int>)
    requires TellsContent(p) && TypeOf(a) == TypeOf(b) && WrittenBody(p, a) && WrittenBody(p, b)
    requires BodyCells(a) + x == BodyCells(b) + y
    ensures a == b && x == y
  {
    match a
    case Contents(data) => ContentsPrefix(p, data, b.data, x, y);
    case Target(text) => TextPrefix(text, b.text, x, y);
    case Listing(entries) =>
      var s, t := Listed(entries), Listed(b.entries);
      Assoc([|entries|], s, x);
      Assoc([|b.entries|], t, y);
      SameHead([|entries|], [|b.entries|], s + x, t + y);
      assert [|entries|][0] == [|b.entries|][0];
      ListedPrefix(entries, b.entries, x, y);
  }

  /** A record can be told from what follows it. */
  lemma RecordPrefix(p: Purpose, a: Record, b: Record, x: seq<int>, y: seq<int>)
    requires TellsContent(p) && WrittenBody(p, a.body) && WrittenBody(p, b.body) && Cells(a) + x == Cells(b) + y
    ensures a == b && x == y
  {
    var h, k := [TypeOf(a.body), a.num, a.ref, a.mode], [TypeOf(b.body), b.num, b.ref, b.mode];
    assert Cells(a) + x == h + (BodyCells(a.body) + x);
    assert Cells(b) + y == k + (BodyCells(b.body) + y);
    SameHead(h, k, BodyCells(a.body) + x, BodyCells(b.body) + y);
    assert h[0] == k[0] && h[1] == k[1] && h[2] == k[2] && h[3] == k[3];
    BodyPrefix(p, a.body, b.body, x, y);
  }

  ghost predicate AllWritten(p: Purpose, rs: seq<Record>) {
    forall i :: 0 <= i < |rs| ==> WrittenBody(p, rs[i].body)
  }

  /** Equal archives hold equal records. */
  lemma {:induction false} ArchiveInjective(p: Purpose, a: seq<Record>, b: seq<Record>)
    requires TellsContent(p) && AllWritten(p, a) && AllWritten(p, b) && Archive(a) == Archive(b)
    ensures a == b
    decreases a
  {
    ArchiveLength(a);
    ArchiveLength(b);
    if a != [] {
      RecordPrefix(p, a[0], b[0], Archive(a[1..]), Archive(b[1..]));
      ArchiveInjective(p, a[1..], b[1..]);
      SameCons(a, b);
    }
  }

  lemma ArchiveLength(a: seq<Record>)
    ensures a != [] <==> |Archive(a)| > 0
  {
    if a != [] {
      assert |Cells(a[0])| >= 4;
    }
  }

  /* ---- canonical forms ---- */

  function NumOf(order: seq<Id>, id: Id): (k: int)
    ensures if id in order then 0 <= k < |order| && order[k] == id else k == -1
  {
    if order == [] then -1
    else if order[0] == id then 0
    else
      var k := NumOf(order[1..], id);
      if k < 0 then -1 else k + 1
  }

  function ListingOf(entries: map<Name, Id>, names: seq<Name>, order: seq<Id>): seq<(Name, int)> {
    seq(|names|, i requires 0 <= i < |names| =>
      (names[i], if names[i] in entries then NumOf(order, entries[names[i]]) else -1))
  }

  function BodyOf(sort: Sorter, order: seq<Id>, o: Obj, p: Purpose): Body {
    match o
    case File(_, _, content) => Contents(Writes(p, content))
    case Dir(_, _, entries) => Listing(ListingOf(entries, Sorted(sort, entries.Keys), order))
    case Sym(_, _, text) => Target(text)
  }

  function RecordOf(objs: Objs, sort: Sorter, order: seq<Id>, id: Id, p: Purpose): Record
    requires id in objs
  {
    Record(NumOf(order, id), objs[id].ref, objs[id].mode, BodyOf(sort, order, objs[id], p))
  }

  ghost predicate Within(order: seq<Id>, objs: Objs) {
    forall i :: 0 <= i < |order| ==> order[i] in objs
  }

  function RecordsOf(objs: Objs, sort: Sorter, order: seq<Id>, p: Purpose): (rs: seq<Record>)
    requires Within(order, objs)
    ensures |rs| == |order|
  {
    seq(|order|, i requires 0 <= i < |order| => RecordOf(objs, sort, order, order[i], p))
  }

  /** A file system that can be written: shallow, and without dangling entries it reaches. */
  ghost predicate Tidy(objs: Objs, sort: Sorter) {
    && Sorts(sort) && ROOT in objs && Order(objs, sort).Some?
    && forall x, n, c :: Reaches(objs, ROOT, x) && Edge(objs, x, n, c) ==> c in objs
  }

  lemma OrderWithin(objs: Objs, sort: Sorter)
    requires Tidy(objs, sort)
    ensures var order := Order(objs, sort).value;
      Within(order, objs) && Distinct(order) && order != [] && order[0] == ROOT
  {
    OrderIs(objs, sort);
    DfsRoot(objs, sort);
  }

  lemma DfsRoot(objs: Objs, sort: Sorter)
    requires ROOT in objs && Order(objs, sort).Some?
    ensures Order(objs, sort).value != [] && Order(objs, sort).value[0] == ROOT
  {
    if objs[ROOT].Dir? {
      var names := Sorted(sort, objs[ROOT].entries.Keys);
      assert [] + [ROOT] == [ROOT];
      assert Order(objs, sort) == DfsEntries(objs, sort, objs[ROOT].entries, names, 0, [ROOT]);
      EntriesNumber(objs, sort, ROOT, names, 0, [ROOT]);
    }
  }

  ghost function Canon(objs: Objs, sort: Sorter, p: Purpose): seq<int>
    requires Tidy(objs, sort)
  {
    OrderWithin(objs, sort);
    Archive(RecordsOf(objs, sort, Order(objs, sort).value, p))
  }

  /* ---- isomorphism ---- */

  /** Two objects agree in everything but ids and file contents. */
  ghost predicate SameMeta(a: Obj, b: Obj, f: map<Id, Id>) {
    && a.ref == b.ref && a.mode == b.mode
    && match a
       case File(_, _, _) => b.File?
       case Sym(_, _, text) => b.Sym? && b.text == text
       case Dir(_, _, entries) =>
         && b.Dir? && b.entries.Keys == entries.Keys
         && forall n :: n in entries ==> entries[n] in f && f[entries[n]] == b.entries[n]
  }

  /** `f` maps a part of one file system that holds the root and is closed under entries
      onto its like in the other. */
  ghost predicate Maps(a: Objs, b: Objs, f: map<Id, Id>) {
    && ROOT in f && f[ROOT] == ROOT
    && (forall x, y :: x in f && y in f && f[x] == f[y] ==> x == y)
    && forall x :: x in f ==> x in a && f[x] in b && SameMeta(a[x], b[f[x]], f)
  }

  /** The same bytes, and not one of them untouched and the other written. */
  predicate SameContent(a: Content, b: Content) {
    BytesIn(a) == BytesIn(b) && (a.Untouched? <==> b.Untouched?)
  }

  ghost predicate SameContents(a: Objs, b: Objs, f: map<Id, Id>) {
    forall x :: x in f && x in a && a[x].File? ==>
      f[x] in b && b[f[x]].File? && SameContent(a[x].content, b[f[x]].content)
  }

  /** The parts that the roots reach are the same but for ids, in contents too if wanted. */
  ghost predicate Isomorphic(a: Objs, b: Objs, contents: bool) {
    exists f: map<Id, Id> :: Maps(a, b, f)
      && (contents ==> SameContents(a, b, f))
      && (forall x :: x in f <==> x in a && Reaches(a, ROOT, x))
      && (forall y :: y in f.Values <==> y in b && Reaches(b, ROOT, y))
  }

  ghost function MapSeq(f: map<Id, Id>, s: seq<Id>): (r: seq<Id>)
    requires forall i :: 0 <= i < |s| ==> s[i] in f
    ensures |r| == |s| && forall i :: 0 <= i < |s| ==> r[i] == f[s[i]]
  {
    seq(|s|, i requires 0 <= i < |s| => f[s[i]])
  }

  ghost predicate AllIn(s: seq<Id>, f: map<Id, Id>) {
    forall i :: 0 <= i < |s| ==> s[i] in f
  }

  /** The walk of the image is the image of the walk. */
  lemma {:induction false} DfsMaps(a: Objs, b: Objs, sort: Sorter, f: map<Id, Id>, id: Id, depth: nat, acc: seq<Id>)
    requires Maps(a, b, f) && id in f && AllIn(acc, f)
    ensures match Dfs(a, sort, id, depth, acc)
            case None => Dfs(b, sort, f[id], depth, MapSeq(f, acc)).None?
            case Some(r) => AllIn(r, f) && Dfs(b, sort, f[id], depth, MapSeq(f, acc)) == Some(MapSeq(f, r))
    decreases MAX_DEPTH - depth, 0, 0
  {
    if depth < MAX_DEPTH {
      var now := if id in acc then acc else acc + [id];
      InImage(f, acc, id);
      assert MapSeq(f, now) == if f[id] in MapSeq(f, acc) then MapSeq(f, acc) else MapSeq(f, acc) + [f[id]];
      assert SameMeta(a[id], b[f[id]], f);
      if a[id].Dir? {
        EntriesMap(a, b, sort, f, id, Sorted(sort, a[id].entries.Keys), depth, now);
      }
    }
  }

  lemma InImage(f: map<Id, Id>, acc: seq<Id>, id: Id)
    requires AllIn(acc, f) && id in f && forall x, y :: x in f && y in f && f[x] == f[y] ==> x == y
    ensures f[id] in MapSeq(f, acc) <==> id in acc
  {
    if id in acc {
      assert MapSeq(f, acc)[IndexIn(acc, id)] == f[id];
    }
    if f[id] in MapSeq(f, acc) {
      assert acc[IndexIn(MapSeq(f, acc), f[id])] == id;
    }
  }

  lemma {:induction false} EntriesMap(a: Objs, b: Objs, sort: Sorter, f: map<Id, Id>, id: Id, names: seq<Name>,
                                      depth: nat, acc: seq<Id>)
    requires Maps(a, b, f) && id in f && IsDir(a, id) && IsDir(b, f[id]) && AllIn(acc, f) && depth < MAX_DEPTH
    ensures match DfsEntries(a, sort, a[id].entries, names, depth, acc)
            case None => DfsEntries(b, sort, b[f[id]].entries, names, depth, MapSeq(f, acc)).None?
            case Some(r) =>
              AllIn(r, f) && DfsEntries(b, sort, b[f[id]].entries, names, depth, MapSeq(f, acc)) == Some(MapSeq(f, r))
    decreases MAX_DEPTH - depth - 1, 1, |names|
  {
    assert SameMeta(a[id], b[f[id]], f);
    if names != [] {
      if names[0] !in a[id].entries {
        EntriesMap(a, b, sort, f, id, names[1..], depth, acc);
      } else {
        var child := a[id].entries[names[0]];
        DfsMaps(a, b, sort, f, child, depth + 1, acc);
        if Dfs(a, sort, child, depth + 1, acc).Some? {
          EntriesMap(a, b, sort, f, id, names[1..], depth, Dfs(a, sort, child, depth + 1, acc).value);
        }
      }
    }
  }

  lemma {:induction false} NumMaps(f: map<Id, Id>, order: seq<Id>, id: Id)
    requires AllIn(order, f) && id in f && forall x, y :: x in f && y in f && f[x] == f[y] ==> x == y
    ensures NumOf(MapSeq(f, order), f[id]) == NumOf(order, id)
    decreases order
  {
    if order != [] {
      assert MapSeq(f, order)[1..] == MapSeq(f, order[1..]);
      NumMaps(f, order[1..], id);
    }
  }

  lemma RecordMaps(a: Objs, b: Objs, sort: Sorter, f: map<Id, Id>, order: seq<Id>, id: Id, p: Purpose)
    requires Maps(a, b, f) && AllIn(order, f) && id in f && (p.Objects? ==> SameContents(a, b, f))
    ensures RecordOf(b, sort, MapSeq(f, order), f[id], p) == RecordOf(a, sort, order, id, p)
  {
    assert SameMeta(a[id], b[f[id]], f);
    NumMaps(f, order, id);
    if a[id].Dir? {
      var names := Sorted(sort, a[id].entries.Keys);
      var s, t := ListingOf(a[id].entries, names, order), ListingOf(b[f[id]].entries, names, MapSeq(f, order));
      forall i | 0 <= i < |names| ensures s[i] == t[i] {
        if names[i] in a[id].entries {
          NumMaps(f, order, a[id].entries[names[i]]);
        }
      }
      assert s == t;
    }
  }

  /** Isomorphic file systems have the same canonical form, whatever their ids: of their
      metadata always, and of their objects when file contents agree as well. */
  lemma MapsCanon(a: Objs, b: Objs, sort: Sorter, f: map<Id, Id>, p: Purpose)
    requires Maps(a, b, f) && Tidy(a, sort) && Tidy(b, sort) && (p.Objects? ==> SameContents(a, b, f))
    ensures Canon(a, sort, p) == Canon(b, sort, p)
  {
    OrderWithin(a, sort);
    OrderWithin(b, sort);
    assert MapSeq(f, []) == [];
    DfsMaps(a, b, sort, f, ROOT, 0, []);
    var order := Order(a, sort).value;
    assert Order(b, sort).value == MapSeq(f, order);
    var r, s := RecordsOf(a, sort, order, p), RecordsOf(b, sort, MapSeq(f, order), p);
    forall i | 0 <= i < |order| ensures r[i] == s[i] {
      RecordMaps(a, b, sort, f, order, order[i], p);
    }
    assert r == s;
  }

  /** The map between objects of the same number. */
  ghost function ByNumber(a: seq<Id>, b: seq<Id>): map<Id, Id>
    requires |a| == |b|
  {
    map x | x in a :: b[NumOf(a, x)]
  }

  lemma NumAt(order: seq<Id>, i: nat)
    requires Distinct(order) && i < |order|
    ensures NumOf(order, order[i]) == i
  {
  }

  /** Equal records come from objects that agree. */
  lemma RecordSame(a: Objs, b: Objs, sort: Sorter, m: seq<Id>, n: seq<Id>, i: nat, p: Purpose)
    requires Sorts(sort) && Within(m, a) && Within(n, b) && |m| == |n| && Distinct(m) && Distinct(n) && i < |m|
    requires RecordOf(a, sort, m, m[i], p) == RecordOf(b, sort, n, n[i], p) && TellsContent(p)
    requires forall k, c :: Edge(a, m[i], k, c) ==> c in m
    ensures SameMeta(a[m[i]], b[n[i]], ByNumber(m, n))
    ensures p.Objects? && a[m[i]].File? ==> b[n[i]].content == a[m[i]].content
  {
    var o, u, f := a[m[i]], b[n[i]], ByNumber(m, n);
    assert BodyOf(sort, m, o, p) == BodyOf(sort, n, u, p);
    if o.File? {
      assert Told(p, o.content, u.content, [], []);
    }
    if o.Dir? {
      var ps, q := Sorted(sort, o.entries.Keys), Sorted(sort, u.entries.Keys);
      var s, t := ListingOf(o.entries, ps, m), ListingOf(u.entries, q, n);
      assert u.Dir? && s == t;
      assert |ps| == |s| && |q| == |t|;
      forall k | 0 <= k < |ps| ensures ps[k] == q[k] {
        assert s[k].0 == ps[k] && t[k].0 == q[k];
      }
      assert ps == q;
      assert forall x :: x in o.entries.Keys <==> x in ps;
      assert forall x :: x in u.entries.Keys <==> x in q;
      assert o.entries.Keys == u.entries.Keys;
      forall x | x in o.entries ensures o.entries[x] in f && f[o.entries[x]] == u.entries[x] {
        assert Edge(a, m[i], x, o.entries[x]);
        var k :| 0 <= k < |ps| && ps[k] == x;
        assert s[k].1 == NumOf(m, o.entries[x]) && t[k].1 == NumOf(n, u.entries[x]);
      }
    }
  }

  lemma ByNumberIs(m: seq<Id>, n: seq<Id>)
    requires |m| == |n| && Distinct(m) && Distinct(n)
    ensures var f := ByNumber(m, n);
      && (forall x :: x in f <==> x in m) && (forall y :: y in f.Values <==> y in n)
      && (forall x, y :: x in f && y in f && f[x] == f[y] ==> x == y)
  {
    var f := ByNumber(m, n);
    forall y ensures y in f.Values <==> y in n {
      if y in n {
        NumAt(m, NumOf(n, y));
        assert f[m[NumOf(n, y)]] == y;
      }
    }
  }

  lemma NumbersMap(a: Objs, b: Objs, sort: Sorter, m: seq<Id>, n: seq<Id>, p: Purpose)
    requires Sorts(sort) && Within(m, a) && Within(n, b) && |m| == |n| && Distinct(m) && Distinct(n)
    requires m != [] && m[0] == ROOT && n[0] == ROOT
    requires RecordsOf(a, sort, m, p) == RecordsOf(b, sort, n, p) && TellsContent(p)
    requires forall x, k, c :: x in m && Edge(a, x, k, c) ==> c in m
    ensures Maps(a, b, ByNumber(m, n)) && (p.Objects? ==> SameContents(a, b, ByNumber(m, n)))
  {
    var f := ByNumber(m, n);
    ByNumberIs(m, n);
    forall x | x in f
      ensures x in a && f[x] in b && SameMeta(a[x], b[f[x]], f)
      ensures p.Objects? && a[x].File? ==> b[f[x]].File? && b[f[x]].content == a[x].content
    {
      var i := NumOf(m, x);
      assert RecordsOf(a, sort, m, p)[i] == RecordsOf(b, sort, n, p)[i];
      RecordSame(a, b, sort, m, n, i, p);
    }
    NumAt(m, 0);
  }

  lemma RecordsWritten(objs: Objs, sort: Sorter, order: seq<Id>, p: Purpose)
    requires Within(order, objs)
    ensures AllWritten(p, RecordsOf(objs, sort, order, p))
  {
    var rs := RecordsOf(objs, sort, order, p);
    forall i | 0 <= i < |rs| ensures WrittenBody(p, rs[i].body) {
      assert rs[i].body == BodyOf(sort, order, objs[order[i]], p);
    }
  }

  lemma CanonMaps(a: Objs, b: Objs, sort: Sorter, p: Purpose)
    requires Tidy(a, sort) && Tidy(b, sort) && TellsContent(p) && Canon(a, sort, p) == Canon(b, sort, p)
    ensures Isomorphic(a, b, p.Objects?)
  {
    OrderWithin(a, sort);
    OrderWithin(b, sort);
    var m, n := Order(a, sort).value, Order(b, sort).value;
    RecordsWritten(a, sort, m, p);
    RecordsWritten(b, sort, n, p);
    ArchiveInjective(p, RecordsOf(a, sort, m, p), RecordsOf(b, sort, n, p));
    forall x | x in m ensures forall k, c :: Edge(a, x, k, c) ==> c in m {
      OrderClosed(a, sort, x);
    }
    NumbersMap(a, b, sort, m, n, p);
    ByNumberIs(m, n);
    OrderIs(a, sort);
    OrderIs(b, sort);
    assert Maps(a, b, ByNumber(m, n));
  }

  lemma OrderClosed(objs: Objs, sort: Sorter, x: Id)
    requires Tidy(objs, sort) && x in Order(objs, sort).value
    ensures forall k, c :: Edge(objs, x, k, c) ==> c in Order(objs, sort).value
  {
    OrderIs(objs, sort);
    forall k, c | Edge(objs, x, k, c) ensures c in Order(objs, sort).value {
      ReachesOn(objs, ROOT, x, k, c);
    }
  }

  /** Archives are equal exactly when the reachable parts are isomorphic, in metadata or also
      in contents, as long as what is written for a file tells its content. */
  lemma CanonIff(a: Objs, b: Objs, sort: Sorter, p: Purpose)
    requires Tidy(a, sort) && Tidy(b, sort) && TellsContent(p)
    ensures Canon(a, sort, p) == Canon(b, sort, p) <==> Isomorphic(a, b, p.Objects?)
  {
    if Canon(a, sort, p) == Canon(b, sort, p) {
      CanonMaps(a, b, sort, p);
    }
    if Isomorphic(a, b, p.Objects?) {
      var f: map<Id, Id> :| Maps(a, b, f) && (p.Objects? ==> SameContents(a, b, f));
      MapsCanon(a, b, sort, f, p);
    }
  }

  /* ---- what is written for a file ---- */

  /** The regions of a file with some bytes. */
  type Store = seq<int> -> seq<SparseData.Region>

  function RegionsOf(store: Store, bytes: seq<int>): seq<SparseData.Region> {
    store(bytes)
  }

  /** They are in normal form and show the bytes. */
  ghost predicate Keeps(hash: SparseData.Hash, store: Store, bytes: seq<int>) {
    && SparseData.Normal(hash, RegionsOf(store, bytes))
    && forall p: nat :: FlatBytes.ByteAt(hash, RegionsOf(store, bytes), p) == if p < |bytes| then bytes[p] else 0
  }

  /** So are the regions that writing the bytes to an empty file leaves. */
  lemma PutKeeps(hash: SparseData.Hash, store: Store, bytes: seq<int>)
    requires RegionsOf(store, bytes) == ByteAccess.Put(RegionWrites.AsMeant, hash, [], bytes, 0)
    ensures Keeps(hash, store, bytes)
  {
    var b := ByteAccess.Rounded(RegionWrites.AsMeant, hash, [], bytes, 0);
    ByteAccess.StoreNormal(hash, [], b, b.start);
    forall p: nat ensures FlatBytes.ByteAt(hash, RegionsOf(store, bytes), p) == if p < |bytes| then bytes[p] else 0 {
      ByteAccess.PutBytes(hash, [], bytes, 0, p);
      SparseData.AtNowhere(hash, [], p / 4);
    }
  }

  /** The signature kept with a file: 0 until it is truncated or written. */
  ghost function SigOf(store: Store, sig: seq<int> -> int, c: Content): int
    requires SparseData.Ordered(RegionsOf(store, BytesIn(c)))
  {
    if c.Untouched? then 0 else sig(DataArchives.CanonData(RegionsOf(store, c.bytes)))
  }

  /** The size, the signature and the canonical data. */
  ghost function FileCells(hash: SparseData.Hash, store: Store, sig: seq<int> -> int, c: Content): seq<int>
    requires Keeps(hash, store, BytesIn(c))
  {
    [|BytesIn(c)|, SigOf(store, sig, c)] + DataArchives.CanonData(RegionsOf(store, BytesIn(c)))
  }

  /** The writer of file contents: signatures are injective, and that of nothing is known. */
  ghost predicate WritesFiles(p: Purpose, hash: SparseData.Hash, store: Store, sig: seq<int> -> int) {
    && p.Objects? && (forall x, y :: sig(x) == sig(y) ==> x == y) && sig([]) == Hashes.EMPTY_SIG
    && forall c :: Keeps(hash, store, BytesIn(c)) && Writes(p, c) == FileCells(hash, store, sig, c)
  }

  lemma SameBytes(hash: SparseData.Hash, store: Store, x: seq<int>, y: seq<int>)
    requires Keeps(hash, store, x) && Keeps(hash, store, y) && |x| == |y|
    requires DataArchives.CanonData(RegionsOf(store, x)) == DataArchives.CanonData(RegionsOf(store, y))
    ensures x == y
  {
    var a, b := RegionsOf(store, x), RegionsOf(store, y);
    DataArchives.CanonDataIff(hash, a, b);
    forall i | 0 <= i < |x| ensures x[i] == y[i] {
      assert FlatBytes.ByteAt(hash, a, i) == FlatBytes.ByteAt(hash, b, i);
    }
  }

  /** An empty file has no canonical data. */
  lemma EmptyData(hash: SparseData.Hash, store: Store)
    requires Keeps(hash, store, [])
    ensures DataArchives.CanonData(RegionsOf(store, [])) == []
  {
    forall p: nat ensures FlatBytes.ByteAt(hash, RegionsOf(store, []), p) == FlatBytes.ByteAt(hash, [], p) {
      SparseData.AtNowhere(hash, [], p / 4);
    }
    FlatBytes.SameBytesSameRegions(hash, RegionsOf(store, []), []);
  }

  lemma EmptySig(hash: SparseData.Hash, store: Store, sig: seq<int> -> int, c: Content)
    requires Keeps(hash, store, BytesIn(c)) && sig([]) == Hashes.EMPTY_SIG
    ensures |BytesIn(c)| == 0 ==> SigOf(store, sig, c) == if c.Untouched? then 0 else Hashes.EMPTY_SIG
  {
    if |BytesIn(c)| == 0 {
      assert BytesIn(c) == [];
      EmptyData(hash, store);
    }
  }

  lemma SizeAndSigTell(hash: SparseData.Hash, store: Store, sig: seq<int> -> int, x: Content, y: Content)
    requires Keeps(hash, store, BytesIn(x)) && Keeps(hash, store, BytesIn(y)) && |BytesIn(x)| == |BytesIn(y)|
    requires (forall u, v :: sig(u) == sig(v) ==> u == v) && sig([]) == Hashes.EMPTY_SIG
    requires SigOf(store, sig, x) == SigOf(store, sig, y)
    ensures x == y
  {
    EmptySig(hash, store, sig, x);
    EmptySig(hash, store, sig, y);
    if x.Written? && y.Written? {
      SameBytes(hash, store, x.bytes, y.bytes);
    }
  }

  /** What is written for a file tells its content. */
  lemma FilesTold(p: Purpose, hash: SparseData.Hash, store: Store, sig: seq<int> -> int)
    requires WritesFiles(p, hash, store, sig)
    ensures TellsContent(p)
  {
    forall x, y, s, t ensures Told(p, x, y, s, t) {
      if Writes(p, x) + s == Writes(p, y) + t {
        assert Writes(p, x) == FileCells(hash, store, sig, x) && Writes(p, y) == FileCells(hash, store, sig, y);
        var c, d := RegionsOf(store, BytesIn(x)), RegionsOf(store, BytesIn(y));
        SameHeads(|BytesIn(x)|, SigOf(store, sig, x), DataArchives.CanonData(c), s,
                  |BytesIn(y)|, SigOf(store, sig, y), DataArchives.CanonData(d), t);
        SizeAndSigTell(hash, store, sig, x, y);
      }
    }
  }

  lemma SameHeads(m: int, u: int, c: seq<int>, s: seq<int>, n: int, v: int, d: seq<int>, t: seq<int>)
    requires [m, u] + c + s == [n, v] + d + t
    ensures m == n && u == v
  {
    assert ([m, u] + c + s)[0] == m && ([m, u] + c + s)[1] == u;
    assert ([n, v] + d + t)[0] == n && ([n, v] + d + t)[1] == v;
  }

  /** So two object archives are equal exactly when the reachable parts are isomorphic, files
      hold the same bytes, and no empty file is untouched on one side and written on the
      other. */
  lemma ObjectsIff(a: Objs, b: Objs, sort: Sorter, p: Purpose, hash: SparseData.Hash, store: Store,
                   sig: seq<int> -> int)
    requires Tidy(a, sort) && Tidy(b, sort) && WritesFiles(p, hash, store, sig)
    ensures Canon(a, sort, p) == Canon(b, sort, p) <==> Isomorphic(a, b, true)
  {
    FilesTold(p, hash, store, sig);
    CanonIff(a, b, sort, p);
  }

  /* ---- a file that is emptied ---- */

  /** Isomorphism goes along paths. */
  lemma {:induction false} MapsResolve(a: Objs, b: Objs, f: map<Id, Id>, x: Id, path: seq<Name>)
    requires Maps(a, b, f) && x in f && Resolve(a, x, path).Some?
    ensures Resolve(a, x, path).value in f
    ensures Resolve(b, f[x], path) == Some(f[Resolve(a, x, path).value])
    decreases path
  {
    if path != [] {
      assert SameMeta(a[x], b[f[x]], f);
      MapsResolve(a, b, f, a[x].entries[path[0]], path[1..]);
    }
  }

  /** Whatever is written to a file, paths lead where they did. */
  lemma {:induction false} RewrittenReaches(objs: Objs, o: Id, bytes: seq<int>, a: Id, path: seq<Name>)
    requires IsFile(objs, o)
    ensures Resolve(Rewritten(objs, o, bytes), a, path) == Resolve(objs, a, path)
    decreases path
  {
    if path != [] && HasEntry(objs, a, path[0]) {
      RewrittenReaches(objs, o, bytes, objs[a].entries[path[0]], path[1..]);
    }
  }

  lemma RewrittenSameReach(objs: Objs, o: Id, bytes: seq<int>, x: Id)
    requires IsFile(objs, o)
    ensures Reaches(Rewritten(objs, o, bytes), ROOT, x) <==> Reaches(objs, ROOT, x)
  {
    forall path ensures Resolve(Rewritten(objs, o, bytes), ROOT, path) == Resolve(objs, ROOT, path) {
      RewrittenReaches(objs, o, bytes, ROOT, path);
    }
  }

  ghost function Reached(objs: Objs): map<Id, Id> {
    map x | x in objs && Reaches(objs, ROOT, x) :: x
  }

  lemma RewrittenMaps(objs: Objs, sort: Sorter, o: Id, bytes: seq<int>)
    requires Tidy(objs, sort) && IsFile(objs, o)
    ensures Maps(objs, Rewritten(objs, o, bytes), Reached(objs))
  {
    var now, f := Rewritten(objs, o, bytes), Reached(objs);
    assert Resolve(objs, ROOT, []) == Some(ROOT);
    forall x | x in f ensures x in objs && f[x] in now && SameMeta(objs[x], now[f[x]], f) {
      if objs[x].Dir? {
        forall n | n in objs[x].entries ensures objs[x].entries[n] in f {
          assert Edge(objs, x, n, objs[x].entries[n]);
          ReachesOn(objs, ROOT, x, n, objs[x].entries[n]);
        }
      }
    }
  }

  lemma RewrittenTidy(objs: Objs, sort: Sorter, o: Id, bytes: seq<int>)
    requires Tidy(objs, sort) && IsFile(objs, o)
    ensures Tidy(Rewritten(objs, o, bytes), sort) && Isomorphic(objs, Rewritten(objs, o, bytes), false)
  {
    var now, f := Rewritten(objs, o, bytes), Reached(objs);
    RewrittenMaps(objs, sort, o, bytes);
    assert MapSeq(f, []) == [];
    DfsMaps(objs, now, sort, f, ROOT, 0, []);
    forall x ensures Reaches(now, ROOT, x) <==> Reaches(objs, ROOT, x) {
      RewrittenSameReach(objs, o, bytes, x);
    }
    forall x, n, c | Reaches(now, ROOT, x) && Edge(now, x, n, c) ensures c in now {
      assert Edge(objs, x, n, c);
    }
    forall y ensures y in f.Values <==> y in now && Reaches(now, ROOT, y) {
      if y in now && Reaches(now, ROOT, y) {
        assert f[y] == y;
      }
    }
  }

  /** An isomorphism maps a file to the one at the same path, so it cannot make up for a file
      that is touched. */
  lemma TouchedDiffers(objs: Objs, o: Id, bytes: seq<int>)
    requires IsFile(objs, o) && objs[o].content.Untouched? && Reaches(objs, ROOT, o)
    ensures !Isomorphic(objs, Rewritten(objs, o, bytes), true)
  {
    var now := Rewritten(objs, o, bytes);
    forall f: map<Id, Id> | Maps(objs, now, f) ensures !SameContents(objs, now, f) {
      var path :| Resolve(objs, ROOT, path) == Some(o);
      MapsResolve(objs, now, f, ROOT, path);
      RewrittenReaches(objs, o, bytes, ROOT, path);
      assert f[o] == o && !SameContent(objs[o].content, now[o].content);
    }
  }

  /** Truncating a new file to 0 leaves the same names, counts, modes and bytes, and another
      object archive: signatures are 0 and that of no data. */
  lemma EmptiedFileDiffers(objs: Objs, sort: Sorter, p: Purpose, hash: SparseData.Hash, store: Store,
                           sig: seq<int> -> int, o: Id, now: Objs)
    requires Tidy(objs, sort) && WritesFiles(p, hash, store, sig)
    requires IsFile(objs, o) && objs[o].content.Untouched? && Reaches(objs, ROOT, o)
    requires now == Rewritten(objs, o, TruncateBytes(BytesIn(objs[o].content), 0))
    ensures Tidy(now, sort) && Isomorphic(objs, now, false) && Canon(objs, sort, p) != Canon(now, sort, p)
    ensures forall x :: IsFile(objs, x) ==> IsFile(now, x) && BytesIn(now[x].content) == BytesIn(objs[x].content)
  {
    EmptiedBytes(objs, o);
    RewrittenTidy(objs, sort, o, []);
    ArchivesDiffer(objs, now, sort, p, hash, store, sig, o);
  }

  lemma EmptiedBytes(objs: Objs, o: Id)
    requires IsFile(objs, o) && objs[o].content.Untouched?
    ensures TruncateBytes(BytesIn(objs[o].content), 0) == []
    ensures var now := Rewritten(objs, o, []);
      forall x :: IsFile(objs, x) ==> IsFile(now, x) && BytesIn(now[x].content) == BytesIn(objs[x].content)
  {
  }

  lemma ArchivesDiffer(objs: Objs, now: Objs, sort: Sorter, p: Purpose, hash: SparseData.Hash, store: Store,
                       sig: seq<int> -> int, o: Id)
    requires Tidy(objs, sort) && Tidy(now, sort) && WritesFiles(p, hash, store, sig)
    requires IsFile(objs, o) && objs[o].content.Untouched? && Reaches(objs, ROOT, o) && now == Rewritten(objs, o, [])
    ensures Canon(objs, sort, p) != Canon(now, sort, p)
  {
    TouchedDiffers(objs, o, []);
    ObjectsIff(objs, now, sort, p, hash, store, sig);
  }

  lemma {:induction false} LeavesShallow(objs: Objs, sort: Sorter, entries: map<Name, Id>, names: seq<Name>,
                                         acc: seq<Id>)
    requires forall n :: n in entries ==> !IsDir(objs, entries[n])
    ensures DfsEntries(objs, sort, entries, names, 0, acc).Some?
    decreases names
  {
    if names != [] {
      if names[0] !in entries {
        LeavesShallow(objs, sort, entries, names[1..], acc);
      } else {
        LeavesShallow(objs, sort, entries, names[1..], Dfs(objs, sort, entries[names[0]], 1, acc).value);
      }
    }
  }

  /** creat /a beside creat /a and truncate /a to 0. */
  lemma CreatAndTruncateDiffer(sort: Sorter, p: Purpose, hash: SparseData.Hash, store: Store, sig: seq<int> -> int)
    requires Sorts(sort) && WritesFiles(p, hash, store, sig)
    ensures var a: Objs := map[ROOT := Dir(0, ALL_PERM, map["a" := 1]), 1 := File(1, ALL_PERM, Untouched)];
      var b := Rewritten(a, 1, TruncateBytes([], 0));
      Tidy(a, sort) && Tidy(b, sort) && Isomorphic(a, b, false) && Canon(a, sort, p) != Canon(b, sort, p)
  {
    var a: Objs := map[ROOT := Dir(0, ALL_PERM, map["a" := 1]), 1 := File(1, ALL_PERM, Untouched)];
    LeavesShallow(a, sort, a[ROOT].entries, Sorted(sort, a[ROOT].entries.Keys), [ROOT]);
    assert [] + [ROOT] == [ROOT];
    assert Resolve(a, 1, []) == Some(1) && ["a"][1..] == [];
    assert Resolve(a, ROOT, ["a"]) == Resolve(a, 1, []);
    EmptiedFileDiffers(a, sort, p, hash, store, sig, 1, Rewritten(a, 1, TruncateBytes([], 0)));
  }

  /* ---- the walk and the writer as coded ---- */

  const INVALID_ID := -1

  lemma {:induction false} NumSnoc(acc: seq<Id>, id: Id, x: Id)
    requires id !in acc
    ensures NumOf(acc + [id], x) == if x == id then |acc| else NumOf(acc, x)
  {
    if acc != [] {
      assert (acc + [id])[1..] == acc[1..] + [id];
      NumSnoc(acc[1..], id, x);
    }
  }

  /** The visitor that numbers objects as they are first seen. */
  class VisitOrder {
    var order: map<Id, int>
    var cur: nat

    /** The map holds the numbers of `acc` and marks all other objects. */
    ghost predicate Shows(objs: Objs, acc: seq<Id>)
      reads this
    {
      order.Keys == objs.Keys && cur == |acc| && forall id :: id in order ==> order[id] == NumOf(acc, id)
    }

    constructor (objs: Objs)
      ensures Shows(objs, [])
    {
      order := map id | id in objs :: INVALID_ID;
      cur := 0;
    }

    method AddToOrder(id: Id, ghost objs: Objs, ghost acc: seq<Id>)
      requires Shows(objs, acc) && id in objs
      modifies this
      ensures Shows(objs, if id in acc then acc else acc + [id])
    {
      if order[id] != INVALID_ID {
        return;
      }
      forall x ensures NumOf(acc + [id], x) == if x == id then |acc| else NumOf(acc, x) {
        NumSnoc(acc, id, x);
      }
      order, cur := order[id := cur], cur + 1;
    }

    /** dfs_ with this visitor. */
    method Walk(objs: Objs, sort: Sorter, id: Id, depth: nat, ghost acc: seq<Id>) returns (ok: bool, ghost r: seq<Id>)
      requires Shows(objs, acc)
      modifies this
      ensures ok <==> Dfs(objs, sort, id, depth, acc).Some?
      ensures ok ==> Dfs(objs, sort, id, depth, acc) == Some(r) && Shows(objs, r)
      decreases MAX_DEPTH - depth
    {
      r := acc;
      if depth >= MAX_DEPTH {
        return false, r;
      }
      ok := true;
      if id !in objs {
        return;
      }
      AddToOrder(id, objs, acc);
      r := if id in acc then acc else acc + [id];
      if objs[id].Dir? {
        var entries := objs[id].entries;
        var names := Sorted(sort, entries.Keys);
        for i := 0 to |names|
          invariant Shows(objs, r)
          invariant Dfs(objs, sort, id, depth, acc) == DfsEntries(objs, sort, entries, names[i..], depth, r)
        {
          assert names[i..][1..] == names[i + 1..];
          if names[i] in entries {
            ok, r := Walk(objs, sort, entries[names[i]], depth + 1, r);
            if !ok {
              return;
            }
          }
        }
      }
    }
  }

  lemma {:induction false} DistinctFits(s: seq<Id>, keys: set<Id>)
    requires Distinct(s) && forall i :: 0 <= i < |s| ==> s[i] in keys
    ensures |s| <= |keys|
    decreases s
  {
    if s != [] {
      var rest := keys - {s[0]};
      forall i | 0 <= i < |s[1..]| ensures s[1..][i] in rest {
      }
      DistinctFits(s[1..], rest);
    }
  }

  /** id_map_to_order: the ids by number. The keys of the map come in some order. */
  method IdMapToOrder(idMap: map<Id, int>, keys: seq<Id>, ghost acc: seq<Id>) returns (order: seq<Id>)
    requires acc != [] && Distinct(acc) && forall i :: 0 <= i < |acc| ==> acc[i] in idMap
    requires forall id :: id in idMap ==> idMap[id] == NumOf(acc, id)
    requires forall id :: id in keys <==> id in idMap
    ensures order == acc
  {
    DistinctFits(acc, idMap.Keys);
    var all, max := seq(|idMap|, _ => INVALID_ID), 0;
    for k := 0 to |keys|
      invariant |all| == |idMap| && 0 <= max < |acc|
      invariant forall i :: 0 <= i < |acc| && acc[i] in keys[..k] ==> all[i] == acc[i] && i <= max
    {
      var id := keys[k];
      if idMap[id] != INVALID_ID {
        all := all[idMap[id] := id];
        if max < idMap[id] {
          max := idMap[id];
        }
      }
    }
    assert keys[..|keys|] == keys && acc[|acc| - 1] in keys;
    order := all[..max + 1];
  }

  /** canon_helper: numbers the objects and writes them in order. */
  method CanonHelper(objs: Objs, ids: seq<Id>, sort: Sorter, p: Purpose) returns (ok: bool, ar: seq<int>)
    requires Sorts(sort) && ROOT in objs && forall id :: id in ids <==> id in objs
    requires forall x, n, c :: Reaches(objs, ROOT, x) && Edge(objs, x, n, c) ==> c in objs
    ensures ok <==> Tidy(objs, sort)
    ensures ok ==> ar == Canon(objs, sort, p)
  {
    var v := new VisitOrder(objs);
    ghost var acc;
    ar := [];
    ok, acc := v.Walk(objs, sort, ROOT, 0, []);
    if !ok {
      return;
    }
    OrderWithin(objs, sort);
    var order := IdMapToOrder(v.order, ids, acc);
    ghost var rs := RecordsOf(objs, sort, order, p);
    for i := 0 to |order|
      invariant ar + Archive(rs[i..]) == Archive(rs)
    {
      assert rs[i..][1..] == rs[i + 1..] && rs[i..][0] == rs[i];
      Assoc(ar, Cells(rs[i]), Archive(rs[i + 1..]));
      ar := ar + Cells(RecordOf(objs, sort, order, order[i], p));
    }
    assert ar + [] == ar;
  }
}
