/** Entries that name no object: detect_dangling in driver/AbstFS.C. */
module Danglings {

  import opened AbstFs
  import opened Basics
  import opened Canons

  /** dfs_ with the visitor that stops at an entry without an object: whether it met one, or
      None when the recursion got too deep before that. */
  function Look(objs: Objs, sort: Sorter, id: Id, depth: nat): Option<bool>
    decreases MAX_DEPTH - depth, 0, 0
  {
    if depth >= MAX_DEPTH then None
    else if id !in objs then Some(true)
    else if objs[id].Dir? then LookIn(objs, sort, objs[id].entries, Sorted(sort, objs[id].entries.Keys), depth)
    else Some(false)
  }

  function LookIn(objs: Objs, sort: Sorter, entries: map<Name, Id>, names: seq<Name>, depth: nat): Option<bool>
    requires depth < MAX_DEPTH
    decreases MAX_DEPTH - depth - 1, 1, |names|
  {
    if names == [] then Some(false)
    else if names[0] !in entries then LookIn(objs, sort, entries, names[1..], depth)
    else
      var r := Look(objs, sort, entries[names[0]], depth + 1);
      if r == Some(false) then LookIn(objs, sort, entries, names[1..], depth) else r
  }

  /** Some way from an object ends at an id that has none. */
  ghost predicate Dangles(objs: Objs, id: Id) {
    exists path :: EndsNowhere(objs, id, path)
  }

  predicate EndsNowhere(objs: Objs, id: Id, path: seq<Name>) {
    var r := Resolve(objs, id, path);
    r.Some? && r.value !in objs
  }

  /** Some way from an object is that long. */
  ghost predicate Deep(objs: Objs, id: Id, n: int) {
    exists path :: |path| >= n && Resolve(objs, id, path).Some?
  }

  /** What a search from an object says, and that it ends unless some way is too long. */
  ghost predicate Says(objs: Objs, id: Id, depth: nat, r: Option<bool>) {
    if r.None? then Deep(objs, id, MAX_DEPTH - depth) else r.value <==> Dangles(objs, id)
  }

  lemma ResolveCons(objs: Objs, id: Id, n: Name, path: seq<Name>)
    requires HasEntry(objs, id, n)
    ensures Resolve(objs, id, [n] + path) == Resolve(objs, objs[id].entries[n], path)
  {
    assert ([n] + path)[1..] == path;
  }

  /** What holds of an entry's object holds of its directory. */
  lemma FromEntry(objs: Objs, id: Id, n: Name, k: int)
    requires HasEntry(objs, id, n)
    ensures Dangles(objs, objs[id].entries[n]) ==> Dangles(objs, id)
    ensures Deep(objs, objs[id].entries[n], k - 1) ==> Deep(objs, id, k)
  {
    var c := objs[id].entries[n];
    if path :| EndsNowhere(objs, c, path) {
      ResolveCons(objs, id, n, path);
      assert EndsNowhere(objs, id, [n] + path);
    }
    if path :| |path| >= k - 1 && Resolve(objs, c, path).Some? {
      ResolveCons(objs, id, n, path);
      assert |[n] + path| >= k;
    }
  }

  lemma {:induction false} LookSays(objs: Objs, sort: Sorter, id: Id, depth: nat)
    requires Sorts(sort)
    ensures Says(objs, id, depth, Look(objs, sort, id, depth))
    decreases MAX_DEPTH - depth, 0, 0
  {
    var none: seq<Name> := [];
    assert Resolve(objs, id, none) == Some(id);
    if depth >= MAX_DEPTH {
      assert |none| >= MAX_DEPTH - depth;
    } else if id !in objs {
      assert EndsNowhere(objs, id, []);
    } else if objs[id].Dir? {
      var names := Sorted(sort, objs[id].entries.Keys);
      LookInSays(objs, sort, id, names, depth);
      if Dangles(objs, id) {
        var path :| EndsNowhere(objs, id, path);
        assert path[0] in names;
        assert EndsNowhere(objs, objs[id].entries[path[0]], path[1..]);
      }
    }
  }

  /** The names are searched in order, up to the first that dangles or is too deep. */
  lemma {:induction false} LookInSays(objs: Objs, sort: Sorter, id: Id, names: seq<Name>, depth: nat)
    requires Sorts(sort) && depth < MAX_DEPTH && IsDir(objs, id)
    ensures var r := LookIn(objs, sort, objs[id].entries, names, depth);
      && (r.None? ==> Deep(objs, id, MAX_DEPTH - depth))
      && (r == Some(true) ==> Dangles(objs, id))
      && (r == Some(false) ==> forall n :: n in names && HasEntry(objs, id, n) ==> !Dangles(objs, objs[id].entries[n]))
    decreases MAX_DEPTH - depth - 1, 1, |names|
  {
    if names != [] {
      if names[0] in objs[id].entries {
        LookSays(objs, sort, objs[id].entries[names[0]], depth + 1);
        FromEntry(objs, id, names[0], MAX_DEPTH - depth);
      }
      LookInSays(objs, sort, id, names[1..], depth);
    }
  }

  /** The search as coded. */
  method DetectDangling(objs: Objs, sort: Sorter, id: Id, depth: nat) returns (r: Option<bool>)
    ensures r == Look(objs, sort, id, depth)
    decreases MAX_DEPTH - depth
  {
    if depth >= MAX_DEPTH {
      return None;
    }
    if id !in objs {
      return Some(true);
    }
    r := Some(false);
    if objs[id].Dir? {
      var entries := objs[id].entries;
      var names := Sorted(sort, entries.Keys);
      for i := 0 to |names|
        invariant r == Some(false)
        invariant Look(objs, sort, id, depth) == LookIn(objs, sort, entries, names[i..], depth)
      {
        assert names[i..][1..] == names[i + 1..];
        if names[i] in entries {
          r := DetectDangling(objs, sort, entries[names[i]], depth + 1);
          if r != Some(false) {
            return;
          }
        }
      }
    }
  }

  /** A file system whose counts are right has no dangling entry. */
  lemma CountedWhole(objs: Objs)
    requires Counted(objs)
    ensures !Dangles(objs, ROOT)
  {
    forall path ensures !EndsNowhere(objs, ROOT, path) {
      ResolvedIn(objs, ROOT, path);
    }
  }
}
