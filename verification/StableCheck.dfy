/** What check compares a recovered file system with: driver/StableFS.C.

    Pending deltas on file contents are set apart, and the loop applies subsets of the
    others to a copy of the stable file system. */
module StableChecks {

  import opened AbstFs
  import opened Basics
  import Canons
  import opened Danglings
  import Powersets
  import opened StableFs

  /* ---- metadata and data ---- */

  predicate IsData(d: Delta) {
    d.SetLength? || d.WriteAt?
  }

  /** The deltas that the loop permutes. */
  function Metadata(ds: seq<Delta>): seq<Delta> {
    if ds == [] then []
    else if IsData(ds[0]) then Metadata(ds[1..])
    else [ds[0]] + Metadata(ds[1..])
  }

  /** The deltas that are set apart. */
  function Data(ds: seq<Delta>): seq<Delta> {
    if ds == [] then []
    else if IsData(ds[0]) then [ds[0]] + Data(ds[1..])
    else Data(ds[1..])
  }

  lemma {:induction false} SplitSnoc(ds: seq<Delta>, d: Delta)
    ensures Metadata(ds + [d]) == if IsData(d) then Metadata(ds) else Metadata(ds) + [d]
    ensures Data(ds + [d]) == if IsData(d) then Data(ds) + [d] else Data(ds)
  {
    if ds == [] {
      assert [] + [d] == [d] && [d][1..] == [];
    } else {
      assert (ds + [d])[1..] == ds[1..] + [d];
      SplitSnoc(ds[1..], d);
    }
  }

  /** The loop of check that sorts the pending deltas. */
  method SetApart(pending: seq<Delta>) returns (deltas: seq<Delta>, data: seq<Delta>)
    ensures deltas == Metadata(pending) && data == Data(pending)
  {
    deltas, data := [], [];
    for i := 0 to |pending|
      invariant deltas == Metadata(pending[..i]) && data == Data(pending[..i])
    {
      assert pending[..i + 1] == pending[..i] + [pending[i]];
      SplitSnoc(pending[..i], pending[i]);
      if IsData(pending[i]) {
        data := data + [pending[i]];
      } else {
        deltas := deltas + [pending[i]];
      }
    }
    assert pending[..|pending|] == pending;
  }

  /** An object without its contents. */
  function Bare(o: Obj): Obj {
    if o.File? then o.(content := Untouched) else o
  }

  /** The same objects, entries, counts and modes; contents may differ. */
  ghost predicate SameMetadata(a: Objs, b: Objs) {
    a.Keys == b.Keys && forall id :: id in a ==> Bare(a[id]) == Bare(b[id])
  }

  /** The content that a file starts with: what it has, or what it is added with. */
  function StartContent(objs: Objs, ds: seq<Delta>, id: Id): Content
    decreases ds
  {
    if id in objs then (if objs[id].File? then objs[id].content else Untouched)
    else if ds == [] then Untouched
    else if Adds(ds[0], id) then (if ds[0].obj.File? then ds[0].obj.content else Untouched)
    else StartContent(objs, ds[1..], id)
  }

  /** The content of a file after the data deltas among some deltas. */
  function Played(c: Content, ds: seq<Delta>, id: Id): Content
    decreases ds
  {
    if ds == [] then c
    else if ds[0].id == id && ds[0].SetLength? then
      Played(Written(TruncateBytes(BytesIn(c), ds[0].length)), ds[1..], id)
    else if ds[0].id == id && ds[0].WriteAt? then
      Played(Written(PwriteBytes(BytesIn(c), ds[0].off, ds[0].data)), ds[1..], id)
    else Played(c, ds[1..], id)
  }

  function AfterAll(objs: Objs, ds: seq<Delta>): Objs
    decreases ds
  {
    if ds == [] then objs else AfterAll(After(objs, ds[0]), ds[1..])
  }

  /* ---- metadata without data ---- */

  lemma DataStep(bare: Objs, objs: Objs, d: Delta)
    requires SameMetadata(bare, objs) && Fits(objs, d) && IsData(d)
    ensures SameMetadata(bare, After(objs, d))
  {
  }

  lemma LinkStep(bare: Objs, objs: Objs, p: Id, n: Name, c: Id)
    requires SameMetadata(bare, objs) && IsDir(objs, p) && !HasEntry(objs, p, n) && c in objs
    ensures IsDir(bare, p) && bare[p] == objs[p] && SameMetadata(Linked(bare, p, n, c), Linked(objs, p, n, c))
  {
    assert Bare(bare[p]) == Bare(objs[p]) && Bare(bare[c]) == Bare(objs[c]);
  }

  lemma UnlinkStep(bare: Objs, objs: Objs, p: Id, n: Name)
    requires SameMetadata(bare, objs) && HasEntry(objs, p, n) && objs[p].entries[n] != p
    ensures HasEntry(bare, p, n) && bare[p] == objs[p] && SameMetadata(Unlinked(bare, p, n), Unlinked(objs, p, n))
  {
    assert Bare(bare[p]) == Bare(objs[p]);
    var c := objs[p].entries[n];
    if c in objs {
      assert Bare(bare[c]) == Bare(objs[c]);
    }
  }

  lemma MetadataStep(bare: Objs, objs: Objs, d: Delta)
    requires SameMetadata(bare, objs) && Fits(objs, d) && !IsData(d)
    ensures Fits(bare, d) && SameMetadata(After(bare, d), After(objs, d))
  {
    match d
    case Add(id, obj) =>
    case AddEntry(id, name, child) => LinkStep(bare, objs, id, name, child);
    case RemoveEntry(id, name, child) =>
      UnlinkStep(bare, objs, id, name);
      if child in objs {
        assert Bare(bare[child]) == Bare(objs[child]);
      }
  }

  /** Without the data deltas the others still fit, and lead to the same metadata. */
  lemma {:induction false} MetadataLeads(bare: Objs, objs: Objs, ds: seq<Delta>, final: Objs)
    requires SameMetadata(bare, objs) && Leads(objs, ds, final)
    ensures Leads(bare, Metadata(ds), AfterAll(bare, Metadata(ds)))
    ensures SameMetadata(AfterAll(bare, Metadata(ds)), final)
    decreases ds
  {
    if ds != [] {
      var d := ds[0];
      if IsData(d) {
        DataStep(bare, objs, d);
        MetadataLeads(bare, After(objs, d), ds[1..], final);
      } else {
        MetadataStep(bare, objs, d);
        MetadataLeads(After(bare, d), After(objs, d), ds[1..], final);
        assert Metadata(ds)[1..] == Metadata(ds[1..]);
      }
    }
  }

  /* ---- the contents ---- */

  /** A file ends with the data deltas applied to what it starts with. */
  lemma {:induction false} PlayedIs(objs: Objs, ds: seq<Delta>, final: Objs, id: Id)
    requires Leads(objs, ds, final) && IsFile(final, id) && AddsOnce(id in objs, ds, id)
    ensures final[id].content == Played(StartContent(objs, ds, id), ds, id)
    decreases ds
  {
    if ds != [] {
      var d, next := ds[0], After(objs, ds[0]);
      FileNow(objs, ds, final, id);
      if id in objs {
        assert !Adds(d, id);
      } else if Adds(d, id) {
        if !d.obj.File? {
          NotFileStays(next, ds[1..], final, id);
        }
      } else {
        NotFileStep(objs, d, id);
      }
      PlayedIs(next, ds[1..], final, id);
      PlayedStep(objs, ds, id);
    }
  }

  lemma PlayedStep(objs: Objs, ds: seq<Delta>, id: Id)
    requires ds != [] && Fits(objs, ds[0]) && !(id in objs && Adds(ds[0], id))
    requires id in objs ==> IsFile(objs, id) && IsFile(After(objs, ds[0]), id)
    requires id !in objs ==> (id in After(objs, ds[0]) <==> Adds(ds[0], id))
    ensures Played(StartContent(objs, ds, id), ds, id) ==
      Played(StartContent(After(objs, ds[0]), ds[1..], id), ds[1..], id)
  {
    if id !in objs && !Adds(ds[0], id) {
      SameStart(objs, After(objs, ds[0]), ds[1..], id);
    }
  }

  lemma {:induction false} SameStart(a: Objs, b: Objs, ds: seq<Delta>, id: Id)
    requires id !in a && id !in b
    ensures StartContent(a, ds, id) == StartContent(b, ds, id)
    decreases ds
  {
    if ds != [] {
      SameStart(a, b, ds[1..], id);
    }
  }

  lemma {:induction false} MetadataAdds(there: bool, ds: seq<Delta>, id: Id)
    requires AddsOnce(there, ds, id)
    ensures AddsOnce(there, Metadata(ds), id)
    decreases ds
  {
    if ds != [] {
      var rest := Metadata(ds[1..]);
      if there {
        assert NeverAdds(ds[1..], id);
        MetadataAdds(true, ds[1..], id);
        assert !Adds(ds[0], id);
      } else {
        MetadataAdds(Adds(ds[0], id), ds[1..], id);
        assert !IsData(ds[0]) ==> Metadata(ds)[0] == ds[0] && Metadata(ds)[1..] == rest;
      }
    }
  }

  lemma {:induction false} MetadataContent(objs: Objs, ds: seq<Delta>, id: Id, c: Content)
    ensures StartContent(objs, Metadata(ds), id) == StartContent(objs, ds, id)
    ensures Played(c, Metadata(ds), id) == c
    decreases ds
  {
    if ds != [] {
      MetadataContent(objs, ds[1..], id, c);
      assert !IsData(ds[0]) ==> Metadata(ds)[0] == ds[0] && Metadata(ds)[1..] == Metadata(ds[1..]);
    }
  }

  /* ---- the last subset ---- */

  /** The pending data deltas leave every file as it was: its bytes, and whether it was ever
      truncated or written. */
  ghost predicate DataChangesNothing(stable: Objs, pending: seq<Delta>, vol: Objs) {
    forall id :: IsFile(vol, id) ==>
      Played(StartContent(stable, pending, id), pending, id) == StartContent(stable, pending, id)
  }

  lemma {:induction false} CopyStarts(stable: Objs, ds: seq<Delta>, id: Id)
    ensures StartContent(Copy(stable), ds, id) == StartContent(stable, ds, id)
    decreases ds
  {
    if ds != [] {
      CopyStarts(stable, ds[1..], id);
    }
  }

  /** The pending metadata deltas apply in order to a copy of the stable file system, and
      give the volatile one in everything but the contents of files, which are those before
      the pending data deltas. */
  lemma MetadataApplies(stable: Objs, pending: seq<Delta>, vol: Objs)
    requires Explained(stable, pending, vol)
    ensures ApplyAll(Copy(stable), Metadata(pending)) == Some(AfterAll(Copy(stable), Metadata(pending)))
    ensures SameMetadata(AfterAll(Copy(stable), Metadata(pending)), vol)
    ensures Counted(AfterAll(Copy(stable), Metadata(pending)))
    ensures forall id :: IsFile(vol, id) ==>
      && AfterAll(Copy(stable), Metadata(pending))[id].content == StartContent(stable, pending, id)
      && vol[id].content == Played(StartContent(stable, pending, id), pending, id)
  {
    var copied := Copy(stable);
    var made := AfterAll(copied, Metadata(pending));
    CopyCounted(stable);
    MetadataLeads(copied, copied, pending, vol);
    LeadsApply(copied, Metadata(pending), made);
    forall id | IsFile(vol, id)
      ensures made[id].content == StartContent(stable, pending, id)
      ensures vol[id].content == Played(StartContent(stable, pending, id), pending, id)
    {
      assert Bare(made[id]) == Bare(vol[id]);
      assert AddsOnce(id in stable, pending, id);
      PlayedIs(copied, pending, vol, id);
      MetadataAdds(id in stable, pending, id);
      PlayedIs(copied, Metadata(pending), made, id);
      MetadataContent(copied, pending, id, StartContent(copied, pending, id));
      CopyStarts(stable, pending, id);
    }
  }

  /** It is the volatile file system exactly when the pending data deltas change nothing. */
  lemma MetadataGivesVolatile(stable: Objs, pending: seq<Delta>, vol: Objs)
    requires Explained(stable, pending, vol)
    ensures ApplyAll(Copy(stable), Metadata(pending)) == Some(vol) <==> DataChangesNothing(stable, pending, vol)
  {
    MetadataApplies(stable, pending, vol);
    var made := AfterAll(Copy(stable), Metadata(pending));
    if DataChangesNothing(stable, pending, vol) {
      forall id | id in vol ensures made[id] == vol[id] {
        assert Bare(made[id]) == Bare(vol[id]);
        assert IsFile(vol, id) <==> vol[id].File?;
      }
      assert made == vol;
    }
  }

  /* ---- subsets of the pending metadata deltas ---- */

  /** The deltas with the given positions. */
  function Chosen(ds: seq<Delta>, positions: seq<nat>): seq<Delta> {
    seq(|positions|, i requires 0 <= i < |positions| =>
      if positions[i] < |ds| then ds[positions[i]] else SetLength(-1, 0))
  }

  function ByPosition(ds: seq<Delta>): (Objs, nat) -> Option<Objs> {
    (objs: Objs, j: nat) => Apply(objs, if j < |ds| then ds[j] else SetLength(-1, 0))
  }

  lemma {:induction false} ChosenApply(objs: Objs, ds: seq<Delta>, positions: seq<nat>)
    ensures Powersets.ApplyAll(ByPosition(ds), objs, positions) == ApplyAll(objs, Chosen(ds, positions))
    decreases positions
  {
    if positions != [] {
      var next := ByPosition(ds)(objs, positions[0]);
      assert Chosen(ds, positions)[1..] == Chosen(ds, positions[1..]);
      if next.Some? {
        ChosenApply(next.value, ds, positions[1..]);
      }
    }
  }

  /** What a subset of the pending metadata deltas makes of the stable file system. */
  function SubsetGives(stable: Objs, pending: seq<Delta>, i: nat): Option<Objs> {
    ApplyAll(Copy(stable), Chosen(Metadata(pending), Powersets.Subset(i)))
  }

  predicate Applies(stable: Objs, pending: seq<Delta>, i: nat) {
    i < Powersets.Pow2(|Metadata(pending)|) && SubsetGives(stable, pending, i).Some?
  }

  /** What the search for dangling entries says of a subset that applies. */
  function Found(stable: Objs, pending: seq<Delta>, sort: Canons.Sorter, i: nat): Option<bool>
    requires SubsetGives(stable, pending, i).Some?
  {
    Look(SubsetGives(stable, pending, i).value, sort, ROOT, 0)
  }

  /** The subset applies and leaves no dangling entry. */
  predicate Compared(stable: Objs, pending: seq<Delta>, sort: Canons.Sorter, i: nat) {
    Applies(stable, pending, i) && Found(stable, pending, sort, i) == Some(false)
  }

  /** The subset applies and is too deep to be searched. */
  predicate TooDeep(stable: Objs, pending: seq<Delta>, sort: Canons.Sorter, i: nat) {
    Applies(stable, pending, i) && Found(stable, pending, sort, i).None?
  }

  /** The subsets of the metadata deltas that apply, as the pruned enumeration meets them. */
  method ApplyingSubsets(stable: Objs, pending: seq<Delta>, deltas: seq<Delta>)
    returns (applying: seq<nat>, outOfRange: bool)
    requires deltas == Metadata(pending) && |deltas| <= Powersets.MAX_SET
    ensures Powersets.Ascending(applying) && (outOfRange <==> |deltas| == Powersets.MAX_SET)
    ensures forall i: nat :: i in applying <==> Applies(stable, pending, i)
  {
    applying, outOfRange := Powersets.Check(|deltas|, ByPosition(deltas), Copy(stable));
    forall i: nat
      ensures Powersets.Applies(ByPosition(deltas), Copy(stable), i) <==> SubsetGives(stable, pending, i).Some?
    {
      ChosenApply(Copy(stable), deltas, Powersets.Subset(i));
    }
  }

  /** The loop of check: it gives up on more than ten metadata deltas, and else compares
      exactly the subsets of them that apply in order to the copy and leave no dangling
      entry, each once, unless one that applies is too deep to be searched. */
  method CheckSubsets(stable: Objs, pending: seq<Delta>, sort: Canons.Sorter)
    returns (tooMany: bool, compared: seq<nat>, tooDeep: bool, outOfRange: bool)
    ensures tooMany <==> |Metadata(pending)| > Powersets.MAX_SET
    ensures tooDeep <==> !tooMany && exists i: nat :: TooDeep(stable, pending, sort, i)
    ensures outOfRange <==> !tooDeep && |Metadata(pending)| == Powersets.MAX_SET
    ensures Powersets.Ascending(compared) && forall i: nat :: i in compared ==> Compared(stable, pending, sort, i)
    ensures !tooMany && !tooDeep ==> forall i: nat :: Compared(stable, pending, sort, i) ==> i in compared
  {
    var deltas, data := SetApart(pending);
    tooMany, compared, tooDeep, outOfRange := |deltas| > Powersets.MAX_SET, [], false, false;
    if tooMany {
      return;
    }
    var applying;
    applying, outOfRange := ApplyingSubsets(stable, pending, deltas);
    compared, tooDeep := WithoutDangling(stable, pending, sort, applying);
    outOfRange := outOfRange && !tooDeep;
  }

  lemma AscendingSnoc(s: seq<nat>, x: nat)
    requires Powersets.Ascending(s) && forall y :: y in s ==> y < x
    ensures Powersets.Ascending(s + [x])
  {
    assert forall i :: 0 <= i < |s| ==> s[i] in s;
  }

  /** Of the subsets that apply, those without a dangling entry, up to the first too deep. */
  method WithoutDangling(stable: Objs, pending: seq<Delta>, sort: Canons.Sorter, applying: seq<nat>)
    returns (compared: seq<nat>, tooDeep: bool)
    requires Powersets.Ascending(applying) && forall i: nat :: i in applying <==> Applies(stable, pending, i)
    ensures Powersets.Ascending(compared) && forall i: nat :: i in compared ==> Compared(stable, pending, sort, i)
    ensures tooDeep <==> exists i: nat :: TooDeep(stable, pending, sort, i)
    ensures !tooDeep ==> forall i: nat :: Compared(stable, pending, sort, i) ==> i in compared
  {
    compared := [];
    for k := 0 to |applying|
      invariant Powersets.Ascending(compared)
      invariant forall x, j :: x in compared && k <= j < |applying| ==> x < applying[j]
      invariant forall i: nat :: i in compared ==> Compared(stable, pending, sort, i)
      invariant forall j :: 0 <= j < k ==> !TooDeep(stable, pending, sort, applying[j])
      invariant forall j :: 0 <= j < k && Compared(stable, pending, sort, applying[j]) ==> applying[j] in compared
    {
      var i := applying[k];
      assert Applies(stable, pending, i);
      var fs := SubsetGives(stable, pending, i).value;
      var dangling := DetectDangling(fs, sort, ROOT, 0);
      if dangling.None? {
        assert TooDeep(stable, pending, sort, i);
        return compared, true;
      }
      if !dangling.value {
        AscendingSnoc(compared, i);
        compared := compared + [i];
      }
    }
    tooDeep := false;
    forall i: nat | Applies(stable, pending, i)
      ensures !TooDeep(stable, pending, sort, i)
      ensures Compared(stable, pending, sort, i) ==> i in compared
    {
      assert i in applying;
    }
  }

  lemma ChosenAll(ds: seq<Delta>, positions: seq<nat>)
    requires |positions| == |ds| && Powersets.CountsUp(positions, 0)
    ensures Chosen(ds, positions) == ds
  {
  }

  /** The last subset is compared, unless it is too deep to be searched. It has the metadata
      of the volatile file system, and it is that file system exactly when the pending data
      deltas change nothing. */
  lemma LastSubset(stable: Objs, pending: seq<Delta>, vol: Objs, sort: Canons.Sorter, last: nat)
    requires Explained(stable, pending, vol) && Canons.Sorts(sort)
    requires last + 1 == Powersets.Pow2(|Metadata(pending)|)
    ensures Applies(stable, pending, last)
    ensures Compared(stable, pending, sort, last) || TooDeep(stable, pending, sort, last)
    ensures SameMetadata(SubsetGives(stable, pending, last).value, vol)
    ensures SubsetGives(stable, pending, last).value == vol <==> DataChangesNothing(stable, pending, vol)
  {
    LastIsAll(stable, pending, last);
    AllIsWhole(stable, pending, vol);
    MetadataGivesVolatile(stable, pending, vol);
    WholeCompared(stable, pending, sort, last);
  }

  lemma LastIsAll(stable: Objs, pending: seq<Delta>, last: nat)
    requires last + 1 == Powersets.Pow2(|Metadata(pending)|)
    ensures SubsetGives(stable, pending, last) == ApplyAll(Copy(stable), Metadata(pending))
  {
    Powersets.OnesFull(|Metadata(pending)|, 0);
    ChosenAll(Metadata(pending), Powersets.Subset(last));
  }

  lemma AllIsWhole(stable: Objs, pending: seq<Delta>, vol: Objs)
    requires Explained(stable, pending, vol)
    ensures var all := ApplyAll(Copy(stable), Metadata(pending));
      all.Some? && SameMetadata(all.value, vol) && Counted(all.value)
  {
    MetadataApplies(stable, pending, vol);
  }

  /** A subset that leaves the counts right is compared if it can be searched. */
  lemma WholeCompared(stable: Objs, pending: seq<Delta>, sort: Canons.Sorter, i: nat)
    requires Canons.Sorts(sort) && Applies(stable, pending, i) && Counted(SubsetGives(stable, pending, i).value)
    ensures Compared(stable, pending, sort, i) || TooDeep(stable, pending, sort, i)
  {
    var fs := SubsetGives(stable, pending, i).value;
    CountedWhole(fs);
    LookSays(fs, sort, ROOT, 0);
  }

  lemma MetadataOfThree(a: Delta, b: Delta, c: Delta)
    requires !IsData(a) && !IsData(b) && IsData(c)
    ensures Metadata([a, b, c]) == [a, b]
  {
    assert [a, b, c][1..] == [b, c] && [b, c][1..] == [c] && [c][1..] == [];
    assert Metadata([c]) == Metadata([]);
    assert Metadata([b, c]) == [b] + Metadata([c]);
  }

  /** A new file and any data delta on it, be it a truncation to 0: the metadata deltas leave
      it untouched. */
  lemma TouchedFileDiffers(d: Delta)
    requires IsData(d) && d.id == 1
    ensures var stable: Objs := map[ROOT := Dir(0, ALL_PERM, map[])];
      var pending := [Add(1, File(0, ALL_PERM, Untouched)), AddEntry(ROOT, "a", 1), d];
      var all, meta := ApplyAll(Copy(stable), pending), ApplyAll(Copy(stable), Metadata(pending));
      all.Some? && meta.Some? && all != meta
  {
    var stable: Objs := map[ROOT := Dir(0, ALL_PERM, map[])];
    var pending := [Add(1, File(0, ALL_PERM, Untouched)), AddEntry(ROOT, "a", 1), d];
    NothingPointsTo(stable, ROOT);
    assert Copy(stable) == stable;
    var one := stable[1 := File(0, ALL_PERM, Untouched)];
    var two := Linked(one, ROOT, "a", 1);
    var three := After(two, d);
    LeadsOne(two, d);
    LeadsTwo(stable, pending[0], pending[1]);
    LeadsOn(stable, [pending[0], pending[1]], two, [d], three);
    assert pending == [pending[0], pending[1]] + [d];
    MetadataOfThree(pending[0], pending[1], d);
    CopyCounted(stable);
    LeadsApply(stable, pending, three);
    LeadsApply(stable, [pending[0], pending[1]], two);
    assert two[1].content.Untouched? && three[1].content.Written?;
  }
}
