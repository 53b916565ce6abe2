/** When a file system can hold the three-way merge at all. */
module Merging {
  import opened Prelude
  import opened ChangeSet
  import opened Transit
  import opened Passes

  /** Nothing but directories stands above the places where the set puts something. */
  ghost predicate ClearForAfterStates(ds: seq<Delta>, source: Tree) {
    forall p {:trigger AfterAt(ds, p)} :: AfterAt(ds, p) ==> ClearAbove(source, p)
  }

  ghost function MergedPathSet(ds: seq<Delta>, source: Tree): (r: set<Path>)
    ensures forall p :: p in r <==> AfterAt(ds, p) || Implied(ds, p) || (p in source && !BeforeAt(ds, p))
  {
    var kept := set p | p in source && !BeforeAt(ds, p);
    var after := set i | 0 <= i < |ds| && ds[i].after.Some? :: ds[i].after.value.path;
    var implied := set i, n | 0 <= i < |ds| && ds[i].after.Some? && 0 < n < |ds[i].after.value.path| ::
      ds[i].after.value.path[..n];
    assert forall p :: Implied(ds, p) <==> p in implied by {
      forall p | Implied(ds, p) ensures p in implied {
        var i :| 0 <= i < |ds| && ds[i].after.Some? && Ancestor(p, ds[i].after.value.path);
        assert p == ds[i].after.value.path[..|p|];
      }
      forall i, n | 0 <= i < |ds| && ds[i].after.Some? && 0 < n < |ds[i].after.value.path|
        ensures Implied(ds, ds[i].after.value.path[..n])
      {
        assert Ancestor(ds[i].after.value.path[..n], ds[i].after.value.path);
      }
    }
    kept + after + implied
  }

  ghost function MergedNode(ds: seq<Delta>, source: Tree, p: Path): Node {
    if AfterAt(ds, p) then
      var i :| 0 <= i < |ds| && ds[i].after.Some? && ds[i].after.value.path == p;
      ds[i].after.value.Node()
    else if p in source then source[p] else Dir
  }

  /** The merge, whether or not a file system could hold it. */
  ghost function MergeOf(ds: seq<Delta>, source: Tree): Tree {
    map p | p in MergedPathSet(ds, source) :: MergedNode(ds, source, p)
  }

  lemma MergeOfIsMerge(ds: seq<Delta>, source: Tree)
    requires DistinctPaths(ds)
    ensures Merge(ds, source, MergeOf(ds, source))
  {
    var t := MergeOf(ds, source);
    forall i | 0 <= i < |ds| && ds[i].after.Some? ensures Holds(t, ds[i].after.value, ds[i].after.value.path) {
      var p := ds[i].after.value.path;
      assert AfterAt(ds, p);
      forall j | 0 <= j < |ds| && ds[j].after.Some? && ds[j].after.value.path == p ensures j == i {
        assert i < j || j < i || i == j;
      }
    }
  }

  /** What the merge has above a needed path is a directory. */
  lemma NeededParentsAreDirectories(ds: seq<Delta>, source: Tree, p: Path, q: Path)
    requires Fits(ds, source) && ClearForAfterStates(ds, source)
    requires (AfterAt(ds, p) || Implied(ds, p)) && Ancestor(q, p)
    ensures Implied(ds, q) && MergedNode(ds, source, q) == Dir
  {
    var i :| 0 <= i < |ds| && ds[i].after.Some? && (ds[i].after.value.path == p || Ancestor(p, ds[i].after.value.path));
    if ds[i].after.value.path != p {
      AncestorTransitive(q, p, ds[i].after.value.path);
    }
    assert AfterAt(ds, ds[i].after.value.path) && NewParent(ds, q);
  }

  /** What the merge has above a kept entry is the directory the source has there. */
  lemma KeptParentsAreDirectories(ds: seq<Delta>, source: Tree, p: Path, q: Path)
    requires Fits(ds, source) && Covered(ds, source)
    requires p in source && !BeforeAt(ds, p) && Ancestor(q, p)
    ensures q in source && !BeforeAt(ds, q) && MergedNode(ds, source, q) == Dir
  {
    forall i | 0 <= i < |ds|
      ensures ds[i].before.Some? ==> ds[i].before.value.path != q
      ensures ds[i].after.Some? ==> ds[i].after.value.path != q
    {
      assert CleanDelta(ds[i], source) && WellShaped(ds[i]);
      assert ds[i].Deletes() && ds[i].before.value.path == q ==> BeforeAt(ds, p);
    }
  }

  lemma MergeOfIsClosed(ds: seq<Delta>, source: Tree)
    requires Fits(ds, source) && ClearForAfterStates(ds, source) && Covered(ds, source)
    ensures Closed(MergeOf(ds, source))
  {
    var t := MergeOf(ds, source);
    assert [] !in t by {
      forall i | 0 <= i < |ds| ensures ds[i].after.Some? ==> ds[i].after.value.path != [] { assert WellShaped(ds[i]); }
    }
    forall q, p | Ancestor(q, p) && p in t ensures q in t && t[q] == Dir {
      if AfterAt(ds, p) || Implied(ds, p) {
        NeededParentsAreDirectories(ds, source, p, q);
      } else {
        KeptParentsAreDirectories(ds, source, p, q);
      }
    }
  }

  /** An obstacle above an after-path stays in the merge, and then nothing can be beneath it. */
  lemma ClosedMergeIsClear(ds: seq<Delta>, source: Tree, t: Tree)
    requires Fits(ds, source) && Merge(ds, source, t) && Closed(t)
    ensures ClearForAfterStates(ds, source)
  {
    forall p, q | AfterAt(ds, p) && Ancestor(q, p) && q in source ensures source[q] == Dir {
      if source[q] != Dir {
        SourceObstacleIsForeign(ds, source, p, q);
      }
    }
  }

  lemma ClosedMergeIsCovered(ds: seq<Delta>, source: Tree, t: Tree)
    requires Fits(ds, source) && Merge(ds, source, t) && Closed(t)
    ensures Covered(ds, source)
  {
    forall i, u | 0 <= i < |ds| && ds[i].Deletes() && u in source && Ancestor(ds[i].before.value.path, u)
      ensures BeforeAt(ds, u)
    {
      SupersededIsLost(ds, source, i);
      var p := ds[i].before.value.path;
      assert BeforeAt(ds, p) && !AfterAt(ds, p);
      assert p !in t;
    }
  }

  /**
   A file system can hold the merge exactly when only directories stand above the
   after-paths and the set covers what is beneath the directories it removes.  Publication
   asks for nothing else, but for clear before-paths and no deleted path used again.
   */
  lemma MergeExistsIff(ds: seq<Delta>, source: Tree)
    requires Fits(ds, source)
    ensures (exists t :: Closed(t) && Merge(ds, source, t)) <==> ClearForAfterStates(ds, source) && Covered(ds, source)
  {
    if ClearForAfterStates(ds, source) && Covered(ds, source) {
      MergeOfIsMerge(ds, source);
      MergeOfIsClosed(ds, source);
    }
    if t :| Closed(t) && Merge(ds, source, t) {
      ClosedMergeIsClear(ds, source, t);
      ClosedMergeIsCovered(ds, source, t);
    }
  }
}
