/** Which single disk steps keep a Change Set in transit between its source and its merge. */
module Transit {
  import opened Prelude
  import opened ChangeSet

  /** The trees differ only at paths the delta touches. */
  ghost predicate SameOutside(d: Delta, t: Tree, u: Tree) {
    forall p :: !d.Touches(p) ==> (p in t <==> p in u) && (p in t ==> u[p] == t[p])
  }

  /** `u` adds only parent directories and new directories to `t`, and none of them where a
      live delta has its before-path. */
  ghost predicate Grew(ds: seq<Delta>, t: Tree, u: Tree) {
    && (forall p :: p in t ==> p in u && u[p] == t[p])
    && (forall p :: p in u && p !in t ==> u[p] == Dir && MayAppear(ds, p))
  }

  /** A directory may appear at `p`. */
  ghost predicate MayAppear(ds: seq<Delta>, p: Path) {
    !Vacated(ds, p) && NewParent(ds, p) && (Implied(ds, p) || AfterAt(ds, p))
  }

  /** A path that is left by one delta and taken by another is left by a deletion. */
  lemma LeftAndTaken(ds: seq<Delta>, source: Tree, i: nat, j: nat)
    requires Fits(ds, source) && i < |ds| && j < |ds| && i != j
    requires ds[i].before.Some? && ds[j].after.Some? && ds[i].before.value.path == ds[j].after.value.path
    ensures Superseded(ds, ds[i]) && DeletedPathReused(ds) && ds[i].before.value.path !in source
  {
    assert CleanDelta(ds[i], source) && CleanDelta(ds[j], source);
    assert AfterAt(ds, ds[i].before.value.path);
  }

  lemma SupersededIsLost(ds: seq<Delta>, source: Tree, i: nat)
    requires Fits(ds, source) && i < |ds|
    ensures Superseded(ds, ds[i]) ==> ds[i].before.value.path !in source
  {
    if Superseded(ds, ds[i]) {
      var j :| 0 <= j < |ds| && ds[j].after.Some? && ds[j].after.value.path == ds[i].before.value.path;
      LeftAndTaken(ds, source, i, j);
    }
  }

  /** Live deltas have no path in common. */
  lemma PathsOfOthers(ds: seq<Delta>, source: Tree, i: nat, j: nat)
    requires Fits(ds, source) && i < |ds| && j < |ds| && i != j
    requires !Superseded(ds, ds[i]) && !Superseded(ds, ds[j])
    ensures ds[i].objectId != ds[j].objectId
    ensures ds[j].before.Some? ==> !ds[i].Touches(ds[j].before.value.path)
    ensures ds[j].after.Some? ==> !ds[i].Touches(ds[j].after.value.path)
  {
    if ds[i].before.Some? && ds[j].after.Some? && ds[i].before.value.path == ds[j].after.value.path {
      LeftAndTaken(ds, source, i, j);
    }
    if ds[j].before.Some? && ds[i].after.Some? && ds[j].before.value.path == ds[i].after.value.path {
      LeftAndTaken(ds, source, j, i);
    }
    assert i < j || j < i;
  }

  /** A step inside one live delta's paths disturbs no other delta. */
  lemma OwnStepKeepsTransit(ds: seq<Delta>, source: Tree, t: Tree, m: map<ObjectId, string>,
                            u: Tree, n: map<ObjectId, string>, sha: string, i: nat)
    requires Fits(ds, source) && InTransit(ds, source, t, m, sha)
    requires i < |ds| && !Superseded(ds, ds[i]) && SameOutside(ds[i], t, u) && Closed(u)
    requires forall id :: id != ds[i].objectId ==> (id in m <==> id in n) && (id in m ==> n[id] == m[id])
    requires DeltaInTransit(ds, ds[i], u, n, sha)
    ensures InTransit(ds, source, u, n, sha)
    ensures forall j :: 0 <= j < |ds| && j != i ==> (InWindow(ds, ds[j], u) <==> InWindow(ds, ds[j], t))
  {
    forall j | 0 <= j < |ds| && j != i && !Superseded(ds, ds[j])
      ensures DeltaInTransit(ds, ds[j], u, n, sha)
      ensures InWindow(ds, ds[j], u) <==> InWindow(ds, ds[j], t)
    {
      assert DeltaInTransit(ds, ds[j], t, m, sha);
      assert WellShaped(ds[j]);
      PathsOfOthers(ds, source, i, j);
    }
    forall p | !Touched(ds, p)
      ensures !ds[i].Touches(p)
    {}
  }

  /** Where a parent directory or a new directory is due, no live delta leaves. */
  lemma DirectoryMayAppear(ds: seq<Delta>, source: Tree, i: nat, q: Path)
    requires Fits(ds, source)
    requires i < |ds| && ds[i].after.Some?
    requires Ancestor(q, ds[i].after.value.path) || (q == ds[i].after.value.path && ds[i].after.value.DirectoryState?)
    ensures MayAppear(ds, q)
  {
    assert WellShaped(ds[i]);
    assert NewParent(ds, q) by {
      if q == ds[i].after.value.path {
        forall j | 0 <= j < |ds| && ds[j].after.Some? && ds[j].after.value.path == q ensures j == i {
          assert i < j || j < i || i == j;
        }
      }
    }
    forall k | 0 <= k < |ds| && ds[k].before.Some? && ds[k].before.value.path == q ensures Superseded(ds, ds[k]) {
      assert BeforeAt(ds, q);
      var j :| 0 <= j < |ds| && ds[j].after.Some? && ds[j].after.value.path == q;
      assert ds[j].after.value.DirectoryState? && WellShaped(ds[j]);
      LeftAndTaken(ds, source, k, j);
    }
  }

  /** A missing parent of an after-state, or a created directory, may appear at any time. */
  lemma NewDirectoryKeepsTransit(ds: seq<Delta>, source: Tree, t: Tree, m: map<ObjectId, string>, sha: string, i: nat,
                                 q: Path)
    requires Fits(ds, source) && InTransit(ds, source, t, m, sha)
    requires i < |ds| && ds[i].after.Some?
    requires Ancestor(q, ds[i].after.value.path) || (q == ds[i].after.value.path && ds[i].after.value.DirectoryState?)
    requires q !in t
    requires forall r :: Ancestor(r, q) ==> r in t && t[r] == Dir
    ensures InTransit(ds, source, t[q := Dir], m, sha)
    ensures Grew(ds, t, t[q := Dir])
    ensures forall j :: 0 <= j < |ds| ==> (InWindow(ds, ds[j], t[q := Dir]) <==> InWindow(ds, ds[j], t))
  {
    var u := t[q := Dir];
    assert q != [] by { assert WellShaped(ds[i]); }
    DirectoryMayAppear(ds, source, i, q);
    forall j | 0 <= j < |ds| && !Superseded(ds, ds[j])
      ensures DeltaInTransit(ds, ds[j], u, m, sha)
      ensures InWindow(ds, ds[j], u) <==> InWindow(ds, ds[j], t)
    {
      assert WellShaped(ds[j]) && DeltaInTransit(ds, ds[j], t, m, sha);
      NewDirectoryKeepsDelta(ds, ds[j], t, m, sha, q);
    }
  }

  lemma NewDirectoryKeepsDelta(ds: seq<Delta>, d: Delta, t: Tree, m: map<ObjectId, string>, sha: string, q: Path)
    requires WellShaped(d) && DeltaInTransit(ds, d, t, m, sha) && q !in t
    requires d.before.Some? ==> d.before.value.path != q
    requires d.after.Some? && d.after.value.path == q ==> d.after.value.DirectoryState?
    ensures DeltaInTransit(ds, d, t[q := Dir], m, sha)
    ensures InWindow(ds, d, t[q := Dir]) <==> InWindow(ds, d, t)
  {}

  // ---------- what may be in the way ----------

  /** Above an after-path, the set itself only has directories. */
  lemma OwnParentOfAfterPath(ds: seq<Delta>, source: Tree, t: Tree, m: map<ObjectId, string>, sha: string, p: Path,
                             q: Path)
    requires Fits(ds, source) && InTransit(ds, source, t, m, sha)
    requires AfterAt(ds, p) && Ancestor(q, p) && q in t && Touched(ds, q)
    ensures t[q] == Dir
  {
    var i :| 0 <= i < |ds| && ds[i].after.Some? && ds[i].after.value.path == p;
    assert NewParent(ds, q);
    var j :| 0 <= j < |ds| && ds[j].after.Some? && ds[j].after.value.path == q;
    assert DeltaInTransit(ds, ds[j], t, m, sha) && WellShaped(ds[j]);
    assert ds[j].after.value.DirectoryState?;
  }

  /** Above a before-path too, unless a deleted path is used again. */
  lemma OwnParentOfBeforePath(ds: seq<Delta>, source: Tree, t: Tree, m: map<ObjectId, string>, sha: string, p: Path,
                              q: Path)
    requires Fits(ds, source) && InTransit(ds, source, t, m, sha)
    requires BeforeAt(ds, p) && Ancestor(q, p) && q in t && Touched(ds, q)
    ensures t[q] == Dir || DeletedPathReused(ds)
  {
    var i :| 0 <= i < |ds| && ds[i].before.Some? && ds[i].before.value.path == p;
    assert OldParent(ds, q);
    if AfterAt(ds, q) {
      var k :| 0 <= k < |ds| && ds[k].Deletes() && ds[k].before.value.path == q;
      assert Superseded(ds, ds[k]);
    } else {
      var k :| 0 <= k < |ds| && ds[k].before.Some? && ds[k].before.value.path == q;
      assert DeltaInTransit(ds, ds[k], t, m, sha) && WellShaped(ds[k]);
      assert ds[k].before.value.DirectoryState?;
    }
  }

  /** What stands above a path of the set and is no directory is not the set's own, unless
      a deleted path is used again. */
  lemma ObstacleIsForeign(ds: seq<Delta>, source: Tree, t: Tree, m: map<ObjectId, string>, sha: string, p: Path,
                          q: Path)
    requires Fits(ds, source) && InTransit(ds, source, t, m, sha)
    requires Touched(ds, p) && Ancestor(q, p) && q in t && t[q] != Dir
    ensures DeletedPathReused(ds) || (!Touched(ds, q) && q in source && source[q] == t[q])
  {
    if Touched(ds, q) {
      if AfterAt(ds, p) {
        OwnParentOfAfterPath(ds, source, t, m, sha, p, q);
      } else {
        OwnParentOfBeforePath(ds, source, t, m, sha, p, q);
      }
    }
  }

  /** Where no deleted path is used again, what is in the way stays in the way. */
  lemma ObstructionStays(ds: seq<Delta>, source: Tree, t: Tree, m: map<ObjectId, string>, sha: string)
    requires Fits(ds, source) && InTransit(ds, source, t, m, sha) && !DeletedPathReused(ds)
    ensures Unobstructed(ds, t) <==> Unobstructed(ds, source)
  {
    CleanSourceIsInTransit(ds, source, sha);
    forall p, q | Touched(ds, p) && Ancestor(q, p)
      ensures q in t && t[q] != Dir <==> q in source && source[q] != Dir
    {
      if q in t && t[q] != Dir {
        ObstacleIsForeign(ds, source, t, m, sha, p, q);
      }
      if q in source && source[q] != Dir {
        ObstacleIsForeign(ds, source, source, map[], sha, p, q);
      }
    }
  }

  /** The obstacle found above a path explains why the set cannot go on. */
  lemma ObstacleHinders(ds: seq<Delta>, source: Tree, t: Tree, m: map<ObjectId, string>, sha: string, p: Path)
    requires Fits(ds, source) && InTransit(ds, source, t, m, sha)
    requires Touched(ds, p) && !ClearAbove(t, p)
    ensures !Unhindered(ds, source)
  {
    var q :| Ancestor(q, p) && q in t && t[q] != Dir;
    ObstacleIsForeign(ds, source, t, m, sha, p, q);
  }

  // ---------- removal ----------

  lemma AncestorTransitive(p: Path, q: Path, r: Path)
    requires Ancestor(p, q) && Ancestor(q, r)
    ensures Ancestor(p, r)
  {
    assert r[..|p|] == r[..|q|][..|p|];
  }

  /** Only a deleted path that is used again gets something new beneath it. */
  lemma NewBeneathDeleted(ds: seq<Delta>, i: nat, u: Path)
    requires NewParents(ds) && i < |ds| && ds[i].Deletes() && Ancestor(ds[i].before.value.path, u)
    requires AfterAt(ds, u) || Implied(ds, u)
    ensures Superseded(ds, ds[i])
  {
    var p := ds[i].before.value.path;
    assert BeforeAt(ds, p);
    if AfterAt(ds, u) {
      assert NewParent(ds, p);
    } else {
      var j :| 0 <= j < |ds| && ds[j].after.Some? && Ancestor(u, ds[j].after.value.path);
      AncestorTransitive(p, u, ds[j].after.value.path);
      assert NewParent(ds, p);
    }
  }

  /** When a removed directory comes up, whatever still sits beneath it escapes the set. */
  lemma LeftoverEscapes(ds: seq<Delta>, source: Tree, t: Tree, m: map<ObjectId, string>, sha: string, i: nat, u: Path)
    requires Fits(ds, source) && InTransit(ds, source, t, m, sha)
    requires i < |ds| && ds[i].Deletes() && u in t && Ancestor(ds[i].before.value.path, u)
    requires !BeforeAt(ds, u)
    ensures !Covered(ds, source) || DeletedPathReused(ds)
  {
    if AfterAt(ds, u) {
      NewBeneathDeleted(ds, i, u);
    } else if u !in source {
      assert !Touched(ds, u);
      NewBeneathDeleted(ds, i, u);
    }
  }

  /** What nobody covers still sits beneath the directory, so the set cannot have been applied. */
  lemma AppliedIsCovered(ds: seq<Delta>, source: Tree, t: Tree, m: map<ObjectId, string>, sha: string)
    requires Fits(ds, source) && InTransit(ds, source, t, m, sha) && Applied(ds, t)
    ensures Covered(ds, source)
  {
    forall i, u | 0 <= i < |ds| && ds[i].Deletes() && u in source && Ancestor(ds[i].before.value.path, u)
      ensures BeforeAt(ds, u)
    {
      SupersededIsLost(ds, source, i);
      assert DeltaApplied(ds[i], t);
      assert BeforeAt(ds, ds[i].before.value.path);
      if AfterAt(ds, u) {
        NewBeneathDeleted(ds, i, u);
      }
      assert Touched(ds, u) || u in t;
    }
  }
}
