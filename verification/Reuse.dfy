/**
 Sets that use a deleted path again: what a publication puts at such a path before the
 removals, and when that gets in its way.
 */
module Reuse {
  import opened Prelude
  import opened ChangeSet
  import opened Transit
  import opened Passes

  /** No file is moved to a deleted path, and nothing is moved beneath one. */
  ghost predicate NoMoveIntoDeleted(ds: seq<Delta>) {
    forall i :: 0 <= i < |ds| && ds[i].Moves() ==>
      && !FileOntoDeleted(ds, ds[i])
      && forall q {:trigger Ancestor(q, ds[i].after.value.path)} :: Ancestor(q, ds[i].after.value.path) ==>
           !DeletedAt(ds, q)
  }

  /** No link is moved to where a before-path goes through. */
  ghost predicate NoLinkOverBefore(ds: seq<Delta>) {
    forall i, j ::
      (0 <= i < |ds| && 0 <= j < |ds| && ds[i].Moves() && ds[i].after.value.LinkState? && ds[j].before.Some?) ==>
        !Ancestor(ds[i].after.value.path, ds[j].before.value.path)
  }

  /** Nothing gets in the way of a path of the set, neither in the source nor on the way. */
  ghost predicate Passable(ds: seq<Delta>, source: Tree) {
    Unobstructed(ds, source) && NoMoveIntoDeleted(ds) && NoLinkOverBefore(ds)
  }

  /** A set that uses no deleted path again moves nothing to one, beneath one, or above one. */
  lemma NoReuseNoMoves(ds: seq<Delta>, source: Tree)
    requires Fits(ds, source) && !DeletedPathReused(ds)
    ensures NoMoveIntoDeleted(ds) && NoLinkOverBefore(ds)
  {
    forall i | 0 <= i < |ds| && ds[i].Moves()
      ensures !FileOntoDeleted(ds, ds[i])
      ensures forall q {:trigger Ancestor(q, ds[i].after.value.path)} :: Ancestor(q, ds[i].after.value.path) ==>
        !DeletedAt(ds, q)
    {
      assert AfterAt(ds, ds[i].after.value.path);
      forall q | Ancestor(q, ds[i].after.value.path) ensures !DeletedAt(ds, q) {
        assert NewParent(ds, q);
        assert DeletedAt(ds, q) ==> BeforeAt(ds, q);
      }
    }
    forall i, j | 0 <= i < |ds| && 0 <= j < |ds| && ds[i].Moves() && ds[j].before.Some?
      ensures !Ancestor(ds[i].after.value.path, ds[j].before.value.path)
    {
      assert AfterAt(ds, ds[i].after.value.path);
      assert Ancestor(ds[i].after.value.path, ds[j].before.value.path) ==> OldParent(ds, ds[i].after.value.path);
    }
  }

  /** An unhindered set is passable. */
  lemma UnhinderedIsPassable(ds: seq<Delta>, source: Tree)
    requires Fits(ds, source) && Unhindered(ds, source)
    ensures Passable(ds, source)
  {
    NoReuseNoMoves(ds, source);
  }

  predicate MovesTo(ds: seq<Delta>, p: Path) {
    exists j :: 0 <= j < |ds| && ds[j].Moves() && ds[j].after.value.path == p
  }

  /** A reused path holds nothing but what was moved there. */
  ghost predicate Unreused(ds: seq<Delta>, t: Tree) {
    forall i :: 0 <= i < |ds| && Superseded(ds, ds[i]) && ds[i].before.value.path in t ==>
      MovesTo(ds, ds[i].before.value.path)
  }

  /** Nothing is at a path the set deletes and uses again. */
  predicate NothingReused(ds: seq<Delta>, t: Tree) {
    forall i :: 0 <= i < |ds| && Superseded(ds, ds[i]) ==> ds[i].before.value.path !in t
  }

  lemma SourceIsUnreused(ds: seq<Delta>, source: Tree)
    requires Fits(ds, source)
    ensures NothingReused(ds, source)
  {
    forall i | 0 <= i < |ds| && Superseded(ds, ds[i]) ensures ds[i].before.value.path !in source {
      SupersededIsLost(ds, source, i);
    }
  }

  /** The gate lets no disk through on which a deleted path is used already. */
  lemma RecoverableIsUnreused(ds: seq<Delta>, source: Tree, t: Tree, m: map<ObjectId, string>, sha: string)
    requires Fits(ds, source) && InTransit(ds, source, t, m, sha) && Recoverable(ds, t, m, sha)
    ensures NothingReused(ds, t)
  {
    forall i | 0 <= i < |ds| && Superseded(ds, ds[i]) ensures ds[i].before.value.path !in t {
      var p := ds[i].before.value.path;
      var j :| 0 <= j < |ds| && ds[j].after.Some? && ds[j].after.value.path == p;
      assert DeltaRecoverable(ds[i], t, m, sha) && DeltaRecoverable(ds[j], t, m, sha);
      assert WellShaped(ds[j]);
      assert ds[i].before.value.Kind() != ds[j].after.value.Kind();
    }
  }

  /** No step of the moving pass puts anything else at a reused path. */
  lemma MoveKeepsUnreused(ds: seq<Delta>, t: Tree, u: Tree, i: nat)
    requires NoMoveIntoDeleted(ds) && Unreused(ds, t) && i < |ds| && ds[i].Moves()
    requires forall p :: p in u ==> p in t || Ancestor(p, ds[i].after.value.path) || p == ds[i].after.value.path
    ensures Unreused(ds, u)
  {
    forall k | 0 <= k < |ds| && Superseded(ds, ds[k]) && ds[k].before.value.path in u
      ensures MovesTo(ds, ds[k].before.value.path)
    {
      assert DeletedAt(ds, ds[k].before.value.path);
    }
  }

  /** What a move has put at a path is no directory. */
  lemma MovedIsPlain(ds: seq<Delta>, source: Tree, t: Tree, m: map<ObjectId, string>, sha: string, p: Path)
    requires Fits(ds, source) && InTransit(ds, source, t, m, sha)
    requires MovesTo(ds, p) && p in t
    ensures t[p] != Dir
  {
    var j :| 0 <= j < |ds| && ds[j].Moves() && ds[j].after.value.path == p;
    assert DeltaInTransit(ds, ds[j], t, m, sha) && WellShaped(ds[j]);
  }

  /** Where the set's own entry stands above a before-path, a move has put it there. */
  lemma OwnObstacleWasMoved(ds: seq<Delta>, source: Tree, t: Tree, m: map<ObjectId, string>, sha: string, p: Path,
                            q: Path)
    requires Fits(ds, source) && InTransit(ds, source, t, m, sha) && Unreused(ds, t)
    requires BeforeAt(ds, p) && Ancestor(q, p) && q in t && Touched(ds, q) && t[q] != Dir
    ensures MovesTo(ds, q) && DeletedAt(ds, q)
  {
    var i :| 0 <= i < |ds| && ds[i].before.Some? && ds[i].before.value.path == p;
    assert OldParent(ds, q);
    assert BeforeAt(ds, q);
    var k :| 0 <= k < |ds| && ds[k].before.Some? && ds[k].before.value.path == q;
    assert WellShaped(ds[k]) && ds[k].Deletes();
    assert !DeltaInTransit(ds, ds[k], t, m, sha);
  }

  /** On a passable set every after-path stays clear, and every before-path as long as deleted
      paths are not used again. */
  lemma PassableIsClear(ds: seq<Delta>, source: Tree, t: Tree, m: map<ObjectId, string>, sha: string, p: Path)
    requires Fits(ds, source) && InTransit(ds, source, t, m, sha) && Passable(ds, source)
    requires AfterAt(ds, p) || (BeforeAt(ds, p) && Unreused(ds, t))
    ensures ClearAbove(t, p)
  {
    assert Touched(ds, p);
    forall q | Ancestor(q, p) && q in t ensures t[q] == Dir {
      if t[q] != Dir && Touched(ds, q) {
        if AfterAt(ds, p) {
          OwnParentOfAfterPath(ds, source, t, m, sha, p, q);
        } else {
          OwnObstacleWasMoved(ds, source, t, m, sha, p, q);
        }
      }
    }
  }

  /** What is left beneath a directory whose turn it is was never covered. */
  lemma LeftoverIsUncovered(ds: seq<Delta>, source: Tree, t: Tree, m: map<ObjectId, string>, sha: string, i: nat,
                            u: Path)
    requires Fits(ds, source) && InTransit(ds, source, t, m, sha) && Unreused(ds, t)
    requires i < |ds| && Clears(ds[i]) && u in t && Ancestor(ds[i].before.value.path, u)
    requires !BeforeAt(ds, u)
    ensures !Covered(ds, source)
  {
    var p := ds[i].before.value.path;
    assert t[p] == Dir && WellShaped(ds[i]);
    if Superseded(ds, ds[i]) {
      MovedIsPlain(ds, source, t, m, sha, p);
    } else {
      assert DeltaInTransit(ds, ds[i], t, m, sha);
      assert ds[i].Deletes();
      if AfterAt(ds, u) || u !in source {
        assert AfterAt(ds, u) || Implied(ds, u) by {
          assert u !in source && !AfterAt(ds, u) ==> !Touched(ds, u);
        }
        NewBeneathDeleted(ds, i, u);
      }
    }
  }

  /** Where the before-paths are cleared, nothing was moved beneath a deleted one. */
  lemma ClearedHasNoMoveBeneath(ds: seq<Delta>, source: Tree, t: Tree, i: nat, q: Path)
    requires Fits(ds, source) && Closed(t) && NothingAtBeforePaths(ds, t) && AllMoved(ds, t)
    requires i < |ds| && ds[i].Moves() && Ancestor(q, ds[i].after.value.path)
    ensures !DeletedAt(ds, q)
  {
    var a := ds[i].after.value.path;
    assert Moved(ds, ds[i], t);
    assert DeletedAt(ds, q) ==> BeforeAt(ds, q) && q !in t;
  }

  /** A set whose removals and installs both succeeded moved nothing into a deleted path. */
  lemma ClearedMovesNothingIn(ds: seq<Delta>, source: Tree, t: Tree)
    requires Fits(ds, source) && Closed(t) && NothingAtBeforePaths(ds, t) && AllMoved(ds, t)
    requires NoFileOntoDeleted(ds, |ds|)
    ensures NoMoveIntoDeleted(ds)
  {
    forall i, q | 0 <= i < |ds| && ds[i].Moves() && Ancestor(q, ds[i].after.value.path) ensures !DeletedAt(ds, q) {
      ClearedHasNoMoveBeneath(ds, source, t, i, q);
    }
  }

  /** No both-ends-gone window opens. */
  ghost predicate NoNewWindow(ds: seq<Delta>, t: Tree, u: Tree) {
    forall j :: 0 <= j < |ds| && InWindow(ds, ds[j], u) ==> InWindow(ds, ds[j], t)
  }
}
