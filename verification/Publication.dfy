/**
 Publication of a prepared Change Set onto the workspace: moves, deepest-first removals,
 directories, then installs and marker-guarded overwrites.  Each primitive is one durable
 step; the disk it leaves is appended to `trace`, so "a crash anywhere" is "any element
 of the trace".

 The original joins path components and hands the result to the operating system, so a
 path that leads through a file is refused and one that leads through a symbolic link is
 followed.  What a link leads to is not part of the model: a publication that comes to a
 path through a link ends here as `Diverted`, which leaves open what it goes on to do.
 */
module Publication {
  import opened Prelude
  import opened ChangeSet
  import opened Transit
  import opened Passes
  import opened Reuse

  // ---------- prepared work ----------

  /** A moved file whose bytes stay where they are needs no prepared copy. */
  predicate UnchangedMove(d: Delta) {
    && d.after.Some? && d.after.value.FileState? && d.after.value.reference.ProjectionBase?
    && d.Moves() && d.before.value.FileState?
  }

  predicate NeedsWork(d: Delta) {
    d.after.Some? && d.after.value.FileState? && !UnchangedMove(d)
  }

  predicate Ready(ds: seq<Delta>, work: map<ObjectId, Node>) {
    forall i :: 0 <= i < |ds| && NeedsWork(ds[i]) ==>
      ds[i].objectId in work && work[ds[i].objectId] == ds[i].after.value.Node()
  }

  /** Where the bytes of a prepared file come from, and that they are the promised ones. */
  predicate Available(d: Delta, source: Tree, staging: map<string, Content>)
    requires NeedsWork(d)
  {
    match d.after.value.reference
    case ProjectionBase =>
      && d.before.Some? && d.before.value.FileState?
      && d.before.value.path in source && source[d.before.value.path].File?
      && source[d.before.value.path].content == d.after.value.content
    case Staged(id) => id in staging && staging[id] == d.after.value.content
  }

  ghost predicate AllAvailable(ds: seq<Delta>, source: Tree, staging: map<string, Content>) {
    forall i :: 0 <= i < |ds| && NeedsWork(ds[i]) ==> Available(ds[i], source, staging)
  }

  /** Copy or assemble every file the publication will install; refuse unless all bytes check out. */
  method PrepareWork(ds: seq<Delta>, source: Tree, staging: map<string, Content>)
    returns (r: Option<map<ObjectId, Node>>)
    requires forall i, j :: 0 <= i < j < |ds| ==> ds[i].objectId != ds[j].objectId
    ensures r.Some? <==> AllAvailable(ds, source, staging)
    ensures r.Some? ==> Ready(ds, r.value)
  {
    var work: map<ObjectId, Node> := map[];
    for n := 0 to |ds|
      invariant forall i :: 0 <= i < n && NeedsWork(ds[i]) ==>
        && Available(ds[i], source, staging)
        && ds[i].objectId in work && work[ds[i].objectId] == ds[i].after.value.Node()
    {
      if NeedsWork(ds[n]) {
        if !Available(ds[n], source, staging) {
          return None;
        }
        var bytes := if ds[n].after.value.reference.Staged?
          then staging[ds[n].after.value.reference.stagingId]
          else source[ds[n].before.value.path].content;
        work := work[ds[n].objectId := File(bytes, ds[n].after.value.executable)];
      }
    }
    return Some(work);
  }

  // ---------- what stands in the way of a path ----------

  /** Completed without going through a link, refused, or gone through a link. */
  datatype Status = Completed | Failed | Diverted

  /** Every entry above `p`, at `n` components or more, is a directory. */
  ghost predicate ClearFrom(t: Tree, p: Path, n: nat) {
    forall q {:trigger Ancestor(q, p)} :: Ancestor(q, p) && |q| >= n && q in t ==> t[q] == Dir
  }

  /** The outermost entry above `p`, at `n` components or more, that is no directory. */
  function ObstacleFrom(t: Tree, p: Path, n: nat): (r: Option<Node>)
    requires n > 0
    ensures r.None? <==> ClearFrom(t, p, n)
    ensures r.Some? ==> r.value != Dir
    decreases |p| - n
  {
    if n >= |p| then None
    else if p[..n] in t && t[p[..n]] != Dir then
      assert Ancestor(p[..n], p);
      Some(t[p[..n]])
    else
      assert forall q {:trigger Ancestor(q, p)} :: Ancestor(q, p) && |q| >= n ==> |q| >= n + 1 || q == p[..n];
      ObstacleFrom(t, p, n + 1)
  }

  function Obstacle(t: Tree, p: Path): (r: Option<Node>)
    ensures r.None? <==> ClearAbove(t, p)
    ensures r.Some? ==> r.value != Dir
  {
    ObstacleFrom(t, p, 1)
  }

  /** A path of the set leads through a symbolic link. */
  predicate LeadsThroughLink(ds: seq<Delta>, t: Tree) {
    exists i :: 0 <= i < |ds| &&
      ((ds[i].before.Some? && LinkAbove(t, ds[i].before.value.path)) ||
         (ds[i].after.Some? && LinkAbove(t, ds[i].after.value.path)))
  }

  predicate LinkAbove(t: Tree, p: Path) {
    var o := Obstacle(t, p);
    o.Some? && o.value.Link?
  }

  predicate Reachable(ds: seq<Delta>, t: Tree) {
    forall i :: 0 <= i < |ds| ==>
      && (ds[i].before.Some? ==> Obstacle(t, ds[i].before.value.path).None?)
      && (ds[i].after.Some? ==> Obstacle(t, ds[i].after.value.path).None?)
  }

  lemma ReachableIffUnobstructed(ds: seq<Delta>, t: Tree)
    ensures Reachable(ds, t) <==> Unobstructed(ds, t)
  {
    forall i | 0 <= i < |ds|
      ensures ds[i].before.Some? ==> Touched(ds, ds[i].before.value.path)
      ensures ds[i].after.Some? ==> Touched(ds, ds[i].after.value.path)
    {
      if ds[i].before.Some? { assert BeforeAt(ds, ds[i].before.value.path); }
      if ds[i].after.Some? { assert AfterAt(ds, ds[i].after.value.path); }
    }
    if Reachable(ds, t) {
      forall p | Touched(ds, p) ensures ClearAbove(t, p) {
        assert exists i :: 0 <= i < |ds| && ds[i].Touches(p);
      }
    }
  }

  /** On a passable set no path is hidden as long as no deleted path is used again. */
  lemma PassableIsReachable(ds: seq<Delta>, source: Tree, t: Tree, m: map<ObjectId, string>, sha: string)
    requires Fits(ds, source) && InTransit(ds, source, t, m, sha) && Passable(ds, source) && Unreused(ds, t)
    ensures Reachable(ds, t)
  {
    forall p | Touched(ds, p) ensures ClearAbove(t, p) {
      PassableIsClear(ds, source, t, m, sha, p);
    }
    ReachableIffUnobstructed(ds, t);
  }

  lemma UnobstructedNoLink(ds: seq<Delta>, t: Tree)
    requires Unobstructed(ds, t)
    ensures !LeadsThroughLink(ds, t)
  {
    ReachableIffUnobstructed(ds, t);
  }

  // ---------- the workspace ----------

  class Workspace {
    var tree: Tree
    var markers: map<ObjectId, string>
    var trace: seq<Snapshot>

    /** The disk is the last one recorded, and all recorded disks since `from` are in transit. */
    ghost predicate Sound(ds: seq<Delta>, source: Tree, sha: string, from: nat)
      reads this
    {
      && InTransit(ds, source, tree, markers, sha)
      && from < |trace| && trace[|trace| - 1] == Snapshot(tree, markers)
      && AllInTransit(ds, source, trace, from, sha)
    }

    constructor (source: Tree)
      ensures tree == source && markers == map[] && trace == [Snapshot(source, map[])]
    {
      tree, markers, trace := source, map[], [Snapshot(source, map[])];
    }

    /** The workspace an interrupted publication left. */
    constructor At(left: Snapshot)
      ensures tree == left.tree && markers == left.markers && trace == [left]
    {
      tree, markers, trace := left.tree, left.markers, [left];
    }

    /** One durable change of the disk. */
    method Commit(t: Tree, m: map<ObjectId, string>)
      modifies this
      ensures tree == t && markers == m
      ensures trace == old(trace) + [Snapshot(t, m)]
    {
      tree, markers, trace := t, m, trace + [Snapshot(t, m)];
    }

    /** Stop where something that is no directory stands above a path of the set. */
    method LookAbove(ds: seq<Delta>, ghost source: Tree, sha: string, ghost from: nat, ghost i: nat, p: Path)
      returns (status: Status)
      requires Fits(ds, source) && Sound(ds, source, sha, from)
      requires i < |ds| && ds[i].Touches(p)
      ensures status == Completed <==> ClearAbove(tree, p)
      ensures status == Completed || !Unhindered(ds, source)
      ensures status == Diverted ==> LeadsThroughLink(ds, tree)
    {
      var o := Obstacle(tree, p);
      if o.None? {
        return Completed;
      }
      assert Touched(ds, p);
      ObstacleHinders(ds, source, tree, markers, sha, p);
      if o.value.Link? {
        assert LinkAbove(tree, p);
        return Diverted;
      }
      return Failed;
    }

    /** Look above an after-path: on a passable set nothing is there. */
    method LookAfter(ds: seq<Delta>, ghost source: Tree, sha: string, ghost from: nat, i: nat) returns (status: Status)
      requires Fits(ds, source) && Sound(ds, source, sha, from)
      requires i < |ds| && ds[i].after.Some?
      ensures status == Completed <==> ClearAbove(tree, ds[i].after.value.path)
      ensures status == Completed || !Passable(ds, source)
      ensures status == Diverted ==> LeadsThroughLink(ds, tree)
    {
      status := LookAbove(ds, source, sha, from, i, ds[i].after.value.path);
      assert AfterAt(ds, ds[i].after.value.path);
      if Passable(ds, source) {
        PassableIsClear(ds, source, tree, markers, sha, ds[i].after.value.path);
      }
    }

    /** Look above a before-path: on a passable set nothing is there until deleted paths are used again. */
    method LookBefore(ds: seq<Delta>, ghost source: Tree, sha: string, ghost from: nat, i: nat) returns (status: Status)
      requires Fits(ds, source) && Sound(ds, source, sha, from)
      requires i < |ds| && ds[i].before.Some?
      ensures status == Completed <==> ClearAbove(tree, ds[i].before.value.path)
      ensures status == Completed || !Passable(ds, source) || !Unreused(ds, tree)
      ensures status == Diverted ==> LeadsThroughLink(ds, tree)
    {
      status := LookAbove(ds, source, sha, from, i, ds[i].before.value.path);
      assert BeforeAt(ds, ds[i].before.value.path);
      if Passable(ds, source) && Unreused(ds, tree) {
        PassableIsClear(ds, source, tree, markers, sha, ds[i].before.value.path);
      }
    }

    /** Create one directory whose parents exist. */
    method MakeOne(ds: seq<Delta>, ghost source: Tree, sha: string, ghost from: nat, ghost i: nat, q: Path)
      requires Fits(ds, source) && Sound(ds, source, sha, from)
      requires i < |ds| && ds[i].after.Some? && q !in tree
      requires Ancestor(q, ds[i].after.value.path) || (q == ds[i].after.value.path && ds[i].after.value.DirectoryState?)
      requires forall r :: Ancestor(r, q) ==> r in tree && tree[r] == Dir
      modifies this
      ensures Sound(ds, source, sha, from) && markers == old(markers) && old(trace) <= trace
      ensures tree == old(tree)[q := Dir] && Grew(ds, old(tree), tree)
      ensures forall j :: 0 <= j < |ds| ==> (InWindow(ds, ds[j], tree) <==> InWindow(ds, ds[j], old(tree)))
    {
      NewDirectoryKeepsTransit(ds, source, tree, markers, sha, i, q);
      Commit(tree[q := Dir], markers);
    }

    /** Create the missing parents of an after-path, outermost first. */
    method CreateParents(ds: seq<Delta>, ghost source: Tree, sha: string, ghost from: nat, i: nat)
      requires Fits(ds, source) && Sound(ds, source, sha, from)
      requires i < |ds| && ds[i].after.Some? && ClearAbove(tree, ds[i].after.value.path)
      modifies this
      ensures Sound(ds, source, sha, from) && markers == old(markers) && old(trace) <= trace
      ensures Grew(ds, old(tree), tree)
      ensures forall p :: p in tree && p !in old(tree) ==> Ancestor(p, ds[i].after.value.path)
      ensures forall q :: Ancestor(q, ds[i].after.value.path) ==> q in tree && tree[q] == Dir
      ensures forall j :: 0 <= j < |ds| ==> (InWindow(ds, ds[j], tree) <==> InWindow(ds, ds[j], old(tree)))
    {
      var a := ds[i].after.value.path;
      assert a != [] by { assert WellShaped(ds[i]); }
      for n := 1 to |a|
        invariant Sound(ds, source, sha, from) && markers == old(markers) && old(trace) <= trace
        invariant Grew(ds, old(tree), tree)
        invariant forall p :: p in tree && p !in old(tree) ==> Ancestor(p, a)
        invariant forall q :: Ancestor(q, a) && |q| < n ==> q in tree && tree[q] == Dir
        invariant forall j :: 0 <= j < |ds| ==> (InWindow(ds, ds[j], tree) <==> InWindow(ds, ds[j], old(tree)))
      {
        var q := a[..n];
        assert Ancestor(q, a);
        forall r | Ancestor(r, a) && |r| <= n ensures |r| < n || r == q {}
        if q !in tree {
          forall r | Ancestor(r, q) ensures r in tree && tree[r] == Dir { AncestorTransitive(r, q, a); }
          MakeOne(ds, source, sha, from, i, q);
        }
      }
    }

    /** Rename the source of a move to its destination, as one step. */
    method Rename(ds: seq<Delta>, ghost source: Tree, sha: string, ghost from: nat, i: nat)
      requires Fits(ds, source) && Sound(ds, source, sha, from)
      requires i < |ds| && ds[i].Moves()
      requires ds[i].before.value.path in tree && ds[i].after.value.path !in tree
      requires forall q :: Ancestor(q, ds[i].after.value.path) ==> q in tree && tree[q] == Dir
      modifies this
      ensures Sound(ds, source, sha, from) && markers == old(markers) && old(trace) <= trace
      ensures tree == (old(tree) - {ds[i].before.value.path})[ds[i].after.value.path := ds[i].before.value.Node()]
      ensures forall j :: 0 <= j < |ds| && j != i ==> (InWindow(ds, ds[j], tree) <==> InWindow(ds, ds[j], old(tree)))
      ensures !InWindow(ds, ds[i], tree)
    {
      var b, a := ds[i].before.value.path, ds[i].after.value.path;
      assert WellShaped(ds[i]) && DeltaInTransit(ds, ds[i], tree, markers, sha);
      var next := (tree - {b})[a := tree[b]];
      assert Closed(next) by {
        forall q, p | Ancestor(q, p) && p in next ensures q in next && next[q] == Dir {
          assert q != b;
        }
      }
      OwnStepKeepsTransit(ds, source, tree, markers, next, markers, sha, i);
      Commit(next, markers);
    }

    /** Make the parents of a move's destination and rename its source to it. */
    method MoveForward(ds: seq<Delta>, ghost source: Tree, sha: string, ghost from: nat, i: nat)
      requires Fits(ds, source) && Sound(ds, source, sha, from)
      requires i < |ds| && ds[i].Moves() && ClearAbove(tree, ds[i].after.value.path)
      requires ds[i].before.value.path in tree && ds[i].after.value.path !in tree
      modifies this
      ensures Sound(ds, source, sha, from) && markers == old(markers) && old(trace) <= trace
      ensures AllProgress(ds, old(tree), tree) && Kept(ds, i, old(tree), tree)
      ensures NoNewWindow(ds, old(tree), tree)
      ensures NoMoveIntoDeleted(ds) && Unreused(ds, old(tree)) ==> Unreused(ds, tree)
      ensures ds[i].before.value.path !in tree && ds[i].after.value.path in tree
    {
      assert WellShaped(ds[i]) && DeltaInTransit(ds, ds[i], tree, markers, sha);
      CreateParents(ds, source, sha, from, i);
      ghost var t := tree;
      assert Vacated(ds, ds[i].before.value.path);
      Rename(ds, source, sha, from, i);
      RenameIsProgress(ds, source, old(tree), t, i);
      if NoMoveIntoDeleted(ds) && Unreused(ds, old(tree)) {
        MoveKeepsUnreused(ds, old(tree), tree, i);
      }
    }

    /** One move: forward when the source is still there, nothing when it already went. */
    method MoveOne(ds: seq<Delta>, ghost source: Tree, sha: string, ghost from: nat, i: nat) returns (status: Status)
      requires Fits(ds, source) && Sound(ds, source, sha, from)
      requires i < |ds| && ds[i].Moves()
      modifies this
      ensures Sound(ds, source, sha, from) && markers == old(markers) && old(trace) <= trace
      ensures AllProgress(ds, old(tree), tree) && Kept(ds, i, old(tree), tree)
      ensures status == Completed <==>
        && !LinkAbove(old(tree), ds[i].before.value.path) && ClearAbove(old(tree), ds[i].after.value.path)
        && (ds[i].before.value.path in old(tree) <==> ds[i].after.value.path !in old(tree))
      ensures NoNewWindow(ds, old(tree), tree)
      ensures NoMoveIntoDeleted(ds) && Unreused(ds, old(tree)) ==> Unreused(ds, tree)
      ensures status == Completed ==> ds[i].before.value.path !in tree && ds[i].after.value.path in tree
      ensures status != Completed && Unreused(ds, old(tree)) ==> !Passable(ds, source) || InWindow(ds, ds[i], old(tree))
      ensures status == Diverted ==> LeadsThroughLink(ds, tree)
    {
      var b, a := ds[i].before.value.path, ds[i].after.value.path;
      if LinkAbove(tree, b) {
        assert BeforeAt(ds, b);
        if Passable(ds, source) && Unreused(ds, tree) {
          PassableIsClear(ds, source, tree, markers, sha, b);
        }
        return Diverted;
      }
      status := LookAfter(ds, source, sha, from, i);
      if status != Completed {
        return;
      }
      if b in tree && a !in tree {
        MoveForward(ds, source, sha, from, i);
        return Completed;
      } else if b !in tree && a in tree {
        return Completed;
      } else {
        return Failed;
      }
    }

    /** First pass: every move still at its source goes to its destination. */
    method MoveFiles(ds: seq<Delta>, ghost source: Tree, sha: string, ghost from: nat) returns (status: Status)
      requires Fits(ds, source) && Sound(ds, source, sha, from)
      modifies this
      ensures Sound(ds, source, sha, from) && markers == old(markers) && old(trace) <= trace
      ensures AllProgress(ds, old(tree), tree)
      ensures NoMoveIntoDeleted(ds) && Unreused(ds, old(tree)) ==> Unreused(ds, tree)
      ensures status == Completed ==> AllMoved(ds, tree)
      ensures status != Completed && Unreused(ds, old(tree)) ==> !Passable(ds, source) || !NoWindow(ds, old(tree))
      ensures status == Diverted ==> LeadsThroughLink(ds, tree)
    {
      var moves := OrderMoves(ds);
      var n := 0;
      while n < |moves|
        invariant 0 <= n <= |moves|
        invariant Sound(ds, source, sha, from) && markers == old(markers) && old(trace) <= trace
        invariant FirstMoved(ds, moves, n, tree)
        invariant AllProgress(ds, old(tree), tree) && NoNewWindow(ds, old(tree), tree)
        invariant NoMoveIntoDeleted(ds) && Unreused(ds, old(tree)) ==> Unreused(ds, tree)
      {
        ghost var t := tree;
        status := MoveOne(ds, source, sha, from, moves[n].index);
        ProgressAdds(ds, old(tree), t, tree);
        if status != Completed {
          return;
        }
        FirstMovedAdvances(ds, moves, n, t, tree);
        n := n + 1;
      }
      return Completed;
    }

    /** Clear one before-path; a directory only goes when nothing is left in it. */
    method RemoveOne(ds: seq<Delta>, ghost source: Tree, sha: string, ghost from: nat, i: nat) returns (status: Status)
      requires Fits(ds, source) && Sound(ds, source, sha, from) && AllMoved(ds, tree)
      requires i < |ds| && Clears(ds[i])
      requires forall u :: u in tree && Ancestor(ds[i].before.value.path, u) ==> !BeforeAt(ds, u)
      modifies this
      ensures Sound(ds, source, sha, from) && markers == old(markers) && old(trace) <= trace
      ensures status == Completed <==>
        && ClearAbove(tree, ds[i].before.value.path)
        && forall u :: u in old(tree) ==> !Ancestor(ds[i].before.value.path, u)
      ensures tree == if status == Completed then old(tree) - {ds[i].before.value.path} else old(tree)
      ensures status == Completed ==> ClearAbove(source, ds[i].before.value.path)
      ensures status != Completed && Unreused(ds, old(tree)) ==> !Passable(ds, source) || !Covered(ds, source)
      ensures status == Diverted ==> LeadsThroughLink(ds, tree)
      ensures AllProgress(ds, old(tree), tree)
    {
      var p := ds[i].before.value.path;
      RemovalIsProgress(ds, source, tree, i);
      status := LookBefore(ds, source, sha, from, i);
      if status != Completed {
        return;
      }
      assert BeforeAt(ds, p);
      ClearWasClear(ds, source, tree, markers, sha, p);
      if p !in tree {
        assert tree - {p} == tree;
        return;
      }
      if tree[p] == Dir {
        if exists u :: u in tree && Ancestor(p, u) {
          ghost var u :| u in tree && Ancestor(p, u);
          if Unreused(ds, tree) {
            LeftoverIsUncovered(ds, source, tree, markers, sha, i, u);
          }
          return Failed;
        }
      }
      RemovalKeepsTransit(ds, source, tree, markers, sha, i);
      Commit(tree - {p}, markers);
    }

    /** Second pass: clear the before-paths, deepest first.  A path the set uses again is
        cleared like any other, whatever a move has just put there. */
    method RemovePaths(ds: seq<Delta>, ghost source: Tree, sha: string, ghost from: nat) returns (status: Status)
      requires Fits(ds, source) && Sound(ds, source, sha, from)
      requires AllMoved(ds, tree)
      modifies this
      ensures Sound(ds, source, sha, from) && markers == old(markers) && old(trace) <= trace
      ensures AllProgress(ds, old(tree), tree)
      ensures status == Completed ==> NothingAtBeforePaths(ds, tree) && RemovalsClear(ds, source)
      ensures status != Completed && Unreused(ds, old(tree)) ==> !Passable(ds, source) || !Covered(ds, source)
      ensures status == Diverted ==> LeadsThroughLink(ds, tree)
    {
      var removals := OrderRemovals(ds);
      var n := 0;
      while n < |removals|
        invariant 0 <= n <= |removals|
        invariant Sound(ds, source, sha, from) && markers == old(markers) && old(trace) <= trace
        invariant AllProgress(ds, old(tree), tree)
        invariant AllMoved(ds, tree) && (Unreused(ds, old(tree)) ==> Unreused(ds, tree))
        invariant Gone(removals, n, tree)
        invariant forall k :: 0 <= k < n ==> ClearAbove(source, removals[k].path)
      {
        ghost var t := tree;
        forall u | u in tree && Ancestor(removals[n].path, u) ensures !BeforeAt(ds, u) {
          DeeperIsGone(ds, removals, n, tree, u);
        }
        status := RemoveOne(ds, source, sha, from, removals[n].index);
        ProgressAdds(ds, old(tree), t, tree);
        if status != Completed {
          return;
        }
        MovedStays(ds, t, tree);
        n := n + 1;
      }
      AllGone(ds, removals, tree);
      return Completed;
    }

    /** Create one directory of the set, with its parents. */
    method MakeDirectory(ds: seq<Delta>, ghost source: Tree, sha: string, ghost from: nat, i: nat)
      returns (status: Status)
      requires Fits(ds, source) && Sound(ds, source, sha, from)
      requires i < |ds| && ds[i].after.Some? && ds[i].after.value.DirectoryState?
      modifies this
      ensures Sound(ds, source, sha, from) && markers == old(markers) && old(trace) <= trace
      ensures Grew(ds, old(tree), tree)
      ensures status == Completed ==> ds[i].after.value.path in tree
      ensures status != Completed ==> !Passable(ds, source)
      ensures status == Diverted ==> LeadsThroughLink(ds, tree)
    {
      var a := ds[i].after.value.path;
      status := LookAfter(ds, source, sha, from, i);
      if status == Completed {
        CreateParents(ds, source, sha, from, i);
        if a !in tree {
          MakeOne(ds, source, sha, from, i, a);
        }
      }
    }

    /** Third pass: the directories the set creates, shallowest first. */
    method MakeDirectories(ds: seq<Delta>, ghost source: Tree, sha: string, ghost from: nat) returns (status: Status)
      requires Fits(ds, source) && Sound(ds, source, sha, from)
      modifies this
      ensures Sound(ds, source, sha, from) && markers == old(markers) && old(trace) <= trace
      ensures Grew(ds, old(tree), tree)
      ensures status == Completed ==> DirectoriesMade(ds, tree)
      ensures status != Completed ==> !Passable(ds, source)
      ensures status == Diverted ==> LeadsThroughLink(ds, tree)
    {
      var directories := OrderDirectories(ds);
      var n := 0;
      while n < |directories|
        invariant 0 <= n <= |directories|
        invariant Sound(ds, source, sha, from) && markers == old(markers) && old(trace) <= trace
        invariant Grew(ds, old(tree), tree) && Made(directories, n, tree)
      {
        ghost var t := tree;
        status := MakeDirectory(ds, source, sha, from, directories[n].index);
        GrewAdds(ds, old(tree), t, tree, directories, n);
        if status != Completed {
          return;
        }
        n := n + 1;
      }
      AllDirectoriesMade(ds, source, tree, markers, sha, directories);
      return Completed;
    }

    /** One durable change at an after-path whose parents exist. */
    method Put(ds: seq<Delta>, ghost source: Tree, sha: string, ghost from: nat, i: nat, node: Node,
               m: map<ObjectId, string>)
      requires Fits(ds, source) && Sound(ds, source, sha, from)
      requires i < |ds| && ds[i].after.Some?
      requires forall q :: Ancestor(q, ds[i].after.value.path) ==> q in tree && tree[q] == Dir
      requires ds[i].after.value.path in tree ==> tree[ds[i].after.value.path] != Dir
      requires DeltaInTransit(ds, ds[i], tree[ds[i].after.value.path := node], m, sha)
      requires forall id :: id != ds[i].objectId ==>
        (id in markers <==> id in m) && (id in markers ==> m[id] == markers[id])
      modifies this
      ensures Sound(ds, source, sha, from) && markers == m && old(trace) <= trace
      ensures tree == old(tree)[ds[i].after.value.path := node]
    {
      var a := ds[i].after.value.path;
      assert WellShaped(ds[i]);
      OwnStepKeepsTransit(ds, source, tree, markers, tree[a := node], m, sha, i);
      Commit(tree[a := node], m);
    }

    /** Unlink a plain entry at an after-path. */
    method Unlink(ds: seq<Delta>, ghost source: Tree, sha: string, ghost from: nat, i: nat)
      requires Fits(ds, source) && Sound(ds, source, sha, from)
      requires i < |ds| && ds[i].after.Some?
      requires ds[i].after.value.path in tree && tree[ds[i].after.value.path] != Dir
      requires DeltaInTransit(ds, ds[i], tree - {ds[i].after.value.path}, markers, sha)
      modifies this
      ensures Sound(ds, source, sha, from) && markers == old(markers) && old(trace) <= trace
      ensures tree == old(tree) - {ds[i].after.value.path}
      ensures |trace| == |old(trace)| + 1 && trace[|old(trace)|].tree == tree
    {
      var a := ds[i].after.value.path;
      OwnStepKeepsTransit(ds, source, tree, markers, tree - {a}, markers, sha, i);
      Commit(tree - {a}, markers);
    }

    /** Install a file by rename, or a link: whatever plain entry is in the way goes first. */
    method InstallFresh(ds: seq<Delta>, ghost source: Tree, sha: string, ghost from: nat, i: nat, node: Node)
      requires Fits(ds, source) && Sound(ds, source, sha, from)
      requires i < |ds| && ds[i].after.Some? && !ds[i].after.value.DirectoryState? && node == ds[i].after.value.Node()
      requires ClearAbove(tree, ds[i].after.value.path) && Pending(ds, ds[i], tree)
      requires ds[i].Moves() ==> ds[i].after.value.LinkState?
      modifies this
      ensures Sound(ds, source, sha, from) && markers == old(markers) && old(trace) <= trace
      ensures DeltaApplied(ds[i], tree) && Kept(ds, i, old(tree), tree)
      ensures ds[i].Retargets() && Holds(old(tree), ds[i].before.value, ds[i].after.value.path) ==>
        |old(trace)| < |trace| && InWindow(ds, ds[i], trace[|old(trace)|].tree)
    {
      var a := ds[i].after.value.path;
      assert WellShaped(ds[i]) && DeltaInTransit(ds, ds[i], tree, markers, sha);
      if a in tree && tree[a] == node {
        return;
      }
      if a in tree {
        Unlink(ds, source, sha, from, i);
      }
      CreateParents(ds, source, sha, from, i);
      ghost var parents := tree;
      Put(ds, source, sha, from, i, node, markers);
      FreshIsKept(ds, old(tree), parents, i);
    }

    /** Truncate a marked file and write the prepared bytes into it, piece by piece. */
    method WriteCovered(ds: seq<Delta>, ghost source: Tree, sha: string, ghost from: nat, i: nat, prepared: Node,
                        executable: bool)
      requires Fits(ds, source) && Sound(ds, source, sha, from)
      requires i < |ds| && ds[i].OverwritesInPlace() && prepared == ds[i].after.value.Node()
      requires ds[i].before.value.path !in tree && ds[i].after.value.path in tree && tree[ds[i].after.value.path].File?
      requires ds[i].objectId in markers && markers[ds[i].objectId] == sha
      modifies this
      ensures Sound(ds, source, sha, from) && old(trace) <= trace && markers == old(markers)
      ensures tree == old(tree)[ds[i].after.value.path := File(prepared.content, executable)]
    {
      var a := ds[i].after.value.path;
      assert WellShaped(ds[i]) && DeltaInTransit(ds, ds[i], tree, markers, sha);
      Put(ds, source, sha, from, i, File([], executable), markers);
      for written := 0 to |prepared.content|
        invariant Sound(ds, source, sha, from) && old(trace) <= trace && markers == old(markers)
        invariant tree == old(tree)[a := File(prepared.content[..written], executable)]
      {
        Put(ds, source, sha, from, i, File(prepared.content[..written + 1], executable), markers);
      }
      assert prepared.content[..|prepared.content|] == prepared.content;
    }

    /** Put down the marker for a moved file that is about to be overwritten. */
    method Mark(ds: seq<Delta>, ghost source: Tree, sha: string, ghost from: nat, i: nat)
      requires Fits(ds, source) && Sound(ds, source, sha, from)
      requires i < |ds| && ds[i].OverwritesInPlace()
      modifies this
      ensures Sound(ds, source, sha, from) && old(trace) <= trace
      ensures tree == old(tree) && markers == old(markers)[ds[i].objectId := sha]
    {
      assert WellShaped(ds[i]) && DeltaInTransit(ds, ds[i], tree, markers, sha);
      OwnStepKeepsTransit(ds, source, tree, markers, tree, markers[ds[i].objectId := sha], sha, i);
      Commit(tree, markers[ds[i].objectId := sha]);
    }

    /** Write the prepared bytes over a moved file, covered by a durable marker throughout. */
    method OverwriteInPlace(ds: seq<Delta>, ghost source: Tree, sha: string, ghost from: nat, i: nat, prepared: Node)
      returns (status: Status)
      requires Fits(ds, source) && Sound(ds, source, sha, from)
      requires i < |ds| && ds[i].OverwritesInPlace() && prepared == ds[i].after.value.Node()
      requires ds[i].before.value.path !in tree
      modifies this
      ensures Sound(ds, source, sha, from) && old(trace) <= trace
      ensures status == Completed ==> DeltaApplied(ds[i], tree) && Kept(ds, i, old(tree), tree)
      ensures status == if ds[i].after.value.path in old(tree) then Completed else Failed
      ensures status == Failed ==> tree == old(tree)
    {
      var a := ds[i].after.value.path;
      Mark(ds, source, sha, from, i);
      if a !in tree {
        return Failed;
      }
      assert WellShaped(ds[i]) && DeltaInTransit(ds, ds[i], tree, markers, sha);
      WriteCovered(ds, source, sha, from, i, prepared, tree[a].executable);
      Put(ds, source, sha, from, i, prepared, markers);
      Put(ds, source, sha, from, i, prepared, markers - {ds[i].objectId});
      return Completed;
    }

    /** Give a moved file whose bytes stay the same its mode. */
    method AdjustMode(ds: seq<Delta>, ghost source: Tree, sha: string, ghost from: nat, i: nat) returns (status: Status)
      requires Fits(ds, source) && Sound(ds, source, sha, from)
      requires i < |ds| && UnchangedMove(ds[i]) && ds[i].before.value.path !in tree
      modifies this
      ensures Sound(ds, source, sha, from) && old(trace) <= trace
      ensures status == Completed ==> DeltaApplied(ds[i], tree) && Kept(ds, i, old(tree), tree)
      ensures status == if ds[i].after.value.path in old(tree) then Completed else Failed
      ensures status == Failed ==> tree == old(tree)
    {
      var a := ds[i].after.value.path;
      if a !in tree {
        return Failed;
      }
      assert WellShaped(ds[i]) && DeltaInTransit(ds, ds[i], tree, markers, sha);
      assert tree[a] == File(ds[i].after.value.content, tree[a].executable);
      Put(ds, source, sha, from, i, File(tree[a].content, ds[i].after.value.executable), markers);
      return Completed;
    }

    /** Bring one after-state to its path. */
    method InstallOne(ds: seq<Delta>, ghost source: Tree, sha: string, ghost from: nat, work: map<ObjectId, Node>,
                      i: nat)
      returns (status: Status)
      requires Fits(ds, source) && Sound(ds, source, sha, from) && Ready(ds, work)
      requires i < |ds| && Pending(ds, ds[i], tree) && DirectoriesMade(ds, tree)
      modifies this
      ensures Sound(ds, source, sha, from) && old(trace) <= trace
      ensures status == Completed ==>
        Kept(ds, i, old(tree), tree) && (!Superseded(ds, ds[i]) ==> DeltaApplied(ds[i], tree))
      ensures status == Completed ==> !FileOntoDeleted(ds, ds[i])
      ensures status != Completed ==> !Passable(ds, source)
      ensures status == Diverted ==> LeadsThroughLink(ds, tree)
      ensures (status == Completed && ds[i].Retargets() &&
               Holds(old(tree), ds[i].before.value, ds[i].after.value.path)) ==>
        WindowSeen(ds, ds[i], trace, |old(trace)|)
    {
      if ds[i].after.None? || ds[i].after.value.DirectoryState? {
        assert WellShaped(ds[i]);
        return Completed;
      }
      status := LookAfter(ds, source, sha, from, i);
      if status != Completed {
        return;
      }
      if ds[i].after.value.LinkState? {
        InstallFresh(ds, source, sha, from, i, Link(ds[i].after.value.target));
      } else if UnchangedMove(ds[i]) {
        status := AdjustMode(ds, source, sha, from, i);
      } else if ds[i].Moves() {
        status := OverwriteInPlace(ds, source, sha, from, i, work[ds[i].objectId]);
      } else {
        InstallFresh(ds, source, sha, from, i, work[ds[i].objectId]);
      }
    }

    /** Last pass: files and links, in the order of the set. */
    method InstallAll(ds: seq<Delta>, ghost source: Tree, sha: string, ghost from: nat, work: map<ObjectId, Node>)
      returns (status: Status)
      requires Fits(ds, source) && Sound(ds, source, sha, from) && Ready(ds, work)
      requires PendingFrom(ds, 0, tree) && DirectoriesMade(ds, tree)
      modifies this
      ensures Sound(ds, source, sha, from) && old(trace) <= trace
      ensures status == Completed ==> Applied(ds, tree) && NoFileOntoDeleted(ds, |ds|)
      ensures status != Completed ==> !Passable(ds, source)
      ensures status == Diverted ==> LeadsThroughLink(ds, tree)
      ensures status == Completed ==> AllWindowsSeen(ds, |ds|, old(tree), trace, |old(trace)|)
    {
      var n := 0;
      while n < |ds|
        invariant 0 <= n <= |ds|
        invariant Sound(ds, source, sha, from) && old(trace) <= trace
        invariant AppliedUpTo(ds, n, tree) && PendingFrom(ds, n, tree) && DirectoriesMade(ds, tree)
        invariant StillMoved(ds, n, old(tree), tree)
        invariant NoFileOntoDeleted(ds, n)
        invariant AllWindowsSeen(ds, n, old(tree), trace, |old(trace)|)
      {
        ghost var t, seen := tree, trace;
        status := InstallOne(ds, source, sha, from, work, n);
        if status != Completed {
          return;
        }
        InstallAdvances(ds, source, n, t, tree);
        WindowsStaySeen(ds, n, old(tree), t, seen, trace, |old(trace)|);
        n := n + 1;
      }
      return Completed;
    }

    /** The first two passes: everything leaves the before-paths. */
    method Vacate(ds: seq<Delta>, ghost source: Tree, sha: string, ghost from: nat) returns (status: Status)
      requires Fits(ds, source) && Sound(ds, source, sha, from)
      modifies this
      ensures Sound(ds, source, sha, from) && markers == old(markers) && old(trace) <= trace
      ensures AllProgress(ds, old(tree), tree)
      ensures status == Completed ==> NothingAtBeforePaths(ds, tree) && RemovalsClear(ds, source) && AllMoved(ds, tree)
      ensures status != Completed && Unreused(ds, old(tree)) ==>
        !Passable(ds, source) || !NoWindow(ds, old(tree)) || !Covered(ds, source)
      ensures status == Diverted ==> LeadsThroughLink(ds, tree)
    {
      status := MoveFiles(ds, source, sha, from);
      if status != Completed {
        return;
      }
      ghost var moved := tree;
      status := RemovePaths(ds, source, sha, from);
      ProgressAdds(ds, old(tree), moved, tree);
      MovedStays(ds, moved, tree);
    }

    /** The last two passes: the after-states come to their paths. */
    method Fill(ds: seq<Delta>, ghost source: Tree, sha: string, ghost from: nat, work: map<ObjectId, Node>,
                ghost start: Tree)
      returns (status: Status)
      requires Fits(ds, source) && Sound(ds, source, sha, from) && Ready(ds, work)
      requires NothingAtBeforePaths(ds, tree) && AllMoved(ds, tree) && AllProgress(ds, start, tree)
      modifies this
      ensures Sound(ds, source, sha, from) && old(trace) <= trace
      ensures status == Completed ==> Applied(ds, tree) && NoMoveIntoDeleted(ds)
      ensures status != Completed ==> !Passable(ds, source)
      ensures status == Diverted ==> LeadsThroughLink(ds, tree)
      ensures status == Completed && !DeletedPathReused(ds) ==> AllLinksSeen(ds, start, trace, |old(trace)|)
    {
      status := MakeDirectories(ds, source, sha, from);
      if status != Completed {
        return;
      }
      GrewKeepsPending(ds, old(tree), tree);
      GrewIsProgress(ds, old(tree), tree);
      ProgressAdds(ds, start, old(tree), tree);
      MovedStays(ds, old(tree), tree);
      ghost var made, marked := tree, |trace|;
      status := InstallAll(ds, source, sha, from, work);
      if status != Completed {
        return;
      }
      ClearedMovesNothingIn(ds, source, old(tree));
      if !DeletedPathReused(ds) {
        SeenFromStart(ds, start, made, trace, |old(trace)|, marked);
      }
    }

    /**
     Publish the prepared work.  Every disk on the way is in transit; when publication
     completes, the workspace is the merge.  It completes only if no file is moved to a deleted
     path, nothing is moved beneath one, and the set covers what is beneath the directories it
     removes.  From a disk on which no deleted path is used yet and no move has lost both its
     ends, and where no path leads through a link, these and nothing standing above a path are
     reasons enough.
     From a disk where no retargeted link has been touched, the crash window of each one
     is among the disks it leaves behind.
     */
    method Publish(ds: seq<Delta>, ghost source: Tree, sha: string, ghost from: nat, work: map<ObjectId, Node>)
      returns (status: Status)
      requires Fits(ds, source) && Sound(ds, source, sha, from) && Ready(ds, work)
      modifies this
      ensures Sound(ds, source, sha, from) && old(trace) <= trace
      ensures status == Completed ==> Applied(ds, tree) && Merge(ds, source, tree) && Covered(ds, source)
      ensures status == Completed && !LeadsThroughLink(ds, old(tree)) ==> Unobstructed(ds, source)
      ensures status == Completed ==> (MatchesAfter(ds, tree) <==> !DeletedPathReused(ds))
      ensures status == Completed ==> NoMoveIntoDeleted(ds)
      ensures status != Completed ==> !Unhindered(ds, source) || !Covered(ds, source) || !NoWindow(ds, old(tree))
      ensures status != Completed && NothingReused(ds, old(tree)) ==>
        !Passable(ds, source) || !Covered(ds, source) || !NoWindow(ds, old(tree))
      ensures NoWindow(ds, old(tree)) && !LeadsThroughLink(ds, old(tree)) ==>
        (status == Completed && MatchesAfter(ds, tree) <==> Unhindered(ds, source) && Covered(ds, source))
      ensures (NoWindow(ds, old(tree)) && NothingReused(ds, old(tree)) && !LeadsThroughLink(ds, old(tree)) &&
               NoLinkOverBefore(ds)) ==>
        (status == Completed <==> Unobstructed(ds, source) && Covered(ds, source) && NoMoveIntoDeleted(ds))
      ensures status == Diverted ==> LeadsThroughLink(ds, tree)
      ensures status == Completed && !DeletedPathReused(ds) ==> AllLinksSeen(ds, old(tree), trace, |old(trace)|)
    {
      if Unhindered(ds, source) {
        UnhinderedIsPassable(ds, source);
      }
      status := Vacate(ds, source, sha, from);
      if status != Completed {
        return;
      }
      ghost var vacated := trace;
      status := Fill(ds, source, sha, from, work, old(tree));
      if status != Completed {
        return;
      }
      AppliedInTransitIsMerge(ds, source, tree, markers, sha);
      AppliedIsCovered(ds, source, tree, markers, sha);
      AppliedIsUnobstructed(ds, source, tree, markers, sha);
      MatchesAfterIff(ds, tree);
      LinksStaySeen(ds, old(tree), trace, |old(trace)|, |vacated|);
    }

    /**
     A fresh publication of a cleanly assessed set.  Where no path of the set leads through a
     link, it ends in the merge exactly when nothing stands above a path, the set moves nothing
     into a deleted path and covers what is beneath the directories it removes; and it passes
     the completion test if moreover no deleted path is used again.
     */
    method PublishFromSource(ds: seq<Delta>, sha: string, work: map<ObjectId, Node>) returns (status: Status)
      requires Fits(ds, tree) && Ready(ds, work)
      requires markers == map[] && trace == [Snapshot(tree, map[])]
      modifies this
      ensures status == Completed ==> Merge(ds, old(tree), tree) && Closed(tree)
      ensures status == Completed ==> NoMoveIntoDeleted(ds) && Covered(ds, old(tree))
      ensures !LeadsThroughLink(ds, old(tree)) && NoLinkOverBefore(ds) ==>
        (status == Completed <==>
           Unobstructed(ds, old(tree)) && Covered(ds, old(tree)) && NoMoveIntoDeleted(ds))
      ensures !LeadsThroughLink(ds, old(tree)) ==>
        (status == Completed && MatchesAfter(ds, tree) <==> Unhindered(ds, old(tree)) && Covered(ds, old(tree)))
      ensures status == Completed ==> (MatchesAfter(ds, tree) <==> !DeletedPathReused(ds))
      ensures status == Diverted ==> LeadsThroughLink(ds, tree)
      ensures AllInTransit(ds, old(tree), trace, 0, sha)
      ensures NoRetarget(ds) && !DeletedPathReused(ds) ==> EveryDiskRecoverable(ds, trace, sha)
      ensures status == Completed ==>
        (EveryDiskRecoverable(ds, trace, sha) <==> NoRetarget(ds) && !DeletedPathReused(ds))
    {
      ghost var source := tree;
      CleanSourceIsInTransit(ds, source, sha);
      SourceIsUnreused(ds, source);
      status := Publish(ds, source, sha, 0, work);
      FreshRunRecoverable(ds, source, Snapshot(tree, markers), trace, |old(trace)|, sha, status == Completed);
    }

    /** What apply does when it finds its own prepared journal. */
    method Resume(ds: seq<Delta>, ghost source: Tree, sha: string, ghost from: nat, work: map<ObjectId, Node>)
      returns (status: Status)
      requires Fits(ds, source) && Sound(ds, source, sha, from) && Ready(ds, work)
      modifies this
      ensures Sound(ds, source, sha, from) && old(trace) <= trace
      ensures status == Completed ==> Merge(ds, source, tree)
      ensures !DeletedPathReused(ds) && !LeadsThroughLink(ds, old(tree)) ==>
        (status == Completed <==>
           MatchesAfter(ds, old(tree)) || (NoWindow(ds, old(tree)) && Unobstructed(ds, source) && Covered(ds, source)))
      ensures !LeadsThroughLink(ds, old(tree)) && NoLinkOverBefore(ds) ==>
        (status == Completed <==>
           || MatchesAfter(ds, old(tree))
           || (&& Recoverable(ds, old(tree), old(markers), sha)
               && Unobstructed(ds, source) && Covered(ds, source) && NoMoveIntoDeleted(ds)))
      ensures DeletedPathReused(ds) && !Recoverable(ds, old(tree), old(markers), sha) ==> status != Completed
    {
      if LeadsThroughLink(ds, tree) {
        return Diverted;
      }
      if MatchesAfter(ds, tree) {
        AppliedInTransitIsMerge(ds, source, tree, markers, sha);
        MatchesAfterIff(ds, tree);
        return Completed;
      }
      ReachableIffUnobstructed(ds, tree);
      if !DeletedPathReused(ds) {
        RecoverableUnlessInWindow(ds, source, tree, markers, sha);
        ObstructionStays(ds, source, tree, markers, sha);
      }
      if Recoverable(ds, tree, markers, sha) {
        RecoverableHasNoWindow(ds, tree, markers, sha);
        RecoverableIsUnreused(ds, source, tree, markers, sha);
        if Passable(ds, source) {
          PassableIsReachable(ds, source, tree, markers, sha);
        }
      }
      if !Recoverable(ds, tree, markers, sha) || !Reachable(ds, tree) {
        return Failed;
      }
      status := Publish(ds, source, sha, from, work);
    }

    /** The disk falls back to one that was recorded since `start`. */
    method Crash(ds: seq<Delta>, ghost source: Tree, sha: string, start: nat, cut: nat)
      requires Sound(ds, source, sha, 0) && start < |trace|
      modifies this
      ensures Sound(ds, source, sha, 0) && old(trace) <= trace
      ensures exists k :: start <= k < |old(trace)| && Snapshot(tree, markers) == old(trace[k])
    {
      var k := start + cut % (|trace| - start);
      Commit(trace[k].tree, trace[k].markers);
    }

    /** A publication that starts at its source. */
    method FirstTry(ds: seq<Delta>, sha: string, work: map<ObjectId, Node>) returns (status: Status)
      requires Fits(ds, tree) && Ready(ds, work)
      requires markers == map[] && trace == [Snapshot(tree, map[])]
      modifies this
      ensures Sound(ds, old(tree), sha, 0)
      ensures status == Completed ==> Merge(ds, old(tree), tree)
      ensures Unhindered(ds, old(tree)) ==> (status == Completed <==> Covered(ds, old(tree)))
    {
      CleanSourceIsInTransit(ds, tree, sha);
      status := Publish(ds, tree, sha, 0, work);
    }

    /** A resumption, for a set that retargets no moved link. */
    method Retry(ds: seq<Delta>, ghost source: Tree, sha: string, work: map<ObjectId, Node>) returns (status: Status)
      requires Fits(ds, source) && NoRetarget(ds) && Sound(ds, source, sha, 0) && Ready(ds, work)
      modifies this
      ensures Sound(ds, source, sha, 0) && old(trace) <= trace
      ensures status == Completed ==> Merge(ds, source, tree)
      ensures Unhindered(ds, source) ==> (status == Completed <==> Covered(ds, source))
    {
      if Unhindered(ds, source) {
        ObstructionStays(ds, source, tree, markers, sha);
        UnobstructedNoLink(ds, tree);
        NoRetargetNoWindow(ds, tree);
        if MatchesAfter(ds, tree) {
          MatchesAfterIff(ds, tree);
          AppliedIsCovered(ds, source, tree, markers, sha);
        }
      }
      status := Resume(ds, source, sha, 0, work);
    }

    /**
     A publication and any number of crashes: each attempt is cut after an arbitrary one of
     its disks, and the next one resumes.  However often that happens, a completed run ends
     in the merge of the original source.
     */
    method RunThroughCrashes(ds: seq<Delta>, sha: string, work: map<ObjectId, Node>, cuts: seq<nat>)
      returns (status: Status)
      requires Fits(ds, tree) && NoRetarget(ds) && Ready(ds, work)
      requires markers == map[] && trace == [Snapshot(tree, map[])]
      modifies this
      ensures status == Completed ==> Merge(ds, old(tree), tree)
      ensures Unhindered(ds, old(tree)) ==> (status == Completed <==> Covered(ds, old(tree)))
      ensures !DeletedPathReused(ds) ==> EveryDiskRecoverable(ds, trace, sha)
    {
      ghost var source := tree;
      var start := 0;
      status := FirstTry(ds, sha, work);
      for c := 0 to |cuts|
        invariant Sound(ds, source, sha, 0) && 0 <= start < |trace|
        invariant status == Completed ==> Merge(ds, source, tree)
        invariant Unhindered(ds, source) ==> (status == Completed <==> Covered(ds, source))
      {
        Crash(ds, source, sha, start, cuts[c]);
        start := |trace| - 1;
        status := Retry(ds, source, sha, work);
      }
      if !DeletedPathReused(ds) {
        TransitIsRecoverable(ds, source, trace, sha);
      }
    }
  }

  // ---------- what the assessment does not see ----------

  /** A set of deltas at top-level paths fits any source of which it is clean. */
  lemma TopLevelFits(ds: seq<Delta>, source: Tree)
    requires Closed(source) && DistinctPaths(ds) && ReuseChangesKind(ds) && Clean(ds, source)
    requires forall i :: 0 <= i < |ds| ==> WellShaped(ds[i])
    requires forall i :: 0 <= i < |ds| ==>
      (ds[i].before.Some? ==> |ds[i].before.value.path| == 1) && (ds[i].after.Some? ==> |ds[i].after.value.path| == 1)
    ensures Fits(ds, source)
  {}

  /** A moved and retargeted link has a disk in its publication that the gate rejects. */
  lemma RetargetLeavesWindow()
    ensures var source: Tree := map[["a"] := Link("x")];
      var ds := [Delta("obj_1", Some(LinkState(["a"], "x", "v1")), Some(LinkState(["b"], "y", "v2")))];
      && Fits(ds, source) && Unhindered(ds, source) && Covered(ds, source)
      && InTransit(ds, source, map[], map[], "sha") && !Recoverable(ds, map[], map[], "sha")
  {
    var source: Tree := map[["a"] := Link("x")];
    var ds := [Delta("obj_1", Some(LinkState(["a"], "x", "v1")), Some(LinkState(["b"], "y", "v2")))];
    TopLevelFits(ds, source);
    assert InWindow(ds, ds[0], map[]);
    assert DeltaInTransit(ds, ds[0], map[], map[], "sha");
    assert BeforeAt(ds, ["a"]);
    assert !DeltaRecoverable(ds[0], map[], map[], "sha");
  }

  /** A file added to the source inside a removed directory is not seen by the assessment. */
  lemma AddedChildIsUncovered()
    ensures var source: Tree := map[["d"] := Dir, ["d", "new"] := File([1], false)];
      var ds := [Delta("obj_1", Some(DirectoryState(["d"])), None)];
      Fits(ds, source) && Unhindered(ds, source) && !Covered(ds, source)
  {
    var source: Tree := map[["d"] := Dir, ["d", "new"] := File([1], false)];
    var ds := [Delta("obj_1", Some(DirectoryState(["d"])), None)];
    assert Ancestor(ds[0].before.value.path, ["d", "new"]);
    assert !BeforeAt(ds, ["d", "new"]);
    forall q, p | Ancestor(q, p) && p in source ensures q in source && source[q] == Dir {
      assert p == ["d", "new"];
      assert q == p[..1];
    }
    TopLevelFits(ds, source);
  }

  /** A move onto a path the set deletes ends with the entry at neither path, once the
      before-paths are cleared. */
  lemma MovedOntoDeletedIsGone(ds: seq<Delta>, t: Tree, i: nat)
    requires i < |ds| && ds[i].Moves() && DeletedAt(ds, ds[i].after.value.path) && NothingAtBeforePaths(ds, t)
    ensures InWindow(ds, ds[i], t)
  {
    var k :| 0 <= k < |ds| && ds[k].Deletes() && ds[k].before.value.path == ds[i].after.value.path;
  }

  /** The source lost the link "p", and the checkout moved its file "q" there. */
  function LostAndTaken(): seq<Delta> {
    [Delta("obj_1", Some(LinkState(["p"], "x", "v1")), None),
     Delta("obj_2", Some(FileState(["q"], [1], false, "v2", ProjectionBase)),
           Some(FileState(["p"], [1], false, "v2", ProjectionBase)))]
  }

  lemma LostAndTakenFits()
    ensures Fits(LostAndTaken(), map[["q"] := File([1], false)])
    ensures Superseded(LostAndTaken(), LostAndTaken()[0])
  {
    var ds, source := LostAndTaken(), map[["q"] := File([1], false)];
    assert AfterAt(ds, ["p"]) by { assert ds[1].after.Some? && ds[1].after.value.path == ["p"]; }
    assert Clean(ds, source) by { assert CleanDelta(ds[0], source) && CleanDelta(ds[1], source); }
    assert WellShaped(ds[0]) && WellShaped(ds[1]);
    TopLevelFits(ds, source);
  }

  /** The file moved to "p": the deletion's own path. */
  lemma LostAndTakenMoved(t: Tree)
    requires ["q"] !in t && ["p"] in t
    ensures AllMoved(LostAndTaken(), t)
  {}

  lemma OnlyAt(t: Tree, u: Tree)
    requires Kept(LostAndTaken(), 1, t, u) && t == map[["q"] := File([1], false)]
    requires ["q"] !in u && ["p"] in u
    ensures forall p :: p in u <==> p == ["p"]
  {
    forall p ensures !MayAppear(LostAndTaken(), p) {}
  }

  /** Its only move and its only removal leave nothing of the file. */
  method MovedFileIsCleared(w: Workspace) returns (moving: Status, clearing: Status)
    requires w.tree == map[["q"] := File([1], false)] && w.markers == map[] && w.trace == [Snapshot(w.tree, map[])]
    modifies w
    ensures moving == Completed && clearing == Completed && w.tree == map[]
  {
    var ds := LostAndTaken();
    ghost var source := w.tree;
    LostAndTakenFits();
    CleanSourceIsInTransit(ds, source, "sha");
    moving := w.MoveOne(ds, source, "sha", 0, 1);
    OnlyAt(source, w.tree);
    LostAndTakenMoved(w.tree);
    clearing := w.RemoveOne(ds, source, "sha", 0, 0);
  }

  /** The source lost the link "p", and the checkout put a new file there. */
  function LostAndReplaced(): seq<Delta> {
    [Delta("obj_1", Some(LinkState(["p"], "x", "v1")), None),
     Delta("obj_2", None, Some(FileState(["p"], [1], false, "v2", Staged("s2"))))]
  }

  lemma LostAndReplacedIsPending()
    ensures Superseded(LostAndReplaced(), LostAndReplaced()[0])
    ensures Pending(LostAndReplaced(), LostAndReplaced()[1], map[])
  {
    var ds := LostAndReplaced();
    assert AfterAt(ds, ["p"]) by { assert ds[1].after.Some? && ds[1].after.value.path == ["p"]; }
  }

  lemma LostAndReplacedFits()
    ensures Fits(LostAndReplaced(), map[])
  {
    var ds := LostAndReplaced();
    assert Clean(ds, map[]) by { assert CleanDelta(ds[0], map[]) && CleanDelta(ds[1], map[]); }
    assert WellShaped(ds[0]) && WellShaped(ds[1]);
    TopLevelFits(ds, map[]);
  }

  /** Its only removal and its only install succeed, and leave what no later gate accepts. */
  method ReplacedFileIsUnrecognised(w: Workspace) returns (clearing: Status, looking: Status)
    requires w.tree == map[] && w.markers == map[] && w.trace == [Snapshot(map[], map[])]
    modifies w
    ensures clearing == Completed && looking == Completed
    ensures w.tree == map[["p"] := File([1], false)]
    ensures !MatchesAfter(LostAndReplaced(), w.tree) && !Recoverable(LostAndReplaced(), w.tree, w.markers, "sha")
  {
    var ds := LostAndReplaced();
    LostAndReplacedFits();
    LostAndReplacedIsPending();
    CleanSourceIsInTransit(ds, map[], "sha");
    clearing := w.RemoveOne(ds, map[], "sha", 0, 0);
    looking := w.LookAbove(ds, map[], "sha", 0, 1, ["p"]);
    w.InstallFresh(ds, map[], "sha", 0, 1, File([1], false));
    assert !DeltaApplied(ds[0], w.tree);
    assert !DeltaRecoverable(ds[0], w.tree, w.markers, "sha");
    forall q ensures !MayAppear(ds, q) {}
  }
}
