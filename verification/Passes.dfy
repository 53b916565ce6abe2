/**
 The passes of a publication: the orders in which they take the deltas, and what one pass
 keeps for the deltas it does not work on.
 */
module Passes {
  import opened Prelude
  import opened ChangeSet
  import opened Transit
  import opened PortablePaths

  // ---------- the orders in which paths are processed ----------

  /** A delta's place in a processing order: the path it is sorted by, and its index. */
  datatype Pick = Pick(path: Path, index: nat)

  /** Shallowest first for moves and directories, deepest first for removals; ties by bytes. */
  predicate Precedes(a: Path, b: Path, deepest: bool) {
    if deepest
    then |a| > |b| || (|a| == |b| && !BytesBefore(Join(a), Join(b)))
    else |a| < |b| || (|a| == |b| && !BytesBefore(Join(b), Join(a)))
  }

  ghost predicate DepthSorted(picks: seq<Pick>, deepest: bool) {
    forall k, l :: 0 <= k < l < |picks| ==>
      if deepest then |picks[k].path| >= |picks[l].path| else |picks[k].path| <= |picks[l].path|
  }

  function Insert(x: Pick, picks: seq<Pick>, deepest: bool): seq<Pick> {
    if picks == [] || Precedes(x.path, picks[0].path, deepest) then [x] + picks
    else [picks[0]] + Insert(x, picks[1..], deepest)
  }

  lemma {:induction false} InsertSorts(x: Pick, picks: seq<Pick>, deepest: bool)
    requires DepthSorted(picks, deepest)
    ensures DepthSorted(Insert(x, picks, deepest), deepest)
    ensures forall y :: y in Insert(x, picks, deepest) <==> y == x || y in picks
  {
    if picks != [] && !Precedes(x.path, picks[0].path, deepest) {
      InsertSorts(x, picks[1..], deepest);
      var rest := Insert(x, picks[1..], deepest);
      assert forall y :: y in picks <==> y == picks[0] || y in picks[1..];
      forall l | 0 <= l < |rest|
        ensures if deepest then |picks[0].path| >= |rest[l].path| else |picks[0].path| <= |rest[l].path|
      {
        assert rest[l] in rest;
      }
    }
  }

  predicate MovedFrom(ds: seq<Delta>, p: Path) {
    exists j :: 0 <= j < |ds| && ds[j].Moves() && ds[j].before.value.Kind() == ds[j].after.value.Kind() &&
      ds[j].before.value.path == p
  }

  /** True moves, by source path. */
  function MoveOf(ds: seq<Delta>, d: Delta): Option<Path> {
    if d.Moves() && d.before.value.Kind() == d.after.value.Kind() then Some(d.before.value.path) else None
  }

  /** Paths to clear: every before-path except moved sources and kept directories. */
  function RemovalOf(ds: seq<Delta>, d: Delta): Option<Path> {
    if d.before.None? || MovedFrom(ds, d.before.value.path) || (d.Edits() && d.before.value.DirectoryState?)
    then None
    else Some(d.before.value.path)
  }

  function DirectoryOf(ds: seq<Delta>, d: Delta): Option<Path> {
    if d.after.Some? && d.after.value.DirectoryState? then Some(d.after.value.path) else None
  }

  type Selector = (seq<Delta>, Delta) -> Option<Path>

  /** The selected paths of the first `n` deltas, in processing order. */
  function Ordered(ds: seq<Delta>, select: Selector, deepest: bool, n: nat): seq<Pick>
    requires n <= |ds|
  {
    if n == 0 then []
    else
      var rest := Ordered(ds, select, deepest, n - 1);
      match select(ds, ds[n - 1])
      case Some(p) => Insert(Pick(p, n - 1), rest, deepest)
      case None => rest
  }

  predicate Selected(ds: seq<Delta>, select: Selector, n: nat, x: Pick)
    requires n <= |ds|
  {
    x.index < n && select(ds, ds[x.index]) == Some(x.path)
  }

  lemma {:induction false} OrderedSelects(ds: seq<Delta>, select: Selector, deepest: bool, n: nat)
    requires n <= |ds|
    ensures DepthSorted(Ordered(ds, select, deepest, n), deepest)
    ensures forall x :: x in Ordered(ds, select, deepest, n) <==> Selected(ds, select, n, x)
  {
    if n > 0 {
      OrderedSelects(ds, select, deepest, n - 1);
      match select(ds, ds[n - 1])
      case Some(p) => InsertSorts(Pick(p, n - 1), Ordered(ds, select, deepest, n - 1), deepest);
      case None =>
    }
  }

  // ---------- what one pass keeps for the deltas it does not work on ----------

  /** A move never goes back; and unless it leads where the set deletes, it loses nothing on
      the way and opens no crash window. */
  ghost predicate MoveProgress(ds: seq<Delta>, d: Delta, t: Tree, u: Tree) {
    d.Moves() ==>
      && (d.before.value.path !in t ==> d.before.value.path !in u)
      && (!DeletedAt(ds, d.after.value.path) ==>
            && (Holds(t, d.before.value, d.before.value.path) ==>
                  Holds(u, d.before.value, d.before.value.path) || Holds(u, d.before.value, d.after.value.path))
            && (Holds(t, d.before.value, d.after.value.path) ==> Holds(u, d.before.value, d.after.value.path))
            && (d.after.value.path in t ==> d.after.value.path in u)
            && (InWindow(ds, d, u) ==> InWindow(ds, d, t)))
  }

  ghost predicate AllProgress(ds: seq<Delta>, t: Tree, u: Tree) {
    forall i :: 0 <= i < |ds| ==> MoveProgress(ds, ds[i], t, u)
  }

  lemma ProgressAdds(ds: seq<Delta>, t: Tree, u: Tree, v: Tree)
    requires AllProgress(ds, t, u) && AllProgress(ds, u, v)
    ensures AllProgress(ds, t, v)
  {
    forall i | 0 <= i < |ds| ensures MoveProgress(ds, ds[i], t, v) {
      assert MoveProgress(ds, ds[i], t, u) && MoveProgress(ds, ds[i], u, v);
    }
  }

  /** The entry left, and arrived unless the set deletes where it was going. */
  ghost predicate Moved(ds: seq<Delta>, d: Delta, t: Tree) {
    d.Moves() ==> d.before.value.path !in t && (d.after.value.path in t || DeletedAt(ds, d.after.value.path))
  }

  ghost predicate AllMoved(ds: seq<Delta>, t: Tree) {
    forall i :: 0 <= i < |ds| ==> Moved(ds, ds[i], t)
  }

  lemma MovedStays(ds: seq<Delta>, t: Tree, u: Tree)
    requires AllProgress(ds, t, u) && AllMoved(ds, t)
    ensures AllMoved(ds, u)
  {
    forall i | 0 <= i < |ds| ensures Moved(ds, ds[i], u) {
      assert Moved(ds, ds[i], t) && MoveProgress(ds, ds[i], t, u);
    }
  }

  ghost predicate FirstMoved(ds: seq<Delta>, moves: seq<Pick>, n: nat, t: Tree)
    requires NamesMoves(ds, moves)
  {
    forall k :: 0 <= k < n && k < |moves| ==> Moved(ds, ds[moves[k].index], t)
  }

  ghost predicate NamesMoves(ds: seq<Delta>, moves: seq<Pick>) {
    forall k :: 0 <= k < |moves| ==>
      moves[k].index < |ds| && ds[moves[k].index].Moves() && moves[k].path == ds[moves[k].index].before.value.path
  }

  /** The moving deltas, shallowest source first. */
  method OrderMoves(ds: seq<Delta>) returns (moves: seq<Pick>)
    requires forall i :: 0 <= i < |ds| ==> WellShaped(ds[i])
    ensures NamesMoves(ds, moves)
    ensures forall i :: 0 <= i < |ds| && ds[i].Moves() ==> Pick(ds[i].before.value.path, i) in moves
    ensures DepthSorted(moves, false)
  {
    moves := Ordered(ds, MoveOf, false, |ds|);
    OrderedSelects(ds, MoveOf, false, |ds|);
    assert forall k :: 0 <= k < |moves| ==> moves[k] in moves && Selected(ds, MoveOf, |ds|, moves[k]);
    forall i | 0 <= i < |ds| && ds[i].Moves()
      ensures Pick(ds[i].before.value.path, i) in moves
    {
      assert WellShaped(ds[i]);
      assert Selected(ds, MoveOf, |ds|, Pick(ds[i].before.value.path, i));
    }
  }

  lemma FirstMovedAdvances(ds: seq<Delta>, moves: seq<Pick>, n: nat, t: Tree, u: Tree)
    requires AllProgress(ds, t, u) && NamesMoves(ds, moves) && FirstMoved(ds, moves, n, t)
    requires n < |moves| && Moved(ds, ds[moves[n].index], u)
    ensures FirstMoved(ds, moves, n + 1, u)
  {
    forall k | 0 <= k < n ensures Moved(ds, ds[moves[k].index], u) {
      assert MoveProgress(ds, ds[moves[k].index], t, u);
    }
  }

  ghost predicate Gone(picks: seq<Pick>, n: nat, t: Tree) {
    forall k :: 0 <= k < n && k < |picks| ==> picks[k].path !in t
  }

  ghost predicate NothingAtBeforePaths(ds: seq<Delta>, t: Tree) {
    forall i :: 0 <= i < |ds| && ds[i].before.Some? ==> ds[i].before.value.path !in t
  }

  lemma AllGone(ds: seq<Delta>, removals: seq<Pick>, t: Tree)
    requires NamesRemovals(ds, removals) && Gone(removals, |removals|, t) && AllMoved(ds, t)
    ensures NothingAtBeforePaths(ds, t)
  {
    forall i | 0 <= i < |ds| && ds[i].before.Some? ensures ds[i].before.value.path !in t {
      if Clears(ds[i]) {
        var k :| 0 <= k < |removals| && removals[k] == Pick(ds[i].before.value.path, i);
      } else {
        assert Moved(ds, ds[i], t);
      }
    }
  }

  /** A before-path to clear belongs to a delta that stays in place or deletes. */
  predicate Clears(d: Delta) {
    d.before.Some? && !d.Moves()
  }

  ghost predicate NamesRemovals(ds: seq<Delta>, removals: seq<Pick>) {
    && DepthSorted(removals, true)
    && (forall k :: 0 <= k < |removals| ==>
          var r := removals[k]; r.index < |ds| && Clears(ds[r.index]) && r.path == ds[r.index].before.value.path)
    && (forall i :: 0 <= i < |ds| && Clears(ds[i]) ==> Pick(ds[i].before.value.path, i) in removals)
  }

  /** The clearing deltas, deepest path first. */
  method OrderRemovals(ds: seq<Delta>) returns (removals: seq<Pick>)
    requires DistinctPaths(ds) && forall i :: 0 <= i < |ds| ==> WellShaped(ds[i])
    ensures NamesRemovals(ds, removals)
  {
    removals := Ordered(ds, RemovalOf, true, |ds|);
    OrderedSelects(ds, RemovalOf, true, |ds|);
    assert forall k :: 0 <= k < |removals| ==> removals[k] in removals && Selected(ds, RemovalOf, |ds|, removals[k]);
    forall i | 0 <= i < |ds| && ds[i].before.Some?
      ensures Clears(ds[i]) <==> RemovalOf(ds, ds[i]).Some?
    {
    }
    forall i | 0 <= i < |ds| && Clears(ds[i])
      ensures Pick(ds[i].before.value.path, i) in removals
    {
      assert Selected(ds, RemovalOf, |ds|, Pick(ds[i].before.value.path, i));
    }
  }

  /** By the time a path is cleared, no before-path is left beneath it. */
  lemma DeeperIsGone(ds: seq<Delta>, removals: seq<Pick>, n: nat, t: Tree, u: Path)
    requires n < |removals| && NamesRemovals(ds, removals) && Gone(removals, n, t) && AllMoved(ds, t)
    requires u in t && Ancestor(removals[n].path, u)
    ensures !BeforeAt(ds, u)
  {
    forall j | 0 <= j < |ds| && ds[j].before.Some? ensures ds[j].before.value.path != u {
      assert Moved(ds, ds[j], t);
      if Clears(ds[j]) {
        var k :| 0 <= k < |removals| && removals[k] == Pick(ds[j].before.value.path, j);
      }
    }
  }

  /** The live delta that has its own at the before-path of another: itself, or what took the path. */
  ghost function Holder(ds: seq<Delta>, i: nat): (j: nat)
    requires i < |ds| && ds[i].before.Some?
    ensures j < |ds| && !Superseded(ds, ds[j]) && ds[j].Touches(ds[i].before.value.path)
    ensures j != i ==> Superseded(ds, ds[i]) && ds[j].after.Some? && ds[j].after.value.path == ds[i].before.value.path
    ensures !Superseded(ds, ds[i]) ==> j == i
  {
    if Superseded(ds, ds[i])
    then var j: nat :| j < |ds| && ds[j].after.Some? && ds[j].after.value.path == ds[i].before.value.path; j
    else i
  }

  /** Clearing a path nothing sits beneath keeps the set in transit.  What a move put at a
      deleted path goes too, and both its ends are gone then. */
  lemma RemovalKeepsTransit(ds: seq<Delta>, source: Tree, t: Tree, m: map<ObjectId, string>, sha: string, i: nat)
    requires Fits(ds, source) && InTransit(ds, source, t, m, sha) && AllMoved(ds, t)
    requires i < |ds| && Clears(ds[i]) && ds[i].before.value.path in t
    requires forall u :: u in t ==> !Ancestor(ds[i].before.value.path, u)
    ensures InTransit(ds, source, t - {ds[i].before.value.path}, m, sha)
  {
    var p := ds[i].before.value.path;
    var j := Holder(ds, i);
    assert WellShaped(ds[j]) && DeltaInTransit(ds, ds[j], t, m, sha) && Moved(ds, ds[j], t);
    if j != i {
      LeftAndTaken(ds, source, i, j);
      assert DeletedAt(ds, p);
      assert i < j || j < i;
    }
    assert DeltaInTransit(ds, ds[j], t - {p}, m, sha);
    OwnStepKeepsTransit(ds, source, t, m, t - {p}, m, sha, j);
  }

  lemma RemovalIsProgress(ds: seq<Delta>, source: Tree, t: Tree, i: nat)
    requires Fits(ds, source) && i < |ds| && Clears(ds[i])
    ensures AllProgress(ds, t, t - {ds[i].before.value.path})
  {
    forall j | 0 <= j < |ds| ensures MoveProgress(ds, ds[j], t, t - {ds[i].before.value.path}) {
      if ds[j].Moves() {
        assert i < j || j < i;
        if ds[i].before.value.path == ds[j].after.value.path {
          LeftAndTaken(ds, source, i, j);
          assert DeletedAt(ds, ds[j].after.value.path);
        }
      }
    }
  }

  // ---------- obstacles seen, and obstacles of the source ----------

  /** Nothing of the set stands above its paths in the source. */
  lemma SourceObstacleIsForeign(ds: seq<Delta>, source: Tree, p: Path, q: Path)
    requires Fits(ds, source) && Touched(ds, p) && Ancestor(q, p) && q in source && source[q] != Dir
    ensures !Touched(ds, q)
  {
    forall j | 0 <= j < |ds| ensures !ds[j].Touches(q) {
      assert CleanDelta(ds[j], source) && WellShaped(ds[j]);
      if AfterAt(ds, p) {
        var i :| 0 <= i < |ds| && ds[i].after.Some? && ds[i].after.value.path == p;
        assert NewParent(ds, q);
      } else {
        var i :| 0 <= i < |ds| && ds[i].before.Some? && ds[i].before.value.path == p;
        assert OldParent(ds, q);
      }
    }
  }

  /** A path that was found clear on the way was clear in the source. */
  lemma ClearWasClear(ds: seq<Delta>, source: Tree, t: Tree, m: map<ObjectId, string>, sha: string, p: Path)
    requires Fits(ds, source) && InTransit(ds, source, t, m, sha)
    requires Touched(ds, p) && ClearAbove(t, p)
    ensures ClearAbove(source, p)
  {
    forall q | Ancestor(q, p) && q in source ensures source[q] == Dir {
      if source[q] != Dir {
        SourceObstacleIsForeign(ds, source, p, q);
      }
    }
  }

  /** The before-paths to clear were found clear. */
  ghost predicate RemovalsClear(ds: seq<Delta>, source: Tree) {
    forall i :: 0 <= i < |ds| && Clears(ds[i]) ==> ClearAbove(source, ds[i].before.value.path)
  }

  lemma AppliedIsUnobstructed(ds: seq<Delta>, source: Tree, t: Tree, m: map<ObjectId, string>, sha: string)
    requires Fits(ds, source) && InTransit(ds, source, t, m, sha)
    requires Applied(ds, t) && RemovalsClear(ds, source)
    ensures Unobstructed(ds, source)
  {
    forall p | Touched(ds, p) ensures ClearAbove(source, p) {
      if AfterAt(ds, p) {
        var i :| 0 <= i < |ds| && ds[i].after.Some? && ds[i].after.value.path == p;
        assert DeltaApplied(ds[i], t);
        assert ClearAbove(t, p);
        ClearWasClear(ds, source, t, m, sha, p);
      } else {
        var i :| 0 <= i < |ds| && ds[i].before.Some? && ds[i].before.value.path == p;
        assert CleanDelta(ds[i], source);
        assert Clears(ds[i]) || ClearAbove(source, p);
      }
    }
  }

  // ---------- directories and installs ----------

  ghost predicate DirectoriesMade(ds: seq<Delta>, t: Tree) {
    forall i :: 0 <= i < |ds| && ds[i].after.Some? && ds[i].after.value.DirectoryState? ==>
      Holds(t, ds[i].after.value, ds[i].after.value.path)
  }

  ghost predicate Made(directories: seq<Pick>, n: nat, t: Tree) {
    forall k :: 0 <= k < n && k < |directories| ==> directories[k].path in t
  }

  lemma GrewAdds(ds: seq<Delta>, t: Tree, u: Tree, v: Tree, directories: seq<Pick>, n: nat)
    requires Grew(ds, t, u) && Grew(ds, u, v) && Made(directories, n, u)
    ensures Grew(ds, t, v) && Made(directories, n, v)
  {}

  lemma AllDirectoriesMade(ds: seq<Delta>, source: Tree, t: Tree, m: map<ObjectId, string>, sha: string,
                           directories: seq<Pick>)
    requires Fits(ds, source) && InTransit(ds, source, t, m, sha)
    requires NamesDirectories(ds, directories) && Made(directories, |directories|, t)
    ensures DirectoriesMade(ds, t)
  {
    forall i | 0 <= i < |ds| && ds[i].after.Some? && ds[i].after.value.DirectoryState?
      ensures Holds(t, ds[i].after.value, ds[i].after.value.path)
    {
      var k :| 0 <= k < |directories| && directories[k] == Pick(ds[i].after.value.path, i);
      assert DeltaInTransit(ds, ds[i], t, m, sha) && WellShaped(ds[i]);
    }
  }

  ghost predicate NamesDirectories(ds: seq<Delta>, directories: seq<Pick>) {
    && DepthSorted(directories, false)
    && (forall k :: 0 <= k < |directories| ==>
          var d := directories[k];
          d.index < |ds| && ds[d.index].after.Some? && ds[d.index].after.value == DirectoryState(d.path))
    && (forall i :: 0 <= i < |ds| && ds[i].after.Some? && ds[i].after.value.DirectoryState? ==>
          Pick(ds[i].after.value.path, i) in directories)
  }

  /** The directory-creating deltas, shallowest path first. */
  method OrderDirectories(ds: seq<Delta>) returns (directories: seq<Pick>)
    ensures NamesDirectories(ds, directories)
  {
    directories := Ordered(ds, DirectoryOf, false, |ds|);
    OrderedSelects(ds, DirectoryOf, false, |ds|);
    assert forall k :: 0 <= k < |directories| ==>
      directories[k] in directories && Selected(ds, DirectoryOf, |ds|, directories[k]);
    forall i | 0 <= i < |ds| && ds[i].after.Some? && ds[i].after.value.DirectoryState?
      ensures Pick(ds[i].after.value.path, i) in directories
    {
      assert Selected(ds, DirectoryOf, |ds|, Pick(ds[i].after.value.path, i));
    }
  }

  /** Outside the delta's own paths nothing changed but for new parent directories. */
  ghost predicate Kept(ds: seq<Delta>, i: nat, t: Tree, u: Tree)
    requires i < |ds|
  {
    && (forall p :: p in t && !ds[i].Touches(p) ==> p in u && u[p] == t[p])
    && (forall p :: p in u && p !in t && !ds[i].Touches(p) ==> u[p] == Dir && MayAppear(ds, p))
    && (ds[i].after.None? ==> u == t)
  }

  ghost predicate AppliedUpTo(ds: seq<Delta>, n: nat, t: Tree)
    requires n <= |ds|
  {
    forall i :: 0 <= i < n && !Superseded(ds, ds[i]) ==> DeltaApplied(ds[i], t)
  }

  /** A delta still to install has left its before-path, and what it moved has arrived,
      unless that path was cleared. */
  ghost predicate Pending(ds: seq<Delta>, d: Delta, t: Tree) {
    && (d.before.Some? && !Superseded(ds, d) ==> d.before.value.path !in t)
    && Moved(ds, d, t)
    && (FileOntoDeleted(ds, d) ==> d.after.value.path !in t)
  }

  /** The set deletes where it moves a file. */
  predicate FileOntoDeleted(ds: seq<Delta>, d: Delta) {
    d.Moves() && d.after.value.FileState? && DeletedAt(ds, d.after.value.path)
  }

  predicate NoFileOntoDeleted(ds: seq<Delta>, n: nat) {
    forall i :: 0 <= i < n && i < |ds| ==> !FileOntoDeleted(ds, ds[i])
  }

  ghost predicate PendingFrom(ds: seq<Delta>, n: nat, t: Tree)
    requires n <= |ds|
  {
    forall i :: n <= i < |ds| ==> Pending(ds, ds[i], t)
  }

  /** The moved files, and the links that keep their old target, that installing must not disturb. */
  ghost predicate StillMoved(ds: seq<Delta>, n: nat, t: Tree, u: Tree) {
    forall i :: n <= i < |ds| && ds[i].Moves() && Holds(t, ds[i].before.value, ds[i].after.value.path) ==>
      Holds(u, ds[i].before.value, ds[i].after.value.path)
  }

  lemma InstallAdvances(ds: seq<Delta>, source: Tree, n: nat, t: Tree, u: Tree)
    requires Fits(ds, source) && n < |ds| && Kept(ds, n, t, u) && (!Superseded(ds, ds[n]) ==> DeltaApplied(ds[n], u))
    requires AppliedUpTo(ds, n, t) && PendingFrom(ds, n, t) && DirectoriesMade(ds, t)
    ensures AppliedUpTo(ds, n + 1, u) && PendingFrom(ds, n + 1, u) && DirectoriesMade(ds, u)
    ensures StillMoved(ds, n + 1, t, u)
  {
    if ds[n].after.Some? {
      forall j | 0 <= j < |ds| && j != n
        ensures j < n && !Superseded(ds, ds[j]) ==> DeltaApplied(ds[j], u)
        ensures n < j ==> Pending(ds, ds[j], u)
        ensures ds[j].after.Some? && ds[j].after.value.DirectoryState? ==>
          Holds(u, ds[j].after.value, ds[j].after.value.path)
        ensures n < j && ds[j].Moves() && Holds(t, ds[j].before.value, ds[j].after.value.path) ==>
          Holds(u, ds[j].before.value, ds[j].after.value.path)
      {
      }
    }
  }

  /** A plain node at the delta's after-path, where only parents were made besides. */
  lemma FreshIsKept(ds: seq<Delta>, t: Tree, u: Tree, i: nat)
    requires i < |ds| && ds[i].after.Some? && Pending(ds, ds[i], t) && Grew(ds, t - {ds[i].after.value.path}, u)
    ensures Kept(ds, i, t, u[ds[i].after.value.path := ds[i].after.value.Node()])
    ensures DeltaApplied(ds[i], u[ds[i].after.value.path := ds[i].after.value.Node()])
  {
    if ds[i].before.Some? {
      assert Vacated(ds, ds[i].before.value.path);
    }
  }

  lemma GrewKeepsPending(ds: seq<Delta>, t: Tree, u: Tree)
    requires Grew(ds, t, u) && NothingAtBeforePaths(ds, t) && AllMoved(ds, t)
    ensures PendingFrom(ds, 0, u)
  {
    forall i | 0 <= i < |ds| ensures Pending(ds, ds[i], u) {
      assert Moved(ds, ds[i], t);
      if ds[i].before.Some? && !Superseded(ds, ds[i]) {
        assert Vacated(ds, ds[i].before.value.path);
      }
      if FileOntoDeleted(ds, ds[i]) {
        var k :| 0 <= k < |ds| && ds[k].Deletes() && ds[k].before.value.path == ds[i].after.value.path;
        assert ds[i].after.value.path !in t;
        assert !NewParent(ds, ds[i].after.value.path);
      }
    }
  }

  /** The delta's crash window is one of the disks recorded from index `from` on. */
  ghost predicate WindowSeen(ds: seq<Delta>, d: Delta, trace: seq<Snapshot>, from: nat) {
    exists k :: from <= k < |trace| && InWindow(ds, d, trace[k].tree)
  }

  lemma GrewIsProgress(ds: seq<Delta>, t: Tree, u: Tree)
    requires Grew(ds, t, u)
    ensures AllProgress(ds, t, u)
  {
    forall j | 0 <= j < |ds| ensures MoveProgress(ds, ds[j], t, u) {
      if ds[j].Moves() {
        assert Vacated(ds, ds[j].before.value.path);
      }
    }
  }

  /** A rename, after its parents were made, is progress for every move. */
  lemma RenameIsProgress(ds: seq<Delta>, source: Tree, t: Tree, u: Tree, i: nat)
    requires Fits(ds, source) && i < |ds| && ds[i].Moves() && Grew(ds, t, u)
    requires Holds(t, ds[i].before.value, ds[i].before.value.path)
    ensures AllProgress(ds, t, (u - {ds[i].before.value.path})[ds[i].after.value.path := ds[i].before.value.Node()])
  {
    var v := (u - {ds[i].before.value.path})[ds[i].after.value.path := ds[i].before.value.Node()];
    GrewIsProgress(ds, t, u);
    forall j | 0 <= j < |ds| ensures MoveProgress(ds, ds[j], t, v) {
      assert MoveProgress(ds, ds[j], t, u);
      if j != i && ds[j].Moves() {
        PathsOfOthers(ds, source, i, j);
      }
    }
  }

  // ---------- crash windows and the gate, over recorded disks ----------

  ghost predicate AllInTransit(ds: seq<Delta>, source: Tree, trace: seq<Snapshot>, from: nat, sha: string) {
    forall k :: from <= k < |trace| ==> InTransit(ds, source, trace[k].tree, trace[k].markers, sha)
  }

  /** The retargeted links among the first `n` deltas that were moved untouched were seen in their window. */
  ghost predicate AllWindowsSeen(ds: seq<Delta>, n: nat, t: Tree, trace: seq<Snapshot>, from: nat) {
    forall i :: 0 <= i < n && i < |ds| && ds[i].Retargets() && Holds(t, ds[i].before.value, ds[i].after.value.path) ==>
      WindowSeen(ds, ds[i], trace, from)
  }

  /** The retargeted links that had not moved at the start were seen in their window. */
  ghost predicate AllLinksSeen(ds: seq<Delta>, start: Tree, trace: seq<Snapshot>, from: nat) {
    forall i :: 0 <= i < |ds| && ds[i].Retargets() && Holds(start, ds[i].before.value, ds[i].before.value.path) ==>
      WindowSeen(ds, ds[i], trace, from)
  }

  lemma WindowsStaySeen(ds: seq<Delta>, n: nat, start: Tree, t: Tree, seen: seq<Snapshot>, trace: seq<Snapshot>,
                        from: nat)
    requires n < |ds| && from <= |seen| && seen <= trace
    requires AllWindowsSeen(ds, n, start, seen, from) && StillMoved(ds, n, start, t)
    requires ds[n].Retargets() && Holds(t, ds[n].before.value, ds[n].after.value.path) ==>
      WindowSeen(ds, ds[n], trace, |seen|)
    ensures AllWindowsSeen(ds, n + 1, start, trace, from)
  {
    forall i | 0 <= i <= n && ds[i].Retargets() && Holds(start, ds[i].before.value, ds[i].after.value.path)
      ensures WindowSeen(ds, ds[i], trace, from)
    {}
  }

  /** A link untouched at the start has been moved by the time files are installed. */
  lemma SeenFromStart(ds: seq<Delta>, start: Tree, made: Tree, trace: seq<Snapshot>, from: nat, marked: nat)
    requires AllProgress(ds, start, made) && AllMoved(ds, made) && !DeletedPathReused(ds) && from <= marked
    requires AllWindowsSeen(ds, |ds|, made, trace, marked)
    ensures AllLinksSeen(ds, start, trace, from)
  {
    forall i | 0 <= i < |ds| && ds[i].Retargets() && Holds(start, ds[i].before.value, ds[i].before.value.path)
      ensures WindowSeen(ds, ds[i], trace, from)
    {
      assert MoveProgress(ds, ds[i], start, made) && Moved(ds, ds[i], made);
    }
  }

  lemma LinksStaySeen(ds: seq<Delta>, start: Tree, trace: seq<Snapshot>, from: nat, later: nat)
    requires from <= later
    ensures AllLinksSeen(ds, start, trace, later) ==> AllLinksSeen(ds, start, trace, from)
  {
    if AllLinksSeen(ds, start, trace, later) {
      forall i | 0 <= i < |ds| && ds[i].Retargets() && Holds(start, ds[i].before.value, ds[i].before.value.path)
        ensures WindowSeen(ds, ds[i], trace, from)
      {
        assert WindowSeen(ds, ds[i], trace, later);
      }
    }
  }

  /** The recovery gate lets all the disks through. */
  ghost predicate EveryDiskRecoverable(ds: seq<Delta>, trace: seq<Snapshot>, sha: string) {
    forall k :: 0 <= k < |trace| ==> Recoverable(ds, trace[k].tree, trace[k].markers, sha)
  }

  lemma NoRetargetNoWindow(ds: seq<Delta>, t: Tree)
    requires NoRetarget(ds) && !DeletedPathReused(ds)
    ensures NoWindow(ds, t)
  {
    forall i | 0 <= i < |ds| ensures !InWindow(ds, ds[i], t) {}
  }

  lemma TransitIsRecoverable(ds: seq<Delta>, source: Tree, trace: seq<Snapshot>, sha: string)
    requires NoRetarget(ds) && !DeletedPathReused(ds)
    requires AllInTransit(ds, source, trace, 0, sha)
    ensures EveryDiskRecoverable(ds, trace, sha)
  {
    forall k | 0 <= k < |trace| ensures Recoverable(ds, trace[k].tree, trace[k].markers, sha) {
      NoRetargetNoWindow(ds, trace[k].tree);
      RecoverableUnlessInWindow(ds, source, trace[k].tree, trace[k].markers, sha);
    }
  }

  /** With something else at a deleted path, the gate refuses. */
  lemma ReuseIsUnrecoverable(ds: seq<Delta>, source: Tree, t: Tree, m: map<ObjectId, string>, sha: string)
    requires Fits(ds, source) && Applied(ds, t) && DeletedPathReused(ds)
    ensures !Recoverable(ds, t, m, sha)
  {
    var i :| 0 <= i < |ds| && Superseded(ds, ds[i]);
    var j :| 0 <= j < |ds| && ds[j].after.Some? && ds[j].after.value.path == ds[i].before.value.path;
    assert DeltaApplied(ds[j], t);
    assert ds[i].before.value.Kind() != ds[j].after.value.Kind();
    assert !DeltaRecoverable(ds[i], t, m, sha);
  }

  /** A run from the source is recoverable throughout if no moved link is retargeted and no
      deleted path is used again, and when it completed, only then. */
  lemma FreshRunRecoverable(ds: seq<Delta>, source: Tree, last: Snapshot, trace: seq<Snapshot>, from: nat, sha: string,
                            completed: bool)
    requires Fits(ds, source) && |trace| > 0 && trace[|trace| - 1] == last && AllInTransit(ds, source, trace, 0, sha)
    requires completed ==> Applied(ds, last.tree)
    requires completed && !DeletedPathReused(ds) ==> AllLinksSeen(ds, source, trace, from)
    ensures NoRetarget(ds) && !DeletedPathReused(ds) ==> EveryDiskRecoverable(ds, trace, sha)
    ensures completed && EveryDiskRecoverable(ds, trace, sha) ==> NoRetarget(ds) && !DeletedPathReused(ds)
  {
    if NoRetarget(ds) && !DeletedPathReused(ds) {
      TransitIsRecoverable(ds, source, trace, sha);
    }
    if completed && DeletedPathReused(ds) {
      ReuseIsUnrecoverable(ds, source, last.tree, last.markers, sha);
    }
  }
}
