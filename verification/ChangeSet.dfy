/**
 The data a Change Set works on: workspace paths and nodes, delta states, deltas, and
 the declarative meaning of "assessed clean", "in transit", "recoverable" and "merged".

 A path is its list of components.  The workspace is a finite map from paths to nodes;
 the root itself is not an entry.  A digest and byte length stand for the content they
 identify (SHA-256 is taken to be injective), so a regular file carries its content.
 */
module ChangeSet {
  import opened Prelude

  type Path = seq<string>
  type Content = seq<int>
  type ObjectId = string

  datatype Node = Dir | File(content: Content, executable: bool) | Link(target: string)
  type Tree = map<Path, Node>

  /** A workspace with the markers of the files that are being overwritten. */
  datatype Snapshot = Snapshot(tree: Tree, markers: map<ObjectId, string>)

  datatype Kind = Directory | RegularFile | Symlink

  datatype Reference = ProjectionBase | Staged(stagingId: string)

  datatype State =
    | DirectoryState(path: Path)
    | FileState(path: Path, content: Content, executable: bool, version: string, reference: Reference)
    | LinkState(path: Path, target: string, version: string)
  {
    function Kind(): Kind {
      match this
      case DirectoryState(_) => Directory
      case FileState(_, _, _, _, _) => RegularFile
      case LinkState(_, _, _) => Symlink
    }

    /** What a workspace entry in this state looks like on disk. */
    function Node(): Node {
      match this
      case DirectoryState(_) => Dir
      case FileState(_, content, executable, _, _) => File(content, executable)
      case LinkState(_, target, _) => Link(target)
    }
  }

  datatype Delta = Delta(objectId: ObjectId, before: Option<State>, after: Option<State>) {
    predicate Creates() { before.None? && after.Some? }
    predicate Deletes() { before.Some? && after.None? }
    predicate Edits() { before.Some? && after.Some? && before.value.path == after.value.path }
    predicate Moves() { before.Some? && after.Some? && before.value.path != after.value.path }

    /** A move whose new bytes must be written over the moved file. */
    predicate OverwritesInPlace() {
      Moves() && after.value.FileState? && after.value.reference.Staged?
    }

    /** A moved symbolic link that also changes its target. */
    predicate Retargets() {
      Moves() && before.value.LinkState? && before.value.Node() != after.value.Node()
    }

    predicate Touches(p: Path) {
      (before.Some? && before.value.path == p) || (after.Some? && after.value.path == p)
    }
  }

  /** `q` is a proper, non-root ancestor of `p`. */
  predicate Ancestor(q: Path, p: Path) {
    0 < |q| < |p| && p[..|q|] == q
  }

  /** Every entry sits beneath directories, as in any file system. */
  ghost predicate Closed(t: Tree) {
    && [] !in t
    && forall q, p {:trigger Ancestor(q, p)} :: Ancestor(q, p) && p in t ==> q in t && t[q] == Dir
  }

  predicate Holds(t: Tree, s: State, p: Path) {
    p in t && t[p] == s.Node()
  }

  predicate BeforeAt(ds: seq<Delta>, p: Path) {
    exists i :: 0 <= i < |ds| && ds[i].before.Some? && ds[i].before.value.path == p
  }

  predicate AfterAt(ds: seq<Delta>, p: Path) {
    exists i :: 0 <= i < |ds| && ds[i].after.Some? && ds[i].after.value.path == p
  }

  predicate Touched(ds: seq<Delta>, p: Path) {
    BeforeAt(ds, p) || AfterAt(ds, p)
  }

  /** `p` is a parent directory some after-state needs. */
  predicate Implied(ds: seq<Delta>, p: Path) {
    exists i :: 0 <= i < |ds| && ds[i].after.Some? && Ancestor(p, ds[i].after.value.path)
  }

  predicate DeletedAt(ds: seq<Delta>, p: Path) {
    exists i :: 0 <= i < |ds| && ds[i].Deletes() && ds[i].before.value.path == p
  }

  /** A deletion whose path the set uses again; the other deltas are live. */
  predicate Superseded(ds: seq<Delta>, d: Delta) {
    d.Deletes() && AfterAt(ds, d.before.value.path)
  }

  predicate DeletedPathReused(ds: seq<Delta>) {
    exists i :: 0 <= i < |ds| && Superseded(ds, ds[i])
  }

  /** A live delta leaves `p`, or starts over there. */
  predicate Vacated(ds: seq<Delta>, p: Path) {
    exists i :: 0 <= i < |ds| && ds[i].before.Some? && ds[i].before.value.path == p && !Superseded(ds, ds[i])
  }

  // ---------- hypotheses on a Change Set and its source ----------

  /** What every proposed delta satisfies on its own (see module Propose). */
  predicate WellShaped(d: Delta) {
    && (d.before.Some? || d.after.Some?)
    && (d.before.Some? ==> d.before.value.path != [])
    && (d.after.Some? ==> d.after.value.path != [])
    && (d.before.Some? && d.after.Some? ==>
          && d.before.value.Kind() == d.after.value.Kind()
          && d.before.value.Kind() != Directory)
    && (d.after.Some? && d.after.value.FileState? && d.after.value.reference.ProjectionBase? ==>
          d.before.Some? && d.before.value.FileState? && d.before.value.content == d.after.value.content)
  }

  ghost predicate DistinctPaths(ds: seq<Delta>) {
    forall i, j :: 0 <= i < j < |ds| ==>
      && ds[i].objectId != ds[j].objectId
      && (ds[i].before.Some? && ds[j].before.Some? ==> ds[i].before.value.path != ds[j].before.value.path)
      && (ds[i].after.Some? && ds[j].after.Some? ==> ds[i].after.value.path != ds[j].after.value.path)
  }

  /** What takes the path of a deleted entry is of another kind. */
  ghost predicate ReuseChangesKind(ds: seq<Delta>) {
    forall i, j ::
      (0 <= i < |ds| && 0 <= j < |ds| && ds[i].Deletes() && ds[j].after.Some? &&
       ds[j].after.value.path == ds[i].before.value.path) ==>
        ds[i].before.value.Kind() != ds[j].after.value.Kind()
  }

  /** `q` becomes a directory, or stays what it is. */
  ghost predicate NewParent(ds: seq<Delta>, q: Path) {
    && (BeforeAt(ds, q) ==> AfterAt(ds, q))
    && (forall j :: 0 <= j < |ds| && ds[j].after.Some? && ds[j].after.value.path == q ==>
          ds[j].after.value.DirectoryState?)
  }

  /** The entries above an after-path are directories once the set is applied. */
  ghost predicate NewParents(ds: seq<Delta>) {
    forall i, q {:trigger Ancestor(q, ds[i].after.value.path)} ::
      0 <= i < |ds| && ds[i].after.Some? && Ancestor(q, ds[i].after.value.path) ==> NewParent(ds, q)
  }

  /** `q` was a directory; what takes its place takes it from a deletion. */
  ghost predicate OldParent(ds: seq<Delta>, q: Path) {
    && (AfterAt(ds, q) ==> DeletedAt(ds, q))
    && (forall j :: 0 <= j < |ds| && ds[j].before.Some? && ds[j].before.value.path == q ==>
          ds[j].before.value.DirectoryState?)
  }

  /** The entries above a before-path were directories when the set was formed. */
  ghost predicate OldParents(ds: seq<Delta>) {
    forall i, q {:trigger Ancestor(q, ds[i].before.value.path)} ::
      0 <= i < |ds| && ds[i].before.Some? && Ancestor(q, ds[i].before.value.path) ==> OldParent(ds, q)
  }

  /** What an assessment without conflicts says about one delta. */
  predicate CleanDelta(d: Delta, source: Tree) {
    && (d.before.Some? && d.before.value.path in source ==> Holds(source, d.before.value, d.before.value.path))
    && (d.before.Some? && d.after.Some? ==> d.before.value.path in source)
    && (d.Creates() || d.Moves() ==> d.after.value.path !in source)
  }

  ghost predicate Clean(ds: seq<Delta>, source: Tree) {
    forall i :: 0 <= i < |ds| ==> CleanDelta(ds[i], source)
  }

  /** A set as a checkout proposes it, against a source that raises no conflict.  The source
      may have changed since the checkout in any way that stays silent. */
  ghost predicate Fits(ds: seq<Delta>, source: Tree) {
    && Closed(source)
    && (forall i :: 0 <= i < |ds| ==> WellShaped(ds[i]))
    && DistinctPaths(ds) && ReuseChangesKind(ds)
    && NewParents(ds) && OldParents(ds)
    && Clean(ds, source)
  }

  /** Everything the source keeps beneath a removed directory is itself removed or moved. */
  ghost predicate Covered(ds: seq<Delta>, source: Tree) {
    forall i, u :: 0 <= i < |ds| && ds[i].Deletes() && u in source && Ancestor(ds[i].before.value.path, u) ==>
      BeforeAt(ds, u)
  }

  /** Every entry above `p` is a directory. */
  ghost predicate ClearAbove(t: Tree, p: Path) {
    forall q {:trigger Ancestor(q, p)} :: Ancestor(q, p) && q in t ==> t[q] == Dir
  }

  ghost predicate Unobstructed(ds: seq<Delta>, t: Tree) {
    forall p {:trigger Touched(ds, p)} :: Touched(ds, p) ==> ClearAbove(t, p)
  }

  /** What the assessment does not look at: the entries above the paths of the set, and
      deletions of lost paths that the set uses again. */
  ghost predicate Unhindered(ds: seq<Delta>, source: Tree) {
    Unobstructed(ds, source) && !DeletedPathReused(ds)
  }

  ghost predicate NoRetarget(ds: seq<Delta>) {
    forall i :: 0 <= i < |ds| ==> !ds[i].Retargets()
  }

  // ---------- the two checks the recovery code runs ----------

  /** The recovery gate, for one delta. */
  predicate DeltaRecoverable(d: Delta, t: Tree, markers: map<ObjectId, string>, sha: string) {
    match (d.before, d.after)
    case (Some(b), Some(a)) =>
      if b.path == a.path then
        b.path in t ==> Holds(t, b, b.path) || Holds(t, a, a.path)
      else
        var sourceAbsent := b.path !in t;
        var interrupted := sourceAbsent && a.FileState? && a.path in t && t[a.path].File? &&
                           d.objectId in markers && markers[d.objectId] == sha;
        || (Holds(t, b, b.path) && a.path !in t)
        || (sourceAbsent && (Holds(t, b, a.path) || Holds(t, a, a.path) || interrupted))
    case (Some(b), None) => b.path in t ==> Holds(t, b, b.path)
    case (None, Some(a)) => a.path in t ==> Holds(t, a, a.path)
    case (None, None) => false
  }

  predicate Recoverable(ds: seq<Delta>, t: Tree, markers: map<ObjectId, string>, sha: string) {
    forall i :: 0 <= i < |ds| ==> DeltaRecoverable(ds[i], t, markers, sha)
  }

  predicate DeltaApplied(d: Delta, t: Tree) {
    && (d.after.Some? ==> Holds(t, d.after.value, d.after.value.path))
    && (d.before.Some? && (d.after.None? || d.after.value.path != d.before.value.path) ==> d.before.value.path !in t)
  }

  predicate MatchesAfter(ds: seq<Delta>, t: Tree) {
    forall i :: 0 <= i < |ds| ==> DeltaApplied(ds[i], t)
  }

  /** The live deltas are applied. */
  predicate Applied(ds: seq<Delta>, t: Tree) {
    forall i :: 0 <= i < |ds| && !Superseded(ds, ds[i]) ==> DeltaApplied(ds[i], t)
  }

  // ---------- what publication is for ----------

  /** The three-way merge: the source without the before-paths, with the after-states and
      the parents they need; nothing else differs. */
  ghost predicate Merge(ds: seq<Delta>, source: Tree, t: Tree) {
    && (forall p :: p in t <==> AfterAt(ds, p) || Implied(ds, p) || (p in source && !BeforeAt(ds, p)))
    && (forall i :: 0 <= i < |ds| && ds[i].after.Some? ==> Holds(t, ds[i].after.value, ds[i].after.value.path))
    && (forall p :: p in t && !AfterAt(ds, p) ==> t[p] == if p in source then source[p] else Dir)
  }

  /** Both ends of a move are gone: of a retargeted link while it is replaced, or of an entry
      that was moved where the set deletes. */
  predicate InWindow(ds: seq<Delta>, d: Delta, t: Tree) {
    && d.Moves() && (d.Retargets() || DeletedAt(ds, d.after.value.path))
    && d.before.value.path !in t && d.after.value.path !in t
  }

  predicate NoWindow(ds: seq<Delta>, t: Tree) {
    forall i :: 0 <= i < |ds| ==> !InWindow(ds, ds[i], t)
  }

  predicate DeltaInTransit(ds: seq<Delta>, d: Delta, t: Tree, markers: map<ObjectId, string>, sha: string) {
    && (DeltaRecoverable(d, t, markers, sha) || InWindow(ds, d, t))
    && (d.objectId in markers ==> d.OverwritesInPlace() && markers[d.objectId] == sha)
  }

  /** Every disk that publication, started from `source`, can leave behind. */
  ghost predicate InTransit(ds: seq<Delta>, source: Tree, t: Tree, markers: map<ObjectId, string>, sha: string) {
    && Closed(t)
    && (forall i :: 0 <= i < |ds| && !Superseded(ds, ds[i]) ==> DeltaInTransit(ds, ds[i], t, markers, sha))
    && (forall p {:trigger Touched(ds, p)} :: p in source && !Touched(ds, p) ==> p in t && t[p] == source[p])
    && (forall p {:trigger Touched(ds, p)} :: p in t && p !in source && !Touched(ds, p) ==>
          t[p] == Dir && Implied(ds, p))
  }

  /** A cleanly assessed source is the first state of the transition, and passes the gate. */
  lemma CleanSourceIsInTransit(ds: seq<Delta>, source: Tree, sha: string)
    requires Fits(ds, source)
    ensures InTransit(ds, source, source, map[], sha)
    ensures Recoverable(ds, source, map[], sha)
    ensures NoWindow(ds, source)
  {
    forall i | 0 <= i < |ds|
      ensures DeltaRecoverable(ds[i], source, map[], sha) && !InWindow(ds, ds[i], source)
    {
      assert CleanDelta(ds[i], source) && WellShaped(ds[i]);
    }
  }

  /** The gate lets no delta through whose both ends are gone. */
  lemma RecoverableHasNoWindow(ds: seq<Delta>, t: Tree, markers: map<ObjectId, string>, sha: string)
    requires Recoverable(ds, t, markers, sha)
    ensures NoWindow(ds, t)
  {
    forall i | 0 <= i < |ds| ensures !InWindow(ds, ds[i], t) {
      assert DeltaRecoverable(ds[i], t, markers, sha);
    }
  }

  /** Where no deleted path is used again, the gate rejects an in-transit disk exactly in the
      crash window of a retargeted link. */
  lemma RecoverableUnlessInWindow(ds: seq<Delta>, source: Tree, t: Tree, markers: map<ObjectId, string>, sha: string)
    requires InTransit(ds, source, t, markers, sha) && !DeletedPathReused(ds)
    ensures Recoverable(ds, t, markers, sha) <==> NoWindow(ds, t)
  {
    forall i | 0 <= i < |ds|
      ensures DeltaRecoverable(ds[i], t, markers, sha) <==> !InWindow(ds, ds[i], t)
    {
      assert !Superseded(ds, ds[i]);
      assert DeltaInTransit(ds, ds[i], t, markers, sha);
    }
  }

  /** An in-transit disk with the live deltas applied is the three-way merge. */
  lemma AppliedInTransitIsMerge(ds: seq<Delta>, source: Tree, t: Tree, markers: map<ObjectId, string>, sha: string)
    requires Fits(ds, source) && InTransit(ds, source, t, markers, sha) && Applied(ds, t)
    ensures Merge(ds, source, t)
  {
    forall i | 0 <= i < |ds| && ds[i].after.Some? ensures Holds(t, ds[i].after.value, ds[i].after.value.path) {
      assert DeltaApplied(ds[i], t);
    }
    forall p
      ensures p in t <==> AfterAt(ds, p) || Implied(ds, p) || (p in source && !BeforeAt(ds, p))
    {
      var touched := Touched(ds, p);
      if Implied(ds, p) {
        var i :| 0 <= i < |ds| && ds[i].after.Some? && Ancestor(p, ds[i].after.value.path);
        assert p in t;
      }
      if BeforeAt(ds, p) && p in t {
        var i :| 0 <= i < |ds| && ds[i].before.Some? && ds[i].before.value.path == p;
        assert Superseded(ds, ds[i]) || DeltaApplied(ds[i], t);
        assert AfterAt(ds, p);
      }
    }
    forall p | p in t && !AfterAt(ds, p)
      ensures t[p] == if p in source then source[p] else Dir
    {
      assert !BeforeAt(ds, p);
      assert !Touched(ds, p);
    }
  }

  /** The completion test asks for more than the live deltas exactly when a deleted path is used again. */
  lemma MatchesAfterIff(ds: seq<Delta>, t: Tree)
    requires Applied(ds, t)
    ensures MatchesAfter(ds, t) <==> !DeletedPathReused(ds)
  {
    if i: nat :| i < |ds| && Superseded(ds, ds[i]) {
      var j :| 0 <= j < |ds| && ds[j].after.Some? && ds[j].after.value.path == ds[i].before.value.path;
      assert DeltaApplied(ds[j], t);
      assert !DeltaApplied(ds[i], t);
    }
  }

  /** Two trees that merge the same set into the same source are the same tree. */
  lemma MergeIsUnique(ds: seq<Delta>, source: Tree, t: Tree, u: Tree)
    requires Merge(ds, source, t) && Merge(ds, source, u)
    ensures t == u
  {
    forall p ensures p in t <==> p in u {}
    forall p | p in t
      ensures t[p] == u[p]
    {
      if AfterAt(ds, p) {
        var i :| 0 <= i < |ds| && ds[i].after.Some? && ds[i].after.value.path == p;
      }
    }
  }
}
