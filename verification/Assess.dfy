/** The three-way assessment: does a Change Set overlap work done in the source since the checkout? */
module Assess {
  import opened Prelude
  import opened ChangeSet
  import opened Inventory
  import opened PortablePaths
  import opened Sorting

  datatype Code =
    | NestedBoundary
    | CreateCreate
    | PathAlias
    | PathOccupied
    | DeleteEdit
    | MoveEdit
    | EditEdit
    | EditDelete

  datatype Conflict = Conflict(code: Code, path: Path, otherPath: Option<Path>, objectId: ObjectId)

  /** The collision keys of a path: its NFC form and its folded form. */
  datatype Keys = Keys(nfc: Path -> string, folded: Path -> string) {
    predicate Collide(p: Path, q: Path) {
      folded(p) == folded(q) || nfc(p) == nfc(q)
    }
  }

  predicate SameOrDescendant(p: Path, prefix: Path) {
    prefix <= p
  }

  predicate InBoundary(nested: seq<Path>, p: Path) {
    exists k :: 0 <= k < |nested| && SameOrDescendant(p, nested[k])
  }

  /** A state, as the inventory would list it. */
  function EntryOf(s: State): Entry {
    match s
    case DirectoryState(p) => Entry(p, Directory, None, None, None, None, None)
    case FileState(p, content, executable, version, _) =>
      Entry(p, RegularFile, None, Some(version), Some(content), Some(executable), None)
    case LinkState(p, target, version) => Entry(p, Symlink, None, Some(version), None, None, Some(target))
  }

  /** An entry other than `spared` and the path itself whose key collides with the path. */
  predicate Aliases(current: seq<Entry>, keys: Keys, p: Path, spared: Option<Path>, k: nat)
    requires k < |current|
  {
    current[k].path != p && spared != Some(current[k].path) && keys.Collide(current[k].path, p)
  }

  ghost predicate AliasFree(current: seq<Entry>, keys: Keys, p: Path, spared: Option<Path>) {
    forall k :: 0 <= k < |current| ==> !Aliases(current, keys, p, spared, k)
  }

  ghost predicate OutsideBoundaries(d: Delta, nested: seq<Path>) {
    && (d.before.Some? ==> !InBoundary(nested, d.before.value.path))
    && (d.after.Some? ==> !InBoundary(nested, d.after.value.path))
  }

  /** A path the delta newly occupies collides with nothing the source lists. */
  ghost predicate NewPathAliasFree(d: Delta, current: seq<Entry>, keys: Keys) {
    && (d.Creates() ==> AliasFree(current, keys, d.after.value.path, None))
    && (d.Moves() ==> AliasFree(current, keys, d.after.value.path, Some(d.before.value.path)))
  }

  /** What it takes for a delta to raise no conflict. */
  ghost predicate Peaceful(d: Delta, nested: seq<Path>, current: seq<Entry>, keys: Keys, source: Tree) {
    OutsideBoundaries(d, nested) && CleanDelta(d, source) && NewPathAliasFree(d, current, keys)
  }

  ghost predicate FirstAlias(current: seq<Entry>, keys: Keys, p: Path, spared: Option<Path>, alias: Path) {
    exists k :: 0 <= k < |current| && Aliases(current, keys, p, spared, k) && current[k].path == alias &&
      forall j :: 0 <= j < k ==> !Aliases(current, keys, p, spared, j)
  }

  /**
   Why a delta conflicts, and what the report says of it.  A path in a nested boundary comes
   first, before-path before after-path; then what became of the before-state; then the new
   path, taken or too like another one.
   */
  ghost predicate Tells(c: Conflict, d: Delta, nested: seq<Path>, current: seq<Entry>, keys: Keys, source: Tree) {
    && c.objectId == d.objectId
    && (c.code != NestedBoundary ==> OutsideBoundaries(d, nested))
    && match c.code
       case NestedBoundary =>
         && d.Touches(c.path) && InBoundary(nested, c.path) && c.otherPath.None?
         && (d.before.Some? && InBoundary(nested, d.before.value.path) ==> c.path == d.before.value.path)
       case CreateCreate => d.Creates() && c.path == d.after.value.path && c.path in source && c.otherPath.None?
       case EditDelete =>
         d.before.Some? && d.after.Some? && c.path == d.before.value.path && c.path !in source && c.otherPath.None?
       case DeleteEdit => d.Deletes() && ChangedSince(c, d, source)
       case MoveEdit => d.Moves() && ChangedSince(c, d, source)
       case EditEdit => d.Edits() && ChangedSince(c, d, source)
       case PathOccupied =>
         && d.Moves() && Holds(source, d.before.value, d.before.value.path)
         && c.path == d.after.value.path && c.path in source && c.otherPath == Some(d.before.value.path)
       case PathAlias =>
         && (d.Creates() || (d.Moves() && Holds(source, d.before.value, d.before.value.path)))
         && c.path == d.after.value.path && c.path !in source && c.otherPath.Some?
         && FirstAlias(current, keys, c.path, if d.Moves() then Some(d.before.value.path) else None, c.otherPath.value)
  }

  /** The source has something else at the before-path. */
  predicate ChangedSince(c: Conflict, d: Delta, source: Tree)
    requires d.before.Some?
  {
    && c.path == d.before.value.path && c.otherPath.None?
    && c.path in source && !Holds(source, d.before.value, c.path)
  }

  /** The report of a conflict is determined by the delta and what it meets. */
  lemma ConflictIsDetermined(c: Conflict, e: Conflict, d: Delta, nested: seq<Path>, current: seq<Entry>, keys: Keys,
                             source: Tree)
    requires Tells(c, d, nested, current, keys, source) && Tells(e, d, nested, current, keys, source)
    ensures c == e
  {}

  /** The first colliding entry, in inventory order. */
  method FindAlias(current: seq<Entry>, keys: Keys, p: Path, spared: Option<Path>) returns (r: Option<Path>)
    ensures r.None? <==> AliasFree(current, keys, p, spared)
    ensures r.Some? ==> FirstAlias(current, keys, p, spared, r.value)
  {
    for k := 0 to |current|
      invariant forall j :: 0 <= j < k ==> !Aliases(current, keys, p, spared, j)
    {
      if Aliases(current, keys, p, spared, k) {
        return Some(current[k].path);
      }
    }
    return None;
  }

  /** The inventory lists exactly the source entries in scope and outside nested boundaries. */
  ghost predicate ListsScope(current: seq<Entry>, source: Tree, scope: Path -> bool, nested: seq<Path>) {
    && IsInventory(current)
    && (forall k :: 0 <= k < |current| ==> current[k].path in source && source[current[k].path] == current[k].Node())
    && (forall p :: p in source && scope(p) && !InBoundary(nested, p) ==> Listed(current, p))
  }

  ghost predicate InScope(d: Delta, scope: Path -> bool) {
    && (d.before.Some? ==> scope(d.before.value.path))
    && (d.after.Some? ==> scope(d.after.value.path))
  }

  /** The conflict one delta raises, if any; a delta raises at most one. */
  method AssessDelta(d: Delta, nested: seq<Path>, current: seq<Entry>, byPath: map<Path, Entry>, keys: Keys,
                     ghost source: Tree, ghost scope: Path -> bool)
    returns (r: Option<Conflict>)
    requires WellShaped(d) && InScope(d, scope) && ListsScope(current, source, scope, nested)
    requires forall p :: p in byPath <==> Listed(current, p)
    requires forall p :: p in byPath ==> byPath[p].Filled() && byPath[p].path == p && byPath[p] in current
    ensures r.None? <==> Peaceful(d, nested, current, keys, source)
    ensures r.Some? ==> Tells(r.value, d, nested, current, keys, source)
    ensures r.Some? ==> r.value.objectId == d.objectId && d.Touches(r.value.path)
    ensures r.Some? && r.value.code == NestedBoundary ==> InBoundary(nested, r.value.path)
    ensures OutsideBoundaries(d, nested) && r.Some? ==> r.value.code != NestedBoundary
    ensures (OutsideBoundaries(d, nested) && d.before.Some? && d.before.value.path in source &&
             !Holds(source, d.before.value, d.before.value.path)) ==>
      r.Some? && r.value.code == if d.Deletes() then DeleteEdit else if d.Moves() then MoveEdit else EditEdit
    ensures OutsideBoundaries(d, nested) && d.before.Some? && d.after.Some? && d.before.value.path !in source ==>
      r.Some? && r.value.code == EditDelete
    ensures OutsideBoundaries(d, nested) && d.Creates() && d.after.value.path in source ==>
      r.Some? && r.value.code == CreateCreate
    ensures (OutsideBoundaries(d, nested) && d.Moves() && Holds(source, d.before.value, d.before.value.path) &&
             d.after.value.path in source) ==>
      r == Some(Conflict(PathOccupied, d.after.value.path, Some(d.before.value.path), d.objectId))
    ensures r.Some? && r.value.code == PathAlias ==>
      r.value.otherPath.Some? && r.value.otherPath.value in source &&
        keys.Collide(r.value.otherPath.value, r.value.path)
  {
    if d.before.Some? && InBoundary(nested, d.before.value.path) {
      return Some(Conflict(NestedBoundary, d.before.value.path, None, d.objectId));
    }
    if d.after.Some? && InBoundary(nested, d.after.value.path) {
      return Some(Conflict(NestedBoundary, d.after.value.path, None, d.objectId));
    }
    if d.before.None? {
      var a := d.after.value.path;
      if a in byPath {
        return Some(Conflict(CreateCreate, a, None, d.objectId));
      }
      var alias := FindAlias(current, keys, a, None);
      return if alias.Some? then Some(Conflict(PathAlias, a, alias, d.objectId)) else None;
    }
    var b := d.before.value.path;
    if b !in byPath {
      return if d.after.Some? then Some(Conflict(EditDelete, b, None, d.objectId)) else None;
    }
    if !EntryOf(d.before.value).SameContentOrMetadata(byPath[b]) {
      var code := if d.after.None? then DeleteEdit else if d.after.value.path != b then MoveEdit else EditEdit;
      return Some(Conflict(code, b, None, d.objectId));
    }
    if d.after.None? || d.after.value.path == b {
      return None;
    }
    var a := d.after.value.path;
    if a in byPath {
      return Some(Conflict(PathOccupied, a, Some(b), d.objectId));
    }
    var alias := FindAlias(current, keys, a, Some(b));
    return if alias.Some? then Some(Conflict(PathAlias, a, alias, d.objectId)) else None;
  }

  /** The report has one conflict for each delta that is not peaceful, in the order of the set,
      and each tells why. */
  ghost predicate Reports(ds: seq<Delta>, n: nat, conflicts: seq<Conflict>, owners: seq<nat>,
                          nested: seq<Path>, current: seq<Entry>, keys: Keys, source: Tree)
    requires n <= |ds|
  {
    && |owners| == |conflicts|
    && (forall k :: 0 <= k < |owners| ==>
          owners[k] < n && Tells(conflicts[k], ds[owners[k]], nested, current, keys, source))
    && (forall k, l :: 0 <= k < l < |owners| ==> owners[k] < owners[l])
    && (forall i: nat :: i < n ==> (Peaceful(ds[i], nested, current, keys, source) <==> i !in owners))
  }

  /** The path map the assessment looks current entries up in. */
  method IndexByPath(current: seq<Entry>) returns (byPath: map<Path, Entry>)
    requires IsInventory(current)
    ensures forall p :: p in byPath <==> Listed(current, p)
    ensures forall p :: p in byPath ==> byPath[p].Filled() && byPath[p].path == p && byPath[p] in current
  {
    byPath := map[];
    for k := 0 to |current|
      invariant forall p :: p in byPath <==> exists j :: 0 <= j < k && current[j].path == p
      invariant forall p :: p in byPath ==> byPath[p].Filled() && byPath[p].path == p && byPath[p] in current
    {
      byPath := byPath[current[k].path := current[k]];
    }
  }

  function CodeText(c: Code): string {
    match c
    case NestedBoundary => "nested_boundary"
    case CreateCreate => "create_create"
    case PathAlias => "path_alias"
    case PathOccupied => "path_occupied"
    case DeleteEdit => "delete_edit"
    case MoveEdit => "move_edit"
    case EditEdit => "edit_edit"
    case EditDelete => "edit_delete"
  }

  /** Reported earlier: by the bytes of the path, then by those of the code. */
  predicate ConflictBefore(a: Conflict, b: Conflict) {
    || BytesBefore(Join(a.path), Join(b.path))
    || (Join(a.path) == Join(b.path) && BytesBefore(CodeText(a.code), CodeText(b.code)))
  }

  lemma ConflictsOrder()
    ensures Orders(ConflictBefore)
  {
    forall a, b ensures Asymmetric(ConflictBefore, a, b) {
      BytesTotal(Join(a.path), Join(b.path));
      BytesTotal(CodeText(a.code), CodeText(b.code));
    }
    forall a, b, c ensures Cotransitive(ConflictBefore, a, b, c) {
      if ConflictBefore(a, b) && !ConflictBefore(c, b) { ConflictPasses(a, b, c); }
    }
  }

  lemma ConflictPasses(a: Conflict, b: Conflict, c: Conflict)
    requires ConflictBefore(a, b) && !ConflictBefore(c, b)
    ensures !ConflictBefore(c, a)
  {
    BytesPass(Join(a.path), Join(b.path), Join(c.path));
    BytesPass(CodeText(a.code), CodeText(b.code), CodeText(c.code));
  }

  lemma BytesPass(a: string, b: string, c: string)
    ensures BytesBefore(a, b) && !BytesBefore(c, b) ==> !BytesBefore(c, a) && a != c
    ensures BytesBefore(a, c) || a == c || BytesBefore(c, a)
    ensures BytesBefore(c, a) && BytesBefore(a, b) ==> BytesBefore(c, b)
    ensures !BytesBefore(a, a)
  {
    BytesTotal(a, c);
    BytesTotal(a, b);
    BytesTotal(b, c);
    BytesTotal(a, a);
    if BytesBefore(c, a) && BytesBefore(a, b) {
      BytesTransitive(c, a, b);
    }
  }

  /** Find the conflicts, in the order of the set. */
  method FindConflicts(ds: seq<Delta>, nested: seq<Path>, current: seq<Entry>, keys: Keys,
                       ghost source: Tree, ghost scope: Path -> bool)
    returns (found: seq<Conflict>, ghost owners: seq<nat>)
    requires forall i :: 0 <= i < |ds| ==> WellShaped(ds[i]) && InScope(ds[i], scope)
    requires ListsScope(current, source, scope, nested)
    ensures Reports(ds, |ds|, found, owners, nested, current, keys, source)
    ensures found == [] <==> forall i :: 0 <= i < |ds| ==> Peaceful(ds[i], nested, current, keys, source)
  {
    var byPath := IndexByPath(current);
    found, owners := [], [];
    for n := 0 to |ds|
      invariant Reports(ds, n, found, owners, nested, current, keys, source)
    {
      var conflict := AssessDelta(ds[n], nested, current, byPath, keys, source, scope);
      if conflict.Some? {
        found, owners := found + [conflict.value], owners + [n];
      }
    }
    if found != [] {
      assert owners[0] in owners;
    }
  }

  /** Assess every delta and sort the report; an empty one means the set can be merged into
      this source.  Up to its order, the report has one conflict for each delta that is not
      peaceful. */
  method AssessConflicts(ds: seq<Delta>, nested: seq<Path>, current: seq<Entry>, keys: Keys,
                         ghost source: Tree, ghost scope: Path -> bool)
    returns (conflicts: seq<Conflict>, ghost found: seq<Conflict>, ghost owners: seq<nat>)
    requires forall i :: 0 <= i < |ds| ==> WellShaped(ds[i]) && InScope(ds[i], scope)
    requires ListsScope(current, source, scope, nested)
    ensures multiset(conflicts) == multiset(found) && Sorted(conflicts, ConflictBefore)
    ensures Reports(ds, |ds|, found, owners, nested, current, keys, source)
    ensures conflicts == [] <==> forall i :: 0 <= i < |ds| ==> Peaceful(ds[i], nested, current, keys, source)
    ensures conflicts == [] ==> Clean(ds, source)
  {
    var unsorted;
    unsorted, owners := FindConflicts(ds, nested, current, keys, source, scope);
    found := unsorted;
    conflicts := Sort(unsorted, ConflictBefore);
    ConflictsOrder();
    SortSorts(unsorted, ConflictBefore);
    SameItems(unsorted, conflicts);
  }

  // ---------- a deletion the source already made, whose path the set uses again ----------

  /** No two deltas have a path in common. */
  ghost predicate Separate(ds: seq<Delta>) {
    && (forall i, j :: 0 <= i < j < |ds| ==> ds[i].objectId != ds[j].objectId)
    && (forall i, j, p :: 0 <= i < |ds| && 0 <= j < |ds| && ds[i].Touches(p) && ds[j].Touches(p) ==> i == j)
  }

  /** The tree that holds the after-states and nothing else. */
  ghost function AfterTree(ds: seq<Delta>, n: nat): Tree
    requires n <= |ds|
  {
    if n == 0 then map[]
    else if ds[n - 1].after.Some? then AfterTree(ds, n - 1)[ds[n - 1].after.value.path := ds[n - 1].after.value.Node()]
    else AfterTree(ds, n - 1)
  }

  lemma {:induction false} AfterTreeHolds(ds: seq<Delta>, n: nat)
    requires n <= |ds| && DistinctPaths(ds)
    ensures forall i :: 0 <= i < n && ds[i].after.Some? ==>
      Holds(AfterTree(ds, n), ds[i].after.value, ds[i].after.value.path)
    ensures forall p :: p in AfterTree(ds, n) ==> AfterAt(ds, p)
  {
    if n > 0 {
      AfterTreeHolds(ds, n - 1);
    }
  }

  /**
   The assessment stays silent when the source already lost a deleted path.  If the set
   also puts something at such a path, its deltas contradict each other and no workspace
   ever passes the completion test; if it does not, the deltas have separate paths.
   */
  lemma AppliableIffNoDeletedPathReused(ds: seq<Delta>, source: Tree)
    requires DistinctPaths(ds) && Clean(ds, source)
    requires forall i :: 0 <= i < |ds| ==> WellShaped(ds[i])
    ensures Separate(ds) <==> !DeletedPathReused(ds)
    ensures (exists t :: MatchesAfter(ds, t)) <==> !DeletedPathReused(ds)
  {
    if i: nat :| i < |ds| && Superseded(ds, ds[i]) {
      var j :| 0 <= j < |ds| && ds[j].after.Some? && ds[j].after.value.path == ds[i].before.value.path;
      assert ds[i].Touches(ds[i].before.value.path) && ds[j].Touches(ds[i].before.value.path) && i != j;
      forall t ensures !MatchesAfter(ds, t) {
        assert !(DeltaApplied(ds[i], t) && DeltaApplied(ds[j], t));
      }
    } else {
      forall i, j | 0 <= i < |ds| && 0 <= j < |ds| && ds[i].before.Some? && ds[j].after.Some? &&
        ds[i].before.value.path == ds[j].after.value.path
        ensures i == j
      {
        assert CleanDelta(ds[i], source) && CleanDelta(ds[j], source);
        assert AfterAt(ds, ds[i].before.value.path);
      }
      var t := AfterTree(ds, |ds|);
      AfterTreeHolds(ds, |ds|);
      forall i | 0 <= i < |ds| ensures DeltaApplied(ds[i], t) {}
      assert MatchesAfter(ds, t);
    }
  }

  /** For instance: the source lost "p", the set deletes "p" and creates another "p". */
  lemma LostPathReusedIsClean()
    ensures var ds := [Delta("obj_1", Some(FileState(["p"], [1], false, "v1", ProjectionBase)), None),
                       Delta("obj_2", None, Some(DirectoryState(["p"])))];
      DistinctPaths(ds) && Clean(ds, map[]) && DeletedPathReused(ds)
  {
    var ds := [Delta("obj_1", Some(FileState(["p"], [1], false, "v1", ProjectionBase)), None),
               Delta("obj_2", None, Some(DirectoryState(["p"])))];
    assert AfterAt(ds, ["p"]) by { assert ds[1].after.Some? && ds[1].after.value.path == ["p"]; }
    assert Superseded(ds, ds[0]);
  }

  // ---------- what the alias checks buy ----------

  ghost predicate KeysDistinct(paths: iset<Path>, keys: Keys) {
    forall p, q :: p in paths && q in paths && p != q ==> !keys.Collide(p, q)
  }

  /** The paths a merge gives the scope: after-paths, and listed paths the set leaves alone. */
  ghost function MergedPaths(ds: seq<Delta>, current: seq<Entry>): iset<Path> {
    iset p | AfterAt(ds, p) || (Listed(current, p) && !BeforeAt(ds, p))
  }

  /** With collision-free inputs and no conflicts, the merged scope is collision-free. */
  lemma MergedPathsAreAliasFree(ds: seq<Delta>, nested: seq<Path>, current: seq<Entry>, keys: Keys,
                                source: Tree, scope: Path -> bool)
    requires KeysDistinct((iset p | Listed(current, p)), keys)
    requires KeysDistinct((iset p | AfterAt(ds, p)), keys)
    requires ListsScope(current, source, scope, nested)
    requires forall i :: 0 <= i < |ds| ==> InScope(ds[i], scope) && Peaceful(ds[i], nested, current, keys, source)
    ensures KeysDistinct(MergedPaths(ds, current), keys)
  {
    forall i | 0 <= i < |ds| && ds[i].Edits() ensures Listed(current, ds[i].after.value.path) {
      assert Peaceful(ds[i], nested, current, keys, source);
    }
    forall p, q | p in MergedPaths(ds, current) && q in MergedPaths(ds, current) && p != q
      ensures !keys.Collide(p, q)
    {
      if AfterAt(ds, p) && !AfterAt(ds, q) {
        AfterMeetsListed(ds, nested, current, keys, source, p, q);
      } else if AfterAt(ds, q) && !AfterAt(ds, p) {
        AfterMeetsListed(ds, nested, current, keys, source, q, p);
      } else if AfterAt(ds, p) {
        assert p in (iset x | AfterAt(ds, x)) && q in (iset x | AfterAt(ds, x));
      } else {
        assert p in (iset x | Listed(current, x)) && q in (iset x | Listed(current, x));
      }
    }
  }

  lemma AfterMeetsListed(ds: seq<Delta>, nested: seq<Path>, current: seq<Entry>, keys: Keys, source: Tree, p: Path,
                         q: Path)
    requires KeysDistinct((iset x | Listed(current, x)), keys)
    requires forall i :: 0 <= i < |ds| ==> Peaceful(ds[i], nested, current, keys, source)
    requires forall i :: 0 <= i < |ds| && ds[i].Edits() ==> Listed(current, ds[i].after.value.path)
    requires AfterAt(ds, p) && Listed(current, q) && !BeforeAt(ds, q) && p != q
    ensures !keys.Collide(p, q)
  {
    var i :| 0 <= i < |ds| && ds[i].after.Some? && ds[i].after.value.path == p;
    assert Peaceful(ds[i], nested, current, keys, source);
    var k: nat :| k < |current| && current[k].path == q;
    if ds[i].Edits() {
      assert p in (iset x | Listed(current, x)) && q in (iset x | Listed(current, x));
    } else if ds[i].Moves() {
      assert !Aliases(current, keys, p, Some(ds[i].before.value.path), k);
    } else {
      assert !Aliases(current, keys, p, None, k);
    }
  }
}
