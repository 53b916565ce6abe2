/** The difference between two Versions of one Folderbase, and what replaying it does. */
module VersionDiff {
  import opened Prelude
  import opened PortablePaths
  import opened Sorting
  import opened FolderbaseVersion
  import opened VersionValidator

  datatype Change =
    | RootManifestUpdated(previousVersionId: string, versionId: string, previousSha256: string, sha256: string)
    | Added(path: string, objectId: string)
    | Deleted(path: string, objectId: string, tombstonePresent: bool)
    | Moved(objectId: string, fromPath: string, toPath: string)
    | Recreated(path: string, previousObjectId: string, objectId: string)
    | Updated(path: string, objectId: string, previousVersion: Option<string>, version: Option<string>)
    | TombstoneAdded(path: string, objectId: string)
    | TombstoneRemoved(path: string, objectId: string)
    | ExclusionAdded(path: string, kind: ExclusionKind)
    | ExclusionRemoved(path: string, kind: ExclusionKind)

  // ---------- lookups ----------

  ghost predicate UniqueBindings(bs: seq<Binding>) {
    && (forall a, b :: a in bs && b in bs && a.path == b.path ==> a == b)
    && (forall a, b :: a in bs && b in bs && a.objectId == b.objectId ==> a == b)
  }

  ghost predicate UniqueTombstones(ts: seq<Tombstone>) {
    forall a, b :: a in ts && b in ts && a.path == b.path ==> a == b
  }

  ghost predicate UniqueExclusions(es: seq<Exclusion>) {
    forall a, b :: a in es && b in es && a.path == b.path ==> a == b
  }

  ghost predicate Unique(v: Version) {
    UniqueBindings(v.bindings) && UniqueTombstones(v.tombstones) && UniqueExclusions(v.exclusions)
  }

  /** The lookup maps the comparison works with. */
  datatype Index = Index(
    rootManifest: RootManifest,
    byPath: map<string, Binding>,
    byObject: map<string, Binding>,
    buried: map<(string, string), Tombstone>,
    excluded: map<string, Exclusion>)

  ghost predicate Coherent(x: Index) {
    && (forall p :: p in x.byPath ==>
          && x.byPath[p].path == p
          && x.byPath[p].objectId in x.byObject && x.byObject[x.byPath[p].objectId] == x.byPath[p])
    && (forall o :: o in x.byObject ==>
          && x.byObject[o].objectId == o
          && x.byObject[o].path in x.byPath && x.byPath[x.byObject[o].path] == x.byObject[o])
    && (forall k :: k in x.buried ==> x.buried[k].path == k.0 && x.buried[k].objectId == k.1)
    && (forall p :: p in x.excluded ==> x.excluded[p].path == p)
  }

  /** The maps hold exactly the entries of the Version. */
  ghost predicate IndexOf(x: Index, v: Version) {
    && x.rootManifest == v.rootManifest
    && (forall b :: b in v.bindings <==> b.path in x.byPath && x.byPath[b.path] == b)
    && (forall t :: t in v.tombstones <==> (t.path, t.objectId) in x.buried && x.buried[(t.path, t.objectId)] == t)
    && (forall e :: e in v.exclusions <==> e.path in x.excluded && x.excluded[e.path] == e)
  }

  /** Collect the entries of a Version into its lookup maps. */
  method BuildIndex(v: Version) returns (x: Index)
    requires Unique(v)
    ensures Coherent(x) && IndexOf(x, v)
  {
    var byPath, byObject := IndexBindings(v.bindings);
    var buried: map<(string, string), Tombstone> := map[];
    for k := 0 to |v.tombstones|
      invariant forall t :: t in v.tombstones[..k] <==>
        (t.path, t.objectId) in buried && buried[(t.path, t.objectId)] == t
      invariant forall key :: key in buried ==> buried[key].path == key.0 && buried[key].objectId == key.1
    {
      var t := v.tombstones[k];
      assert v.tombstones[..k + 1] == v.tombstones[..k] + [t] && t in v.tombstones;
      buried := buried[(t.path, t.objectId) := t];
    }
    var excluded: map<string, Exclusion> := map[];
    for k := 0 to |v.exclusions|
      invariant forall e :: e in v.exclusions[..k] <==> e.path in excluded && excluded[e.path] == e
      invariant forall p :: p in excluded ==> excluded[p].path == p
    {
      var e := v.exclusions[k];
      assert v.exclusions[..k + 1] == v.exclusions[..k] + [e] && e in v.exclusions;
      excluded := excluded[e.path := e];
    }
    assert v.tombstones[..|v.tombstones|] == v.tombstones && v.exclusions[..|v.exclusions|] == v.exclusions;
    return Index(v.rootManifest, byPath, byObject, buried, excluded);
  }

  function PathKey(b: Binding): string { b.path }

  function ObjectKey(b: Binding): string { b.objectId }

  /** The map finds each binding under its key, and nothing else. */
  ghost predicate Indexes(bs: seq<Binding>, m: map<string, Binding>, key: Binding -> string) {
    && (forall b :: b in bs <==> key(b) in m && m[key(b)] == b)
    && (forall k :: k in m ==> key(m[k]) == k)
  }

  lemma IndexOneMore(bs: seq<Binding>, m: map<string, Binding>, key: Binding -> string, n: nat)
    requires n < |bs| && Indexes(bs[..n], m, key)
    requires forall a, b :: a in bs && b in bs && key(a) == key(b) ==> a == b
    ensures Indexes(bs[..n + 1], m[key(bs[n]) := bs[n]], key)
  {
    assert bs[..n + 1] == bs[..n] + [bs[n]];
    assert forall c :: c in bs[..n] ==> c in bs;
  }

  method IndexBindings(bs: seq<Binding>) returns (byPath: map<string, Binding>, byObject: map<string, Binding>)
    requires UniqueBindings(bs)
    ensures Indexes(bs, byPath, PathKey) && Indexes(bs, byObject, ObjectKey)
  {
    byPath, byObject := map[], map[];
    for k := 0 to |bs|
      invariant Indexes(bs[..k], byPath, PathKey) && Indexes(bs[..k], byObject, ObjectKey)
    {
      IndexOneMore(bs, byPath, PathKey, k);
      IndexOneMore(bs, byObject, ObjectKey, k);
      byPath, byObject := byPath[bs[k].path := bs[k]], byObject[bs[k].objectId := bs[k]];
    }
    assert bs[..|bs|] == bs;
  }

  /** Equal in everything but the path. */
  predicate SameStateElsewhere(a: Binding, b: Binding) {
    match (a, b)
    case (DirectoryBinding(_, o), DirectoryBinding(_, p)) => o == p
    case (FileBinding(_, o, v, s, n, x), FileBinding(_, p, w, t, m, y)) =>
      o == p && v == w && s == t && n == m && x == y
    case (LinkBinding(_, o, v, t), LinkBinding(_, p, w, u)) => o == p && v == w && t == u
    case _ => false
  }

  // ---------- what each key contributes ----------

  function RootChanges(older: Index, newer: Index): seq<Change> {
    if older.rootManifest == newer.rootManifest then []
    else [RootManifestUpdated(older.rootManifest.objectVersionId, newer.rootManifest.objectVersionId,
                              older.rootManifest.contentSha256, newer.rootManifest.contentSha256)]
  }

  function UpdateOf(previous: Binding, current: Binding): Change {
    Updated(current.path, current.objectId, previous.ObjectVersion(), current.ObjectVersion())
  }

  /** An object bound in both Versions, at different paths. */
  function MoveChanges(older: Index, newer: Index, objectId: string): seq<Change>
  {
    if objectId in older.byObject && objectId in newer.byObject then
      var previous, current := older.byObject[objectId], newer.byObject[objectId];
      if previous.path == current.path then []
      else [Moved(objectId, previous.path, current.path)] +
           (if SameStateElsewhere(previous, current) then [] else [UpdateOf(previous, current)])
    else []
  }

  /** A path bound in at least one Version. */
  function PathChanges(older: Index, newer: Index, path: string): seq<Change>
  {
    var before, after := older.byPath, newer.byPath;
    if path !in before && path in after && after[path].objectId !in older.byObject then
      [Added(path, after[path].objectId)]
    else if path in before && path !in after && before[path].objectId !in newer.byObject then
      [Deleted(path, before[path].objectId, (path, before[path].objectId) in newer.buried)]
    else if path in before && path in after && before[path].objectId != after[path].objectId then
      [Recreated(path, before[path].objectId, after[path].objectId)]
    else if path in before && path in after && before[path] != after[path] then
      [UpdateOf(before[path], after[path])]
    else []
  }

  function TombstoneChanges(older: Index, newer: Index, key: (string, string)): seq<Change>
  {
    var before, after := older.buried, newer.buried;
    if key in before && key in after && before[key] == after[key] then []
    else
      (if key in before then [TombstoneRemoved(key.0, key.1)] else []) +
      (if key in after then [TombstoneAdded(key.0, key.1)] else [])
  }

  function ExclusionChanges(older: Index, newer: Index, path: string): seq<Change>
  {
    var before, after := older.excluded, newer.excluded;
    if path in before && path in after && before[path] == after[path] then []
    else
      (if path in before then [ExclusionRemoved(path, before[path].kind)] else []) +
      (if path in after then [ExclusionAdded(path, after[path].kind)] else [])
  }

  /** Gather what every key contributes; `owner` tells which key a change came from. */
  method Gather<K(!new)>(keys: set<K>, at: K -> seq<Change>, ghost owner: Change -> K) returns (r: seq<Change>)
    requires forall k, c :: k in keys && c in at(k) ==> owner(c) == k
    requires forall k :: k in keys ==> NoDuplicates(at(k))
    ensures forall c :: c in r <==> owner(c) in keys && c in at(owner(c))
    ensures NoDuplicates(r)
  {
    r := [];
    var todo := keys;
    while todo != {}
      invariant todo <= keys
      invariant forall c :: c in r <==> owner(c) in keys - todo && c in at(owner(c))
      invariant NoDuplicates(r)
      decreases todo
    {
      var k :| k in todo;
      var more := at(k);
      ghost var was := r;
      assert forall i :: 0 <= i < |was| ==> was[i] in was;
      assert forall i :: 0 <= i < |more| ==> more[i] in more;
      r := r + more;
      todo := todo - {k};
    }
  }

  // ---------- what a change means ----------

  /** The facts about the two Versions that a change reports. */
  ghost predicate Reported(older: Index, newer: Index, c: Change)
  {
    match c
    case RootManifestUpdated(previousVersion, version, previousSha, sha) =>
      && older.rootManifest != newer.rootManifest
      && previousVersion == older.rootManifest.objectVersionId && previousSha == older.rootManifest.contentSha256
      && version == newer.rootManifest.objectVersionId && sha == newer.rootManifest.contentSha256
    case Added(path, o) =>
      path !in older.byPath && path in newer.byPath && newer.byPath[path].objectId == o && o !in older.byObject
    case Deleted(path, o, buried) =>
      path in older.byPath && path !in newer.byPath && older.byPath[path].objectId == o && o !in newer.byObject &&
      (buried <==> (path, o) in newer.buried)
    case Moved(o, from, to) =>
      o in older.byObject && o in newer.byObject && older.byObject[o].path == from && newer.byObject[o].path == to &&
        from != to
    case Recreated(path, previous, o) =>
      path in older.byPath && path in newer.byPath &&
      older.byPath[path].objectId == previous && newer.byPath[path].objectId == o && previous != o
    case Updated(path, o, previous, version) =>
      o in older.byObject && o in newer.byObject && newer.byObject[o].path == path &&
      !SameStateElsewhere(older.byObject[o], newer.byObject[o]) &&
      previous == older.byObject[o].ObjectVersion() && version == newer.byObject[o].ObjectVersion()
    case TombstoneAdded(path, o) =>
      (path, o) in newer.buried && ((path, o) in older.buried ==> older.buried[(path, o)] != newer.buried[(path, o)])
    case TombstoneRemoved(path, o) =>
      (path, o) in older.buried && ((path, o) in newer.buried ==> older.buried[(path, o)] != newer.buried[(path, o)])
    case ExclusionAdded(path, kind) =>
      path in newer.excluded && newer.excluded[path].kind == kind &&
      (path in older.excluded ==> older.excluded[path] != newer.excluded[path])
    case ExclusionRemoved(path, kind) =>
      path in older.excluded && older.excluded[path].kind == kind &&
      (path in newer.excluded ==> older.excluded[path] != newer.excluded[path])
  }

  /** An object at the same path in both Versions is updated exactly when its state differs. */
  lemma UpdatesAreReported(older: Index, newer: Index, c: Change)
    requires Coherent(older) && Coherent(newer) && c.Updated?
    ensures Reported(older, newer, c) <==>
      || (c.objectId in older.byObject && c in MoveChanges(older, newer, c.objectId))
      || (c.path in older.byPath.Keys + newer.byPath.Keys && c in PathChanges(older, newer, c.path))
  {}

  // ---------- ordering the report ----------

  function SortRank(c: Change): nat {
    match c
    case RootManifestUpdated(_, _, _, _) => 0
    case Moved(_, _, _) => 1
    case Recreated(_, _, _) => 2
    case Added(_, _) => 3
    case Updated(_, _, _, _) => 4
    case Deleted(_, _, _) => 5
    case TombstoneAdded(_, _) => 6
    case TombstoneRemoved(_, _) => 7
    case ExclusionAdded(_, _) => 8
    case ExclusionRemoved(_, _) => 9
  }

  function SortPath(c: Change): string {
    match c
    case RootManifestUpdated(_, _, _, _) => ""
    case Moved(_, from, _) => from
    case _ => c.path
  }

  function SortObject(c: Change): string {
    match c
    case RootManifestUpdated(_, _, _, _) => ""
    case ExclusionAdded(_, _) => ""
    case ExclusionRemoved(_, _) => ""
    case _ => c.objectId
  }

  predicate KeyBefore(a: Change, b: Change) {
    || BytesBefore(SortPath(a), SortPath(b))
    || (SortPath(a) == SortPath(b) &&
        (SortRank(a) < SortRank(b) || (SortRank(a) == SortRank(b) && BytesBefore(SortObject(a), SortObject(b)))))
  }

  lemma KeyTransitive(a: Change, b: Change, c: Change)
    requires KeyBefore(a, b) && !KeyBefore(c, b)
    ensures !KeyBefore(c, a)
  {
    BytesTotal(SortPath(a), SortPath(b));
    BytesTotal(SortPath(b), SortPath(c));
    BytesTotal(SortPath(a), SortPath(c));
    BytesTotal(SortObject(a), SortObject(b));
    BytesTotal(SortObject(b), SortObject(c));
    BytesTotal(SortObject(a), SortObject(c));
    if KeyBefore(c, a) {
      if BytesBefore(SortPath(c), SortPath(a)) && BytesBefore(SortPath(a), SortPath(b)) {
        BytesTransitive(SortPath(c), SortPath(a), SortPath(b));
      }
      if BytesBefore(SortObject(c), SortObject(a)) && BytesBefore(SortObject(a), SortObject(b)) {
        BytesTransitive(SortObject(c), SortObject(a), SortObject(b));
      }
    }
  }

  /** No change precedes, by key, one that stands before it. */
  ghost predicate KeySorted(s: seq<Change>) {
    Sorted(s, KeyBefore)
  }

  lemma KeysOrder()
    ensures Orders(KeyBefore)
  {
    forall a, b ensures Asymmetric(KeyBefore, a, b) {
      BytesTotal(SortPath(a), SortPath(b));
      BytesTotal(SortObject(a), SortObject(b));
    }
    forall a, b, c ensures Cotransitive(KeyBefore, a, b, c) {
      if KeyBefore(a, b) && !KeyBefore(c, b) { KeyTransitive(a, b, c); }
    }
  }

  // ---------- the comparison ----------

  function ObjectOf(c: Change): string {
    if c.RootManifestUpdated? || c.ExclusionAdded? || c.ExclusionRemoved? then "" else c.objectId
  }

  function PathOf(c: Change): string {
    if c.RootManifestUpdated? || c.Moved? then "" else c.path
  }

  function KeyOf(c: Change): (string, string) {
    (PathOf(c), ObjectOf(c))
  }

  // The four groups the comparison goes through, each by its own key.

  predicate OfMoves(older: Index, newer: Index, c: Change) {
    ObjectOf(c) in older.byObject && c in MoveChanges(older, newer, ObjectOf(c))
  }

  predicate OfPaths(older: Index, newer: Index, c: Change) {
    PathOf(c) in older.byPath.Keys + newer.byPath.Keys && c in PathChanges(older, newer, PathOf(c))
  }

  predicate OfTombstones(older: Index, newer: Index, c: Change) {
    KeyOf(c) in older.buried.Keys + newer.buried.Keys && c in TombstoneChanges(older, newer, KeyOf(c))
  }

  predicate OfExclusions(older: Index, newer: Index, c: Change) {
    PathOf(c) in older.excluded.Keys + newer.excluded.Keys && c in ExclusionChanges(older, newer, PathOf(c))
  }

  /** The groups have no change in common. */
  lemma GroupsAreDisjoint(older: Index, newer: Index, c: Change)
    requires Coherent(older) && Coherent(newer)
    ensures c in RootChanges(older, newer) ==> c.RootManifestUpdated?
    ensures OfMoves(older, newer, c) ==> c.Moved? || c.Updated?
    ensures OfPaths(older, newer, c) ==>
      (c.Updated? && !OfMoves(older, newer, c)) || c.Added? || c.Deleted? || c.Recreated?
    ensures OfTombstones(older, newer, c) ==> c.TombstoneAdded? || c.TombstoneRemoved?
    ensures OfExclusions(older, newer, c) ==> c.ExclusionAdded? || c.ExclusionRemoved?
  {
    PathGroup(older, newer, c);
    if OfTombstones(older, newer, c) {
      TombstoneGroup(older, newer, c);
    }
    if OfExclusions(older, newer, c) {
      ExclusionGroup(older, newer, c);
    }
  }

  lemma PathGroup(older: Index, newer: Index, c: Change)
    requires Coherent(older) && Coherent(newer)
    ensures OfMoves(older, newer, c) ==> c.Moved? || c.Updated?
    ensures OfPaths(older, newer, c) ==>
      (c.Updated? && !OfMoves(older, newer, c)) || c.Added? || c.Deleted? || c.Recreated?
  {}

  lemma TombstoneGroup(older: Index, newer: Index, c: Change)
    requires OfTombstones(older, newer, c)
    ensures c.TombstoneAdded? || c.TombstoneRemoved?
  {}

  lemma ExclusionGroup(older: Index, newer: Index, c: Change)
    requires OfExclusions(older, newer, c)
    ensures c.ExclusionAdded? || c.ExclusionRemoved?
  {}

  /** Some group has the change. */
  ghost predicate OfSomeGroup(older: Index, newer: Index, c: Change) {
    c in RootChanges(older, newer) || OfMoves(older, newer, c) || OfPaths(older, newer, c) ||
    OfTombstones(older, newer, c) || OfExclusions(older, newer, c)
  }

  /** The groups together report everything. */
  lemma GroupsCoverReport(older: Index, newer: Index, c: Change)
    requires Coherent(older) && Coherent(newer)
    ensures Reported(older, newer, c) <==> OfSomeGroup(older, newer, c)
  {
    GroupsAreDisjoint(older, newer, c);
    if c.Updated? {
      UpdatesAreReported(older, newer, c);
    } else if c.Moved? {
      MovesAreReported(older, newer, c);
    } else if c.Added? || c.Deleted? || c.Recreated? {
      PathsAreReported(older, newer, c);
    }
  }

  lemma MovesAreReported(older: Index, newer: Index, c: Change)
    requires Coherent(older) && Coherent(newer) && c.Moved?
    ensures Reported(older, newer, c) <==> OfMoves(older, newer, c)
  {}

  lemma PathsAreReported(older: Index, newer: Index, c: Change)
    requires Coherent(older) && Coherent(newer) && (c.Added? || c.Deleted? || c.Recreated?)
    ensures Reported(older, newer, c) <==> OfPaths(older, newer, c)
  {}

  method GatherMoves(older: Index, newer: Index) returns (r: seq<Change>)
    requires Coherent(older) && Coherent(newer)
    ensures NoDuplicates(r) && forall c :: c in r <==> OfMoves(older, newer, c)
  {
    r := Gather(older.byObject.Keys, o => MoveChanges(older, newer, o), ObjectOf);
  }

  /** A path contributes at most one change, and of itself. */
  lemma PathChangesAreOfPath(older: Index, newer: Index, path: string)
    requires Coherent(older) && Coherent(newer)
    ensures |PathChanges(older, newer, path)| <= 1
    ensures forall c :: c in PathChanges(older, newer, path) ==> PathOf(c) == path
  {}

  method GatherPaths(older: Index, newer: Index) returns (r: seq<Change>)
    requires Coherent(older) && Coherent(newer)
    ensures NoDuplicates(r) && forall c :: c in r <==> OfPaths(older, newer, c)
  {
    forall p { PathChangesAreOfPath(older, newer, p); }
    r := Gather(older.byPath.Keys + newer.byPath.Keys, p => PathChanges(older, newer, p), PathOf);
  }

  method GatherTombstones(older: Index, newer: Index) returns (r: seq<Change>)
    ensures NoDuplicates(r) && forall c :: c in r <==> OfTombstones(older, newer, c)
  {
    r := Gather(older.buried.Keys + newer.buried.Keys, k => TombstoneChanges(older, newer, k), KeyOf);
  }

  method GatherExclusions(older: Index, newer: Index) returns (r: seq<Change>)
    ensures NoDuplicates(r) && forall c :: c in r <==> OfExclusions(older, newer, c)
  {
    r := Gather(older.excluded.Keys + newer.excluded.Keys, p => ExclusionChanges(older, newer, p), PathOf);
  }

  /** Add a group none of whose changes is there yet. */
  method Append(a: seq<Change>, b: seq<Change>) returns (r: seq<Change>)
    requires NoDuplicates(a) && NoDuplicates(b) && forall c :: c in a ==> c !in b
    ensures NoDuplicates(r) && forall c :: c in r <==> c in a || c in b
  {
    r := a + b;
    forall i, j | 0 <= i < j < |r| ensures r[i] != r[j] {
      if i < |a| <= j { assert r[i] in a && r[j] in b; }
    }
  }

  /** What became of the root manifest, the objects and the paths. */
  method GatherBindings(older: Index, newer: Index) returns (changes: seq<Change>)
    requires Coherent(older) && Coherent(newer)
    ensures NoDuplicates(changes)
    ensures forall c :: c in changes <==>
      c in RootChanges(older, newer) || OfMoves(older, newer, c) || OfPaths(older, newer, c)
  {
    forall c { GroupsAreDisjoint(older, newer, c); }
    var moves := GatherMoves(older, newer);
    changes := Append(RootChanges(older, newer), moves);
    var paths := GatherPaths(older, newer);
    changes := Append(changes, paths);
  }

  /** Go through the groups one after the other. */
  method GatherGroups(older: Index, newer: Index) returns (changes: seq<Change>)
    requires Coherent(older) && Coherent(newer)
    ensures NoDuplicates(changes) && forall c :: c in changes <==> OfSomeGroup(older, newer, c)
  {
    changes := GatherBindings(older, newer);
    var tombstones := GatherTombstones(older, newer);
    var exclusions := GatherExclusions(older, newer);
    forall c { GroupsAreDisjoint(older, newer, c); }
    changes := Append(changes, tombstones);
    changes := Append(changes, exclusions);
  }

  /** Compare two indexed Versions: what is reported is exactly what the changes mean, each once. */
  method Compare(older: Index, newer: Index) returns (changes: seq<Change>)
    requires Coherent(older) && Coherent(newer)
    ensures forall c :: c in changes <==> Reported(older, newer, c)
    ensures NoDuplicates(changes) && KeySorted(changes)
  {
    var gathered := GatherGroups(older, newer);
    changes := Sort(gathered, KeyBefore);
    KeysOrder();
    SortSorts(gathered, KeyBefore);
    RearrangedIsDistinct(gathered, changes);
    SameItems(gathered, changes);
    forall c ensures c in changes <==> Reported(older, newer, c) { GroupsCoverReport(older, newer, c); }
  }
}
