/** What a Version difference guarantees to whoever replays it. */
module DiffReplay {
  import opened Prelude
  import opened PortablePaths
  import opened Sorting
  import opened FolderbaseVersion
  import opened VersionValidator
  import opened VersionDiff

  /** The report of a comparison: the reported changes, each once. */
  ghost predicate IsReport(older: Index, newer: Index, changes: seq<Change>) {
    NoDuplicates(changes) && forall c :: c in changes <==> Reported(older, newer, c)
  }

  // ---------- replaying ----------

  /** The path a change empties. */
  function VacatedBy(c: Change): Option<string> {
    match c
    case Deleted(path, _, _) => Some(path)
    case Moved(_, from, _) => Some(from)
    case Recreated(path, _, _) => Some(path)
    case _ => None
  }

  /** The path a change fills, and the object it puts there. */
  function FilledBy(c: Change): Option<(string, string)> {
    match c
    case Added(path, o) => Some((path, o))
    case Moved(o, _, to) => Some((to, o))
    case Recreated(path, _, o) => Some((path, o))
    case _ => None
  }

  function Vacate(m: map<string, string>, changes: seq<Change>): map<string, string> {
    if changes == [] then m
    else
      var rest := Vacate(m, changes[1..]);
      match VacatedBy(changes[0])
      case Some(p) => rest - {p}
      case None => rest
  }

  function Fill(m: map<string, string>, changes: seq<Change>): map<string, string> {
    if changes == [] then m
    else
      var rest := Fill(m, changes[1..]);
      match FilledBy(changes[0])
      case Some(entry) => rest[entry.0 := entry.1]
      case None => rest
  }

  /** Take objects from the paths they leave, then put objects where they arrive. */
  function Replay(m: map<string, string>, changes: seq<Change>): map<string, string> {
    Fill(Vacate(m, changes), changes)
  }

  /** The path-to-object map of a Version. */
  function Objects(x: Index): map<string, string> {
    map p | p in x.byPath :: x.byPath[p].objectId
  }

  lemma {:induction false} VacateRemoves(m: map<string, string>, changes: seq<Change>)
    ensures forall p :: p in Vacate(m, changes) <==> p in m && forall c :: c in changes ==> VacatedBy(c) != Some(p)
    ensures forall p :: p in Vacate(m, changes) ==> Vacate(m, changes)[p] == m[p]
  {
    if changes != [] {
      VacateRemoves(m, changes[1..]);
      assert forall c :: c in changes <==> c == changes[0] || c in changes[1..];
    }
  }

  /** Filling paths that all agree with a target map. */
  lemma {:induction false} FillPuts(m: map<string, string>, changes: seq<Change>, target: map<string, string>)
    requires forall c :: c in changes && FilledBy(c).Some? ==>
      FilledBy(c).value.0 in target && target[FilledBy(c).value.0] == FilledBy(c).value.1
    ensures forall p :: p in Fill(m, changes) <==>
      p in m || exists c :: c in changes && FilledBy(c).Some? && FilledBy(c).value.0 == p
    ensures forall p :: p in Fill(m, changes) ==>
      Fill(m, changes)[p] ==
        if exists c :: c in changes && FilledBy(c).Some? && FilledBy(c).value.0 == p then target[p] else m[p]
  {
    if changes != [] {
      assert forall c :: c in changes <==> c == changes[0] || c in changes[1..];
      FillPuts(m, changes[1..], target);
    }
  }

  /** Whatever binds a path in the newer Version either was there before or is reported to fill it. */
  lemma PathIsKeptOrFilled(older: Index, newer: Index, changes: seq<Change>, p: string)
    requires Coherent(older) && Coherent(newer) && IsReport(older, newer, changes)
    requires p in newer.byPath
    ensures (exists c :: c in changes && FilledBy(c) == Some((p, newer.byPath[p].objectId))) ||
            (p in older.byPath && older.byPath[p].objectId == newer.byPath[p].objectId &&
               forall c :: c in changes ==> VacatedBy(c) != Some(p))
  {
    var o := newer.byPath[p].objectId;
    if p in older.byPath && older.byPath[p].objectId != o {
      assert Reported(older, newer, Recreated(p, older.byPath[p].objectId, o));
    } else if p !in older.byPath && o !in older.byObject {
      assert Reported(older, newer, Added(p, o));
    } else if p !in older.byPath {
      assert Reported(older, newer, Moved(o, older.byObject[o].path, p));
    } else {
      forall c | c in changes ensures VacatedBy(c) != Some(p) {
        assert Reported(older, newer, c);
      }
    }
  }

  /** Whatever binds a path only in the older Version is reported to leave it. */
  lemma LostPathIsVacated(older: Index, newer: Index, changes: seq<Change>, p: string)
    requires Coherent(older) && Coherent(newer) && IsReport(older, newer, changes)
    requires p in older.byPath && p !in newer.byPath
    ensures exists c :: c in changes && VacatedBy(c) == Some(p)
  {
    var o := older.byPath[p].objectId;
    if o in newer.byObject {
      assert Reported(older, newer, Moved(o, p, newer.byObject[o].path));
    } else {
      assert Reported(older, newer, Deleted(p, o, (p, o) in newer.buried));
    }
  }

  /** Where each path stands after a replay. */
  lemma ReplayedPath(older: Index, newer: Index, changes: seq<Change>, replayed: map<string, string>, p: string)
    requires Coherent(older) && Coherent(newer) && IsReport(older, newer, changes)
    requires replayed == Replay(Objects(older), changes)
    ensures p in replayed <==> p in newer.byPath
    ensures p in replayed ==> replayed[p] == newer.byPath[p].objectId
  {
    var before, after := Objects(older), Objects(newer);
    VacateRemoves(before, changes);
    forall c | c in changes && FilledBy(c).Some?
      ensures FilledBy(c).value.0 in after && after[FilledBy(c).value.0] == FilledBy(c).value.1
    {
    }
    FillPuts(Vacate(before, changes), changes, after);
    if p in newer.byPath {
      PathIsKeptOrFilled(older, newer, changes, p);
    } else if p in older.byPath {
      LostPathIsVacated(older, newer, changes, p);
    }
  }

  /** Replaying a report on the older path-to-object map gives the newer one. */
  lemma ReplayGivesNewer(older: Index, newer: Index, changes: seq<Change>)
    requires Coherent(older) && Coherent(newer) && IsReport(older, newer, changes)
    ensures Replay(Objects(older), changes) == Objects(newer)
  {
    var replayed := Replay(Objects(older), changes);
    forall p {
      ReplayedPath(older, newer, changes, replayed, p);
    }
  }

  // ---------- every object is reported once in its role ----------

  predicate ReportsVanished(c: Change, o: string) {
    (c.Deleted? && c.objectId == o) || (c.Recreated? && c.previousObjectId == o)
  }

  predicate ReportsNew(c: Change, o: string) {
    (c.Added? || c.Recreated?) && c.objectId == o
  }

  predicate ReportsRoot(c: Change, o: string) { c.RootManifestUpdated? }

  predicate ReportsMoved(c: Change, o: string) { c.Moved? && c.objectId == o }

  predicate ReportsUpdated(c: Change, o: string) { c.Updated? && c.objectId == o }

  /** Exactly one entry of the report satisfies the role. */
  ghost predicate Once(changes: seq<Change>, role: (Change, string) -> bool, o: string) {
    exists i :: 0 <= i < |changes| && role(changes[i], o) &&
      forall j :: 0 <= j < |changes| && role(changes[j], o) ==> j == i
  }

  /** A reported change that is the only one of its role is in the report once. */
  lemma OnlyOne(older: Index, newer: Index, changes: seq<Change>, role: (Change, string) -> bool, o: string, c: Change)
    requires IsReport(older, newer, changes) && Reported(older, newer, c) && role(c, o)
    requires forall d :: Reported(older, newer, d) && role(d, o) ==> d == c
    ensures Once(changes, role, o)
  {
    var i :| 0 <= i < |changes| && changes[i] == c;
    forall j | 0 <= j < |changes| && role(changes[j], o) ensures j == i {
      assert changes[j] in changes;
    }
  }

  lemma VanishedOnce(older: Index, newer: Index, changes: seq<Change>, o: string)
    requires Coherent(older) && Coherent(newer) && IsReport(older, newer, changes)
    requires o in older.byObject && o !in newer.byObject
    ensures Once(changes, ReportsVanished, o)
  {
    var p := older.byObject[o].path;
    var c := if p in newer.byPath then Recreated(p, o, newer.byPath[p].objectId)
      else Deleted(p, o, (p, o) in newer.buried);
    OnlyOne(older, newer, changes, ReportsVanished, o, c);
  }

  lemma NewOnce(older: Index, newer: Index, changes: seq<Change>, o: string)
    requires Coherent(older) && Coherent(newer) && IsReport(older, newer, changes)
    requires o !in older.byObject && o in newer.byObject
    ensures Once(changes, ReportsNew, o)
  {
    var p := newer.byObject[o].path;
    var c := if p in older.byPath then Recreated(p, older.byPath[p].objectId, o) else Added(p, o);
    OnlyOne(older, newer, changes, ReportsNew, o, c);
  }

  lemma MovedOnce(older: Index, newer: Index, changes: seq<Change>, o: string)
    requires Coherent(older) && Coherent(newer) && IsReport(older, newer, changes)
    requires o in older.byObject && o in newer.byObject
    ensures if older.byObject[o].path != newer.byObject[o].path then Once(changes, ReportsMoved, o)
            else forall c :: c in changes ==> !ReportsMoved(c, o)
  {
    if older.byObject[o].path != newer.byObject[o].path {
      OnlyOne(older, newer, changes, ReportsMoved, o, Moved(o, older.byObject[o].path, newer.byObject[o].path));
    }
  }

  lemma UpdatedOnce(older: Index, newer: Index, changes: seq<Change>, o: string)
    requires Coherent(older) && Coherent(newer) && IsReport(older, newer, changes)
    requires o in older.byObject && o in newer.byObject
    ensures if SameStateElsewhere(older.byObject[o], newer.byObject[o])
            then forall c :: c in changes ==> !ReportsUpdated(c, o)
            else Once(changes, ReportsUpdated, o)
  {
    if !SameStateElsewhere(older.byObject[o], newer.byObject[o]) {
      OnlyOne(older, newer, changes, ReportsUpdated, o, UpdateOf(older.byObject[o], newer.byObject[o]));
    }
  }

  ghost predicate Never(changes: seq<Change>, role: (Change, string) -> bool, o: string) {
    forall c :: c in changes ==> !role(c, o)
  }

  predicate HasObject(bs: seq<Binding>, o: string) {
    exists b :: b in bs && b.objectId == o
  }

  lemma RootOnce(older: Index, newer: Index, changes: seq<Change>)
    requires IsReport(older, newer, changes)
    ensures if older.rootManifest != newer.rootManifest then Once(changes, ReportsRoot, "")
            else Never(changes, ReportsRoot, "")
  {
    if older.rootManifest != newer.rootManifest {
      OnlyOne(older, newer, changes, ReportsRoot, "",
              RootManifestUpdated(older.rootManifest.objectVersionId, newer.rootManifest.objectVersionId,
                                  older.rootManifest.contentSha256, newer.rootManifest.contentSha256));
    }
  }

  /** Every object of the two Versions is reported once in its role, and so is a changed root manifest. */
  ghost predicate RolesOnce(older: Version, newer: Version, changes: seq<Change>) {
    && (if older.rootManifest != newer.rootManifest
        then Once(changes, ReportsRoot, "")
        else Never(changes, ReportsRoot, ""))
    && (forall a :: a in older.bindings && !HasObject(newer.bindings, a.objectId) ==>
          Once(changes, ReportsVanished, a.objectId))
    && (forall b :: b in newer.bindings && !HasObject(older.bindings, b.objectId) ==>
          Once(changes, ReportsNew, b.objectId))
    && (forall a, b :: a in older.bindings && b in newer.bindings && a.objectId == b.objectId ==>
          KeptObjectOnce(changes, a, b))
  }

  /** An object both Versions have is reported moved if it moved, and updated if it changed. */
  ghost predicate KeptObjectOnce(changes: seq<Change>, a: Binding, b: Binding) {
    && (if a.path != b.path then Once(changes, ReportsMoved, a.objectId) else Never(changes, ReportsMoved, a.objectId))
    && (if SameStateElsewhere(a, b)
        then Never(changes, ReportsUpdated, a.objectId)
        else Once(changes, ReportsUpdated, a.objectId))
  }

  lemma KeptObjectIsOnce(older: Version, newer: Version, x: Index, y: Index, changes: seq<Change>, a: Binding,
                         b: Binding)
    requires Coherent(x) && Coherent(y) && IndexOf(x, older) && IndexOf(y, newer) && IsReport(x, y, changes)
    requires a in older.bindings && b in newer.bindings && a.objectId == b.objectId
    ensures KeptObjectOnce(changes, a, b)
  {
    MovedOnce(x, y, changes, a.objectId);
    UpdatedOnce(x, y, changes, a.objectId);
  }

  lemma RolesAreOnce(older: Version, newer: Version, x: Index, y: Index, changes: seq<Change>)
    requires Coherent(x) && Coherent(y) && IndexOf(x, older) && IndexOf(y, newer) && IsReport(x, y, changes)
    ensures RolesOnce(older, newer, changes)
  {
    RootOnce(x, y, changes);
    forall a | a in older.bindings && !HasObject(newer.bindings, a.objectId)
      ensures Once(changes, ReportsVanished, a.objectId)
    {
      VanishedOnce(x, y, changes, a.objectId);
    }
    forall b | b in newer.bindings && !HasObject(older.bindings, b.objectId)
      ensures Once(changes, ReportsNew, b.objectId)
    {
      NewOnce(x, y, changes, b.objectId);
    }
    forall a, b | a in older.bindings && b in newer.bindings && a.objectId == b.objectId
      ensures KeptObjectOnce(changes, a, b)
    {
      KeptObjectIsOnce(older, newer, x, y, changes, a, b);
    }
  }

  // ---------- what the report says of the Versions themselves ----------

  predicate HasPath(bs: seq<Binding>, p: string) {
    exists b :: b in bs && b.path == p
  }

  predicate HasTombstone(ts: seq<Tombstone>, p: string, o: string) {
    exists t :: t in ts && t.path == p && t.objectId == o
  }

  /** The entries of the two Versions that a change names, and how they differ. */
  ghost predicate Says(older: Version, newer: Version, c: Change) {
    match c
    case RootManifestUpdated(previousVersion, version, previousSha, sha) =>
      && older.rootManifest != newer.rootManifest
      && previousVersion == older.rootManifest.objectVersionId && previousSha == older.rootManifest.contentSha256
      && version == newer.rootManifest.objectVersionId && sha == newer.rootManifest.contentSha256
    case Added(path, o) =>
      && (exists b :: b in newer.bindings && b.path == path && b.objectId == o)
      && !HasPath(older.bindings, path) && !HasObject(older.bindings, o)
    case Deleted(path, o, buried) =>
      && (exists a :: a in older.bindings && a.path == path && a.objectId == o)
      && !HasPath(newer.bindings, path) && !HasObject(newer.bindings, o)
      && (buried <==> HasTombstone(newer.tombstones, path, o))
    case Moved(o, from, to) =>
      exists a, b :: SameObject(older, newer, a, b, o) && a.path == from && b.path == to && from != to
    case Recreated(path, previous, o) =>
      exists a, b :: a in older.bindings && b in newer.bindings && a.path == path && b.path == path &&
        a.objectId == previous && b.objectId == o && previous != o
    case Updated(path, o, previous, version) =>
      exists a, b :: SameObject(older, newer, a, b, o) && b.path == path && !SameStateElsewhere(a, b) &&
        previous == a.ObjectVersion() && version == b.ObjectVersion()
    case TombstoneAdded(path, o) => TombstoneOnlyIn(newer.tombstones, older.tombstones, path, o)
    case TombstoneRemoved(path, o) => TombstoneOnlyIn(older.tombstones, newer.tombstones, path, o)
    case ExclusionAdded(path, kind) => ExclusionOnlyIn(newer.exclusions, older.exclusions, path, kind)
    case ExclusionRemoved(path, kind) => ExclusionOnlyIn(older.exclusions, newer.exclusions, path, kind)
  }

  predicate SameObject(older: Version, newer: Version, a: Binding, b: Binding, o: string) {
    a in older.bindings && b in newer.bindings && a.objectId == o && b.objectId == o
  }

  predicate TombstoneOnlyIn(ts: seq<Tombstone>, others: seq<Tombstone>, p: string, o: string) {
    exists t :: t in ts && t !in others && t.path == p && t.objectId == o
  }

  predicate ExclusionOnlyIn(es: seq<Exclusion>, others: seq<Exclusion>, p: string, kind: ExclusionKind) {
    exists e :: e in es && e !in others && e.path == p && e.kind == kind
  }

  lemma LookupsAgree(x: Index, v: Version, p: string, o: string)
    requires Coherent(x) && IndexOf(x, v)
    ensures p in x.byPath ==> x.byPath[p] in v.bindings
    ensures o in x.byObject ==> x.byObject[o] in v.bindings
    ensures HasPath(v.bindings, p) <==> p in x.byPath
    ensures HasObject(v.bindings, o) <==> o in x.byObject
    ensures HasTombstone(v.tombstones, p, o) <==> (p, o) in x.buried
  {
    if p in x.byPath { assert x.byPath[p] in v.bindings; }
    if o in x.byObject { assert x.byObject[o] in v.bindings; }
    if (p, o) in x.buried { assert x.buried[(p, o)] in v.tombstones; }
  }

  lemma BindingsAreFound(x: Index, v: Version)
    requires Coherent(x) && IndexOf(x, v)
    ensures forall b :: b in v.bindings ==>
      && b.path in x.byPath && x.byPath[b.path] == b
      && b.objectId in x.byObject && x.byObject[b.objectId] == b
  {}

  /** The changes that are about a path. */
  lemma PathChangeSays(older: Version, newer: Version, x: Index, y: Index, c: Change, o: string)
    requires Coherent(x) && Coherent(y) && IndexOf(x, older) && IndexOf(y, newer)
    requires (c.Added? && o == c.objectId) || (c.Deleted? && o == c.objectId) || c.Recreated?
    ensures Says(older, newer, c) <==> Reported(x, y, c)
  {
    LookupsAgree(x, older, c.path, o);
    LookupsAgree(y, newer, c.path, o);
    BindingsAreFound(x, older);
    BindingsAreFound(y, newer);
  }

  /** The changes that are about an object both Versions have. */
  lemma ObjectChangeSays(older: Version, newer: Version, x: Index, y: Index, c: Change)
    requires Coherent(x) && Coherent(y) && IndexOf(x, older) && IndexOf(y, newer) && (c.Moved? || c.Updated?)
    ensures Says(older, newer, c) <==> Reported(x, y, c)
  {
    var o := c.objectId;
    LookupsAgree(x, older, "", o);
    LookupsAgree(y, newer, "", o);
    BindingsAreFound(x, older);
    BindingsAreFound(y, newer);
    if Reported(x, y, c) {
      assert SameObject(older, newer, x.byObject[o], y.byObject[o], o);
    }
  }

  lemma TombstoneChangeSays(x: Index, y: Index, v: Version, w: Version, p: string, o: string)
    requires Coherent(x) && Coherent(y) && IndexOf(x, v) && IndexOf(y, w)
    ensures TombstoneOnlyIn(w.tombstones, v.tombstones, p, o) <==>
      (p, o) in y.buried && ((p, o) in x.buried ==> x.buried[(p, o)] != y.buried[(p, o)])
  {
    if (p, o) in y.buried { assert y.buried[(p, o)] in w.tombstones; }
  }

  lemma ExclusionChangeSays(x: Index, y: Index, v: Version, w: Version, p: string, kind: ExclusionKind)
    requires Coherent(x) && Coherent(y) && IndexOf(x, v) && IndexOf(y, w)
    ensures ExclusionOnlyIn(w.exclusions, v.exclusions, p, kind) <==>
      p in y.excluded && y.excluded[p].kind == kind && (p in x.excluded ==> x.excluded[p] != y.excluded[p])
  {
    if p in y.excluded { assert y.excluded[p] in w.exclusions; }
  }

  /** What a change says of the Versions is what it reports of their lookup maps. */
  lemma SaysWhatIsReported(older: Version, newer: Version, x: Index, y: Index, c: Change)
    requires Coherent(x) && Coherent(y) && IndexOf(x, older) && IndexOf(y, newer)
    ensures Says(older, newer, c) <==> Reported(x, y, c)
  {
    match c
    case RootManifestUpdated(_, _, _, _) =>
    case Added(_, o) => PathChangeSays(older, newer, x, y, c, o);
    case Deleted(_, o, _) => PathChangeSays(older, newer, x, y, c, o);
    case Recreated(_, _, o) => PathChangeSays(older, newer, x, y, c, o);
    case Moved(_, _, _) => ObjectChangeSays(older, newer, x, y, c);
    case Updated(_, _, _, _) => ObjectChangeSays(older, newer, x, y, c);
    case TombstoneAdded(p, o) => TombstoneChangeSays(x, y, older, newer, p, o);
    case TombstoneRemoved(p, o) => TombstoneChangeSays(y, x, newer, older, p, o);
    case ExclusionAdded(p, kind) => ExclusionChangeSays(x, y, older, newer, p, kind);
    case ExclusionRemoved(p, kind) => ExclusionChangeSays(y, x, newer, older, p, kind);
  }

  /** The changes are exactly those that hold of the two Versions. */
  ghost predicate TellsAll(older: Version, newer: Version, changes: seq<Change>) {
    forall c :: c in changes <==> Says(older, newer, c)
  }

  // ---------- an empty report ----------

  ghost predicate SortedBy<T>(s: seq<T>, key: T -> string) {
    forall i, j :: 0 <= i < j < |s| ==> BytesBefore(key(s[i]), key(s[j]))
  }

  lemma EmptyOrNot<T(!new)>(s: seq<T>)
    ensures s == [] || exists x :: x in s
  {
    if s != [] {
      assert s[0] in s;
    }
  }

  /** A strictly sorted list is determined by what is in it. */
  lemma {:induction false} SortedListIsItsEntries<T(!new)>(a: seq<T>, b: seq<T>, key: T -> string)
    requires SortedBy(a, key) && SortedBy(b, key)
    requires forall x :: x in a <==> x in b
    ensures a == b
  {
    EmptyOrNot(a);
    EmptyOrNot(b);
    if a != [] && b != [] {
      var m, n := |a| - 1, |b| - 1;
      assert a[m] in b && b[n] in a;
      var j :| 0 <= j <= n && b[j] == a[m];
      var i :| 0 <= i <= m && a[i] == b[n];
      BytesTotal(key(a[m]), key(b[n]));
      assert j == n && i == m;
      BytesTotal(key(a[m]), key(a[m]));
      forall x ensures x in a[..m] <==> x in b[..n] {
        assert x in a <==> x in a[..m] || x == a[m];
        assert x in b <==> x in b[..n] || x == b[n];
        assert x == a[m] ==> x !in a[..m] && x !in b[..n];
      }
      SortedListIsItsEntries(a[..m], b[..n], key);
      assert a == a[..m] + [a[m]] && b == b[..n] + [b[n]];
    }
  }

  ghost predicate SameEntries(older: Version, newer: Version) {
    && (forall b :: b in older.bindings <==> b in newer.bindings)
    && (forall t :: t in older.tombstones <==> t in newer.tombstones)
    && (forall e :: e in older.exclusions <==> e in newer.exclusions)
  }

  /** What a difference compares: everything but identity, lineage and date. */
  predicate SameContents(older: Version, newer: Version) {
    && older.rootManifest == newer.rootManifest && older.bindings == newer.bindings
    && older.tombstones == newer.tombstones && older.exclusions == newer.exclusions
  }

  lemma SameEntriesSameLists(older: Version, newer: Version)
    requires OrderedPaths(older) && OrderedPaths(newer) && SameEntries(older, newer)
    ensures older.bindings == newer.bindings && older.tombstones == newer.tombstones &&
      older.exclusions == newer.exclusions
  {
    SortedListIsItsEntries(older.bindings, newer.bindings, (b: Binding) => b.path);
    SortedListIsItsEntries(older.tombstones, newer.tombstones, (t: Tombstone) => t.path);
    SortedListIsItsEntries(older.exclusions, newer.exclusions, (e: Exclusion) => e.path);
  }

  /** A path bound in one of two Versions only, or to another state, is reported. */
  lemma PathDifferenceIsReported(x: Index, y: Index, p: string)
    requires Coherent(x) && Coherent(y)
    requires p in x.byPath.Keys + y.byPath.Keys && (p in x.byPath && p in y.byPath ==> x.byPath[p] != y.byPath[p])
    ensures exists c :: Reported(x, y, c)
  {
    if p !in y.byPath {
      var o := x.byPath[p].objectId;
      assert Reported(x, y,
                      if o in y.byObject then Moved(o, p, y.byObject[o].path) else Deleted(p, o, (p, o) in y.buried));
    } else if p !in x.byPath {
      var o := y.byPath[p].objectId;
      assert Reported(x, y, if o in x.byObject then Moved(o, x.byObject[o].path, p) else Added(p, o));
    } else {
      var b, d := x.byPath[p], y.byPath[p];
      assert Reported(x, y, if b.objectId != d.objectId then Recreated(p, b.objectId, d.objectId) else UpdateOf(b, d));
    }
  }

  /** Any difference between the indexed contents is reported. */
  lemma DifferenceIsReported(x: Index, y: Index)
    requires Coherent(x) && Coherent(y)
    requires x.rootManifest != y.rootManifest || x.byPath != y.byPath || x.buried != y.buried ||
      x.excluded != y.excluded
    ensures exists c :: Reported(x, y, c)
  {
    if x.rootManifest != y.rootManifest {
      assert Reported(x, y, RootChanges(x, y)[0]);
    } else if x.byPath != y.byPath {
      var p :| p in x.byPath.Keys + y.byPath.Keys && (p in x.byPath && p in y.byPath ==> x.byPath[p] != y.byPath[p]);
      PathDifferenceIsReported(x, y, p);
    } else if x.buried != y.buried {
      var k :| k in x.buried.Keys + y.buried.Keys && (k in x.buried && k in y.buried ==> x.buried[k] != y.buried[k]);
      assert Reported(x, y, if k in y.buried then TombstoneAdded(k.0, k.1) else TombstoneRemoved(k.0, k.1));
    } else {
      var p :| p in x.excluded.Keys + y.excluded.Keys &&
        (p in x.excluded && p in y.excluded ==> x.excluded[p] != y.excluded[p]);
      assert Reported(x, y,
                      if p in y.excluded then ExclusionAdded(p, y.excluded[p].kind)
                      else ExclusionRemoved(p, x.excluded[p].kind));
    }
  }

  /** A Version does not differ from itself. */
  lemma NothingDiffersFromItself(x: Index, c: Change)
    ensures !Reported(x, x, c)
  {}

  lemma EmptyIffSameContents(older: Version, newer: Version, x: Index, y: Index, changes: seq<Change>)
    requires OrderedPaths(older) && OrderedPaths(newer)
    requires Coherent(x) && Coherent(y) && IndexOf(x, older) && IndexOf(y, newer) && IsReport(x, y, changes)
    ensures changes == [] <==> SameContents(older, newer)
  {
    if SameContents(older, newer) {
      SameIndexes(older, newer, x, y);
      forall c { NothingDiffersFromItself(x, c); }
      EmptyOrNot(changes);
    } else {
      if x.rootManifest == y.rootManifest && x.byPath == y.byPath && x.buried == y.buried && x.excluded == y.excluded {
        SameEntriesSameLists(older, newer);
        assert false;
      }
      DifferenceIsReported(x, y);
    }
  }

  lemma SameIndexes(older: Version, newer: Version, x: Index, y: Index)
    requires SameContents(older, newer)
    requires Coherent(x) && Coherent(y) && IndexOf(x, older) && IndexOf(y, newer)
    ensures x == y
  {
    forall p ensures p in x.byPath <==> p in y.byPath {
      assert p in x.byPath ==> x.byPath[p] in older.bindings;
      assert p in y.byPath ==> y.byPath[p] in older.bindings;
    }
    forall p | p in x.byPath ensures x.byPath[p] == y.byPath[p] {
      assert x.byPath[p] in older.bindings;
    }
    assert x.byPath == y.byPath;
    forall o ensures o in x.byObject <==> o in y.byObject {
      assert o in x.byObject ==> x.byPath[x.byObject[o].path] == x.byObject[o];
      assert o in y.byObject ==> y.byPath[y.byObject[o].path] == y.byObject[o];
    }
    assert x.byObject == y.byObject;
    forall k ensures k in x.buried <==> k in y.buried {
      assert k in x.buried ==> x.buried[k] in older.tombstones;
      assert k in y.buried ==> y.buried[k] in older.tombstones;
    }
    forall k | k in x.buried ensures x.buried[k] == y.buried[k] {
      assert x.buried[k] in older.tombstones;
    }
    assert x.buried == y.buried;
    forall p ensures p in x.excluded <==> p in y.excluded {
      assert p in x.excluded ==> x.excluded[p] in older.exclusions;
      assert p in y.excluded ==> y.excluded[p] in older.exclusions;
    }
    forall p | p in x.excluded ensures x.excluded[p] == y.excluded[p] {
      assert x.excluded[p] in older.exclusions;
    }
    assert x.excluded == y.excluded;
  }

  // ---------- the whole operation ----------

  lemma SortedIsUnique<T(!new)>(s: seq<T>, key: T -> string)
    requires SortedBy(s, key)
    ensures forall a, b :: a in s && b in s && key(a) == key(b) ==> a == b
  {
    forall a, b | a in s && b in s && key(a) == key(b) ensures a == b {
      var i :| 0 <= i < |s| && s[i] == a;
      var j :| 0 <= j < |s| && s[j] == b;
      BytesTotal(key(a), key(b));
    }
  }

  lemma ValidIsUnique(v: Version, tables: Tables)
    requires Valid(v, tables)
    ensures Unique(v)
  {
    SortedVersionIsUnique(v);
  }

  lemma SortedVersionIsUnique(v: Version)
    requires SortedBy(v.bindings, (b: Binding) => b.path) && SortedBy(v.tombstones, (t: Tombstone) => t.path)
    requires SortedBy(v.exclusions, (e: Exclusion) => e.path)
    requires forall a, b :: a in v.bindings && b in v.bindings && a.objectId == b.objectId ==> a == b
    ensures Unique(v)
  {
    SortedIsUnique(v.bindings, (b: Binding) => b.path);
    SortedIsUnique(v.tombstones, (t: Tombstone) => t.path);
    SortedIsUnique(v.exclusions, (e: Exclusion) => e.path);
  }

  /** The path-to-object map of a list of bindings. */
  ghost predicate Binds(m: map<string, string>, bs: seq<Binding>) {
    && (forall b :: b in bs ==> b.path in m && m[b.path] == b.objectId)
    && (forall p :: p in m ==> exists b :: b in bs && b.path == p)
  }

  lemma BindsIsUnique(m: map<string, string>, n: map<string, string>, bs: seq<Binding>)
    requires Binds(m, bs) && Binds(n, bs)
    ensures m == n
  {
    assert forall p :: p in m ==> p in n && m[p] == n[p];
    assert forall p :: p in n ==> p in m;
  }

  /**
   Compare two Versions.  There is a difference exactly when both are valid and belong to one
   Folderbase; it tells all that differs and nothing else; replaying it on the older map of
   paths to objects gives the newer map; it is empty exactly when the contents are the same;
   and it reports every object once in its role.
   */
  method Diff(older: Version, newer: Version, tables: Tables) returns (diff: Option<seq<Change>>)
    ensures diff.Some? <==> Valid(older, tables) && Valid(newer, tables) && older.folderbaseId == newer.folderbaseId
    ensures diff.Some? ==> NoDuplicates(diff.value) && KeySorted(diff.value)
    ensures diff.Some? ==>
      forall m, n :: Binds(m, older.bindings) && Binds(n, newer.bindings) ==> Replay(m, diff.value) == n
    ensures diff.Some? ==> (diff.value == [] <==> SameContents(older, newer))
    ensures diff.Some? ==> RolesOnce(older, newer, diff.value) && TellsAll(older, newer, diff.value)
  {
    var valid := Validate(older, tables);
    if !valid {
      return None;
    }
    valid := Validate(newer, tables);
    if !valid || older.folderbaseId != newer.folderbaseId {
      return None;
    }
    ValidIsUnique(older, tables);
    ValidIsUnique(newer, tables);
    var changes := DiffUnique(older, newer);
    return Some(changes);
  }

  method DiffUnique(older: Version, newer: Version) returns (changes: seq<Change>)
    requires Unique(older) && Unique(newer) && OrderedPaths(older) && OrderedPaths(newer)
    ensures NoDuplicates(changes) && KeySorted(changes)
    ensures forall m, n :: Binds(m, older.bindings) && Binds(n, newer.bindings) ==> Replay(m, changes) == n
    ensures changes == [] <==> SameContents(older, newer)
    ensures RolesOnce(older, newer, changes) && TellsAll(older, newer, changes)
  {
    var x := BuildIndex(older);
    var y := BuildIndex(newer);
    changes := Compare(x, y);
    EmptyIffSameContents(older, newer, x, y, changes);
    ReplayGivesNewer(x, y, changes);
    RolesAreOnce(older, newer, x, y, changes);
    forall c ensures c in changes <==> Says(older, newer, c) {
      SaysWhatIsReported(older, newer, x, y, c);
    }
    forall m, n | Binds(m, older.bindings) && Binds(n, newer.bindings) ensures Replay(m, changes) == n {
      BindsIsUnique(m, Objects(x), older.bindings);
      BindsIsUnique(n, Objects(y), newer.bindings);
    }
  }
}
