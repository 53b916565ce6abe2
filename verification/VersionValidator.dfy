/** Deciding validity of a Folderbase Version with one pass over its entries and three indexes. */
module VersionValidator {
  import opened Prelude
  import opened PortablePaths
  import opened Boundaries
  import opened FolderbaseVersion

  /** The map holds exactly these paths, each under its key. */
  ghost predicate Keyed(m: map<string, string>, paths: seq<string>, key: string -> string) {
    && (forall k :: k in m ==> m[k] in paths && key(m[k]) == k)
    && (forall p :: p in paths ==> key(p) in m && m[key(p)] == p)
  }

  /** The map holds exactly these paths, each with its owner. */
  ghost predicate Owned(m: map<string, Option<string>>, paths: seq<string>, owners: seq<Option<string>>) {
    && |owners| == |paths|
    && (forall p :: p in m <==> p in paths)
    && (forall k :: 0 <= k < |paths| ==> paths[k] in m && m[paths[k]] == owners[k])
  }

  lemma OwnedExtends(m: map<string, Option<string>>, paths: seq<string>, owners: seq<Option<string>>, path: string,
                     owner: Option<string>)
    requires Owned(m, paths, owners) && path !in m
    ensures Owned(m[path := owner], paths + [path], owners + [owner])
  {}

  lemma KeyedExtends(m: map<string, string>, paths: seq<string>, key: string -> string, path: string)
    requires Keyed(m, paths, key) && key(path) !in m
    ensures Keyed(m[key(path) := path], paths + [path], key)
  {}

  /** The portable paths seen so far, by exact text, by NFC form and by folded form. */
  class CollisionIndex {
    const tables: Tables
    var exact: map<string, Option<string>>
    var nfc: map<string, string>
    var folded: map<string, string>
    ghost var paths: seq<string>
    ghost var owners: seq<Option<string>>

    ghost predicate Holds()
      reads this
    {
      && CollisionFree(paths, tables)
      && Owned(exact, paths, owners)
      && Keyed(nfc, paths, tables.nfc)
      && Keyed(folded, paths, tables.fold)
    }

    constructor (tables: Tables)
      ensures Holds() && paths == [] && owners == [] && this.tables == tables
    {
      this.tables := tables;
      exact, nfc, folded, paths, owners := map[], map[], map[], [], [];
    }

    /** Add a path unless it collides with one already there. */
    method Insert(path: string, owner: Option<string>) returns (ok: bool)
      requires Holds()
      modifies this
      ensures ok <==> CollisionFree(old(paths) + [path], tables)
      ensures ok ==> Holds() && paths == old(paths) + [path] && owners == old(owners) + [owner]
    {
      CollidesOrExtends(paths, path, tables);
      if path in exact {
        assert Collide(path, path, tables);
        return false;
      }
      if tables.nfc(path) in nfc {
        assert Collide(nfc[tables.nfc(path)], path, tables);
        return false;
      }
      if tables.fold(path) in folded {
        assert Collide(folded[tables.fold(path)], path, tables);
        return false;
      }
      OwnedExtends(exact, paths, owners, path, owner);
      KeyedExtends(nfc, paths, tables.nfc, path);
      KeyedExtends(folded, paths, tables.fold, path);
      exact := exact[path := owner];
      nfc := nfc[tables.nfc(path) := path];
      folded := folded[tables.fold(path) := path];
      paths, owners := paths + [path], owners + [owner];
      return true;
    }

    /** The owner recorded for exactly this path. */
    method Owner(path: string) returns (r: Option<Option<string>>)
      requires Holds()
      ensures r.None? <==> path !in paths
      ensures r.Some? ==> forall k :: 0 <= k < |paths| && paths[k] == path ==> owners[k] == r.value
    {
      return if path in exact then Some(exact[path]) else None;
    }

    /** Refuse a path that is not there but collides with one that is. */
    method RejectAlias(path: string) returns (ok: bool)
      requires Holds() && path !in paths
      ensures ok <==> forall q :: q in paths ==> !Collide(q, path, tables)
    {
      if tables.nfc(path) in nfc {
        assert Collide(nfc[tables.nfc(path)], path, tables);
      }
      if tables.fold(path) in folded {
        assert Collide(folded[tables.fold(path)], path, tables);
      }
      return tables.nfc(path) !in nfc && tables.fold(path) !in folded;
    }
  }

  lemma CollidesOrExtends(paths: seq<string>, path: string, tables: Tables)
    requires CollisionFree(paths, tables)
    ensures CollisionFree(paths + [path], tables) <==> forall q :: q in paths ==> !Collide(q, path, tables)
  {
    var more := paths + [path];
    if CollisionFree(more, tables) {
      forall q | q in paths ensures !Collide(q, path, tables) {
        var i :| 0 <= i < |paths| && paths[i] == q;
        assert !Collide(more[i], more[|paths|], tables);
      }
    }
  }

  lemma OneMore<T>(before: seq<T>, more: seq<T>, n: nat)
    requires n < |more|
    ensures before + more[..n] + [more[n]] == before + more[..n + 1] == (before + more)[..|before| + n + 1]
  {}

  /** Insert a list of paths, each with its owner. */
  method InsertAll(index: CollisionIndex, more: seq<string>, owners: seq<Option<string>>) returns (ok: bool)
    requires index.Holds() && |owners| == |more|
    modifies index
    ensures ok <==> CollisionFree(old(index.paths) + more, index.tables)
    ensures ok ==> index.Holds() && index.paths == old(index.paths) + more && index.owners == old(index.owners) + owners
  {
    ghost var before, all := index.paths, index.paths + more;
    for n := 0 to |more|
      invariant index.Holds() && index.paths == before + more[..n] && index.owners == old(index.owners) + owners[..n]
    {
      OneMore(before, more, n);
      OneMore(old(index.owners), owners, n);
      ok := index.Insert(more[n], owners[n]);
      if !ok {
        return false;
      }
    }
    assert more[..|more|] == more && owners[..|owners|] == owners;
    return true;
  }

  method CheckOrder(paths: seq<string>) returns (ok: bool)
    ensures ok <==> StrictlySorted(paths)
  {
    if |paths| == 0 {
      return true;
    }
    for n := 1 to |paths|
      invariant StrictlySorted(paths[..n])
    {
      if !BytesBefore(paths[n - 1], paths[n]) {
        return false;
      }
      forall i | 0 <= i < n ensures BytesBefore(paths[i], paths[n]) {
        if i < n - 1 {
          assert BytesBefore(paths[..n][i], paths[..n][n - 1]);
          BytesTransitive(paths[i], paths[n - 1], paths[n]);
        }
      }
    }
    assert paths[..|paths|] == paths;
    return true;
  }

  /** Every Object Version goes into the owner map; a second owner is refused. */
  method CheckOwners(claims: seq<Claim>) returns (ok: bool)
    ensures ok <==> SingleOwners(claims)
  {
    var owners: map<string, string> := map[];
    for n := 0 to |claims|
      invariant forall k :: 0 <= k < n ==>
        claims[k].versionId in owners && owners[claims[k].versionId] == claims[k].owner
      invariant forall id :: id in owners ==>
        exists k :: 0 <= k < n && claims[k].versionId == id && claims[k].owner == owners[id]
    {
      var c := claims[n];
      if c.versionId in owners && owners[c.versionId] != c.owner {
        return false;
      }
      owners := owners[c.versionId := c.owner];
    }
    return true;
  }

  method CheckDistinct(ids: seq<string>) returns (ok: bool)
    ensures ok <==> forall i, j :: 0 <= i < j < |ids| ==> ids[i] != ids[j]
  {
    var seen: set<string> := {};
    for n := 0 to |ids|
      invariant forall k :: 0 <= k < n ==> ids[k] in seen
      invariant forall id :: id in seen ==> id in ids[..n]
      invariant forall i, j :: 0 <= i < j < n ==> ids[i] != ids[j]
    {
      if ids[n] in seen {
        return false;
      }
      seen := seen + {ids[n]};
      assert ids[..n + 1] == ids[..n] + [ids[n]];
    }
    return true;
  }

  function ObjectIds(bs: seq<Binding>): (r: seq<string>)
    ensures |r| == |bs| && forall k :: 0 <= k < |bs| ==> r[k] == bs[k].objectId
  {
    seq(|bs|, k requires 0 <= k < |bs| => bs[k].objectId)
  }

  /** Identifiers and paths of the bindings, and one path per live object. */
  method CheckBindings(bs: seq<Binding>) returns (ok: bool)
    ensures ok <==> SoundBindings(bs)
  {
    if exists k :: 0 <= k < |bs| && !ValidBinding(bs[k]) {
      return false;
    }
    ok := CheckDistinct(ObjectIds(bs));
  }

  function Owners(bs: seq<Binding>): (r: seq<Option<string>>)
    ensures |r| == |bs| && forall k :: 0 <= k < |bs| ==> r[k] == Some(bs[k].objectId)
  {
    seq(|bs|, k requires 0 <= k < |bs| => Some(bs[k].objectId))
  }

  /** The tombstone rule, over the joint list of bound and excluded paths. */
  ghost predicate FitsPaths(t: Tombstone, paths: seq<string>, owners: seq<Option<string>>, tables: Tables)
    requires |owners| == |paths|
  {
    && (forall k :: 0 <= k < |paths| && paths[k] == t.path ==> owners[k].Some? && owners[k].value != t.objectId)
    && (t.path !in paths ==> forall q :: q in paths ==> !Collide(q, t.path, tables))
  }

  function JointPaths(v: Version): seq<string> {
    BindingPaths(v.bindings) + ExclusionPaths(v.exclusions)
  }

  function JointOwners(v: Version): (r: seq<Option<string>>)
    ensures |r| == |v.bindings| + |v.exclusions|
  {
    Owners(v.bindings) + seq(|v.exclusions|, _ => None)
  }

  lemma JointAt(v: Version, k: nat)
    requires k < |v.bindings| + |v.exclusions|
    ensures k < |v.bindings| ==>
      JointPaths(v)[k] == v.bindings[k].path && JointOwners(v)[k] == Some(v.bindings[k].objectId)
    ensures k >= |v.bindings| ==> JointPaths(v)[k] == v.exclusions[k - |v.bindings|].path && JointOwners(v)[k] == None
    ensures JointPaths(v)[k] in JointPaths(v)
  {}

  /** The joint list says what the two lists say. */
  lemma FitsPathsIsFits(t: Tombstone, v: Version, tables: Tables)
    ensures TombstoneFits(t, v, tables) <==> FitsPaths(t, JointPaths(v), JointOwners(v), tables)
  {
    var nb := |v.bindings|;
    var paths, owners := JointPaths(v), JointOwners(v);
    if TombstoneFits(t, v, tables) {
      forall k: nat | k < |paths| && paths[k] == t.path
        ensures owners[k].Some? && owners[k].value != t.objectId
      {
        JointAt(v, k);
      }
      forall q | t.path !in paths && q in paths ensures !Collide(q, t.path, tables) {
        var k: nat :| k < |paths| && paths[k] == q;
        JointAt(v, k);
        forall j: nat | j < nb ensures v.bindings[j].path != t.path { JointAt(v, j); }
      }
    }
    if FitsPaths(t, paths, owners, tables) {
      forall k: nat | k < |v.exclusions| ensures v.exclusions[k].path != t.path { JointAt(v, nb + k); }
      forall k: nat | k < nb
        ensures if v.bindings[k].path == t.path then v.bindings[k].objectId != t.objectId
                else Listed(v, t.path) || !Collide(v.bindings[k].path, t.path, tables)
      {
        JointAt(v, k);
      }
      forall k: nat | k < |v.exclusions|
        ensures Listed(v, t.path) || !Collide(v.exclusions[k].path, t.path, tables)
      {
        JointAt(v, nb + k);
      }
    }
  }

  /** Whether one tombstone fits the current paths the index holds. */
  method CheckTombstone(t: Tombstone, v: Version, index: CollisionIndex) returns (ok: bool)
    requires Indexes(index, v)
    ensures ok <==> TombstoneFits(t, v, index.tables)
  {
    FitsPathsIsFits(t, v, index.tables);
    var owner := index.Owner(t.path);
    if owner.Some? {
      return owner.value.Some? && owner.value.value != t.objectId;
    }
    ok := index.RejectAlias(t.path);
  }

  /** No path of the list, folded, lies beneath a boundary. */
  method CheckOutside(paths: seq<string>, boundaries: set<string>, tables: Tables) returns (ok: bool)
    ensures ok <==> forall k, b :: 0 <= k < |paths| && b in boundaries ==> !Beneath(tables.fold(paths[k]), b)
  {
    for n := 0 to |paths|
      invariant forall k, b :: 0 <= k < n && b in boundaries ==> !Beneath(tables.fold(paths[k]), b)
    {
      var under := ContainsAncestor(boundaries, tables.fold(paths[n]), false);
      if under {
        return false;
      }
    }
    return true;
  }

  /** Containment, by probing ancestors only: no comparison of paths with all boundaries. */
  method CheckContained(v: Version, tables: Tables) returns (ok: bool)
    ensures ok <==> Contained(v, tables)
  {
    var boundaries := FoldedBoundaries(v.exclusions, tables);
    ghost var paths := ExclusionPaths(v.exclusions);
    var exclusions := CheckOutside(ExclusionPaths(v.exclusions), boundaries, tables);
    var bindings := CheckOutside(BindingPaths(v.bindings), boundaries, tables);
    var tombstones := CheckOutside(TombstonePaths(v.tombstones), boundaries, tables);
    if !exclusions || !bindings || !tombstones {
      return false;
    }
    for n := 0 to |v.bindings|
      invariant forall k :: 0 <= k < n && v.bindings[k].LinkBinding? ==>
        LinkInside(v.bindings[k].path, v.bindings[k].target, boundaries, tables.fold)
    {
      if v.bindings[n].LinkBinding? {
        var inside := ValidateSymlinkTarget(v.bindings[n].path, v.bindings[n].target, boundaries, tables.fold);
        if !inside {
          return false;
        }
      }
    }
    return true;
  }

  /** A new index with a list of paths in it. */
  method IndexPaths(paths: seq<string>, owners: seq<Option<string>>, tables: Tables)
    returns (ok: bool, index: CollisionIndex)
    requires |owners| == |paths|
    ensures index.tables == tables
    ensures ok <==> CollisionFree(paths, tables)
    ensures ok ==> index.Holds() && index.paths == paths && index.owners == owners
    ensures fresh(index)
  {
    index := new CollisionIndex(tables);
    assert [] + paths == paths && [] + owners == owners;
    ok := InsertAll(index, paths, owners);
  }

  /** The index holds the bound and excluded paths of the Version. */
  ghost predicate Indexes(index: CollisionIndex, v: Version)
    reads index
  {
    && index.Holds()
    && index.paths == JointPaths(v)
    && index.owners == JointOwners(v)
  }

  /** The tombstones' own path space. */
  method CheckTombstonePaths(ts: seq<Tombstone>, tables: Tables) returns (ok: bool)
    ensures ok <==> CollisionFree(TombstonePaths(ts), tables)
  {
    var index;
    ok, index := IndexPaths(TombstonePaths(ts), seq(|ts|, _ => None), tables);
  }

  /** Tombstones: their own fields, and their fit with the current paths. */
  method CheckTombstones(v: Version, index: CollisionIndex) returns (ok: bool)
    requires Indexes(index, v)
    ensures ok <==> forall k :: 0 <= k < |v.tombstones| ==>
      ValidTombstone(v.tombstones[k]) && TombstoneFits(v.tombstones[k], v, index.tables)
  {
    for n := 0 to |v.tombstones|
      invariant forall k :: 0 <= k < n ==>
        ValidTombstone(v.tombstones[k]) && TombstoneFits(v.tombstones[k], v, index.tables)
    {
      var fits := CheckTombstone(v.tombstones[n], v, index);
      if !fits || !ValidTombstone(v.tombstones[n]) {
        return false;
      }
    }
    return true;
  }

  /** Bound paths first, then excluded paths, into one index. */
  method IndexCurrentPaths(v: Version, tables: Tables) returns (ok: bool, index: CollisionIndex)
    ensures index.tables == tables
    ensures ok <==> CurrentPathsFree(v, tables)
    ensures ok ==> Indexes(index, v)
  {
    JointFree(BindingPaths(v.bindings), ExclusionPaths(v.exclusions), tables);
    ok, index := IndexPaths(BindingPaths(v.bindings), Owners(v.bindings), tables);
    if ok {
      ok := InsertAll(index, ExclusionPaths(v.exclusions), seq(|v.exclusions|, _ => None));
    }
  }

  lemma JointFree(first: seq<string>, second: seq<string>, tables: Tables)
    ensures CollisionFree(first + second, tables) ==> CollisionFree(first, tables)
  {
    assert (first + second)[..|first|] == first;
  }

  method CheckOrders(v: Version) returns (ok: bool)
    ensures ok <==> OrderedPaths(v)
  {
    ok := CheckOrder(BindingPaths(v.bindings));
    if ok {
      ok := CheckOrder(TombstonePaths(v.tombstones));
    }
    if ok {
      ok := CheckOrder(ExclusionPaths(v.exclusions));
    }
  }

  /** Validate a Version; the indexes decide exactly what the pairwise definition asks. */
  method Validate(v: Version, tables: Tables) returns (ok: bool)
    ensures ok <==> Valid(v, tables)
  {
    if !ValidHeader(v, tables) {
      return false;
    }
    ok := CheckOrders(v);
    if !ok {
      return false;
    }
    ok := CheckBindings(v.bindings);
    if !ok {
      return false;
    }
    if exists k :: 0 <= k < |v.exclusions| && !ValidExclusion(v.exclusions[k]) {
      return false;
    }
    ok := CheckTombstonePaths(v.tombstones, tables);
    if !ok {
      return false;
    }
    var index;
    ok, index := IndexCurrentPaths(v, tables);
    if !ok {
      return false;
    }
    ok := CheckTombstones(v, index);
    if !ok {
      return false;
    }
    ok := CheckOwners(Claims(v));
    if !ok {
      return false;
    }
    ok := CheckContained(v, tables);
  }

  /** A checkout takes every link of a valid Version, and each leads to no nested boundary. */
  lemma ValidLinksAreSafe(v: Version, tables: Tables, k: nat)
    requires Valid(v, tables) && k < |v.bindings| && v.bindings[k].LinkBinding?
    ensures SafeTarget(v.bindings[k].path, v.bindings[k].target)
    ensures var resolved := Resolve(ParentOf(v.bindings[k].path), Split(v.bindings[k].target));
      resolved.Some? && forall b :: b in FoldedBoundaries(v.exclusions, tables) && Join(resolved.value) != "" ==>
        tables.fold(Join(resolved.value)) != b && !Beneath(tables.fold(Join(resolved.value)), b)
  {
    VersionLinksAreSafe(v.bindings[k].path, v.bindings[k].target, FoldedBoundaries(v.exclusions, tables), tables.fold);
  }
}
