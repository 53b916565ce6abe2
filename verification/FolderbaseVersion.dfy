/**
 A Folderbase Version: the full state of one Folderbase boundary, what makes it valid, and
 the validator that decides it with collision and ownership indexes.

 Text is one character per UTF-8 byte.  The Unicode tables (NFC and full case folding) and
 calendar arithmetic are parameters.
 */
module FolderbaseVersion {
  import opened Prelude
  import opened Encoding
  import opened PortablePaths
  import opened Boundaries

  const VERSION_FORMAT_V1 := "folderbase-version-v1"
  const PATH_POLICY_FORMAT_V1 := "folderbase-portable-path-v1"
  const MANIFEST_PATH := ".folderbase/manifest.json"
  const MANIFEST_OWNER := "__folderbase_root_manifest__"
  const MAX_VERSION_ENTRIES := 16384
  const MAX_OBJECT_BYTES: nat := 1099511627776
  const MAX_ROOT_MANIFEST_BYTES: nat := 16777216

  datatype PathPolicy = PathPolicy(
    format: string,
    normalization: string,
    normalizationVersion: string,
    caseFolding: string,
    caseFoldingVersion: string)

  datatype RootManifest = RootManifest(path: string, objectVersionId: string, contentSha256: string, bytes: nat)

  datatype Binding =
    | DirectoryBinding(path: string, objectId: string)
    | FileBinding(path: string, objectId: string, versionId: string, contentSha256: string, bytes: nat,
                  executable: bool)
    | LinkBinding(path: string, objectId: string, versionId: string, target: string)
  {
    function ObjectVersion(): Option<string> {
      if DirectoryBinding? then None else Some(versionId)
    }
  }

  datatype DeletedKind = DeletedDirectory | DeletedFile | DeletedLink

  datatype Tombstone = Tombstone(path: string, objectId: string, deletedKind: DeletedKind,
                                 lastVersionId: Option<string>)

  datatype ExclusionKind = NestedFolderbase | HardLink | Fifo | Socket | BlockDevice | CharacterDevice | OtherSpecial

  datatype ExclusionReason = NestedFolderbaseBoundary | UnsupportedV1

  datatype Exclusion = Exclusion(path: string, kind: ExclusionKind, reason: ExclusionReason)

  datatype Version = Version(
    format: string,
    protocol: string,
    folderbaseId: string,
    versionId: string,
    parents: seq<string>,
    createdAt: string,
    pathPolicy: PathPolicy,
    rootManifest: RootManifest,
    bindings: seq<Binding>,
    tombstones: seq<Tombstone>,
    exclusions: seq<Exclusion>)

  /** Library tables the validator consults. */
  datatype Tables = Tables(nfc: string -> string, fold: string -> string, calendar: string -> bool)

  // ---------- syntax ----------

  /** Canonical hyphenated text of a UUID of version 1 through 8 in the standard variant. */
  predicate CanonicalUuid(s: string) {
    && |s| == 36
    && s[8] == s[13] == s[18] == s[23] == '-'
    && (forall k :: 0 <= k < 36 && k != 8 && k != 13 && k != 18 && k != 23 ==> LowerHex(s[k]))
    && '1' <= s[14] <= '8'
    && s[19] in "89ab"
  }

  predicate PrefixedUuid(s: string, prefix: string) {
    prefix <= s && CanonicalUuid(s[|prefix|..])
  }

  // ---------- validity, stated entry by entry and pair by pair ----------

  predicate ValidHeader(v: Version, tables: Tables) {
    && v.format == VERSION_FORMAT_V1
    && v.protocol in ["0.4", "0.5"]
    && PrefixedUuid(v.folderbaseId, "folderbase_")
    && PrefixedUuid(v.versionId, "fbversion_")
    && |v.parents| <= 2
    && (forall k :: 0 <= k < |v.parents| ==> PrefixedUuid(v.parents[k], "fbversion_") && v.parents[k] != v.versionId)
    && (|v.parents| == 2 ==> v.parents[0] != v.parents[1])
    && |v.createdAt| == 20 && tables.calendar(v.createdAt)
    && v.pathPolicy == PathPolicy(PATH_POLICY_FORMAT_V1, "NFC", "17.0.0", "full-default", "9.0.0")
    && v.rootManifest.path == MANIFEST_PATH
    && PrefixedUuid(v.rootManifest.objectVersionId, "version_")
    && Sha256Text(v.rootManifest.contentSha256)
    && 0 < v.rootManifest.bytes <= MAX_ROOT_MANIFEST_BYTES
    && |v.bindings| + |v.tombstones| + |v.exclusions| <= MAX_VERSION_ENTRIES
    && (v.protocol == "0.4" ==> RequiredFile(v, ".folderbaseignore") && RequiredFile(v, "FOLDERBASE.md"))
  }

  predicate RequiredFile(v: Version, path: string) {
    exists k :: 0 <= k < |v.bindings| && v.bindings[k].FileBinding? && v.bindings[k].path == path
  }

  predicate ValidBinding(b: Binding) {
    && IsPortablePath(b.path)
    && PrefixedUuid(b.objectId, "obj_")
    && (!b.DirectoryBinding? ==> PrefixedUuid(b.versionId, "version_"))
    && (b.FileBinding? ==> Sha256Text(b.contentSha256) && b.bytes <= MAX_OBJECT_BYTES)
  }

  predicate ValidExclusion(e: Exclusion) {
    IsPortablePath(e.path) && (e.kind == NestedFolderbase <==> e.reason == NestedFolderbaseBoundary)
  }

  predicate ValidTombstone(t: Tombstone) {
    && IsPortablePath(t.path)
    && PrefixedUuid(t.objectId, "obj_")
    && (t.lastVersionId.Some? ==> PrefixedUuid(t.lastVersionId.value, "version_"))
    && (t.deletedKind == DeletedDirectory <==> t.lastVersionId.None?)
  }

  function BindingPaths(bs: seq<Binding>): (r: seq<string>)
    ensures |r| == |bs| && forall k :: 0 <= k < |bs| ==> r[k] == bs[k].path
  {
    seq(|bs|, k requires 0 <= k < |bs| => bs[k].path)
  }

  function TombstonePaths(ts: seq<Tombstone>): (r: seq<string>)
    ensures |r| == |ts| && forall k :: 0 <= k < |ts| ==> r[k] == ts[k].path
  {
    seq(|ts|, k requires 0 <= k < |ts| => ts[k].path)
  }

  function ExclusionPaths(es: seq<Exclusion>): (r: seq<string>)
    ensures |r| == |es| && forall k :: 0 <= k < |es| ==> r[k] == es[k].path
  {
    seq(|es|, k requires 0 <= k < |es| => es[k].path)
  }

  ghost predicate StrictlySorted(paths: seq<string>) {
    forall i, j :: 0 <= i < j < |paths| ==> BytesBefore(paths[i], paths[j])
  }

  /** Two paths that a portable file system might confuse. */
  predicate Collide(p: string, q: string, tables: Tables) {
    p == q || tables.nfc(p) == tables.nfc(q) || tables.fold(p) == tables.fold(q)
  }

  ghost predicate CollisionFree(paths: seq<string>, tables: Tables) {
    forall i, j :: 0 <= i < j < |paths| ==> !Collide(paths[i], paths[j], tables)
  }

  /** A tombstone may share its path only with a live binding of another object. */
  ghost predicate TombstoneFits(t: Tombstone, v: Version, tables: Tables) {
    && (forall k :: 0 <= k < |v.bindings| ==>
          if v.bindings[k].path == t.path then v.bindings[k].objectId != t.objectId
          else Listed(v, t.path) || !Collide(v.bindings[k].path, t.path, tables))
    && (forall k :: 0 <= k < |v.exclusions| ==>
          v.exclusions[k].path != t.path && (Listed(v, t.path) || !Collide(v.exclusions[k].path, t.path, tables)))
  }

  predicate Listed(v: Version, path: string) {
    exists k :: 0 <= k < |v.bindings| && v.bindings[k].path == path
  }

  /** An Object Version and the object that names it. */
  datatype Claim = Claim(versionId: string, owner: string)

  function BindingClaims(bs: seq<Binding>): seq<Claim> {
    if bs == [] then []
    else BindingClaims(bs[..|bs| - 1]) +
         (var b := bs[|bs| - 1]; if b.DirectoryBinding? then [] else [Claim(b.versionId, b.objectId)])
  }

  function TombstoneClaims(ts: seq<Tombstone>): seq<Claim> {
    if ts == [] then []
    else TombstoneClaims(ts[..|ts| - 1]) +
         (var t := ts[|ts| - 1]; if t.lastVersionId.None? then [] else [Claim(t.lastVersionId.value, t.objectId)])
  }

  function Claims(v: Version): seq<Claim> {
    [Claim(v.rootManifest.objectVersionId, MANIFEST_OWNER)] + BindingClaims(v.bindings) + TombstoneClaims(v.tombstones)
  }

  /** No Object Version belongs to two objects. */
  ghost predicate SingleOwners(claims: seq<Claim>) {
    forall i, j :: 0 <= i < |claims| && 0 <= j < |claims| && claims[i].versionId == claims[j].versionId ==>
      claims[i].owner == claims[j].owner
  }

  /** The folded nested boundaries. */
  function FoldedBoundaries(es: seq<Exclusion>, tables: Tables): (r: set<string>)
    ensures forall b :: b in r <==>
      exists k :: 0 <= k < |es| && es[k].kind == NestedFolderbase && b == tables.fold(es[k].path)
  {
    set k | 0 <= k < |es| && es[k].kind == NestedFolderbase :: tables.fold(es[k].path)
  }

  /** Boundaries are an antichain, nothing else lies beneath one, and links stay out of them. */
  ghost predicate Contained(v: Version, tables: Tables) {
    var boundaries := FoldedBoundaries(v.exclusions, tables);
    && (forall a, b :: a in boundaries && b in boundaries ==> !Beneath(a, b))
    && (forall k, b :: 0 <= k < |v.bindings| && b in boundaries ==> !Beneath(tables.fold(v.bindings[k].path), b))
    && (forall k, b :: 0 <= k < |v.tombstones| && b in boundaries ==> !Beneath(tables.fold(v.tombstones[k].path), b))
    && (forall k, b :: 0 <= k < |v.exclusions| && b in boundaries ==> !Beneath(tables.fold(v.exclusions[k].path), b))
    && (forall k :: 0 <= k < |v.bindings| && v.bindings[k].LinkBinding? ==>
          LinkInside(v.bindings[k].path, v.bindings[k].target, boundaries, tables.fold))
  }

  ghost predicate OrderedPaths(v: Version) {
    && StrictlySorted(BindingPaths(v.bindings))
    && StrictlySorted(TombstonePaths(v.tombstones))
    && StrictlySorted(ExclusionPaths(v.exclusions))
  }

  /** Each binding is well formed, and each live object is bound to one path. */
  ghost predicate SoundBindings(bs: seq<Binding>) {
    && (forall k :: 0 <= k < |bs| ==> ValidBinding(bs[k]))
    && (forall i, j :: 0 <= i < j < |bs| ==> bs[i].objectId != bs[j].objectId)
  }

  ghost predicate SoundExclusions(es: seq<Exclusion>) {
    forall k :: 0 <= k < |es| ==> ValidExclusion(es[k])
  }

  /** Bound and excluded paths share one collision-free path space. */
  ghost predicate CurrentPathsFree(v: Version, tables: Tables) {
    CollisionFree(BindingPaths(v.bindings) + ExclusionPaths(v.exclusions), tables)
  }

  ghost predicate SoundTombstones(v: Version, tables: Tables) {
    && CollisionFree(TombstonePaths(v.tombstones), tables)
    && (forall k :: 0 <= k < |v.tombstones| ==>
          ValidTombstone(v.tombstones[k]) && TombstoneFits(v.tombstones[k], v, tables))
  }

  ghost predicate Valid(v: Version, tables: Tables) {
    && ValidHeader(v, tables)
    && OrderedPaths(v)
    && SoundBindings(v.bindings)
    && SoundExclusions(v.exclusions)
    && CurrentPathsFree(v, tables)
    && SoundTombstones(v, tables)
    && SingleOwners(Claims(v))
    && Contained(v, tables)
  }
}
