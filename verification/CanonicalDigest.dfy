/** The canonical bytes of a Version, and that no two valid Versions share them. */
module CanonicalDigest {
  import opened Prelude
  import opened Encoding
  import opened PortablePaths
  import opened Boundaries
  import opened FolderbaseVersion
  import opened VersionValidator

  const DIGEST_TAG := "folderbase-version-v1\0"

  function ByteOf(n: nat): Bytes { BigEndian(n, 1) }

  function BindingTag(b: Binding): (r: nat)
    ensures r < 3
  {
    match b
    case DirectoryBinding(_, _) => 0
    case FileBinding(_, _, _, _, _, _) => 1
    case LinkBinding(_, _, _, _) => 2
  }

  /** What a binding's kind adds. */
  function BindingBody(b: Binding): Bytes {
    match b
    case DirectoryBinding(_, _) => ""
    case FileBinding(_, _, version, sha, bytes, executable) =>
      Field(version, 4) + (DecodeHex(sha) + (BigEndian(bytes, 8) + ByteOf(if executable then 1 else 0)))
    case LinkBinding(_, _, version, target) => Fields([version, target, "relative-within-folderbase"], 4)
  }

  function EncodeBinding(b: Binding): Bytes {
    Fields([b.path, b.objectId, "live"], 4) + (ByteOf(BindingTag(b)) + BindingBody(b))
  }

  function DeletedKindTag(k: DeletedKind): (r: nat)
    ensures r < 3
  {
    match k
    case DeletedDirectory => 0
    case DeletedFile => 1
    case DeletedLink => 2
  }

  function EncodeTombstone(t: Tombstone): Bytes {
    Fields([t.path, t.objectId, "deleted"], 4) +
    (ByteOf(DeletedKindTag(t.deletedKind)) +
    (ByteOf(if t.lastVersionId.Some? then 1 else 0) + LastVersion(t)))
  }

  function LastVersion(t: Tombstone): Bytes {
    if t.lastVersionId.Some? then Field(t.lastVersionId.value, 4) else ""
  }

  function ExclusionKindTag(k: ExclusionKind): (r: nat)
    ensures r < 7
  {
    match k
    case NestedFolderbase => 0
    case HardLink => 1
    case Fifo => 2
    case Socket => 3
    case BlockDevice => 4
    case CharacterDevice => 5
    case OtherSpecial => 6
  }

  function ReasonText(r: ExclusionReason): string {
    match r
    case NestedFolderbaseBoundary => "nested-folderbase-boundary"
    case UnsupportedV1 => "unsupported-v1"
  }

  function EncodeExclusion(e: Exclusion): Bytes {
    Field(e.path, 4) + (ByteOf(ExclusionKindTag(e.kind)) + Field(ReasonText(e.reason), 4))
  }

  function HeaderFields(v: Version): seq<string> {
    [v.createdAt, v.pathPolicy.format, v.pathPolicy.normalization, v.pathPolicy.normalizationVersion,
     v.pathPolicy.caseFolding, v.pathPolicy.caseFoldingVersion, v.rootManifest.path, v.rootManifest.objectVersionId]
  }

  /** The entries: three counted lists. */
  function EncodeEntries(v: Version): Bytes {
    BigEndian(|v.bindings|, 4) + (Sequence(v.bindings, EncodeBinding) +
    (BigEndian(|v.tombstones|, 4) + (Sequence(v.tombstones, EncodeTombstone) +
    (BigEndian(|v.exclusions|, 4) + Sequence(v.exclusions, EncodeExclusion)))))
  }

  /** The header parts, and the entries after them. */
  function EncodeParts(ids: seq<string>, parents: seq<string>, header: seq<string>, sha: string, bytes: nat,
                       entries: Bytes): Bytes {
    DIGEST_TAG + (Fields(ids, 4) +
    (ByteOf(|parents|) + (Fields(parents, 4) +
    (Fields(header, 4) + (DecodeHex(sha) +
    (BigEndian(bytes, 8) + entries))))))
  }

  function Ids(v: Version): seq<string> {
    [v.protocol, v.folderbaseId, v.versionId]
  }

  /** The bytes the canonical digest hashes. */
  function Preimage(v: Version): Bytes {
    EncodeParts(Ids(v), v.parents, HeaderFields(v),
                v.rootManifest.contentSha256, v.rootManifest.bytes, EncodeEntries(v))
  }

  // ---------- sizes a valid Version keeps ----------

  lemma Powers()
    ensures Power256(1) == 256 && Power256(4) == 4294967296 && Power256(8) == 18446744073709551616
  {
    assert Power256(2) == 65536;
    assert Power256(3) == 16777216;
    assert Power256(5) == 1099511627776;
    assert Power256(6) == 281474976710656;
    assert Power256(7) == 72057594037927936;
  }

  predicate Short(s: string) { |s| < 4294967296 }

  predicate SizedBinding(b: Binding) {
    && Short(b.path) && Short(b.objectId)
    && (!b.DirectoryBinding? ==> Short(b.versionId))
    && (b.FileBinding? ==> Sha256Text(b.contentSha256) && b.bytes <= MAX_OBJECT_BYTES)
    && (b.LinkBinding? ==> Short(b.target))
  }

  predicate SizedTombstone(t: Tombstone) {
    Short(t.path) && Short(t.objectId) && (t.lastVersionId.Some? ==> Short(t.lastVersionId.value))
  }

  predicate SizedExclusion(e: Exclusion) { Short(e.path) }

  // ---------- each entry is read back ----------

  lemma TagPrefix(m: nat, n: nat, x: Bytes, y: Bytes)
    requires m < 256 && n < 256 && ByteOf(m) + x == ByteOf(n) + y
    ensures m == n && x == y
  {
    Powers();
    NumberPrefix(m, n, 1, x, y);
  }

  lemma BindingBodyPrefix(a: Binding, b: Binding, x: Bytes, y: Bytes)
    requires SizedBinding(a) && SizedBinding(b) && BindingTag(a) == BindingTag(b)
    requires a.path == b.path && a.objectId == b.objectId
    requires BindingBody(a) + x == BindingBody(b) + y
    ensures a == b && x == y
  {
    Powers();
    match a
    case DirectoryBinding(_, _) =>
      assert "" + x == x && "" + y == y;
    case FileBinding(_, _, version, sha, bytes, executable) =>
      var tailA := DecodeHex(sha) + (BigEndian(bytes, 8) + ByteOf(if executable then 1 else 0));
      var tailB := DecodeHex(b.contentSha256) + (BigEndian(b.bytes, 8) + ByteOf(if b.executable then 1 else 0));
      Regroup2(Field(version, 4), tailA, x);
      Regroup2(Field(b.versionId, 4), tailB, y);
      FieldPrefix(version, b.versionId, 4, tailA + x, tailB + y);
      FileTailPrefix(sha, bytes, executable, b.contentSha256, b.bytes, b.executable, x, y);
    case LinkBinding(_, _, version, target) =>
      FieldsPrefix([version, target, "relative-within-folderbase"],
                   [b.versionId, b.target, "relative-within-folderbase"], 4, x, y);
      assert [version, target, "relative-within-folderbase"][1] ==
        [b.versionId, b.target, "relative-within-folderbase"][1];
  }

  lemma FileTailPrefix(sha: string, bytes: nat, executable: bool, sha2: string, bytes2: nat, executable2: bool,
                       x: Bytes, y: Bytes)
    requires Sha256Text(sha) && Sha256Text(sha2) && bytes <= MAX_OBJECT_BYTES && bytes2 <= MAX_OBJECT_BYTES
    requires (DecodeHex(sha) + (BigEndian(bytes, 8) + ByteOf(if executable then 1 else 0))) + x ==
             (DecodeHex(sha2) + (BigEndian(bytes2, 8) + ByteOf(if executable2 then 1 else 0))) + y
    ensures sha == sha2 && bytes == bytes2 && executable == executable2 && x == y
  {
    Powers();
    var flag, flag2 := if executable then 1 else 0, if executable2 then 1 else 0;
    var restA, restB := ByteOf(flag) + x, ByteOf(flag2) + y;
    Regroup3(DecodeHex(sha), BigEndian(bytes, 8), ByteOf(flag), x);
    Regroup3(DecodeHex(sha2), BigEndian(bytes2, 8), ByteOf(flag2), y);
    PrefixSplits(DecodeHex(sha), DecodeHex(sha2), BigEndian(bytes, 8) + restA, BigEndian(bytes2, 8) + restB);
    DecodeHexInjective(sha, sha2);
    NumberPrefix(bytes, bytes2, 8, restA, restB);
    TagPrefix(flag, flag2, x, y);
  }

  lemma BindingPrefix(a: Binding, b: Binding, x: Bytes, y: Bytes)
    requires SizedBinding(a) && SizedBinding(b) && EncodeBinding(a) + x == EncodeBinding(b) + y
    ensures a == b && x == y
  {
    Powers();
    var fieldsA, fieldsB := [a.path, a.objectId, "live"], [b.path, b.objectId, "live"];
    var tailA, tailB := BindingBody(a) + x, BindingBody(b) + y;
    Regroup3(Fields(fieldsA, 4), ByteOf(BindingTag(a)), BindingBody(a), x);
    Regroup3(Fields(fieldsB, 4), ByteOf(BindingTag(b)), BindingBody(b), y);
    FieldsPrefix(fieldsA, fieldsB, 4, ByteOf(BindingTag(a)) + tailA, ByteOf(BindingTag(b)) + tailB);
    assert fieldsA[0] == fieldsB[0] && fieldsA[1] == fieldsB[1];
    TagPrefix(BindingTag(a), BindingTag(b), tailA, tailB);
    BindingBodyPrefix(a, b, x, y);
  }

  lemma TombstonePrefix(a: Tombstone, b: Tombstone, x: Bytes, y: Bytes)
    requires SizedTombstone(a) && SizedTombstone(b) && EncodeTombstone(a) + x == EncodeTombstone(b) + y
    ensures a == b && x == y
  {
    Powers();
    var fieldsA, fieldsB := [a.path, a.objectId, "deleted"], [b.path, b.objectId, "deleted"];
    var some, some2 := if a.lastVersionId.Some? then 1 else 0, if b.lastVersionId.Some? then 1 else 0;
    var lastA, lastB := LastVersion(a) + x, LastVersion(b) + y;
    var kindA, kindB := DeletedKindTag(a.deletedKind), DeletedKindTag(b.deletedKind);
    Regroup4(Fields(fieldsA, 4), ByteOf(kindA), ByteOf(some), LastVersion(a), x);
    Regroup4(Fields(fieldsB, 4), ByteOf(kindB), ByteOf(some2), LastVersion(b), y);
    FieldsPrefix(fieldsA, fieldsB, 4, ByteOf(kindA) + (ByteOf(some) + lastA), ByteOf(kindB) + (ByteOf(some2) + lastB));
    assert fieldsA[0] == fieldsB[0] && fieldsA[1] == fieldsB[1];
    TagPrefix(kindA, kindB, ByteOf(some) + lastA, ByteOf(some2) + lastB);
    TagPrefix(some, some2, lastA, lastB);
    if a.lastVersionId.Some? {
      FieldPrefix(a.lastVersionId.value, b.lastVersionId.value, 4, x, y);
    } else {
      assert "" + x == x && "" + y == y;
    }
  }

  lemma ExclusionPrefix(a: Exclusion, b: Exclusion, x: Bytes, y: Bytes)
    requires SizedExclusion(a) && SizedExclusion(b) && EncodeExclusion(a) + x == EncodeExclusion(b) + y
    ensures a == b && x == y
  {
    Powers();
    var kindA, kindB := ExclusionKindTag(a.kind), ExclusionKindTag(b.kind);
    var reasonA, reasonB := Field(ReasonText(a.reason), 4) + x, Field(ReasonText(b.reason), 4) + y;
    Regroup3(Field(a.path, 4), ByteOf(kindA), Field(ReasonText(a.reason), 4), x);
    Regroup3(Field(b.path, 4), ByteOf(kindB), Field(ReasonText(b.reason), 4), y);
    FieldPrefix(a.path, b.path, 4, ByteOf(kindA) + reasonA, ByteOf(kindB) + reasonB);
    TagPrefix(kindA, kindB, reasonA, reasonB);
    FieldPrefix(ReasonText(a.reason), ReasonText(b.reason), 4, x, y);
    assert ReasonText(NestedFolderbaseBoundary)[0] != ReasonText(UnsupportedV1)[0];
  }

  lemma EntriesArePrefixInjective()
    ensures PrefixInjective(EncodeBinding, SizedBinding)
    ensures PrefixInjective(EncodeTombstone, SizedTombstone)
    ensures PrefixInjective(EncodeExclusion, SizedExclusion)
  {
    forall a, b, x, y | SizedBinding(a) && SizedBinding(b) && EncodeBinding(a) + x == EncodeBinding(b) + y
      ensures a == b && x == y
    {
      BindingPrefix(a, b, x, y);
    }
    forall a, b, x, y | SizedTombstone(a) && SizedTombstone(b) && EncodeTombstone(a) + x == EncodeTombstone(b) + y
      ensures a == b && x == y
    {
      TombstonePrefix(a, b, x, y);
    }
    forall a, b, x, y | SizedExclusion(a) && SizedExclusion(b) && EncodeExclusion(a) + x == EncodeExclusion(b) + y
      ensures a == b && x == y
    {
      ExclusionPrefix(a, b, x, y);
    }
  }

  // ---------- the whole Version is read back ----------

  ghost predicate SizedEntries(v: Version) {
    && |v.bindings| < 4294967296 && |v.tombstones| < 4294967296 && |v.exclusions| < 4294967296
    && (forall k :: 0 <= k < |v.bindings| ==> SizedBinding(v.bindings[k]))
    && (forall k :: 0 <= k < |v.tombstones| ==> SizedTombstone(v.tombstones[k]))
    && (forall k :: 0 <= k < |v.exclusions| ==> SizedExclusion(v.exclusions[k]))
  }

  ghost predicate SizedHeader(v: Version) {
    && Short(v.protocol) && Short(v.folderbaseId) && Short(v.versionId)
    && |v.parents| < 256 && AllShort(v.parents) && AllShort(HeaderFields(v))
    && Sha256Text(v.rootManifest.contentSha256) && v.rootManifest.bytes <= MAX_ROOT_MANIFEST_BYTES
  }

  lemma ValidHeaderIsSized(v: Version, tables: Tables)
    requires ValidHeader(v, tables)
    ensures SizedHeader(v)
  {
    forall k | 0 <= k < |v.parents| ensures Short(v.parents[k]) {
      assert PrefixedUuid(v.parents[k], "fbversion_");
    }
  }

  lemma ValidIsSized(v: Version, tables: Tables)
    requires Valid(v, tables)
    ensures SizedHeader(v) && SizedEntries(v)
  {
    ValidHeaderIsSized(v, tables);
    forall k | 0 <= k < |v.bindings| ensures SizedBinding(v.bindings[k]) {
      assert ValidBinding(v.bindings[k]);
    }
    forall k | 0 <= k < |v.tombstones| ensures SizedTombstone(v.tombstones[k]) {
      assert ValidTombstone(v.tombstones[k]);
    }
    forall k | 0 <= k < |v.exclusions| ensures SizedExclusion(v.exclusions[k]) {
      assert ValidExclusion(v.exclusions[k]);
    }
  }

  lemma EntriesInjective(v: Version, w: Version)
    requires SizedEntries(v) && SizedEntries(w) && EncodeEntries(v) == EncodeEntries(w)
    ensures v.bindings == w.bindings && v.tombstones == w.tombstones && v.exclusions == w.exclusions
  {
    Powers();
    EntriesArePrefixInjective();
    var ev, ew := Sequence(v.exclusions, EncodeExclusion), Sequence(w.exclusions, EncodeExclusion);
    var cv, cw := BigEndian(|v.exclusions|, 4) + ev, BigEndian(|w.exclusions|, 4) + ew;
    var tv, tw := Sequence(v.tombstones, EncodeTombstone) + cv, Sequence(w.tombstones, EncodeTombstone) + cw;
    var dv, dw := BigEndian(|v.tombstones|, 4) + tv, BigEndian(|w.tombstones|, 4) + tw;
    var bv_, bw := Sequence(v.bindings, EncodeBinding) + dv, Sequence(w.bindings, EncodeBinding) + dw;
    NumberPrefix(|v.bindings|, |w.bindings|, 4, bv_, bw);
    SequencePrefix(v.bindings, w.bindings, EncodeBinding, SizedBinding, dv, dw);
    NumberPrefix(|v.tombstones|, |w.tombstones|, 4, tv, tw);
    SequencePrefix(v.tombstones, w.tombstones, EncodeTombstone, SizedTombstone, cv, cw);
    NumberPrefix(|v.exclusions|, |w.exclusions|, 4, ev, ew);
    assert ev + "" == ev && ew + "" == ew;
    SequencePrefix(v.exclusions, w.exclusions, EncodeExclusion, SizedExclusion, "", "");
  }

  ghost predicate AllShort(values: seq<string>) {
    forall k :: 0 <= k < |values| ==> Short(values[k])
  }

  /** The header parts are read back one after the other. */
  lemma PartsInjective(i: seq<string>, p: seq<string>, h: seq<string>, s: string, n: nat, e: Bytes,
                       i2: seq<string>, p2: seq<string>, h2: seq<string>, s2: string, n2: nat, e2: Bytes)
    requires AllShort(i) && AllShort(i2) && AllShort(p) && AllShort(p2) && AllShort(h) && AllShort(h2)
    requires |i| == |i2| && |h| == |h2| && |p| < 256 && |p2| < 256
    requires Sha256Text(s) && Sha256Text(s2) && n <= MAX_ROOT_MANIFEST_BYTES && n2 <= MAX_ROOT_MANIFEST_BYTES
    requires EncodeParts(i, p, h, s, n, e) == EncodeParts(i2, p2, h2, s2, n2, e2)
    ensures i == i2 && p == p2 && h == h2 && s == s2 && n == n2 && e == e2
  {
    Powers();
    var afterSha, afterSha2 := BigEndian(n, 8) + e, BigEndian(n2, 8) + e2;
    var afterHeader, afterHeader2 := DecodeHex(s) + afterSha, DecodeHex(s2) + afterSha2;
    var afterParents, afterParents2 := Fields(h, 4) + afterHeader, Fields(h2, 4) + afterHeader2;
    var afterCount, afterCount2 := Fields(p, 4) + afterParents, Fields(p2, 4) + afterParents2;
    var afterIds, afterIds2 := ByteOf(|p|) + afterCount, ByteOf(|p2|) + afterCount2;
    PrefixSplits(DIGEST_TAG, DIGEST_TAG, Fields(i, 4) + afterIds, Fields(i2, 4) + afterIds2);
    FieldsPrefix(i, i2, 4, afterIds, afterIds2);
    TagPrefix(|p|, |p2|, afterCount, afterCount2);
    FieldsPrefix(p, p2, 4, afterParents, afterParents2);
    FieldsPrefix(h, h2, 4, afterHeader, afterHeader2);
    PrefixSplits(DecodeHex(s), DecodeHex(s2), afterSha, afterSha2);
    DecodeHexInjective(s, s2);
    NumberPrefix(n, n2, 8, e, e2);
  }

  lemma SizedPreimageInjective(v: Version, w: Version)
    requires SizedHeader(v) && SizedHeader(w) && SizedEntries(v) && SizedEntries(w)
    requires v.format == w.format && Preimage(v) == Preimage(w)
    ensures v == w
  {
    SameParts(v, w);
    SamePartsSameVersion(v, w);
  }

  lemma SameParts(v: Version, w: Version)
    requires SizedHeader(v) && SizedHeader(w) && Preimage(v) == Preimage(w)
    ensures Ids(v) == Ids(w) && v.parents == w.parents && HeaderFields(v) == HeaderFields(w)
    ensures v.rootManifest.contentSha256 == w.rootManifest.contentSha256 && v.rootManifest.bytes == w.rootManifest.bytes
    ensures EncodeEntries(v) == EncodeEntries(w)
  {
    IdsAreShort(v);
    IdsAreShort(w);
    PartsInjective(Ids(v), v.parents, HeaderFields(v), v.rootManifest.contentSha256, v.rootManifest.bytes,
                   EncodeEntries(v),
                   Ids(w), w.parents, HeaderFields(w), w.rootManifest.contentSha256, w.rootManifest.bytes,
                   EncodeEntries(w));
  }

  lemma IdsAreShort(v: Version)
    requires SizedHeader(v)
    ensures AllShort(Ids(v))
  {}

  lemma SamePartsSameVersion(v: Version, w: Version)
    requires SizedEntries(v) && SizedEntries(w) && EncodeEntries(v) == EncodeEntries(w)
    requires v.format == w.format && Ids(v) == Ids(w) && v.parents == w.parents && HeaderFields(v) == HeaderFields(w)
    requires v.rootManifest.contentSha256 == w.rootManifest.contentSha256 &&
      v.rootManifest.bytes == w.rootManifest.bytes
    ensures v == w
  {
    EntriesInjective(v, w);
    assert Ids(v)[0] == Ids(w)[0] && Ids(v)[1] == Ids(w)[1] && Ids(v)[2] == Ids(w)[2];
  }

  /** Two valid Versions with the same canonical bytes are the same Version. */
  lemma PreimageInjective(v: Version, w: Version, tables: Tables)
    requires Valid(v, tables) && Valid(w, tables) && Preimage(v) == Preimage(w)
    ensures v == w
  {
    ValidIsSized(v, tables);
    ValidIsSized(w, tables);
    SizedPreimageInjective(v, w);
  }

  // ---------- the hasher ----------

  /** Feed the canonical bytes of a valid Version to a hasher, piece by piece. */
  method CanonicalDigest(v: Version, tables: Tables) returns (input: Option<Bytes>)
    ensures input.Some? <==> Valid(v, tables)
    ensures input.Some? ==> input.value == Preimage(v)
  {
    var valid := Validate(v, tables);
    if !valid {
      return None;
    }
    var h := DIGEST_TAG;
    h := HashFields(h, Ids(v), 4);
    h := h + ByteOf(|v.parents|);
    h := HashFields(h, v.parents, 4);
    h := HashFields(h, HeaderFields(v), 4);
    h := h + DecodeHex(v.rootManifest.contentSha256);
    h := h + BigEndian(v.rootManifest.bytes, 8);
    h := HashSequence(h, v.bindings, EncodeBinding, 4);
    h := HashSequence(h, v.tombstones, EncodeTombstone, 4);
    h := HashSequence(h, v.exclusions, EncodeExclusion, 4);
    LeftIsRight(v);
    return Some(h);
  }

  /** The order in which the hasher is fed groups to the left; the preimage groups to the right. */
  lemma LeftIsRight(v: Version)
    ensures DIGEST_TAG + Fields(Ids(v), 4) + ByteOf(|v.parents|) + Fields(v.parents, 4)
      + Fields(HeaderFields(v), 4) + DecodeHex(v.rootManifest.contentSha256) + BigEndian(v.rootManifest.bytes, 8)
      + BigEndian(|v.bindings|, 4) + Sequence(v.bindings, EncodeBinding)
      + BigEndian(|v.tombstones|, 4) + Sequence(v.tombstones, EncodeTombstone)
      + BigEndian(|v.exclusions|, 4) + Sequence(v.exclusions, EncodeExclusion) == Preimage(v)
  {
    RegroupAll(DIGEST_TAG, Fields(Ids(v), 4), ByteOf(|v.parents|), Fields(v.parents, 4),
               Fields(HeaderFields(v), 4), DecodeHex(v.rootManifest.contentSha256), BigEndian(v.rootManifest.bytes, 8),
               BigEndian(|v.bindings|, 4), Sequence(v.bindings, EncodeBinding),
               BigEndian(|v.tombstones|, 4), Sequence(v.tombstones, EncodeTombstone),
               BigEndian(|v.exclusions|, 4), Sequence(v.exclusions, EncodeExclusion));
  }

  lemma RegroupAll(a: Bytes, b: Bytes, c: Bytes, d: Bytes, e: Bytes, f: Bytes, g: Bytes,
                   h: Bytes, i: Bytes, j: Bytes, k: Bytes, l: Bytes, m: Bytes)
    ensures a + b + c + d + e + f + g + h + i + j + k + l + m ==
            a + (b + (c + (d + (e + (f + (g + (h + (i + (j + (k + (l + m)))))))))))
  {
    var t4 := j + (k + (l + m));
    var t7 := g + (h + (i + t4));
    var t10 := d + (e + (f + t7));
    Regroup4Left(a + b + c + d + e + f + g + h + i, j, k, l, m);
    Regroup4Left(a + b + c + d + e + f, g, h, i, t4);
    Regroup4Left(a + b + c, d, e, f, t7);
    Regroup2(a + b, c, t10);
    Regroup2(a, b, c + t10);
  }

  lemma Regroup4Left(p: Bytes, a: Bytes, b: Bytes, c: Bytes, x: Bytes)
    ensures p + a + b + c + x == p + (a + (b + (c + x)))
  {
    Regroup2(p + a + b, c, x);
    Regroup2(p + a, b, c + x);
    Regroup2(p, a, b + (c + x));
  }
}
