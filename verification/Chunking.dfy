/**
 Content-defined chunking.  A list of pieces is a chunking when every piece ends where its own
 rolling hash first says so; the chunker finds the only one.
 */
module Chunking {
  import opened Prelude

  type Bytes = seq<bv8>

  const ALGORITHM := "folderbase-cdc-v1+sha256"
  const TWO_TO_THE_32 := 0x1_0000_0000
  const TWO_TO_THE_64 := 0x1_0000_0000_0000_0000

  type Size = n: nat | n < TWO_TO_THE_64

  datatype Config = Config(minimum: Size, average: Size, maximum: Size) {
    predicate Valid() {
      0 < minimum <= average <= maximum && PowerOfTwo(average)
    }
  }

  predicate PowerOfTwo(n: nat) {
    n == 1 || (n > 1 && n % 2 == 0 && PowerOfTwo(n / 2))
  }

  datatype Descriptor = Descriptor(index: nat, offset: nat, bytes: nat, digest: string)

  datatype Manifest = Manifest(algorithm: string, objectDigest: string, bytes: nat, chunks: seq<Descriptor>)

  // ---------- where pieces end ----------

  /** Rotate left by one, add the byte times an odd constant, in 64 bits. */
  function Roll(rolling: bv64, byte: bv8): bv64 {
    rolling.RotateLeft(1) + (byte as bv64) * 0x9e37_79b1
  }

  /** The low bits of a byte show in the hash. */
  lemma RollTellsLowBits(r: bv64, a: bv8, b: bv8)
    requires Roll(r, a) == Roll(r, b)
    ensures a & 7 == b & 7
  {}

  lemma RollTellsMoreBits(r: bv64, a: bv8, b: bv8)
    requires Roll(r, a) == Roll(r, b)
    ensures a & 63 == b & 63
  {
    RollTellsLowBits(r, a, b);
  }

  /** A byte shows in the hash, whatever was rolled in before it. */
  lemma RollTellsByte(r: bv64, a: bv8, b: bv8)
    requires Roll(r, a) == Roll(r, b)
    ensures a == b
  {
    RollTellsMoreBits(r, a, b);
  }

  lemma RollTellsPast(r: bv64, s: bv64)
    ensures Roll(r, 0) == Roll(s, 0) ==> r == s
  {}

  function RollingHash(piece: Bytes): bv64 {
    if piece == [] then 0 else Roll(RollingHash(piece[..|piece| - 1]), piece[|piece| - 1])
  }

  /** Pieces that differ in their last byte only have different hashes. */
  lemma LastByteChangesHash(before: Bytes, a: bv8, b: bv8)
    requires a != b
    ensures RollingHash(before + [a]) != RollingHash(before + [b])
  {
    var x, y := before + [a], before + [b];
    assert x[..|x| - 1] == before && y[..|y| - 1] == before;
    if RollingHash(x) == RollingHash(y) {
      RollTellsByte(RollingHash(before), a, b);
    }
  }

  function Mask(config: Config): bv64
    requires config.Valid()
  {
    (config.average - 1) as bv64
  }

  predicate Boundary(rolling: bv64, length: nat, mask: bv64, config: Config) {
    (length >= config.minimum && rolling & mask == 0) || length >= config.maximum
  }

  /** The rolling hash of the bytes so far ends the piece here. */
  predicate Ends(piece: Bytes, config: Config)
    requires config.Valid()
  {
    Boundary(RollingHash(piece), |piece|, Mask(config), config)
  }

  /** When a piece ends, as a judgement on its bytes alone. */
  type Rule = Bytes -> bool

  function RuleOf(config: Config): Rule
    requires config.Valid()
  {
    piece => Ends(piece, config)
  }

  /** A piece that goes on until the rule first ends it. */
  ghost predicate Unbroken(piece: Bytes, ends: Rule) {
    forall n :: 1 <= n < |piece| ==> !ends(piece[..n])
  }

  /** Every piece ends where the rule first says so; only the last may end before, with the input. */
  ghost predicate IsChunking(pieces: seq<Bytes>, ends: Rule) {
    && (forall k :: 0 <= k < |pieces| ==> pieces[k] != [] && Unbroken(pieces[k], ends))
    && (forall k :: 0 <= k < |pieces| - 1 ==> ends(pieces[k]))
  }

  function Concat(pieces: seq<Bytes>): Bytes {
    if pieces == [] then [] else pieces[0] + Concat(pieces[1..])
  }

  lemma {:induction false} ConcatAppend(pieces: seq<Bytes>, more: seq<Bytes>)
    ensures Concat(pieces + more) == Concat(pieces) + Concat(more)
  {
    if pieces != [] {
      ConcatAppend(pieces[1..], more);
      assert (pieces + more)[1..] == pieces[1..] + more;
    } else {
      assert pieces + more == more;
    }
  }

  lemma UnbrokenIsShort(piece: Bytes, n: nat, config: Config)
    requires config.Valid() && Unbroken(piece, RuleOf(config)) && 1 <= n < |piece|
    ensures n < config.maximum
  {
    assert !RuleOf(config)(piece[..n]);
  }

  /** All but the last piece reach the minimum, and none passes the maximum. */
  lemma PiecesAreBounded(pieces: seq<Bytes>, config: Config, k: nat)
    requires config.Valid() && IsChunking(pieces, RuleOf(config)) && k < |pieces|
    ensures 1 <= |pieces[k]| <= config.maximum
    ensures k < |pieces| - 1 ==> |pieces[k]| >= config.minimum
  {
    if |pieces[k]| > 1 {
      UnbrokenIsShort(pieces[k], |pieces[k]| - 1, config);
    }
  }

  // ---------- there is one chunking ----------

  lemma FrontsAgree(p: Bytes, q: Bytes, a: Bytes, b: Bytes)
    requires |p| <= |q| && p + a == q + b
    ensures q[..|p|] == p
  {
    assert p == (p + a)[..|p|];
  }

  /** An ended piece at the front of some bytes reaches the end of any unbroken one there. */
  lemma EndsNoEarlier(p: Bytes, q: Bytes, a: Bytes, b: Bytes, ends: Rule)
    requires Unbroken(q, ends) && p != [] && p + a == q + b
    requires a == [] || ends(p)
    ensures |p| >= |q|
  {
    assert |p + a| == |q + b|;
    if |p| < |q| {
      FrontsAgree(p, q, a, b);
    }
  }

  /** Two pieces at the front of the same bytes are the same piece. */
  lemma FirstPiecesAgree(p: Bytes, q: Bytes, a: Bytes, b: Bytes, ends: Rule)
    requires Unbroken(p, ends) && Unbroken(q, ends) && p != [] && q != []
    requires p + a == q + b
    requires a == [] || ends(p)
    requires b == [] || ends(q)
    ensures p == q && a == b
  {
    EndsNoEarlier(p, q, a, b, ends);
    EndsNoEarlier(q, p, b, a, ends);
    FrontsAgree(p, q, a, b);
    assert a == (p + a)[|p|..] && b == (q + b)[|q|..];
  }

  /** There is one way to chunk given bytes. */
  lemma {:induction false} ChunkingIsUnique(x: seq<Bytes>, y: seq<Bytes>, ends: Rule)
    requires IsChunking(x, ends) && IsChunking(y, ends) && Concat(x) == Concat(y)
    ensures x == y
  {
    if x != [] && y != [] {
      assert x[1..] == [] ==> Concat(x[1..]) == [];
      assert y[1..] == [] ==> Concat(y[1..]) == [];
      FirstPiecesAgree(x[0], y[0], Concat(x[1..]), Concat(y[1..]), ends);
      ChunkingIsUnique(x[1..], y[1..], ends);
      assert x == [x[0]] + x[1..] && y == [y[0]] + y[1..];
    }
  }

  /**
   Cuts after a boundary depend only on later bytes: where two inputs are the same from a
   boundary of both on, so are their pieces.
   */
  lemma SharedSuffixSharesPieces(x: seq<Bytes>, i: nat, y: seq<Bytes>, j: nat, suffix: Bytes, ends: Rule)
    requires IsChunking(x, ends) && IsChunking(y, ends) && i <= |x| && j <= |y|
    requires Concat(x) == Concat(x[..i]) + suffix && Concat(y) == Concat(y[..j]) + suffix
    ensures x[i..] == y[j..]
  {
    RestIsSuffix(x, i, suffix);
    RestIsSuffix(y, j, suffix);
    ChunkingIsUnique(x[i..], y[j..], ends);
  }

  lemma RestIsSuffix(x: seq<Bytes>, i: nat, suffix: Bytes)
    requires i <= |x| && Concat(x) == Concat(x[..i]) + suffix
    ensures Concat(x[i..]) == suffix
  {
    ConcatAppend(x[..i], x[i..]);
    assert x[..i] + x[i..] == x;
    var front := Concat(x[..i]);
    assert Concat(x[i..]) == (front + Concat(x[i..]))[|front|..] && suffix == (front + suffix)[|front|..];
  }

  // ---------- the manifest ----------

  /** The description of piece `k` that starts at `offset`; the index is cut to 32 bits. */
  function Describe(k: nat, offset: nat, piece: Bytes, sha: Bytes -> string): Descriptor {
    Descriptor(k % TWO_TO_THE_32, offset, |piece|, sha(piece))
  }

  ghost predicate Listed(descriptors: seq<Descriptor>, pieces: seq<Bytes>, sha: Bytes -> string) {
    && |descriptors| == |pieces|
    && forall k :: 0 <= k < |pieces| ==> descriptors[k] == Describe(k, |Concat(pieces[..k])|, pieces[k], sha)
  }

  /** The manifest describes these pieces. */
  ghost predicate Describes(m: Manifest, pieces: seq<Bytes>, sha: Bytes -> string) {
    && m.algorithm == ALGORITHM && m.objectDigest == sha(Concat(pieces)) && m.bytes == |Concat(pieces)|
    && Listed(m.chunks, pieces, sha)
  }

  /** Split bytes at rolling, content-defined boundaries. */
  method ChunkContent(bytes: Bytes, config: Config, sha: Bytes -> string)
    returns (r: Option<Manifest>, ghost pieces: seq<Bytes>)
    requires |bytes| < TWO_TO_THE_64
    ensures r.Some? <==> config.Valid()
    ensures r.Some? ==> Concat(pieces) == bytes && IsChunking(pieces, RuleOf(config)) && Describes(r.value, pieces, sha)
  {
    pieces := [];
    if !config.Valid() {
      return None, pieces;
    }
    var descriptors;
    descriptors, pieces := Scan(bytes, config, sha, RuleOf(config));
    return Some(Manifest(ALGORITHM, sha(bytes), |bytes|, descriptors)), pieces;
  }

  predicate Follows(ends: Rule, piece: Bytes, config: Config)
    requires config.Valid()
  {
    ends(piece) <==> Ends(piece, config)
  }

  /** Go through the bytes once; the rolling state starts over after every cut. */
  method Scan(bytes: Bytes, config: Config, sha: Bytes -> string, ghost ends: Rule)
    returns (descriptors: seq<Descriptor>, ghost pieces: seq<Bytes>)
    requires config.Valid() && forall piece :: Follows(ends, piece, config)
    ensures Concat(pieces) == bytes && IsChunking(pieces, ends) && Listed(descriptors, pieces, sha)
  {
    descriptors, pieces := [], [];
    var start := 0;
    var rolling: bv64 := 0;
    for index := 0 to |bytes|
      invariant start <= index && rolling == RollingHash(bytes[start..index]) && Quiet(bytes, start, index + 1, ends)
      invariant Concat(pieces) == bytes[..start] && Closed(pieces, ends) && Listed(descriptors, pieces, sha)
    {
      var cut;
      rolling, cut := Step(bytes, start, index, rolling, config, ends);
      if cut {
        PieceCloses(bytes, start, index + 1, pieces, descriptors, ends, sha);
        descriptors := descriptors + [Describe(|descriptors|, start, bytes[start..index + 1], sha)];
        pieces := pieces + [bytes[start..index + 1]];
        start := index + 1;
        rolling := 0;
      }
    }
    if start < |bytes| {
      LastPiece(bytes, start, pieces, descriptors, ends, sha);
      descriptors := descriptors + [Describe(|descriptors|, start, bytes[start..], sha)];
      pieces := pieces + [bytes[start..]];
    }
  }

  /** Take in one byte, and decide whether the piece ends with it. */
  method Step(bytes: Bytes, start: nat, index: nat, rolling: bv64, config: Config, ghost ends: Rule)
    returns (rolled: bv64, cut: bool)
    requires config.Valid() && forall piece :: Follows(ends, piece, config)
    requires start <= index < |bytes| && rolling == RollingHash(bytes[start..index])
    ensures rolled == RollingHash(bytes[start..index + 1]) && cut == ends(bytes[start..index + 1])
  {
    rolled := Roll(rolling, bytes[index]);
    cut := Boundary(rolled, index + 1 - start, Mask(config), config);
    HashRolls(bytes, start, index);
    assert Follows(ends, bytes[start..index + 1], config);
  }

  lemma HashRolls(bytes: Bytes, start: nat, index: nat)
    requires start <= index < |bytes|
    ensures RollingHash(bytes[start..index + 1]) == Roll(RollingHash(bytes[start..index]), bytes[index])
  {
    var piece := bytes[start..index + 1];
    assert piece[..|piece| - 1] == bytes[start..index];
  }

  /** No piece from `start` ends before `end`. */
  ghost predicate Quiet(bytes: Bytes, start: nat, end: nat, ends: Rule)
    requires end <= |bytes| + 1
  {
    forall e :: start < e < end ==> !ends(bytes[start..e])
  }

  /** Pieces all of which the rule ended. */
  ghost predicate Closed(pieces: seq<Bytes>, ends: Rule) {
    forall k :: 0 <= k < |pieces| ==> pieces[k] != [] && Unbroken(pieces[k], ends) && ends(pieces[k])
  }

  /** One more piece follows those listed. */
  lemma ListOneMore(bytes: Bytes, start: nat, end: nat, pieces: seq<Bytes>, descriptors: seq<Descriptor>,
                    sha: Bytes -> string)
    requires start <= end <= |bytes| && Concat(pieces) == bytes[..start] && Listed(descriptors, pieces, sha)
    ensures var piece := bytes[start..end];
      Concat(pieces + [piece]) == bytes[..end] &&
        Listed(descriptors + [Describe(|descriptors|, start, piece, sha)], pieces + [piece], sha)
  {
    var piece := bytes[start..end];
    ConcatAppend(pieces, [piece]);
    assert Concat([piece]) == piece + Concat([]);
    assert forall k :: 0 <= k <= |pieces| ==> (pieces + [piece])[..k] == pieces[..k];
    assert pieces[..|pieces|] == pieces;
  }

  lemma PieceIsUnbroken(bytes: Bytes, start: nat, end: nat, ends: Rule)
    requires start < end <= |bytes| && Quiet(bytes, start, end, ends)
    ensures Unbroken(bytes[start..end], ends)
  {
    var piece := bytes[start..end];
    forall n | 1 <= n < |piece| ensures !ends(piece[..n]) {
      assert piece[..n] == bytes[start..start + n];
    }
  }

  lemma PieceCloses(bytes: Bytes, start: nat, end: nat, pieces: seq<Bytes>, descriptors: seq<Descriptor>, ends: Rule,
                    sha: Bytes -> string)
    requires start < end <= |bytes| && Concat(pieces) == bytes[..start] && Quiet(bytes, start, end, ends)
    requires ends(bytes[start..end]) && Closed(pieces, ends) && Listed(descriptors, pieces, sha)
    ensures var piece := bytes[start..end];
      && Concat(pieces + [piece]) == bytes[..end] && Closed(pieces + [piece], ends)
      && Listed(descriptors + [Describe(|descriptors|, start, piece, sha)], pieces + [piece], sha)
  {
    PieceIsUnbroken(bytes, start, end, ends);
    ListOneMore(bytes, start, end, pieces, descriptors, sha);
  }

  lemma LastPiece(bytes: Bytes, start: nat, pieces: seq<Bytes>, descriptors: seq<Descriptor>, ends: Rule,
                  sha: Bytes -> string)
    requires start < |bytes| && Concat(pieces) == bytes[..start] && Quiet(bytes, start, |bytes| + 1, ends)
    requires Closed(pieces, ends) && Listed(descriptors, pieces, sha)
    ensures var piece := bytes[start..];
      && Concat(pieces + [piece]) == bytes && IsChunking(pieces + [piece], ends)
      && Listed(descriptors + [Describe(|descriptors|, start, piece, sha)], pieces + [piece], sha)
  {
    assert bytes[start..] == bytes[start..|bytes|] && bytes[..|bytes|] == bytes;
    PieceIsUnbroken(bytes, start, |bytes|, ends);
    ListOneMore(bytes, start, |bytes|, pieces, descriptors, sha);
  }
}
