/** Receiving the chunks of an object in any order, and putting it together again. */
module Transfer {
  import opened Prelude
  import opened Chunking

  datatype TransferError =
    | UnknownChunk(index: nat)
    | ChunkLengthMismatch(index: nat)
    | ChunkDigestMismatch(index: nat)
    | Incomplete(missing: seq<nat>)
    | ObjectDigestMismatch

  ghost predicate HashesToText(sha: Bytes -> string) {
    forall b :: |sha(b)| == 64
  }

  // ---------- manifests ----------

  function TotalOf(chunks: seq<Descriptor>): nat {
    if chunks == [] then 0 else TotalOf(chunks[..|chunks| - 1]) + chunks[|chunks| - 1].bytes
  }

  predicate ValidManifest(m: Manifest) {
    && m.algorithm == ALGORITHM && |m.objectDigest| == 64
    && (forall k :: 0 <= k < |m.chunks| ==> m.chunks[k].index == k % TWO_TO_THE_32 && |m.chunks[k].digest| == 64)
    && (m.chunks != [] ==> m.chunks[0].offset == 0)
    && (forall k :: 0 < k < |m.chunks| ==> m.chunks[k].offset == m.chunks[k - 1].offset + m.chunks[k - 1].bytes)
    && TotalOf(m.chunks) == m.bytes
  }

  predicate DistinctIndices(chunks: seq<Descriptor>) {
    forall i, j :: 0 <= i < j < |chunks| ==> chunks[i].index != chunks[j].index
  }

  /** Descriptions follow one another without gap and add up. */
  lemma {:induction false} OffsetsAddUp(chunks: seq<Descriptor>, pieces: seq<Bytes>, sha: Bytes -> string, n: nat)
    requires Listed(chunks, pieces, sha) && n <= |pieces|
    ensures TotalOf(chunks[..n]) == |Concat(pieces[..n])|
    ensures n > 0 ==> |Concat(pieces[..n])| == chunks[n - 1].offset + chunks[n - 1].bytes
  {
    if n > 0 {
      OffsetsAddUp(chunks, pieces, sha, n - 1);
      assert chunks[..n][..n - 1] == chunks[..n - 1];
      ConcatOneMore(pieces, n - 1);
    }
  }

  /** What the chunker makes, the checkpoint check accepts. */
  lemma ProducedManifestIsValid(m: Manifest, pieces: seq<Bytes>, sha: Bytes -> string)
    requires Describes(m, pieces, sha) && HashesToText(sha)
    ensures ValidManifest(m)
  {
    forall n | 0 <= n <= |pieces|
      ensures n > 0 ==> |Concat(pieces[..n])| == m.chunks[n - 1].offset + m.chunks[n - 1].bytes
    {
      OffsetsAddUp(m.chunks, pieces, sha, n);
    }
    OffsetsAddUp(m.chunks, pieces, sha, |pieces|);
    assert m.chunks[..|pieces|] == m.chunks && pieces[..|pieces|] == pieces && pieces[..0] == [];
  }

  /** Indices of 32 bits tell chunks apart exactly when there are at most 2^32 of them. */
  lemma IndicesAreDistinctIffFew(m: Manifest)
    requires ValidManifest(m)
    ensures DistinctIndices(m.chunks) <==> |m.chunks| <= TWO_TO_THE_32
  {
    if |m.chunks| > TWO_TO_THE_32 {
      assert m.chunks[0].index == m.chunks[TWO_TO_THE_32].index;
    }
  }

  // ---------- what has been received ----------

  predicate Matches(d: Descriptor, bytes: Bytes, sha: Bytes -> string) {
    |bytes| == d.bytes && sha(bytes) == d.digest
  }

  /** The first description with this index. */
  function Find(chunks: seq<Descriptor>, index: nat): (r: Option<Descriptor>)
    ensures r.None? <==> forall k :: 0 <= k < |chunks| ==> chunks[k].index != index
    ensures r.Some? ==> r.value in chunks && r.value.index == index
  {
    if chunks == [] then None
    else if chunks[0].index == index then Some(chunks[0])
    else Find(chunks[1..], index)
  }

  /** Everything held matches the description found for it. */
  ghost predicate Sound(chunks: seq<Descriptor>, received: map<nat, Bytes>, sha: Bytes -> string) {
    forall i :: i in received ==> Find(chunks, i).Some? && Matches(Find(chunks, i).value, received[i], sha)
  }

  /** The indices still missing, in order. */
  function Missing(chunks: seq<Descriptor>, received: map<nat, Bytes>): (r: seq<nat>)
    ensures forall i :: i in r <==> i !in received && Find(chunks, i).Some?
  {
    if chunks == [] then []
    else
      var init, last := chunks[..|chunks| - 1], chunks[|chunks| - 1];
      assert forall i :: Find(chunks, i).Some? <==> Find(init, i).Some? || i == last.index by {
        assert chunks == init + [last];
        assert forall k :: 0 <= k < |init| ==> chunks[k] == init[k];
      }
      Missing(init, received) + (if last.index in received then [] else [last.index])
  }

  /** The bytes the missing chunks describe. */
  function MissingBytes(chunks: seq<Descriptor>, received: map<nat, Bytes>): nat {
    if chunks == [] then 0
    else
      var last := chunks[|chunks| - 1];
      MissingBytes(chunks[..|chunks| - 1], received) + (if last.index in received then 0 else last.bytes)
  }

  /** The bytes held. */
  ghost function HeldBytes(received: map<nat, Bytes>): nat {
    if received == map[] then 0
    else
      var i :| i in received;
      |received[i]| + HeldBytes(received - {i})
  }

  lemma {:induction false} HeldWithout(received: map<nat, Bytes>, i: nat)
    requires i in received
    ensures HeldBytes(received) == |received[i]| + HeldBytes(received - {i})
    decreases |received|
  {
    var j :| j in received && HeldBytes(received) == |received[j]| + HeldBytes(received - {j});
    if j != i {
      HeldWithout(received - {j}, i);
      HeldWithout(received - {i}, j);
      assert received - {j} - {i} == received - {i} - {j};
    }
  }

  /** Received and missing bytes make up the object. */
  lemma {:induction false} BytesAreConserved(chunks: seq<Descriptor>, received: map<nat, Bytes>, sha: Bytes -> string)
    requires DistinctIndices(chunks) && Sound(chunks, received, sha)
    ensures HeldBytes(received) + MissingBytes(chunks, received) == TotalOf(chunks)
  {
    if chunks == [] {
      assert received == map[];
    } else {
      var init, last := chunks[..|chunks| - 1], chunks[|chunks| - 1];
      var rest := received - {last.index};
      forall i | i in rest ensures Find(init, i).Some? && Matches(Find(init, i).value, rest[i], sha) {
        FindInInit(chunks, i);
      }
      BytesAreConserved(init, rest, sha);
      MissingIgnores(init, received, last.index);
      if last.index in received {
        HeldWithout(received, last.index);
        FindIsUnique(chunks, |chunks| - 1);
      } else {
        assert rest == received;
      }
    }
  }

  lemma FindInInit(chunks: seq<Descriptor>, i: nat)
    requires DistinctIndices(chunks) && chunks != [] && Find(chunks, i).Some? && i != chunks[|chunks| - 1].index
    ensures Find(chunks[..|chunks| - 1], i) == Find(chunks, i)
  {
    var init := chunks[..|chunks| - 1];
    var d := Find(chunks, i).value;
    var k :| 0 <= k < |chunks| && chunks[k] == d;
    assert init[k].index == i;
    var e := Find(init, i).value;
    var j :| 0 <= j < |init| && init[j] == e;
    assert chunks[j].index == chunks[k].index;
  }

  lemma FindIsUnique(chunks: seq<Descriptor>, k: nat)
    requires DistinctIndices(chunks) && k < |chunks|
    ensures Find(chunks, chunks[k].index) == Some(chunks[k])
  {
    var d := Find(chunks, chunks[k].index).value;
    var j :| 0 <= j < |chunks| && chunks[j] == d;
  }

  lemma {:induction false} MissingIgnores(chunks: seq<Descriptor>, received: map<nat, Bytes>, i: nat)
    requires forall k :: 0 <= k < |chunks| ==> chunks[k].index != i
    ensures MissingBytes(chunks, received - {i}) == MissingBytes(chunks, received)
  {
    if chunks != [] {
      MissingIgnores(chunks[..|chunks| - 1], received, i);
    }
  }

  // ---------- putting the object together ----------

  function Assembled(chunks: seq<Descriptor>, received: map<nat, Bytes>): Bytes
    requires forall k :: 0 <= k < |chunks| ==> chunks[k].index in received
  {
    if chunks == [] then []
    else Assembled(chunks[..|chunks| - 1], received) + received[chunks[|chunks| - 1].index]
  }

  /** A chunk is held as it was cut. */
  predicate HeldAsCut(chunks: seq<Descriptor>, pieces: seq<Bytes>, received: map<nat, Bytes>, k: nat)
    requires k < |chunks| && k < |pieces| && chunks[k].index in received
  {
    received[chunks[k].index] == pieces[k]
  }

  ghost predicate FirstAsCut(chunks: seq<Descriptor>, pieces: seq<Bytes>, received: map<nat, Bytes>, n: nat)
    requires n <= |chunks| == |pieces| && forall k :: 0 <= k < |chunks| ==> chunks[k].index in received
  {
    forall k :: 0 <= k < n ==> HeldAsCut(chunks, pieces, received, k)
  }

  /** What passes for a chunk has its length and its digest. */
  lemma HeldMatches(chunks: seq<Descriptor>, pieces: seq<Bytes>, received: map<nat, Bytes>, sha: Bytes -> string,
                    k: nat)
    requires Listed(chunks, pieces, sha) && DistinctIndices(chunks) && Sound(chunks, received, sha)
    requires k < |chunks| && chunks[k].index in received
    ensures |received[chunks[k].index]| == |pieces[k]| && sha(received[chunks[k].index]) == sha(pieces[k])
  {
    FindIsUnique(chunks, k);
  }

  lemma AssembledOneMore(chunks: seq<Descriptor>, received: map<nat, Bytes>, n: nat)
    requires n < |chunks| && forall k :: 0 <= k < |chunks| ==> chunks[k].index in received
    ensures Assembled(chunks[..n + 1], received) == Assembled(chunks[..n], received) + received[chunks[n].index]
  {
    assert chunks[..n + 1][..n] == chunks[..n];
  }

  lemma {:induction false} AssembledAgrees(chunks: seq<Descriptor>, pieces: seq<Bytes>, received: map<nat, Bytes>,
                                           n: nat)
    requires n <= |chunks| == |pieces| && forall k :: 0 <= k < |chunks| ==> chunks[k].index in received
    requires forall k :: 0 <= k < |chunks| ==> |received[chunks[k].index]| == |pieces[k]|
    ensures |Assembled(chunks[..n], received)| == |Concat(pieces[..n])|
    ensures Assembled(chunks[..n], received) == Concat(pieces[..n]) <==> FirstAsCut(chunks, pieces, received, n)
  {
    if n > 0 {
      AssembledAgrees(chunks, pieces, received, n - 1);
      AssembledOneMore(chunks, received, n - 1);
      ConcatOneMore(pieces, n - 1);
      SplitsAt(Assembled(chunks[..n - 1], received), received[chunks[n - 1].index], Concat(pieces[..n - 1]),
               pieces[n - 1]);
      assert FirstAsCut(chunks, pieces, received, n) <==>
        FirstAsCut(chunks, pieces, received, n - 1) && HeldAsCut(chunks, pieces, received, n - 1);
    }
  }

  /** Whatever order the chunks came in, they make the original again exactly when each is
      held as it was cut.  Any other held chunk has the length and the digest of its piece. */
  lemma AssembledIsOriginal(chunks: seq<Descriptor>, pieces: seq<Bytes>, received: map<nat, Bytes>,
                            sha: Bytes -> string)
    requires Listed(chunks, pieces, sha) && DistinctIndices(chunks) && Sound(chunks, received, sha)
    requires forall k :: 0 <= k < |chunks| ==> chunks[k].index in received
    ensures Assembled(chunks, received) == Concat(pieces) <==>
      forall k :: 0 <= k < |chunks| ==> HeldAsCut(chunks, pieces, received, k)
    ensures |Assembled(chunks, received)| == |Concat(pieces)|
    ensures forall k :: 0 <= k < |chunks| ==>
      |received[chunks[k].index]| == |pieces[k]| && sha(received[chunks[k].index]) == sha(pieces[k])
  {
    forall k: nat | k < |chunks|
      ensures |received[chunks[k].index]| == |pieces[k]| && sha(received[chunks[k].index]) == sha(pieces[k])
    {
      HeldMatches(chunks, pieces, received, sha, k);
    }
    AssembledAgrees(chunks, pieces, received, |chunks|);
    assert chunks[..|chunks|] == chunks && pieces[..|pieces|] == pieces;
  }

  lemma SplitsAt(a: Bytes, x: Bytes, b: Bytes, y: Bytes)
    requires |a| == |b|
    ensures a + x == b + y <==> a == b && x == y
  {
    if a + x == b + y {
      assert a == (a + x)[..|a|] == (b + y)[..|a|] == b;
      assert x == (a + x)[|a|..] == (b + y)[|a|..] == y;
    }
  }

  lemma ConcatOneMore(pieces: seq<Bytes>, k: nat)
    requires k < |pieces|
    ensures Concat(pieces[..k + 1]) == Concat(pieces[..k]) + pieces[k]
  {
    ConcatAppend(pieces[..k], [pieces[k]]);
    assert pieces[..k] + [pieces[k]] == pieces[..k + 1];
    assert Concat([pieces[k]]) == pieces[k] + Concat([]);
  }

  /** One chunk offered to a transfer. */
  datatype Offer = Offer(index: nat, bytes: Bytes)

  predicate Acceptable(chunks: seq<Descriptor>, offer: Offer, sha: Bytes -> string) {
    Find(chunks, offer.index).Some? && Matches(Find(chunks, offer.index).value, offer.bytes, sha)
  }

  /** What the sender cuts out of the object for a chunk is acceptable to the receiver. */
  lemma SentChunksAreAcceptable(chunks: seq<Descriptor>, pieces: seq<Bytes>, bytes: Bytes, sha: Bytes -> string, k: nat)
    requires Listed(chunks, pieces, sha) && Concat(pieces) == bytes && DistinctIndices(chunks) && k < |chunks|
    ensures var d := chunks[k];
      && d.offset + d.bytes <= |bytes| && bytes[d.offset..d.offset + d.bytes] == pieces[k]
      && Acceptable(chunks, Offer(d.index, bytes[d.offset..d.offset + d.bytes]), sha)
  {
    var d := chunks[k];
    ConcatOneMore(pieces, k);
    ConcatAppend(pieces[..k + 1], pieces[k + 1..]);
    assert pieces[..k + 1] + pieces[k + 1..] == pieces;
    var front, rest := Concat(pieces[..k]), Concat(pieces[k + 1..]);
    assert bytes == front + pieces[k] + rest;
    assert bytes[d.offset..d.offset + d.bytes] == pieces[k];
    FindIsUnique(chunks, k);
  }

  class ResumableTransfer {
    const manifest: Manifest
    const sha: Bytes -> string
    var received: map<nat, Bytes>

    ghost predicate Valid()
      reads this
    {
      Sound(manifest.chunks, received, sha)
    }

    constructor (manifest: Manifest, sha: Bytes -> string)
      ensures Valid() && this.manifest == manifest && this.sha == sha && received == map[]
    {
      this.manifest, this.sha, received := manifest, sha, map[];
    }

    /** Take a chunk that matches its description; a repeat changes nothing. */
    method AcceptChunk(index: nat, bytes: Bytes) returns (r: Result<bool, TransferError>)
      requires Valid()
      modifies this
      ensures Valid()
      ensures r.Ok? <==> Acceptable(manifest.chunks, Offer(index, bytes), sha)
      ensures r.Ok? ==> r.value == (index !in old(received))
      ensures r.Err? && r.error.UnknownChunk? <==> Find(manifest.chunks, index).None?
      ensures received == if r.Ok? && r.value then old(received)[index := bytes] else old(received)
    {
      var expected := Find(manifest.chunks, index);
      if expected.None? {
        return Err(UnknownChunk(index));
      }
      if |bytes| != expected.value.bytes {
        return Err(ChunkLengthMismatch(index));
      }
      if sha(bytes) != expected.value.digest {
        return Err(ChunkDigestMismatch(index));
      }
      if index in received {
        return Ok(false);
      }
      received := received[index := bytes];
      return Ok(true);
    }

    method MissingChunks() returns (missing: seq<nat>)
      ensures missing == Missing(manifest.chunks, received)
    {
      missing := [];
      for k := 0 to |manifest.chunks|
        invariant missing == Missing(manifest.chunks[..k], received)
      {
        assert manifest.chunks[..k + 1][..k] == manifest.chunks[..k];
        if manifest.chunks[k].index !in received {
          missing := missing + [manifest.chunks[k].index];
        }
      }
      assert manifest.chunks[..|manifest.chunks|] == manifest.chunks;
    }

    /** However the received chunks are gone through; with what is missing, they make up the object. */
    method ReceivedBytes() returns (total: nat)
      requires Valid()
      ensures total == HeldBytes(received)
      ensures DistinctIndices(manifest.chunks) ==>
        total + MissingBytes(manifest.chunks, received) == TotalOf(manifest.chunks)
    {
      total := 0;
      var rest := received;
      while rest != map[]
        invariant total + HeldBytes(rest) == HeldBytes(received)
        decreases |rest|
      {
        var i :| i in rest;
        HeldWithout(rest, i);
        total := total + |rest[i]|;
        rest := rest - {i};
      }
      if DistinctIndices(manifest.chunks) {
        BytesAreConserved(manifest.chunks, received, sha);
      }
    }

    method Assemble() returns (r: Result<Bytes, TransferError>)
      ensures Missing(manifest.chunks, received) != [] ==> r == Err(Incomplete(Missing(manifest.chunks, received)))
      ensures Missing(manifest.chunks, received) == [] ==>
        && (forall k :: 0 <= k < |manifest.chunks| ==> manifest.chunks[k].index in received)
        && var whole := Assembled(manifest.chunks, received);
           r ==
             if |whole| == manifest.bytes && sha(whole) == manifest.objectDigest then Ok(whole)
             else Err(ObjectDigestMismatch)
    {
      var missing := MissingChunks();
      if missing != [] {
        return Err(Incomplete(missing));
      }
      NothingMissing(manifest.chunks, received);
      var assembled: Bytes := [];
      for k := 0 to |manifest.chunks|
        invariant assembled == Assembled(manifest.chunks[..k], received)
      {
        assert manifest.chunks[..k + 1][..k] == manifest.chunks[..k];
        assembled := assembled + received[manifest.chunks[k].index];
      }
      assert manifest.chunks[..|manifest.chunks|] == manifest.chunks;
      if |assembled| != manifest.bytes || sha(assembled) != manifest.objectDigest {
        return Err(ObjectDigestMismatch);
      }
      return Ok(assembled);
    }

    /** Any offers, in any order, with repeats and corrupt bytes: what is held is what some offer brought. */
    method Receive(offers: seq<Offer>)
      requires Valid()
      modifies this
      ensures Valid()
      ensures forall i :: i in old(received) ==> i in received && received[i] == old(received)[i]
      ensures forall i :: i in received <==> i in old(received) || Brought(manifest.chunks, offers, i, sha)
      ensures forall i :: i in received && i !in old(received) ==> Offer(i, received[i]) in offers
    {
      for n := 0 to |offers|
        invariant Valid()
        invariant Gathered(manifest.chunks, offers[..n], sha, old(received), received)
      {
        ghost var before := received;
        var _ := AcceptChunk(offers[n].index, offers[n].bytes);
        GatherOneMore(manifest.chunks, offers, n, sha, old(received), before, received);
      }
      assert offers[..|offers|] == offers;
    }
  }

  /** What was held stays; what else is held was brought by an offer, byte for byte. */
  ghost predicate Gathered(chunks: seq<Descriptor>, offers: seq<Offer>, sha: Bytes -> string, start: map<nat, Bytes>,
                           held: map<nat, Bytes>) {
    && (forall i :: i in start ==> i in held && held[i] == start[i])
    && (forall i :: i in held <==> i in start || Brought(chunks, offers, i, sha))
    && (forall i :: i in held && i !in start ==> Offer(i, held[i]) in offers)
  }

  lemma GatherOneMore(chunks: seq<Descriptor>, offers: seq<Offer>, n: nat, sha: Bytes -> string,
                      start: map<nat, Bytes>, held: map<nat, Bytes>, next: map<nat, Bytes>)
    requires n < |offers| && Gathered(chunks, offers[..n], sha, start, held)
    requires next ==
      if Acceptable(chunks, offers[n], sha) && offers[n].index !in held
      then held[offers[n].index := offers[n].bytes] else held
    ensures Gathered(chunks, offers[..n + 1], sha, start, next)
  {
    BroughtByOneMore(chunks, offers, n, sha);
    assert offers[..n + 1] == offers[..n] + [offers[n]];
  }

  /** Some offer brings an acceptable chunk of this index. */
  predicate Brought(chunks: seq<Descriptor>, offers: seq<Offer>, i: nat, sha: Bytes -> string) {
    exists k :: 0 <= k < |offers| && offers[k].index == i && Acceptable(chunks, offers[k], sha)
  }

  lemma BroughtByOneMore(chunks: seq<Descriptor>, offers: seq<Offer>, n: nat, sha: Bytes -> string)
    requires n < |offers|
    ensures forall i :: Brought(chunks, offers[..n + 1], i, sha) <==>
      Brought(chunks, offers[..n], i, sha) || (i == offers[n].index && Acceptable(chunks, offers[n], sha))
  {
    forall i ensures Brought(chunks, offers[..n + 1], i, sha) <==>
      Brought(chunks, offers[..n], i, sha) || (i == offers[n].index && Acceptable(chunks, offers[n], sha))
    {
      assert offers[..n + 1][n] == offers[n];
      assert forall k :: 0 <= k < n ==> offers[..n + 1][k] == offers[..n][k];
    }
  }

  lemma NothingMissing(chunks: seq<Descriptor>, received: map<nat, Bytes>)
    requires Missing(chunks, received) == []
    ensures forall k :: 0 <= k < |chunks| ==> chunks[k].index in received
  {
    forall k | 0 <= k < |chunks| ensures chunks[k].index in received {
      assert chunks[k].index !in Missing(chunks, received);
    }
  }

  /** An offer other than the chunk it is for, with the length and the digest of that chunk. */
  predicate Forged(offers: seq<Offer>, chunks: seq<Descriptor>, pieces: seq<Bytes>, sha: Bytes -> string)
    requires |pieces| == |chunks|
  {
    exists o, k :: 0 <= o < |offers| && 0 <= k < |chunks| && ForgedFor(offers[o], chunks[k], pieces[k], sha)
  }

  predicate ForgedFor(offer: Offer, chunk: Descriptor, piece: Bytes, sha: Bytes -> string) {
    offer.index == chunk.index && offer.bytes != piece && |offer.bytes| == |piece| && sha(offer.bytes) == sha(piece)
  }

  /** Some offer brings each of the chunks. */
  predicate AllBrought(chunks: seq<Descriptor>, offers: seq<Offer>, sha: Bytes -> string) {
    forall k :: 0 <= k < |chunks| ==> Brought(chunks, offers, chunks[k].index, sha)
  }

  /**
   Chunk an object, offer its chunks in any way, and assemble.  The pieces are those the
   configured chunker cuts, of which there is one list.  What comes out has the length and
   the digest of the object.  As long as no offer passes for a chunk it is not
   and indices tell chunks apart, it is the object, and comes out exactly when every chunk
   was brought.
   */
  method TransferObject(bytes: Bytes, config: Config, sha: Bytes -> string, offers: seq<Offer>)
    returns (r: Option<Bytes>, ghost chunks: seq<Descriptor>, ghost pieces: seq<Bytes>)
    requires |bytes| < TWO_TO_THE_64 && config.Valid() && HashesToText(sha)
    ensures Concat(pieces) == bytes && IsChunking(pieces, RuleOf(config)) && Listed(chunks, pieces, sha)
    ensures r.Some? ==> |r.value| == |bytes| && sha(r.value) == sha(bytes)
    ensures |chunks| <= TWO_TO_THE_32 && !Forged(offers, chunks, pieces, sha) ==>
      r == if AllBrought(chunks, offers, sha) then Some(bytes) else None
  {
    var manifest;
    manifest, pieces := ChunkContent(bytes, config, sha);
    chunks := manifest.value.chunks;
    ProducedManifestIsValid(manifest.value, pieces, sha);
    IndicesAreDistinctIffFew(manifest.value);
    var transfer := new ResumableTransfer(manifest.value, sha);
    transfer.Receive(offers);
    var assembled := transfer.Assemble();
    AssemblyGivesObject(chunks, pieces, bytes, offers, transfer.received, sha);
    r := if assembled.Ok? then Some(assembled.value) else None;
  }

  /** What was only offered unforged is held as it was cut. */
  lemma UnforgedIsAsCut(chunks: seq<Descriptor>, pieces: seq<Bytes>, offers: seq<Offer>, received: map<nat, Bytes>,
                        sha: Bytes -> string, k: nat)
    requires Listed(chunks, pieces, sha) && DistinctIndices(chunks) && Sound(chunks, received, sha)
    requires forall i :: i in received ==> Offer(i, received[i]) in offers
    requires !Forged(offers, chunks, pieces, sha) && k < |chunks| && chunks[k].index in received
    ensures HeldAsCut(chunks, pieces, received, k)
  {
    FindIsUnique(chunks, k);
    var o :| 0 <= o < |offers| && offers[o] == Offer(chunks[k].index, received[chunks[k].index]);
    assert !ForgedFor(offers[o], chunks[k], pieces[k], sha);
  }

  lemma AssemblyGivesObject(chunks: seq<Descriptor>, pieces: seq<Bytes>, bytes: Bytes, offers: seq<Offer>,
                            received: map<nat, Bytes>, sha: Bytes -> string)
    requires Listed(chunks, pieces, sha) && Concat(pieces) == bytes && Sound(chunks, received, sha)
    requires Gathered(chunks, offers, sha, map[], received)
    ensures AllBrought(chunks, offers, sha) <==> Missing(chunks, received) == []
    ensures DistinctIndices(chunks) && !Forged(offers, chunks, pieces, sha) && AllBrought(chunks, offers, sha) ==>
      (forall k :: 0 <= k < |chunks| ==> chunks[k].index in received) && Assembled(chunks, received) == bytes
  {
    if Missing(chunks, received) == [] {
      NothingMissing(chunks, received);
    } else {
      assert Missing(chunks, received)[0] in Missing(chunks, received);
    }
    if DistinctIndices(chunks) && !Forged(offers, chunks, pieces, sha) && AllBrought(chunks, offers, sha) {
      forall k: nat | k < |chunks| ensures HeldAsCut(chunks, pieces, received, k) {
        UnforgedIsAsCut(chunks, pieces, offers, received, sha, k);
      }
      AssembledIsOriginal(chunks, pieces, received, sha);
    }
  }
}
