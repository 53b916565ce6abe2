/**
 Folder Scope evidence: the records of the device-local journal, the digests that bind them,
 and when an event is self-consistent.

 SHA-256, the record codec and the reserved names are parameters.  Nothing is assumed of the
 hash but the shape of its text; what needs collision resistance says so.
 */
module ScopeRecords {
  import opened Prelude
  import opened PortablePaths
  import opened Encoding

  const EVENT_FORMAT := "folderbase-folder-scope-journal-event-v1"
  const AUTHORITY_FORMAT := "folderbase-folder-scope-journal-authority-v1"
  const JOURNAL_FORMAT := "folderbase-folder-scope-journal-v1"
  const PROOF_TAG: Bytes := "folderbase-folder-scope-binding-v1\0"
  const OBSERVATION_TAG: Bytes := "folderbase-folder-scope-observation-v1\0"
  const EVENT_ID_TAG: Bytes := "folderbase-folder-scope-event-id-v1\0"
  const PROOF_PREFIX := "fb_scope_binding_v1_"
  const EVENT_ID_PREFIX := "folder_scope_event_"
  const NONCE_PREFIX := "folder_scope_binding_nonce_"
  const FOLDERBASE_PREFIX := "folderbase_"
  const MAX_AUTHORITY_BYTES := 16384
  const MAX_HEAD_BYTES := 65536
  const MAX_EVENT_BYTES := 16777216
  const MAX_JOURNAL_BYTES := 67108864
  const MAX_JOURNAL_EVENTS := 16384

  /** The attested physical root, fixed for a run. */
  datatype Site = Site(folderbaseId: string, protocolVersion: string, manifestSha256: string, rootInstance: string,
                       rootContinuity: string)

  datatype Boundary = Boundary(
    path: string,
    folderbaseId: string,
    protocolVersion: string,
    manifestSha256: string,
    rootInstance: string,
    rootContinuity: string)

  /** What one look at a selected folder finds. */
  datatype Observation = Observation(
    path: string, instance: string, localHead: Option<string>, inventory: string, boundaries: seq<Boundary>)

  datatype Event = Event(
    format: string, folderbaseId: string, rootInstance: string, rootContinuity: string,
    seen: Observation, nonce: string, observation: string, eventId: string, sequence: nat, proof: string,
    boundaryPaths: seq<string>, previous: Option<string>)

  datatype Authority = Authority(format: string, folderbaseId: string, rootInstance: string, rootContinuity: string,
                                 genesis: string)

  datatype Head = Head(
    format: string,
    folderbaseId: string,
    rootInstance: string,
    rootContinuity: string,
    sequence: nat,
    eventId: string,
    eventSha: string)

  /** The evidence handed to the caller. */
  datatype Evidence = Evidence(folderbaseId: string, path: string, eventId: string, sequence: nat, proof: string,
                               boundaries: seq<string>)

  function PublicEvidence(e: Event): Evidence {
    Evidence(e.folderbaseId, e.seen.path, e.eventId, e.sequence, e.proof, e.boundaryPaths)
  }

  /** Library behaviour: the hash, the record codec, names kept by the workspace, version syntax. */
  datatype Platform = Platform(
    sha: Bytes -> string,
    encodeEvent: Event -> Bytes, decodeEvent: Bytes -> Option<Event>,
    encodeAuthority: Authority -> Bytes, decodeAuthority: Bytes -> Option<Authority>,
    encodeHead: Head -> Bytes, decodeHead: Bytes -> Option<Head>,
    reserved: string -> bool, semver: string -> bool)

  /** Records decode to what was encoded, and digests have the text of SHA-256. */
  ghost predicate Lossless(p: Platform) {
    && (forall e :: KeepsEvent(p, e))
    && (forall a :: KeepsAuthority(p, a))
    && (forall h :: KeepsHead(p, h))
    && (forall b :: HashesToText(p, b))
  }

  // Each law is a predicate of its own, to be called upon by name.

  predicate KeepsEvent(p: Platform, e: Event) { p.decodeEvent(p.encodeEvent(e)) == Some(e) }

  predicate KeepsAuthority(p: Platform, a: Authority) { p.decodeAuthority(p.encodeAuthority(a)) == Some(a) }

  predicate KeepsHead(p: Platform, h: Head) { p.decodeHead(p.encodeHead(h)) == Some(h) }

  predicate HashesToText(p: Platform, b: Bytes) { Sha256Text(p.sha(b)) }

  // ---------- syntax ----------

  predicate Prefixed(s: string, prefix: string) { prefix <= s && Sha256Text(s[|prefix|..]) }

  predicate HyphenatedUuid(s: string) {
    && |s| == 36
    && s[8] == s[13] == s[18] == s[23] == '-'
    && HexText(s[..8] + s[9..13] + s[14..18] + s[19..23] + s[24..])
  }

  predicate PrefixedId(s: string, prefix: string) { prefix <= s && HyphenatedUuid(s[|prefix|..]) }

  /** Text that is its own canonical relative path: ordinary, unreserved components. */
  predicate CanonicalPath(s: string, p: Platform) {
    forall k :: 0 <= k < |Split(s)| ==>
      var c := Split(s)[k];
      c != "" && c != "." && c != ".." && '\\' !in c && '\0' !in c && !p.reserved(c)
  }

  predicate SoundBoundary(b: Boundary, p: Platform) {
    && CanonicalPath(b.path, p) && PrefixedId(b.folderbaseId, FOLDERBASE_PREFIX) && p.semver(b.protocolVersion)
    && Sha256Text(b.manifestSha256) && Sha256Text(b.rootInstance) && Sha256Text(b.rootContinuity)
  }

  predicate StrictlyBeneath(selected: string, b: Boundary, p: Platform) {
    selected + "/" <= b.path && b.path != selected + "/" && SoundBoundary(b, p)
  }

  /** The boundary with its path taken from the selected folder. */
  function Below(selected: string, b: Boundary): Boundary {
    if selected + "/" <= b.path then b.(path := b.path[|selected| + 1..]) else b
  }

  /** Every boundary is sound, strictly beneath the selected folder, and in byte order. */
  predicate WellPlaced(selected: string, bs: seq<Boundary>, p: Platform) {
    && (forall k :: 0 <= k < |bs| ==> StrictlyBeneath(selected, bs[k], p))
    && (forall k :: 0 < k < |bs| ==> BytesBefore(Below(selected, bs[k - 1]).path, Below(selected, bs[k]).path))
  }

  /** The boundaries with their paths taken from the selected folder; None when misplaced. */
  function RelativeBoundaries(selected: string, bs: seq<Boundary>, p: Platform): Option<seq<Boundary>> {
    if WellPlaced(selected, bs, p) then Some(BelowAll(selected, bs)) else None
  }

  function BelowAll(selected: string, bs: seq<Boundary>): (r: seq<Boundary>)
    ensures |r| == |bs| && forall k :: 0 <= k < |bs| ==> r[k] == Below(selected, bs[k])
  {
    seq(|bs|, k requires 0 <= k < |bs| => Below(selected, bs[k]))
  }

  method RelativeBoundaryBindings(selected: string, bs: seq<Boundary>, p: Platform) returns (r: Option<seq<Boundary>>)
    ensures r == RelativeBoundaries(selected, bs, p)
  {
    var relative: seq<Boundary> := [];
    for k := 0 to |bs|
      invariant |relative| == k
      invariant forall j :: 0 <= j < k ==> StrictlyBeneath(selected, bs[j], p) && relative[j] == Below(selected, bs[j])
      invariant forall j :: 0 < j < k ==> BytesBefore(Below(selected, bs[j - 1]).path, Below(selected, bs[j]).path)
    {
      if !StrictlyBeneath(selected, bs[k], p) {
        return None;
      }
      var below := Below(selected, bs[k]);
      if k > 0 && !BytesBefore(relative[k - 1].path, below.path) {
        return None;
      }
      relative := relative + [below];
    }
    assert relative == BelowAll(selected, bs);
    return Some(relative);
  }

  /** The boundary as it lies beneath a folder. */
  function At(selected: string, b: Boundary): Boundary {
    b.(path := selected + "/" + b.path)
  }

  function AllAt(selected: string, bs: seq<Boundary>): (r: seq<Boundary>)
    ensures |r| == |bs| && forall k :: 0 <= k < |bs| ==> r[k] == At(selected, bs[k])
  {
    seq(|bs|, k requires 0 <= k < |bs| => At(selected, bs[k]))
  }

  lemma BelowUndoesAt(selected: string, b: Boundary)
    ensures Below(selected, At(selected, b)) == b
  {
    assert (selected + "/" + b.path)[|selected| + 1..] == b.path;
  }

  /** A folder that is renamed with its boundaries keeps the relative ones: they are those
      beneath it, wherever it is. */
  lemma RenameKeepsBoundaries(selected: string, renamed: string, bs: seq<Boundary>, p: Platform)
    requires WellPlaced(selected, AllAt(selected, bs), p)
    requires forall k :: 0 <= k < |bs| ==> SoundBoundary(At(renamed, bs[k]), p)
    ensures RelativeBoundaries(selected, AllAt(selected, bs), p) == Some(bs)
    ensures RelativeBoundaries(renamed, AllAt(renamed, bs), p) == Some(bs)
  {
    forall k | 0 <= k < |bs|
      ensures Below(selected, AllAt(selected, bs)[k]) == bs[k] && Below(renamed, AllAt(renamed, bs)[k]) == bs[k]
      ensures StrictlyBeneath(renamed, AllAt(renamed, bs)[k], p)
    {
      BelowUndoesAt(selected, bs[k]);
      BelowUndoesAt(renamed, bs[k]);
      assert StrictlyBeneath(selected, AllAt(selected, bs)[k], p);
      assert |At(selected, bs[k]).path| == |selected + "/"| + |bs[k].path|;
    }
    forall k | 0 < k < |bs| ensures BytesBefore(bs[k - 1].path, bs[k].path) {
      var placed := AllAt(selected, bs);
      assert BytesBefore(Below(selected, placed[k - 1]).path, Below(selected, placed[k]).path);
    }
    assert BelowAll(selected, AllAt(selected, bs)) == bs && BelowAll(renamed, AllAt(renamed, bs)) == bs;
  }

  // ---------- digests ----------

  function ProofPreimage(site: Site, instance: string, nonce: string): Bytes {
    PROOF_TAG + Fields([site.folderbaseId, site.rootInstance, site.rootContinuity, instance, nonce], 8)
  }

  function BindingProof(site: Site, instance: string, nonce: string, p: Platform): string {
    PROOF_PREFIX + p.sha(ProofPreimage(site, instance, nonce))
  }

  function EncodeBoundary(b: Boundary): Bytes {
    Fields([b.path, b.folderbaseId, b.protocolVersion, b.manifestSha256, b.rootInstance, b.rootContinuity], 8)
  }

  function ObservedFields(site: Site, o: Observation): seq<string> {
    [site.folderbaseId, site.protocolVersion, site.manifestSha256, site.rootInstance, site.rootContinuity,
     o.path, o.instance, if o.localHead.Some? then o.localHead.value else "", o.inventory]
  }

  function ObservationPreimage(site: Site, o: Observation): Bytes {
    OBSERVATION_TAG +
    (Fields(ObservedFields(site, o), 8) + (BigEndian(|o.boundaries|, 8) + Sequence(o.boundaries, EncodeBoundary)))
  }

  function ObservationSha(site: Site, o: Observation, p: Platform): string {
    p.sha(ObservationPreimage(site, o))
  }

  function EventPreimage(site: Site, sequence: nat, previous: Option<string>, observation: string): Bytes {
    EVENT_ID_TAG + (Field(site.rootInstance, 8) + (BigEndian(sequence, 8) +
      Fields([if previous.Some? then previous.value else "", observation], 8)))
  }

  function EventId(site: Site, sequence: nat, previous: Option<string>, observation: string, p: Platform): string {
    EVENT_ID_PREFIX + p.sha(EventPreimage(site, sequence, previous, observation))
  }

  /** Hash an observation the way the digest is fed. */
  method HashObservation(site: Site, o: Observation, p: Platform) returns (digest: string)
    ensures digest == ObservationSha(site, o, p)
  {
    var h := HashFields(OBSERVATION_TAG, ObservedFields(site, o), 8);
    h := HashSequence(h, o.boundaries, EncodeBoundary, 8);
    Regroup2(OBSERVATION_TAG + Fields(ObservedFields(site, o), 8), BigEndian(|o.boundaries|, 8),
             Sequence(o.boundaries, EncodeBoundary));
    Regroup2(OBSERVATION_TAG, Fields(ObservedFields(site, o), 8),
             BigEndian(|o.boundaries|, 8) + Sequence(o.boundaries, EncodeBoundary));
    return p.sha(h);
  }

  // ---------- the digests identify what they digest ----------

  predicate Countable(s: string) { |s| < Power256(8) }

  predicate CountableBoundary(b: Boundary) {
    Countable(b.path) && Countable(b.folderbaseId) && Countable(b.protocolVersion) && Countable(b.manifestSha256) &&
    Countable(b.rootInstance) && Countable(b.rootContinuity)
  }

  predicate CountableSite(site: Site) {
    Countable(site.folderbaseId) && Countable(site.protocolVersion) && Countable(site.manifestSha256) &&
    Countable(site.rootInstance) && Countable(site.rootContinuity)
  }

  /** Lengths fit the eight bytes they are written in, as every length in memory does. */
  predicate CountableObservation(o: Observation) {
    && Countable(o.path) && Countable(o.instance) && Countable(o.inventory) && |o.boundaries| < Power256(8)
    && (o.localHead.Some? ==> Sha256Text(o.localHead.value))
    && (forall k :: 0 <= k < |o.boundaries| ==> CountableBoundary(o.boundaries[k]))
  }

  lemma BoundaryPrefix(a: Boundary, b: Boundary, x: Bytes, y: Bytes)
    requires CountableBoundary(a) && CountableBoundary(b) && EncodeBoundary(a) + x == EncodeBoundary(b) + y
    ensures a == b && x == y
  {
    var u := [a.path, a.folderbaseId, a.protocolVersion, a.manifestSha256, a.rootInstance, a.rootContinuity];
    var v := [b.path, b.folderbaseId, b.protocolVersion, b.manifestSha256, b.rootInstance, b.rootContinuity];
    FieldsPrefix(u, v, 8, x, y);
    assert u[0] == v[0] && u[1] == v[1] && u[2] == v[2] && u[3] == v[3] && u[4] == v[4] && u[5] == v[5];
  }

  lemma BoundariesArePrefixInjective()
    ensures PrefixInjective(EncodeBoundary, CountableBoundary)
  {
    forall a, b, x, y | CountableBoundary(a) && CountableBoundary(b) && EncodeBoundary(a) + x == EncodeBoundary(b) + y
      ensures a == b && x == y
    {
      BoundaryPrefix(a, b, x, y);
    }
  }

  /** Different observations of one site are hashed from different bytes. */
  lemma ObservationPreimageInjective(site: Site, a: Observation, b: Observation)
    requires CountableSite(site) && CountableObservation(a) && CountableObservation(b)
    requires ObservationPreimage(site, a) == ObservationPreimage(site, b)
    ensures a == b
  {
    var u, v := ObservedFields(site, a), ObservedFields(site, b);
    var sa, sb := Sequence(a.boundaries, EncodeBoundary), Sequence(b.boundaries, EncodeBoundary);
    var ra, rb := BigEndian(|a.boundaries|, 8) + sa, BigEndian(|b.boundaries|, 8) + sb;
    Sha256TextIsCountable();
    PrefixSplits(OBSERVATION_TAG, OBSERVATION_TAG, Fields(u, 8) + ra, Fields(v, 8) + rb);
    FieldsPrefix(u, v, 8, ra, rb);
    NumberPrefix(|a.boundaries|, |b.boundaries|, 8, sa, sb);
    BoundariesArePrefixInjective();
    assert sa + "" == sa && sb + "" == sb;
    SequencePrefix(a.boundaries, b.boundaries, EncodeBoundary, CountableBoundary, "", "");
    assert u[5] == v[5] && u[6] == v[6] && u[7] == v[7] && u[8] == v[8];
  }

  lemma Sha256TextIsCountable()
    ensures forall s :: Sha256Text(s) ==> Countable(s)
    ensures Countable("")
  {
    assert Power256(1) == 256;
    assert Power256(2) == 65536;
  }

  /** Two proofs are equal exactly when the digests of their preimages are, and the preimages
      only when both are of the same instance under the same nonce. */
  lemma ProofIdentifiesBinding(site: Site, i: string, n: string, j: string, m: string, p: Platform)
    requires CountableSite(site) && Countable(i) && Countable(n) && Countable(j) && Countable(m)
    ensures BindingProof(site, i, n, p) == BindingProof(site, j, m, p) <==>
      p.sha(ProofPreimage(site, i, n)) == p.sha(ProofPreimage(site, j, m))
    ensures ProofPreimage(site, i, n) == ProofPreimage(site, j, m) <==> i == j && n == m
  {
    var u := [site.folderbaseId, site.rootInstance, site.rootContinuity, i, n];
    var v := [site.folderbaseId, site.rootInstance, site.rootContinuity, j, m];
    var x, y := ProofPreimage(site, i, n), ProofPreimage(site, j, m);
    if BindingProof(site, i, n, p) == BindingProof(site, j, m, p) {
      PrefixSplitsText(PROOF_PREFIX, p.sha(x), p.sha(y));
    }
    if x == y {
      PrefixSplits(PROOF_TAG, PROOF_TAG, Fields(u, 8), Fields(v, 8));
      assert Fields(u, 8) + "" == Fields(u, 8) && Fields(v, 8) + "" == Fields(v, 8);
      FieldsPrefix(u, v, 8, "", "");
      assert u[3] == v[3] && u[4] == v[4];
    }
  }

  /** Two event IDs are equal exactly when the digests of their preimages are, and the preimages
      only when both events have the same number, predecessor and observation. */
  lemma EventIdIdentifiesEvent(site: Site, m: nat, n: nat, x: Option<string>, y: Option<string>, o: string, q: string,
                               p: Platform)
    requires CountableSite(site) && m < Power256(8) && n < Power256(8) && Countable(o) && Countable(q)
    requires (x.Some? ==> Sha256Text(x.value)) && (y.Some? ==> Sha256Text(y.value))
    ensures EventId(site, m, x, o, p) == EventId(site, n, y, q, p) <==>
      p.sha(EventPreimage(site, m, x, o)) == p.sha(EventPreimage(site, n, y, q))
    ensures EventPreimage(site, m, x, o) == EventPreimage(site, n, y, q) <==> m == n && x == y && o == q
  {
    var u := [if x.Some? then x.value else "", o];
    var v := [if y.Some? then y.value else "", q];
    if EventId(site, m, x, o, p) == EventId(site, n, y, q, p) {
      PrefixSplitsText(EVENT_ID_PREFIX, p.sha(EventPreimage(site, m, x, o)), p.sha(EventPreimage(site, n, y, q)));
    }
    if EventPreimage(site, m, x, o) == EventPreimage(site, n, y, q) {
      var s, t := BigEndian(m, 8) + Fields(u, 8), BigEndian(n, 8) + Fields(v, 8);
      Sha256TextIsCountable();
      PrefixSplits(EVENT_ID_TAG, EVENT_ID_TAG, Field(site.rootInstance, 8) + s, Field(site.rootInstance, 8) + t);
      FieldPrefix(site.rootInstance, site.rootInstance, 8, s, t);
      NumberPrefix(m, n, 8, Fields(u, 8), Fields(v, 8));
      assert Fields(u, 8) + "" == Fields(u, 8) && Fields(v, 8) + "" == Fields(v, 8);
      FieldsPrefix(u, v, 8, "", "");
      assert u[0] == v[0] && u[1] == v[1];
    }
  }

  lemma PrefixSplitsText(prefix: string, a: string, b: string)
    requires prefix + a == prefix + b
    ensures a == b
  {
    PrefixSplits(prefix, prefix, a, b);
  }

  // ---------- self-consistent records ----------

  /** What a capture hands over: a canonical path, digests, and boundaries strictly beneath. */
  predicate Captured(o: Observation, p: Platform) {
    && CanonicalPath(o.path, p) && Sha256Text(o.instance) && Sha256Text(o.inventory)
    && (o.localHead.Some? ==> Sha256Text(o.localHead.value))
    && WellPlaced(o.path, o.boundaries, p)
  }

  function BoundaryPaths(bs: seq<Boundary>): (r: seq<string>)
    ensures |r| == |bs| && forall k :: 0 <= k < |bs| ==> r[k] == bs[k].path
  {
    seq(|bs|, k requires 0 <= k < |bs| => bs[k].path)
  }

  predicate ValidEvent(e: Event, site: Site, sequence: nat, previous: Option<string>, p: Platform) {
    && e.format == EVENT_FORMAT && e.folderbaseId == site.folderbaseId
    && e.rootInstance == site.rootInstance && e.rootContinuity == site.rootContinuity
    && e.sequence == sequence && e.previous == previous
    && Captured(e.seen, p) && PrefixedId(e.nonce, NONCE_PREFIX)
    && e.boundaryPaths == BoundaryPaths(e.seen.boundaries)
    && e.proof == BindingProof(site, e.seen.instance, e.nonce, p)
    && e.observation == ObservationSha(site, e.seen, p)
    && e.eventId == EventId(site, sequence, previous, e.observation, p)
  }

  /** The evidence of a valid event shows the folder that was seen: where it lies, its boundaries,
      its number, and the names of its binding and its observation; the nonce stays behind. */
  lemma EvidenceShowsTheFolder(e: Event, site: Site, sequence: nat, previous: Option<string>, p: Platform)
    requires ValidEvent(e, site, sequence, previous, p)
    ensures PublicEvidence(e) == Evidence(
      site.folderbaseId, e.seen.path, EventId(site, sequence, previous, ObservationSha(site, e.seen, p), p), sequence,
      BindingProof(site, e.seen.instance, e.nonce, p), BoundaryPaths(e.seen.boundaries))
  {}

  /** The event that records an observation. */
  function EventFor(o: Observation, nonce: string, site: Site, sequence: nat, previous: Option<string>,
                    p: Platform): (e: Event)
    ensures Captured(o, p) && PrefixedId(nonce, NONCE_PREFIX) ==> ValidEvent(e, site, sequence, previous, p)
  {
    var observation := ObservationSha(site, o, p);
    Event(EVENT_FORMAT, site.folderbaseId, site.rootInstance, site.rootContinuity, o, nonce, observation,
          EventId(site, sequence, previous, observation, p), sequence, BindingProof(site, o.instance, nonce, p),
          BoundaryPaths(o.boundaries), previous)
  }

  predicate ValidAuthority(a: Authority, site: Site) {
    && a.format == AUTHORITY_FORMAT && a.folderbaseId == site.folderbaseId
    && a.rootInstance == site.rootInstance && a.rootContinuity == site.rootContinuity && Sha256Text(a.genesis)
  }

  predicate ValidHead(h: Head, site: Site) {
    && h.format == JOURNAL_FORMAT && h.folderbaseId == site.folderbaseId
    && h.rootInstance == site.rootInstance && h.rootContinuity == site.rootContinuity
    && 1 <= h.sequence <= MAX_JOURNAL_EVENTS && Prefixed(h.eventId, EVENT_ID_PREFIX) && Sha256Text(h.eventSha)
  }

  // ---------- what the journal builds on ----------

  /**
   The judgements and constructions the journal uses, as functions of the site and platform:
   which events are self-consistent in their place, how an observation is recorded, and the
   digests and relative boundaries compared across the history.
   */
  datatype Context = Context(
    site: Site, platform: Platform,
    check: (Event, nat, Option<string>) -> bool,
    record: (Observation, string, nat, Option<string>) -> Event,
    captured: Observation -> bool, minted: string -> bool,
    digest: Observation -> string, proof: (string, string) -> string, relative: Observation -> Option<seq<Boundary>>)

  function StandardContext(site: Site, p: Platform): Context {
    Context(
      site, p,
      (e: Event, sequence: nat, previous: Option<string>) => ValidEvent(e, site, sequence, previous, p),
      (o: Observation, nonce: string, sequence: nat, previous: Option<string>) =>
        EventFor(o, nonce, site, sequence, previous, p),
      (o: Observation) => Captured(o, p), nonce => PrefixedId(nonce, NONCE_PREFIX),
      (o: Observation) => ObservationSha(site, o, p), (instance, nonce) => BindingProof(site, instance, nonce, p),
      (o: Observation) => RelativeBoundaries(o.path, o.boundaries, p))
  }

  /** A recorded event says what was seen, under which nonce and where, and passes the check. */
  predicate Recorded(c: Context, e: Event, o: Observation, nonce: string, sequence: nat, previous: Option<string>) {
    && e.seen == o && e.nonce == nonce && e.sequence == sequence && e.previous == previous
    && e.observation == c.digest(o) && e.proof == c.proof(o.instance, nonce) && Prefixed(e.eventId, EVENT_ID_PREFIX)
  }

  predicate RecordsFaithfully(c: Context, o: Observation, nonce: string, n: nat, previous: Option<string>) {
    var e := c.record(o, nonce, n, previous);
    Recorded(c, e, o, nonce, n, previous) && (c.captured(o) && c.minted(nonce) ==> c.check(e, n, previous))
  }

  predicate ChecksFaithfully(c: Context, e: Event, n: nat, previous: Option<string>) {
    c.check(e, n, previous) ==> e == c.record(e.seen, e.nonce, n, previous) && c.captured(e.seen) && c.minted(e.nonce)
  }

  /** The laws the journal relies on. */
  ghost predicate Faithful(c: Context) {
    && Lossless(c.platform)
    && (forall o, nonce, n, previous :: RecordsFaithfully(c, o, nonce, n, previous))
    && (forall e, n, previous :: ChecksFaithfully(c, e, n, previous))
  }

  lemma CheckedIsRecorded(c: Context, e: Event, n: nat, previous: Option<string>)
    requires Faithful(c) && c.check(e, n, previous)
    ensures Recorded(c, e, e.seen, e.nonce, n, previous) && c.captured(e.seen) && c.minted(e.nonce)
    ensures e == c.record(e.seen, e.nonce, n, previous) && KeepsEvent(c.platform, e)
  {
    assert ChecksFaithfully(c, e, n, previous);
    assert RecordsFaithfully(c, e.seen, e.nonce, n, previous);
    assert KeepsEvent(c.platform, e);
  }

  lemma EventForIsRecorded(site: Site, p: Platform, o: Observation, nonce: string, n: nat, previous: Option<string>)
    requires Lossless(p)
    ensures Recorded(StandardContext(site, p), EventFor(o, nonce, site, n, previous, p), o, nonce, n, previous)
  {
    var preimage := EVENT_ID_TAG + (Field(site.rootInstance, 8) + (BigEndian(n, 8) +
      Fields([if previous.Some? then previous.value else "", ObservationSha(site, o, p)], 8)));
    assert HashesToText(p, preimage);
    assert (EVENT_ID_PREFIX + p.sha(preimage))[|EVENT_ID_PREFIX|..] == p.sha(preimage);
  }

  /** The records of this module obey those laws. */
  lemma StandardIsFaithful(site: Site, p: Platform)
    requires Lossless(p)
    ensures Faithful(StandardContext(site, p))
  {
    var c := StandardContext(site, p);
    forall o, nonce, n, previous ensures RecordsFaithfully(c, o, nonce, n, previous) {
      EventForIsRecorded(site, p, o, nonce, n, previous);
    }
    forall e, n, previous ensures ChecksFaithfully(c, e, n, previous) {}
  }
}
