/** Reading the device-local journal: which disks are accepted, and why tampering shows. */
module JournalReader {
  import opened Prelude
  import opened Encoding
  import opened ScopeRecords

  /**
   The journal on disk: event files by sequence number, files of any other name among them,
   unexpected names in the journal directory, and the authority and head records.
   */
  datatype Disk = Disk(
    events: map<nat, Bytes>,
    strayEvents: set<string>,
    strayRecords: set<string>,
    authority: Option<Bytes>,
    head: Option<Bytes>)

  datatype Reading = Reading(
    authority: Option<Authority>, head: Option<Head>, history: seq<Event>, orphan: Option<Event>, encodedBytes: nat)

  datatype Refusal =
    | AuthorityUnbound
    | HeadUnbound
    | UnexpectedEntry
    | EventInvalid
    | ContinuityMissing
    | GenesisMismatch
    | HeadMismatch
    | TooLarge

  // ---------- what is accepted ----------

  /** Event files are named by sequence, up to one past the head. */
  predicate Namespace(disk: Disk, headSequence: nat) {
    && disk.strayEvents == {}
    && forall s :: s in disk.events ==> 1 <= s <= headSequence + 1 && s <= MAX_JOURNAL_EVENTS
  }

  /** Bytes in the first `n` event files. */
  function TotalBytes(events: map<nat, Bytes>, n: nat): nat {
    if n == 0 then 0 else TotalBytes(events, n - 1) + (if n in events then |events[n]| else 0)
  }

  /** The digest of the file before, which an event must carry. */
  function PreviousSha(disk: Disk, sequence: nat, c: Context): Option<string> {
    if sequence > 1 && sequence - 1 in disk.events then Some(c.platform.sha(disk.events[sequence - 1])) else None
  }

  predicate EventAt(disk: Disk, sequence: nat, e: Event, c: Context) {
    && sequence in disk.events && |disk.events[sequence]| <= MAX_EVENT_BYTES
    && c.platform.decodeEvent(disk.events[sequence]) == Some(e)
    && e.previous == PreviousSha(disk, sequence, c) && c.check(e, sequence, PreviousSha(disk, sequence, c))
  }

  predicate OptionalEventAt(disk: Disk, sequence: nat, e: Option<Event>, c: Context) {
    if e.Some? then EventAt(disk, sequence, e.value, c) else sequence !in disk.events
  }

  predicate AuthorityRead(disk: Disk, a: Option<Authority>, c: Context) {
    if disk.authority.None? then a.None?
    else
      && |disk.authority.value| <= MAX_AUTHORITY_BYTES && a.Some?
      && c.platform.decodeAuthority(disk.authority.value) == a && ValidAuthority(a.value, c.site)
  }

  predicate HeadRead(disk: Disk, h: Option<Head>, c: Context) {
    if disk.head.None? then h.None?
    else
      && |disk.head.value| <= MAX_HEAD_BYTES && h.Some?
      && c.platform.decodeHead(disk.head.value) == h && ValidHead(h.value, c.site)
  }

  ghost predicate ChainRead(disk: Disk, history: seq<Event>, c: Context) {
    forall k :: 0 <= k < |history| ==> EventAt(disk, k + 1, history[k], c)
  }

  /** The genesis the authority names is the first event file. */
  predicate Anchored(disk: Disk, a: Authority, c: Context) {
    1 in disk.events && a.genesis == c.platform.sha(disk.events[1])
  }

  /** The head names this event, by digest and by id. */
  predicate Ends(disk: Disk, h: Head, e: Event, c: Context) {
    h.sequence in disk.events && c.platform.sha(disk.events[h.sequence]) == h.eventSha && e.eventId == h.eventId
  }

  predicate HeadMatches(disk: Disk, h: Head, history: seq<Event>, c: Context) {
    |history| == h.sequence >= 1 && Ends(disk, h, history[h.sequence - 1], c)
  }

  /** The reading of an acceptable disk: a contiguous chain and at most one orphan after it. */
  ghost predicate Accepted(disk: Disk, r: Reading, c: Context) {
    && disk.strayRecords == {}
    && AuthorityRead(disk, r.authority, c) && HeadRead(disk, r.head, c)
    && Namespace(disk, |r.history|)
    && ChainRead(disk, r.history, c)
    && OptionalEventAt(disk, |r.history| + 1, r.orphan, c)
    && r.encodedBytes == TotalBytes(disk.events, |r.history| + 1)
    && (if r.head.Some? then
          && r.authority.Some? && HeadMatches(disk, r.head.value, r.history, c) && Anchored(disk, r.authority.value, c)
          && r.encodedBytes <= MAX_JOURNAL_BYTES
        else
          r.history == [] && (r.authority.Some? ==> Anchored(disk, r.authority.value, c)))
  }

  /** A disk has at most one reading. */
  lemma ReadingIsUnique(disk: Disk, a: Reading, b: Reading, c: Context)
    requires Accepted(disk, a, c) && Accepted(disk, b, c)
    ensures a == b
  {
    assert |a.history| == |b.history|;
    forall k | 0 <= k < |a.history| ensures a.history[k] == b.history[k] {
      assert EventAt(disk, k + 1, a.history[k], c) && EventAt(disk, k + 1, b.history[k], c);
    }
    assert a.history == b.history;
  }

  // ---------- reading ----------

  method ReadAuthority(disk: Disk, c: Context) returns (r: Result<Option<Authority>, Refusal>)
    ensures r.Ok? ==> AuthorityRead(disk, r.value, c)
    ensures r.Err? ==> forall a :: !AuthorityRead(disk, a, c)
  {
    if disk.authority.None? {
      return Ok(None);
    }
    var bytes := disk.authority.value;
    if |bytes| > MAX_AUTHORITY_BYTES || c.platform.decodeAuthority(bytes).None? ||
      !ValidAuthority(c.platform.decodeAuthority(bytes).value, c.site) {
      return Err(AuthorityUnbound);
    }
    return Ok(c.platform.decodeAuthority(bytes));
  }

  method ReadHead(disk: Disk, c: Context) returns (r: Result<Option<Head>, Refusal>)
    ensures r.Ok? ==> HeadRead(disk, r.value, c)
    ensures r.Err? ==> forall h :: !HeadRead(disk, h, c)
  {
    if disk.head.None? {
      return Ok(None);
    }
    var bytes := disk.head.value;
    if |bytes| > MAX_HEAD_BYTES || c.platform.decodeHead(bytes).None? ||
      !ValidHead(c.platform.decodeHead(bytes).value, c.site) {
      return Err(HeadUnbound);
    }
    return Ok(c.platform.decodeHead(bytes));
  }

  /** Read one event file, which must carry the digest of the file before it. */
  method ReadEvent(disk: Disk, sequence: nat, previous: Option<string>, c: Context)
    returns (r: Result<Option<Event>, Refusal>)
    requires previous == PreviousSha(disk, sequence, c)
    ensures r.Ok? ==> OptionalEventAt(disk, sequence, r.value, c)
    ensures r.Err? ==> forall e :: !OptionalEventAt(disk, sequence, e, c)
  {
    if sequence !in disk.events {
      return Ok(None);
    }
    var bytes := disk.events[sequence];
    var decoded := c.platform.decodeEvent(bytes);
    if |bytes| > MAX_EVENT_BYTES || decoded.None? || decoded.value.previous != previous ||
      !c.check(decoded.value, sequence, previous) {
      return Err(EventInvalid);
    }
    return Ok(decoded);
  }

  lemma {:induction false} BytesGrow(events: map<nat, Bytes>, m: nat, n: nat)
    requires m <= n
    ensures TotalBytes(events, m) <= TotalBytes(events, n)
    decreases n - m
  {
    if m < n {
      BytesGrow(events, m + 1, n);
    }
  }

  /** The disk has no acceptable reading. */
  ghost predicate Refused(disk: Disk, c: Context) {
    forall x :: !Accepted(disk, x, c)
  }

  /** The first `n` files of a committed journal are valid and within the bound. */
  lemma ChainFacts(disk: Disk, h: Head, x: Reading, n: nat, c: Context)
    requires HeadRead(disk, Some(h), c) && 1 <= n <= h.sequence && Accepted(disk, x, c)
    ensures |x.history| == h.sequence && EventAt(disk, n, x.history[n - 1], c) && HeadMatches(disk, h, x.history, c)
    ensures TotalBytes(disk.events, n) <= MAX_JOURNAL_BYTES
  {
    var m := n - 1;
    assert EventAt(disk, m + 1, x.history[m], c);
    BytesGrow(disk.events, n, |x.history| + 1);
  }

  lemma ChainRefusal(disk: Disk, h: Head, n: nat, c: Context)
    requires HeadRead(disk, Some(h), c) && 1 <= n <= h.sequence
    requires TotalBytes(disk.events, n) > MAX_JOURNAL_BYTES || forall e :: !EventAt(disk, n, e, c)
    ensures Refused(disk, c)
  {
    forall x | Accepted(disk, x, c) ensures false {
      ChainFacts(disk, h, x, n, c);
    }
  }

  /** Read the next event of a committed chain. */
  method ReadLink(disk: Disk, h: Head, n: nat, previous: Option<string>, total: nat, c: Context)
    returns (r: Result<Event, Refusal>)
    requires HeadRead(disk, Some(h), c) && 1 <= n <= h.sequence
    requires previous == PreviousSha(disk, n, c) && total == TotalBytes(disk.events, n - 1)
    ensures r.Ok? ==>
      EventAt(disk, n, r.value, c) && TotalBytes(disk.events, n) == total + |disk.events[n]| <= MAX_JOURNAL_BYTES
    ensures r.Ok? && n == h.sequence ==> Ends(disk, h, r.value, c)
    ensures r.Err? ==> Refused(disk, c)
  {
    var read := ReadEvent(disk, n, previous, c);
    if read.Err? || read.value.None? {
      assert forall e :: EventAt(disk, n, e, c) ==> OptionalEventAt(disk, n, Some(e), c);
      ChainRefusal(disk, h, n, c);
      return Err(EventInvalid);
    }
    if total + |disk.events[n]| > MAX_JOURNAL_BYTES {
      ChainRefusal(disk, h, n, c);
      return Err(TooLarge);
    }
    if n == h.sequence && !Ends(disk, h, read.value.value, c) {
      return Err(HeadMismatch);
    }
    return Ok(read.value.value);
  }

  /** Walk the chain from the first event to the head. */
  method ReadChain(disk: Disk, h: Head, c: Context) returns (r: Result<(seq<Event>, nat), Refusal>)
    requires HeadRead(disk, Some(h), c)
    ensures r.Ok? ==> ChainRead(disk, r.value.0, c) && HeadMatches(disk, h, r.value.0, c)
    ensures r.Ok? ==> r.value.1 == TotalBytes(disk.events, h.sequence) <= MAX_JOURNAL_BYTES
    ensures r.Err? ==> Refused(disk, c)
  {
    var events: seq<Event> := [];
    var previous: Option<string> := None;
    var total := 0;
    for n := 0 to h.sequence
      invariant |events| == n && ChainRead(disk, events, c)
      invariant previous == PreviousSha(disk, n + 1, c)
      invariant total == TotalBytes(disk.events, n) && total <= MAX_JOURNAL_BYTES
      invariant n > 0 && n == h.sequence ==> Ends(disk, h, events[n - 1], c)
    {
      var read := ReadLink(disk, h, n + 1, previous, total, c);
      if read.Err? {
        return Err(read.error);
      }
      events := events + [read.value];
      total := total + |disk.events[n + 1]|;
      previous := Some(c.platform.sha(disk.events[n + 1]));
    }
    return Ok((events, total));
  }

  /** Before the first commit: no head, and perhaps the first event waiting. */
  method ReadUncommitted(disk: Disk, authority: Option<Authority>, c: Context) returns (r: Result<Reading, Refusal>)
    requires disk.strayRecords == {} && AuthorityRead(disk, authority, c) && disk.head.None?
    ensures r.Ok? ==> Accepted(disk, r.value, c)
    ensures r.Err? ==> Refused(disk, c)
  {
    if !Namespace(disk, 0) {
      return Err(UnexpectedEntry);
    }
    var read := ReadEvent(disk, 1, None, c);
    if read.Err? {
      return Err(read.error);
    }
    var orphan := read.value;
    if authority.Some? && orphan.None? {
      return Err(ContinuityMissing);
    }
    if authority.Some? && authority.value.genesis != c.platform.sha(disk.events[1]) {
      return Err(GenesisMismatch);
    }
    return Ok(Reading(authority, None, [], orphan, if orphan.Some? then |disk.events[1]| else 0));
  }

  lemma CommittedReading(disk: Disk, authority: Authority, h: Head, history: seq<Event>, orphan: Option<Event>,
                         total: nat, c: Context)
    requires disk.strayRecords == {} && AuthorityRead(disk, Some(authority), c) && HeadRead(disk, Some(h), c)
    requires Namespace(disk, h.sequence) && ChainRead(disk, history, c) && HeadMatches(disk, h, history, c)
    requires Anchored(disk, authority, c) && OptionalEventAt(disk, h.sequence + 1, orphan, c)
    requires total == TotalBytes(disk.events, |history| + 1) <= MAX_JOURNAL_BYTES
    ensures Accepted(disk, Reading(Some(authority), Some(h), history, orphan, total), c)
  {
    var r := Reading(Some(authority), Some(h), history, orphan, total);
    assert |r.history| == h.sequence;
    assert Namespace(disk, |r.history|) && ChainRead(disk, r.history, c) &&
      OptionalEventAt(disk, |r.history| + 1, r.orphan, c);
  }

  /** The event after the head, when there can be one. */
  method ReadOrphan(disk: Disk, h: Head, c: Context) returns (r: Result<Option<Event>, Refusal>)
    requires HeadRead(disk, Some(h), c) && Namespace(disk, h.sequence) && h.sequence in disk.events
    requires TotalBytes(disk.events, h.sequence) <= MAX_JOURNAL_BYTES
    ensures r.Ok? ==>
      OptionalEventAt(disk, h.sequence + 1, r.value, c) && TotalBytes(disk.events, h.sequence + 1) <= MAX_JOURNAL_BYTES
    ensures r.Err? ==> Refused(disk, c)
  {
    if h.sequence == MAX_JOURNAL_EVENTS {
      return Ok(None);
    }
    r := ReadEvent(disk, h.sequence + 1, Some(c.platform.sha(disk.events[h.sequence])), c);
    if r.Ok? && r.value.Some? &&
      TotalBytes(disk.events, h.sequence) + |disk.events[h.sequence + 1]| > MAX_JOURNAL_BYTES {
      r := Err(TooLarge);
    }
  }

  method ReadCommitted(disk: Disk, authority: Authority, h: Head, c: Context) returns (r: Result<Reading, Refusal>)
    requires disk.strayRecords == {} && AuthorityRead(disk, Some(authority), c) && HeadRead(disk, Some(h), c)
    ensures r.Ok? ==> Accepted(disk, r.value, c)
    ensures r.Err? ==> Refused(disk, c)
  {
    if !Namespace(disk, h.sequence) {
      return Err(UnexpectedEntry);
    }
    var chain := ReadChain(disk, h, c);
    if chain.Err? {
      return Err(chain.error);
    }
    var (history, total) := chain.value;
    if !Anchored(disk, authority, c) {
      return Err(GenesisMismatch);
    }
    var orphan := ReadOrphan(disk, h, c);
    if orphan.Err? {
      return Err(orphan.error);
    }
    if orphan.value.Some? {
      total := total + |disk.events[h.sequence + 1]|;
    }
    CommittedReading(disk, authority, h, history, orphan.value, total, c);
    return Ok(Reading(Some(authority), Some(h), history, orphan.value, total));
  }

  /** Read the journal: a disk is refused exactly when it has no acceptable reading. */
  method ReadJournal(disk: Disk, c: Context) returns (r: Result<Reading, Refusal>)
    ensures r.Ok? ==> Accepted(disk, r.value, c)
    ensures r.Err? ==> Refused(disk, c)
  {
    var authority := ReadAuthority(disk, c);
    if authority.Err? {
      return Err(authority.error);
    }
    if disk.strayRecords != {} {
      return Err(UnexpectedEntry);
    }
    var head := ReadHead(disk, c);
    if head.Err? {
      return Err(head.error);
    }
    if head.value.None? {
      r := ReadUncommitted(disk, authority.value, c);
    } else if authority.value.None? {
      return Err(ContinuityMissing);
    } else {
      r := ReadCommitted(disk, authority.value.value, head.value.value, c);
    }
  }

  // ---------- tamper evidence ----------

  /** Two different event files of one number have the same digest. */
  ghost predicate FilesCollide(d: Disk, e: Disk, n: nat, c: Context) {
    exists k {:trigger d.events[k]} :: 1 <= k <= n && k in d.events && k in e.events &&
      d.events[k] != e.events[k] && c.platform.sha(d.events[k]) == c.platform.sha(e.events[k])
  }

  /** Backwards along the chain: equal digests mean equal files, up to files that collide. */
  lemma {:induction false} SameFilesBelow(d: Disk, e: Disk, x: seq<Event>, y: seq<Event>, n: nat, c: Context)
    requires ChainRead(d, x, c) && ChainRead(e, y, c) && n <= |x| && n <= |y|
    requires n >= 1 ==> n in d.events && n in e.events && c.platform.sha(d.events[n]) == c.platform.sha(e.events[n])
    ensures x[..n] == y[..n] || FilesCollide(d, e, n, c)
  {
    if n >= 1 && d.events[n] == e.events[n] {
      assert n >= 2 ==> EventAt(d, n - 1, x[n - 2], c) && EventAt(e, n - 1, y[n - 2], c);
      SameFilesBelow(d, e, x, y, n - 1, c);
      assert x[..n] == x[..n - 1] + [x[n - 1]] && y[..n] == y[..n - 1] + [y[n - 1]];
    }
  }

  /** Two accepted journals with the same head have the same committed history, unless two of
      their event files are different and have the same digest. */
  lemma HeadFixesHistory(d: Disk, e: Disk, r: Reading, s: Reading, c: Context)
    requires Accepted(d, r, c) && Accepted(e, s, c) && r.head.Some? && r.head == s.head
    ensures r.history == s.history || FilesCollide(d, e, |r.history|, c)
  {
    var n := r.head.value.sequence;
    SameFilesBelow(d, e, r.history, s.history, n, c);
    assert r.history[..n] == r.history && s.history[..n] == s.history;
  }
}
