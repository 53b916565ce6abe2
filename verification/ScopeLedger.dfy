/**
 The states an observed journal can be in.

 A ledger is the committed history, the event that may be waiting for its commit, and whether
 the authority of a first event is already published.  `DiskOf` says what that looks like on
 disk; every such disk is accepted by the reader, with exactly that reading.
 */
module ScopeLedger {
  import opened Prelude
  import opened Encoding
  import opened ScopeRecords
  import opened JournalReader

  datatype Ledger = Ledger(history: seq<Event>, orphan: Option<Event>, anchored: bool)

  /** Every recorded event, committed or waiting. */
  function All(l: Ledger): seq<Event> {
    if l.orphan.Some? then l.history + [l.orphan.value] else l.history
  }

  /** The event files: one for each event, by sequence number. */
  function Files(events: seq<Event>, c: Context): (r: map<nat, Bytes>)
    ensures forall n :: n in r <==> 1 <= n <= |events|
    ensures forall n :: n in r ==> r[n] == c.platform.encodeEvent(events[n - 1])
  {
    if events == [] then map[]
    else Files(events[..|events| - 1], c)[|events| := c.platform.encodeEvent(events[|events| - 1])]
  }

  /** The digest that event number `n` has to carry. */
  function LinkTo(events: seq<Event>, n: nat, c: Context): Option<string>
    requires n <= |events| + 1
  {
    if n > 1 then Some(c.platform.sha(c.platform.encodeEvent(events[n - 2]))) else None
  }

  function AuthorityFor(genesis: Event, c: Context): Authority {
    Authority(AUTHORITY_FORMAT, c.site.folderbaseId, c.site.rootInstance, c.site.rootContinuity,
              c.platform.sha(c.platform.encodeEvent(genesis)))
  }

  function HeadFor(last: Event, c: Context): Head {
    Head(JOURNAL_FORMAT, c.site.folderbaseId, c.site.rootInstance, c.site.rootContinuity, last.sequence, last.eventId,
         c.platform.sha(c.platform.encodeEvent(last)))
  }

  predicate HasAuthority(l: Ledger) {
    l.history != [] || (l.anchored && l.orphan.Some?)
  }

  function DiskOf(l: Ledger, c: Context): Disk {
    Disk(Files(All(l), c), {}, {},
         if HasAuthority(l) then Some(c.platform.encodeAuthority(AuthorityFor(All(l)[0], c))) else None,
         if l.history == [] then None else Some(c.platform.encodeHead(HeadFor(l.history[|l.history| - 1], c))))
  }

  function Size(events: seq<Event>, c: Context): nat {
    if events == [] then 0 else Size(events[..|events| - 1], c) + |c.platform.encodeEvent(events[|events| - 1])|
  }

  // ---------- binding continuity ----------

  /** What two events of one journal have to agree on, and the one thing they must not. */
  predicate Agree(a: Event, b: Event, c: Context) {
    && (a.seen.path == b.seen.path ==> a.seen.instance == b.seen.instance)
    && (a.seen.instance == b.seen.instance ==> a.nonce == b.nonce && a.proof == b.proof)
    && (a.nonce == b.nonce ==> c.relative(a.seen) == c.relative(b.seen))
    && a.observation != b.observation
  }

  /** Equal paths mean one folder, one folder keeps its binding, and nothing is recorded twice. */
  ghost predicate Continuous(events: seq<Event>, c: Context) {
    forall i, j :: 0 <= i < |events| && 0 <= j < |events| && i != j ==> Agree(events[i], events[j], c)
  }

  // ---------- well-formed ledgers ----------

  /** Event number `n` is in its place: self-consistent, linked to the file before, within the bound. */
  predicate InPlace(events: seq<Event>, n: nat, c: Context)
    requires 1 <= n <= |events|
  {
    var e := events[n - 1];
    e.sequence == n && c.check(e, n, LinkTo(events, n, c)) && |c.platform.encodeEvent(e)| <= MAX_EVENT_BYTES
  }

  ghost predicate Linked(events: seq<Event>, c: Context) {
    forall n :: 1 <= n <= |events| ==> InPlace(events, n, c)
  }

  predicate AuthorityFits(genesis: Event, c: Context) {
    |c.platform.encodeAuthority(AuthorityFor(genesis, c))| <= MAX_AUTHORITY_BYTES
  }

  predicate HeadFits(last: Event, c: Context) {
    |c.platform.encodeHead(HeadFor(last, c))| <= MAX_HEAD_BYTES
  }

  ghost predicate WellFormed(l: Ledger, c: Context) {
    && |All(l)| <= MAX_JOURNAL_EVENTS && Size(All(l), c) <= MAX_JOURNAL_BYTES
    && Linked(All(l), c) && Continuous(All(l), c)
    && (HasAuthority(l) ==> AuthorityFits(All(l)[0], c))
    && (l.history != [] ==> HeadFits(l.history[|l.history| - 1], c))
  }

  // ---------- every such disk is accepted ----------

  lemma {:induction false} FilesSize(events: seq<Event>, n: nat, c: Context)
    requires n <= |events|
    ensures TotalBytes(Files(events, c), n) == Size(events[..n], c)
  {
    if n > 0 {
      FilesSize(events, n - 1, c);
      assert events[..n][..n - 1] == events[..n - 1];
    }
  }

  lemma FilesSizeBeyond(events: seq<Event>, n: nat, c: Context)
    requires |events| <= n <= |events| + 1
    ensures TotalBytes(Files(events, c), n) == Size(events, c)
  {
    FilesSize(events, |events|, c);
    assert events[..|events|] == events;
  }

  function ReadingOf(l: Ledger, c: Context): Reading {
    Reading(if HasAuthority(l) then Some(AuthorityFor(All(l)[0], c)) else None,
            if l.history == [] then None else Some(HeadFor(l.history[|l.history| - 1], c)),
            l.history, l.orphan, Size(All(l), c))
  }

  lemma FileIsEvent(l: Ledger, n: nat, c: Context)
    requires Faithful(c) && Linked(All(l), c) && 1 <= n <= |All(l)|
    ensures EventAt(DiskOf(l, c), n, All(l)[n - 1], c) && Prefixed(All(l)[n - 1].eventId, EVENT_ID_PREFIX)
  {
    assert InPlace(All(l), n, c);
    CheckedIsRecorded(c, All(l)[n - 1], n, LinkTo(All(l), n, c));
  }

  lemma HeadIsRead(l: Ledger, c: Context)
    requires Faithful(c) && WellFormed(l, c)
    ensures HeadRead(DiskOf(l, c), ReadingOf(l, c).head, c)
    ensures l.history != [] ==> HeadMatches(DiskOf(l, c), ReadingOf(l, c).head.value, l.history, c)
  {
    if l.history != [] {
      var n, e := |l.history|, l.history[|l.history| - 1];
      FileIsEvent(l, n, c);
      assert ValidHead(HeadFor(e, c), c.site) by {
        assert All(l)[n - 1] == e && InPlace(All(l), n, c);
        assert HashesToText(c.platform, c.platform.encodeEvent(e));
      }
      assert KeepsHead(c.platform, HeadFor(e, c));
      HeadHolds(l, DiskOf(l, c), n, e, c);
    }
  }

  lemma HeadHolds(l: Ledger, disk: Disk, n: nat, e: Event, c: Context)
    requires WellFormed(l, c) && disk == DiskOf(l, c) && n == |l.history| > 0 && e == l.history[n - 1] == All(l)[n - 1]
    requires ValidHead(HeadFor(e, c), c.site) && KeepsHead(c.platform, HeadFor(e, c))
    ensures HeadRead(disk, Some(HeadFor(e, c)), c) && HeadMatches(disk, HeadFor(e, c), l.history, c)
  {
    assert InPlace(All(l), n, c);
  }

  lemma AuthorityIsRead(l: Ledger, c: Context)
    requires Faithful(c) && WellFormed(l, c)
    ensures AuthorityRead(DiskOf(l, c), ReadingOf(l, c).authority, c)
    ensures HasAuthority(l) ==> Anchored(DiskOf(l, c), ReadingOf(l, c).authority.value, c)
  {
    if HasAuthority(l) {
      assert KeepsAuthority(c.platform, AuthorityFor(All(l)[0], c));
      assert HashesToText(c.platform, c.platform.encodeEvent(All(l)[0]));
    }
  }

  lemma FilesAreRead(l: Ledger, c: Context)
    requires Faithful(c) && WellFormed(l, c)
    ensures ChainRead(DiskOf(l, c), l.history, c) && OptionalEventAt(DiskOf(l, c), |l.history| + 1, l.orphan, c)
  {
    forall k | 0 <= k < |l.history| ensures EventAt(DiskOf(l, c), k + 1, l.history[k], c) {
      FileIsEvent(l, k + 1, c);
    }
    if l.orphan.Some? {
      FileIsEvent(l, |l.history| + 1, c);
    }
  }

  lemma CommittedIsAccepted(l: Ledger, disk: Disk, r: Reading, c: Context)
    requires WellFormed(l, c) && disk == DiskOf(l, c) && r == ReadingOf(l, c) && l.history != []
    requires AuthorityRead(disk, r.authority, c) && Anchored(disk, r.authority.value, c)
    requires HeadRead(disk, r.head, c) && HeadMatches(disk, r.head.value, l.history, c)
    requires ChainRead(disk, l.history, c) && OptionalEventAt(disk, |l.history| + 1, l.orphan, c)
    ensures Accepted(disk, r, c)
  {
    FilesSizeBeyond(All(l), |l.history| + 1, c);
    CommittedReading(disk, r.authority.value, r.head.value, l.history, l.orphan, Size(All(l), c), c);
  }

  lemma SizeOfOne(events: seq<Event>, c: Context)
    requires |events| <= 1
    ensures Size(events, c) == if events == [] then 0 else |c.platform.encodeEvent(events[0])|
  {
    assert events != [] ==> events[..0] == [];
  }

  lemma UncommittedShape(l: Ledger, c: Context)
    requires l.history == []
    ensures Namespace(DiskOf(l, c), 0) && (l.orphan.Some? ==> 1 in DiskOf(l, c).events)
    ensures ReadingOf(l, c) ==
      Reading(ReadingOf(l, c).authority, None, [], l.orphan, if l.orphan.Some? then |DiskOf(l, c).events[1]| else 0)
  {
    SizeOfOne(All(l), c);
  }

  lemma UncommittedIsAccepted(l: Ledger, disk: Disk, r: Reading, c: Context)
    requires WellFormed(l, c) && disk == DiskOf(l, c) && r == ReadingOf(l, c) && l.history == []
    requires AuthorityRead(disk, r.authority, c) && (HasAuthority(l) ==> Anchored(disk, r.authority.value, c))
    requires OptionalEventAt(disk, 1, l.orphan, c)
    ensures Accepted(disk, r, c)
  {
    UncommittedShape(l, c);
  }

  /** Whatever a ledger says is what a reader makes of its disk. */
  lemma LedgerIsAccepted(l: Ledger, c: Context)
    requires Faithful(c) && WellFormed(l, c)
    ensures Accepted(DiskOf(l, c), ReadingOf(l, c), c)
  {
    HeadIsRead(l, c);
    AuthorityIsRead(l, c);
    FilesAreRead(l, c);
    if l.history != [] {
      CommittedIsAccepted(l, DiskOf(l, c), ReadingOf(l, c), c);
    } else {
      UncommittedIsAccepted(l, DiskOf(l, c), ReadingOf(l, c), c);
    }
  }

  // ---------- recording one more event ----------

  lemma AppendKeepsLinks(events: seq<Event>, e: Event, c: Context)
    requires Linked(events, c) && e.sequence == |events| + 1
    requires c.check(e, |events| + 1, LinkTo(events, |events| + 1, c)) && |c.platform.encodeEvent(e)| <= MAX_EVENT_BYTES
    ensures Linked(events + [e], c)
  {
    var longer := events + [e];
    forall n | 1 <= n <= |longer| ensures InPlace(longer, n, c) {
      if n <= |events| {
        assert InPlace(events, n, c);
      }
      assert LinkTo(longer, n, c) == LinkTo(events, n, c);
    }
  }

  lemma AppendKeepsContinuity(events: seq<Event>, e: Event, c: Context)
    requires Continuous(events, c) && forall k :: 0 <= k < |events| ==> Agree(events[k], e, c)
    ensures Continuous(events + [e], c)
  {}

  /** Put the event next in line on disk. */
  lemma EventPublished(l: Ledger, e: Event, c: Context)
    requires WellFormed(l, c) && l.orphan.None? && |l.history| < MAX_JOURNAL_EVENTS && e.sequence == |l.history| + 1
    requires c.check(e, |l.history| + 1, LinkTo(l.history, |l.history| + 1, c)) &&
      |c.platform.encodeEvent(e)| <= MAX_EVENT_BYTES
    requires Size(l.history, c) + |c.platform.encodeEvent(e)| <= MAX_JOURNAL_BYTES
    requires forall k :: 0 <= k < |l.history| ==> Agree(l.history[k], e, c)
    ensures var next := Ledger(l.history, Some(e), false);
      WellFormed(next, c) &&
        DiskOf(next, c) == DiskOf(l, c).(events := DiskOf(l, c).events[|l.history| + 1 := c.platform.encodeEvent(e)])
  {
    AppendKeepsLinks(l.history, e, c);
    AppendKeepsContinuity(l.history, e, c);
    var longer := l.history + [e];
    assert longer[..|longer| - 1] == l.history;
  }

  /** Name the waiting first event as the genesis. */
  lemma AuthorityPublished(l: Ledger, c: Context)
    requires WellFormed(l, c) && l.orphan.Some? && l.history == [] && AuthorityFits(l.orphan.value, c)
    ensures var next := l.(anchored := true);
      WellFormed(next, c) &&
      DiskOf(next, c) == DiskOf(l, c).(authority := Some(c.platform.encodeAuthority(AuthorityFor(l.orphan.value, c))))
  {}

  /** Move the head to the waiting event. */
  lemma HeadPublished(l: Ledger, c: Context)
    requires WellFormed(l, c) && l.orphan.Some? && HasAuthority(l) && HeadFits(l.orphan.value, c)
    ensures var next := Ledger(All(l), None, true);
      WellFormed(next, c) &&
        DiskOf(next, c) == DiskOf(l, c).(head := Some(c.platform.encodeHead(HeadFor(l.orphan.value, c))))
  {}
}
