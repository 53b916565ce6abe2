/** Observing a folder: deciding what to record, publishing it, and surviving interruptions. */
module ScopeObserver {
  import opened Prelude
  import opened Encoding
  import opened ScopeRecords
  import opened JournalReader
  import opened ScopeLedger

  /** What one call sees: the folder before and after it takes the lock, and whether the root
      is still the attested one at the end. */
  datatype Sight = Sight(first: Observation, locked: Observation, rootStays: bool)

  /** One call, the nonce minted for it, and where a crash cuts it. */
  datatype Attempt = Attempt(sight: Sight, minted: string, cut: nat)

  datatype Failure = ObservationChanged | SelectedFolderReplaced | NestedBoundaryChanged | InvalidJournal

  // ---------- what the history says about an observation ----------

  /** Another folder was observed at this path. */
  predicate Replaced(history: seq<Event>, o: Observation) {
    exists k :: 0 <= k < |history| && history[k].seen.path == o.path && history[k].seen.instance != o.instance
  }

  /** This very observation is already committed. */
  predicate Known(history: seq<Event>, o: Observation, c: Context) {
    exists k :: 0 <= k < |history| && history[k].observation == c.digest(o)
  }

  /** The folder bound to this nonce had other boundaries beneath it. */
  predicate BoundariesChanged(history: seq<Event>, o: Observation, nonce: string, c: Context) {
    exists k :: 0 <= k < |history| && history[k].nonce == nonce && c.relative(history[k].seen) != c.relative(o)
  }

  /** The first event of this physical folder. */
  function Binding(events: seq<Event>, instance: string): (r: Option<Event>)
    ensures r.None? ==> forall k :: 0 <= k < |events| ==> events[k].seen.instance != instance
    ensures r.Some? ==> r.value in events && r.value.seen.instance == instance
  {
    if events == [] then None
    else if events[0].seen.instance == instance then Some(events[0])
    else Binding(events[1..], instance)
  }

  /** A folder keeps its nonce; a folder never seen gets the minted one. */
  function NonceFor(l: Ledger, o: Observation, minted: string): string {
    var prior := Binding(All(l), o.instance);
    if prior.Some? then prior.value.nonce else minted
  }

  /** The event this observation would be recorded as. */
  function NextEvent(l: Ledger, o: Observation, minted: string, c: Context): Event {
    var n := |l.history| + 1;
    c.record(o, NonceFor(l, o, minted), n, LinkTo(l.history, n, c))
  }

  predicate Fits(l: Ledger, e: Event, c: Context) {
    && |l.history| < MAX_JOURNAL_EVENTS
    && |c.platform.encodeEvent(e)| <= MAX_EVENT_BYTES
    && Size(All(l), c) + (if l.orphan.Some? then 0 else |c.platform.encodeEvent(e)|) <= MAX_JOURNAL_BYTES
  }

  /** Whether an observation ends in evidence. */
  ghost predicate Succeeds(l: Ledger, o: Observation, minted: string, c: Context) {
    var e := NextEvent(l, o, minted, c);
    && !Replaced(l.history, o)
    && (Known(l.history, o, c) ||
        (&& !BoundariesChanged(l.history, o, e.nonce, c)
         && Fits(l, e, c) && (l.orphan.Some? ==> l.orphan.value == e)
         && (l.history == [] && !HasAuthority(l) ==> AuthorityFits(e, c)) && HeadFits(e, c)))
  }

  /** The nonces in use were minted. */
  lemma LinkedIsMinted(events: seq<Event>, k: nat, c: Context)
    requires Faithful(c) && Linked(events, c) && k < |events|
    ensures c.minted(events[k].nonce)
  {
    assert InPlace(events, k + 1, c);
    CheckedIsRecorded(c, events[k], k + 1, LinkTo(events, k + 1, c));
  }

  lemma NextEventIsSound(l: Ledger, o: Observation, minted: string, c: Context)
    requires Faithful(c) && WellFormed(l, c) && c.captured(o) && c.minted(minted)
    ensures var e, n := NextEvent(l, o, minted, c), |l.history| + 1;
      Recorded(c, e, o, NonceFor(l, o, minted), n, LinkTo(l.history, n, c)) && c.check(e, n, LinkTo(l.history, n, c))
  {
    forall k: nat | k < |All(l)| ensures c.minted(All(l)[k].nonce) { LinkedIsMinted(All(l), k, c); }
    assert RecordsFaithfully(c, o, NonceFor(l, o, minted), |l.history| + 1, LinkTo(l.history, |l.history| + 1, c));
  }

  lemma EventIsRecorded(l: Ledger, k: nat, c: Context)
    requires Faithful(c) && WellFormed(l, c) && k < |All(l)|
    ensures var e := All(l)[k]; Recorded(c, e, e.seen, e.nonce, k + 1, LinkTo(All(l), k + 1, c))
  {
    assert InPlace(All(l), k + 1, c);
    CheckedIsRecorded(c, All(l)[k], k + 1, LinkTo(All(l), k + 1, c));
  }

  /** What the checks let through agrees with the whole history. */
  lemma AdmittedAgrees(l: Ledger, o: Observation, minted: string, k: nat, c: Context)
    requires Faithful(c) && WellFormed(l, c) && c.captured(o) && c.minted(minted) && k < |l.history|
    requires !Replaced(l.history, o) && !Known(l.history, o, c)
    requires !BoundariesChanged(l.history, o, NonceFor(l, o, minted), c)
    ensures Agree(l.history[k], NextEvent(l, o, minted, c), c)
  {
    NextEventIsSound(l, o, minted, c);
    assert All(l)[k] == l.history[k];
    EventIsRecorded(l, k, c);
    if l.history[k].seen.instance == o.instance {
      var prior := Binding(All(l), o.instance);
      var j :| 0 <= j < |All(l)| && All(l)[j] == prior.value;
      assert j != k ==> Agree(All(l)[j], All(l)[k], c);
    }
  }

  // ---------- the waiting event ----------

  lemma OrphanIsInPlace(l: Ledger, c: Context)
    requires Faithful(c) && WellFormed(l, c) && l.orphan.Some?
    ensures var e, n := l.orphan.value, |l.history| + 1;
      && All(l)[n - 1] == e && Recorded(c, e, e.seen, e.nonce, n, LinkTo(l.history, n, c))
      && e == c.record(e.seen, e.nonce, n, LinkTo(l.history, n, c)) && Fits(l, e, c)
  {
    var e, n := l.orphan.value, |l.history| + 1;
    assert All(l)[n - 1] == e && InPlace(All(l), n, c);
    assert LinkTo(All(l), n, c) == LinkTo(l.history, n, c);
    CheckedIsRecorded(c, e, n, LinkTo(l.history, n, c));
  }

  /** Only observing again what the waiting event saw builds that event. */
  lemma RetryBuildsTheOrphan(l: Ledger, o: Observation, minted: string, c: Context)
    requires Faithful(c) && WellFormed(l, c) && l.orphan.Some?
    ensures NextEvent(l, o, minted, c) == l.orphan.value <==> o == l.orphan.value.seen
  {
    OrphanIsInPlace(l, c);
    assert RecordsFaithfully(c, o, NonceFor(l, o, minted), |l.history| + 1, LinkTo(l.history, |l.history| + 1, c));
  }

  /** And that observation is admitted. */
  lemma RetryIsAdmitted(l: Ledger, c: Context)
    requires Faithful(c) && WellFormed(l, c) && l.orphan.Some?
    ensures var e := l.orphan.value;
      !Replaced(l.history, e.seen) && !Known(l.history, e.seen, c) &&
        !BoundariesChanged(l.history, e.seen, e.nonce, c) && Fits(l, e, c)
  {
    OrphanIsInPlace(l, c);
    forall k | 0 <= k < |l.history| ensures Agree(l.history[k], l.orphan.value, c) {
      assert All(l)[k] == l.history[k] && All(l)[|l.history|] == l.orphan.value;
    }
  }

  lemma {:induction false} BindingOfAll(history: seq<Event>, orphan: Option<Event>, instance: string)
    ensures Binding(if orphan.Some? then history + [orphan.value] else history, instance) ==
      (if Binding(history, instance).Some? then Binding(history, instance)
       else if orphan.Some? && orphan.value.seen.instance == instance then orphan else None)
  {
    if orphan.Some? && history != [] && history[0].seen.instance != instance {
      BindingOfAll(history[1..], orphan, instance);
      assert (history + [orphan.value])[1..] == history[1..] + [orphan.value];
    } else if orphan.Some? && history == [] {
      assert history + [orphan.value] == [orphan.value];
      assert Binding([orphan.value][1..], instance) == None;
    }
  }

  /** The head carries the number and digest of the last committed event. */
  lemma HeadNumbersHistory(l: Ledger, c: Context)
    requires WellFormed(l, c)
    ensures l.history != [] ==>
      var h := HeadFor(l.history[|l.history| - 1], c);
      h.sequence == |l.history| && Some(h.eventSha) == LinkTo(l.history, |l.history| + 1, c)
  {
    if l.history != [] {
      assert All(l)[|l.history| - 1] == l.history[|l.history| - 1];
      assert InPlace(All(l), |l.history|, c);
    }
  }

  /** The file next in line is there exactly when an event waits, and only that event has its bytes. */
  lemma OrphanFile(l: Ledger, e: Event, c: Context)
    requires Faithful(c) && WellFormed(l, c) && e.sequence == |l.history| + 1
    ensures e.sequence in DiskOf(l, c).events <==> l.orphan.Some?
    ensures l.orphan.Some? ==> (DiskOf(l, c).events[e.sequence] == c.platform.encodeEvent(e) <==> l.orphan.value == e)
  {
    if l.orphan.Some? {
      assert DiskOf(l, c).events[e.sequence] == c.platform.encodeEvent(l.orphan.value);
      assert KeepsEvent(c.platform, l.orphan.value) && KeepsEvent(c.platform, e);
    }
  }

  /** Nothing recorded or committed is ever changed or dropped, and at most one event is added. */
  predicate Follows(before: Ledger, after: Ledger) {
    before.history <= after.history && All(before) <= All(after)
  }

  // ---------- deciding what to record ----------

  datatype Decision = Refuse(failure: Failure) | Repeat(known: Event) | Bind(nonce: string)

  /** Compare an observation with the history, in the order the checks are made. */
  method Screen(history: seq<Event>, orphan: Option<Event>, o: Observation, minted: string, c: Context, ghost l: Ledger)
    returns (d: Decision)
    requires history == l.history && orphan == l.orphan
    ensures match d
      case Refuse(_) =>
        Replaced(history, o) || (!Known(history, o, c) && BoundariesChanged(history, o, NonceFor(l, o, minted), c))
      case Repeat(e) => !Replaced(history, o) && e in history && e.observation == c.digest(o)
      case Bind(nonce) =>
        nonce == NonceFor(l, o, minted) && !Replaced(history, o) && !Known(history, o, c) &&
          !BoundariesChanged(history, o, nonce, c)
  {
    if Replaced(history, o) {
      return Refuse(SelectedFolderReplaced);
    }
    var prior := Binding(history, o.instance);
    BindingOfAll(history, orphan, o.instance);
    if prior.None? && orphan.Some? && orphan.value.seen.instance == o.instance {
      prior := orphan;
    }
    var nonce := if prior.Some? then prior.value.nonce else minted;
    var k := 0;
    while k < |history|
      invariant k <= |history| && forall j :: 0 <= j < k ==> history[j].observation != c.digest(o)
    {
      if history[k].observation == c.digest(o) {
        return Repeat(history[k]);
      }
      k := k + 1;
    }
    if BoundariesChanged(history, o, nonce, c) {
      return Refuse(NestedBoundaryChanged);
    }
    return Bind(nonce);
  }

  /** Number the event after the head and link it to the head's digest. */
  method Build(reading: Reading, o: Observation, nonce: string, c: Context, ghost l: Ledger) returns (r: Option<Event>)
    requires WellFormed(l, c) && reading == ReadingOf(l, c)
    ensures var n := |l.history| + 1;
      var e := c.record(o, nonce, n, LinkTo(l.history, n, c));
      r == if Fits(l, e, c) then Some(e) else None
  {
    HeadNumbersHistory(l, c);
    var sequence := if reading.head.Some? then reading.head.value.sequence + 1 else 1;
    var previous := if reading.head.Some? then Some(reading.head.value.eventSha) else None;
    var e := c.record(o, nonce, sequence, previous);
    var bytes := |c.platform.encodeEvent(e)|;
    if sequence > MAX_JOURNAL_EVENTS || bytes > MAX_EVENT_BYTES ||
       reading.encodedBytes + (if reading.orphan.Some? then 0 else bytes) > MAX_JOURNAL_BYTES {
      return None;
    }
    return Some(e);
  }

  /** What publishing an admitted event leaves behind. */
  predicate Publishes(before: Ledger, after: Ledger, e: Event, ok: bool, c: Context) {
    && (ok <==>
          && (before.orphan.Some? ==> before.orphan.value == e)
          && (before.history == [] && !HasAuthority(before) ==> AuthorityFits(e, c)) && HeadFits(e, c))
    && (if ok then after == Ledger(before.history + [e], None, true)
        else after.history == before.history && (before.orphan.Some? ==> after.orphan == before.orphan))
  }

  /** The evidence is of a committed event with this observation's digest. */
  predicate Evidenced(history: seq<Event>, o: Observation, evidence: Evidence, c: Context) {
    exists k :: 0 <= k < |history| && history[k].observation == c.digest(o) && evidence == PublicEvidence(history[k])
  }

  /**
   What observing does to a ledger.  It ends in evidence exactly when the checks let it; a
   known observation changes nothing; success commits exactly the event of this observation;
   failure commits nothing and leaves a waiting event waiting.
   */
  ghost predicate Outcome(before: Ledger, after: Ledger, o: Observation, minted: string, r: Result<Evidence, Failure>,
                          c: Context) {
    && (r.Ok? <==> Succeeds(before, o, minted, c))
    && (r.Ok? ==> Evidenced(after.history, o, r.value, c))
    && (Known(before.history, o, c) ==> after == before)
    && (r.Ok? && !Known(before.history, o, c) ==>
          after == Ledger(before.history + [NextEvent(before, o, minted, c)], None, true))
    && (r.Err? ==> after.history == before.history && (before.orphan.Some? ==> after.orphan == before.orphan))
  }

  lemma RefusedOutcome(l: Ledger, o: Observation, minted: string, failure: Failure, c: Context)
    requires Faithful(c) && WellFormed(l, c) && c.captured(o) && c.minted(minted)
    requires Replaced(l.history, o) ||
      (!Known(l.history, o, c) && BoundariesChanged(l.history, o, NonceFor(l, o, minted), c))
    ensures Outcome(l, l, o, minted, Err(failure), c)
  {
    NextEventIsSound(l, o, minted, c);
  }

  lemma PublishedOutcome(before: Ledger, after: Ledger, e: Event, ok: bool, o: Observation, minted: string,
                         r: Result<Evidence, Failure>, c: Context)
    requires e == NextEvent(before, o, minted, c) && e.observation == c.digest(o) && Publishes(before, after, e, ok, c)
    requires !Replaced(before.history, o) && !Known(before.history, o, c) &&
      !BoundariesChanged(before.history, o, e.nonce, c)
    requires Fits(before, e, c)
    requires if ok then r == Ok(PublicEvidence(e)) else r.Err?
    ensures Outcome(before, after, o, minted, r, c)
  {
    if ok {
      assert after.history[|before.history|] == e;
    }
  }

  /** After evidence, the observation is a known one, and gives evidence again. */
  lemma CommittedIsKnown(before: Ledger, after: Ledger, o: Observation, minted: string, r: Result<Evidence, Failure>,
                         c: Context)
    requires r.Ok? && Outcome(before, after, o, minted, r, c)
    requires Faithful(c) && WellFormed(before, c) && c.captured(o) && c.minted(minted)
    ensures Known(after.history, o, c) && Succeeds(after, o, minted, c)
  {
    if !Known(before.history, o, c) {
      NextEventIsSound(before, o, minted, c);
      assert after.history[|before.history|] == NextEvent(before, o, minted, c);
    }
  }

  /** Each disk is that of a well-formed ledger. */
  ghost predicate Tracks(trace: seq<Disk>, ledgers: seq<Ledger>, c: Context) {
    |trace| == |ledgers| && forall k :: 0 <= k < |trace| ==> Durable(trace[k], ledgers[k], c)
  }

  ghost predicate Durable(d: Disk, l: Ledger, c: Context) {
    WellFormed(l, c) && d == DiskOf(l, c)
  }

  /** The last disk and ledger, at the end of those recorded. */
  ghost predicate Recording(d: Disk, trace: seq<Disk>, l: Ledger, ledgers: seq<Ledger>, c: Context) {
    && Durable(d, l, c) && Tracks(trace, ledgers, c)
    && |trace| > 0 && trace[|trace| - 1] == d && ledgers[|ledgers| - 1] == l
  }

  lemma RecordOneMore(trace: seq<Disk>, ledgers: seq<Ledger>, d: Disk, l: Ledger, c: Context)
    requires Tracks(trace, ledgers, c) && Durable(d, l, c)
    ensures Recording(d, trace + [d], l, ledgers + [l], c)
  {
    forall k | 0 <= k < |trace| + 1 ensures Durable((trace + [d])[k], (ledgers + [l])[k], c) {
      assert k < |trace| ==> Durable(trace[k], ledgers[k], c);
    }
  }

  /** From index `from` on, every ledger follows `start`. */
  ghost predicate AllFollow(start: Ledger, ledgers: seq<Ledger>, from: nat) {
    from < |ledgers| && forall k :: from <= k < |ledgers| ==> Follows(start, ledgers[k])
  }

  lemma FollowOneMore(start: Ledger, ledgers: seq<Ledger>, from: nat, l: Ledger)
    requires AllFollow(start, ledgers, from) && Follows(start, l)
    ensures AllFollow(start, ledgers + [l], from)
  {}

  lemma LastFollowsItself(ledgers: seq<Ledger>)
    requires |ledgers| > 0
    ensures AllFollow(ledgers[|ledgers| - 1], ledgers, |ledgers| - 1)
  {}

  // ---------- the journal ----------

  class Journal {
    const c: Context
    var disk: Disk
    /** Every disk a crash could have left since the journal was opened. */
    var trace: seq<Disk>
    ghost var ledger: Ledger
    ghost var ledgers: seq<Ledger>

    ghost predicate Valid()
      reads this
    {
      Faithful(c) && Recording(disk, trace, ledger, ledgers, c)
    }

    /** Whatever happens after `from`, the disks of the trace follow `start`. */
    ghost predicate Advances(start: Ledger, from: nat)
      reads this
    {
      AllFollow(start, ledgers, from)
    }

    /** An empty journal. */
    constructor (c: Context)
      requires Faithful(c)
      ensures Valid() && this.c == c && ledger == Ledger([], None, false) && ledgers == [ledger]
    {
      this.c := c;
      disk := Disk(map[], {}, {}, None, None);
      trace := [Disk(map[], {}, {}, None, None)];
      ledger := Ledger([], None, false);
      ledgers := [Ledger([], None, false)];
      new;
      assert Files([], c) == map[];
    }

    /** One record becomes durable. */
    method Commit(next: Disk, ghost state: Ledger, ghost start: Ledger, ghost from: nat)
      requires Valid() && Durable(next, state, c)
      requires Advances(start, from) && Follows(start, state)
      modifies this
      ensures Valid() && disk == next && ledger == state && Advances(start, from)
    {
      RecordOneMore(trace, ledgers, next, state, c);
      FollowOneMore(start, ledgers, from, state);
      disk, ledger, trace, ledgers := next, state, trace + [next], ledgers + [state];
    }

    /** Publish the event file, or find it already there. */
    method PublishEvent(e: Event, o: Observation, minted: string, ghost start: Ledger, ghost from: nat)
      returns (ok: bool)
      requires Valid() && c.captured(o) && c.minted(minted) && e == NextEvent(ledger, o, minted, c)
      requires !Replaced(ledger.history, o) && !Known(ledger.history, o, c) &&
        !BoundariesChanged(ledger.history, o, e.nonce, c)
      requires Fits(ledger, e, c) && Advances(start, from) && start == ledger
      modifies this
      ensures Valid() && Advances(start, from)
      ensures ok <==> start.orphan.None? || start.orphan.value == e
      ensures ledger == if start.orphan.Some? then start else Ledger(start.history, Some(e), false)
    {
      NextEventIsSound(ledger, o, minted, c);
      var bytes := c.platform.encodeEvent(e);
      if e.sequence in disk.events {
        OrphanFile(ledger, e, c);
        return disk.events[e.sequence] == bytes;
      }
      OrphanFile(ledger, e, c);
      forall k | 0 <= k < |ledger.history| ensures Agree(ledger.history[k], e, c) {
        AdmittedAgrees(ledger, o, minted, k, c);
      }
      EventPublished(ledger, e, c);
      Commit(disk.(events := disk.events[e.sequence := bytes]), Ledger(ledger.history, Some(e), false), start, from);
      return true;
    }

    /** Before the first commit, name the waiting event as the genesis. */
    method PublishAuthority(reading: Reading, e: Event, ghost start: Ledger, ghost from: nat) returns (ok: bool)
      requires Valid() && ledger.orphan == Some(e) && reading.head.Some? == (ledger.history != [])
      requires reading.authority == if HasAuthority(ledger) then Some(AuthorityFor(All(ledger)[0], c)) else None
      requires Advances(start, from) && Follows(start, ledger)
      modifies this
      ensures Valid() && Advances(start, from)
      ensures ok <==> HasAuthority(old(ledger)) || AuthorityFits(e, c)
      ensures if ok
              then ledger.history == old(ledger).history && ledger.orphan == Some(e) && HasAuthority(ledger)
              else ledger == old(ledger)
    {
      if reading.head.Some? {
        return true;
      }
      var next := Authority(AUTHORITY_FORMAT, c.site.folderbaseId, c.site.rootInstance, c.site.rootContinuity,
                            c.platform.sha(c.platform.encodeEvent(e)));
      if reading.authority.Some? {
        return reading.authority.value == next;
      }
      if |c.platform.encodeAuthority(next)| > MAX_AUTHORITY_BYTES {
        return false;
      }
      AuthorityPublished(ledger, c);
      Commit(disk.(authority := Some(c.platform.encodeAuthority(next))), ledger.(anchored := true), start, from);
      return true;
    }

    /** Move the head to the waiting event. */
    method PublishHead(e: Event, ghost start: Ledger, ghost from: nat) returns (ok: bool)
      requires Valid() && ledger.orphan == Some(e) && HasAuthority(ledger)
      requires Advances(start, from) && Follows(start, ledger)
      modifies this
      ensures Valid() && Advances(start, from)
      ensures ok <==> HeadFits(e, c)
      ensures ledger == if ok then Ledger(old(ledger).history + [e], None, true) else old(ledger)
    {
      var next := HeadFor(e, c);
      if |c.platform.encodeHead(next)| > MAX_HEAD_BYTES {
        return false;
      }
      HeadPublished(ledger, c);
      Commit(disk.(head := Some(c.platform.encodeHead(next))), Ledger(All(ledger), None, true), start, from);
      return true;
    }

    /** Publish an admitted event, the authority of a first one, and the head. */
    method Publish(reading: Reading, e: Event, o: Observation, minted: string, ghost start: Ledger, ghost from: nat)
      returns (ok: bool)
      requires Valid() && c.captured(o) && c.minted(minted) && e == NextEvent(ledger, o, minted, c) &&
        reading == ReadingOf(ledger, c)
      requires !Replaced(ledger.history, o) && !Known(ledger.history, o, c) &&
        !BoundariesChanged(ledger.history, o, e.nonce, c)
      requires Fits(ledger, e, c) && Advances(start, from) && start == ledger
      modifies this
      ensures Valid() && Advances(start, from) && Publishes(start, ledger, e, ok, c)
    {
      ok := PublishEvent(e, o, minted, start, from);
      if !ok {
        return;
      }
      ok := PublishAuthority(reading, e, start, from);
      if !ok {
        return;
      }
      ok := PublishHead(e, start, from);
    }

    /** Read the journal from disk. */
    method Read() returns (reading: Reading)
      requires Valid()
      ensures reading == ReadingOf(ledger, c)
    {
      LedgerIsAccepted(ledger, c);
      var read := ReadJournal(disk, c);
      ReadingIsUnique(disk, read.value, ReadingOf(ledger, c), c);
      return read.value;
    }

    /** Build the event of an admitted observation and publish it. */
    method RecordObservation(reading: Reading, o: Observation, minted: string, nonce: string)
      returns (r: Result<Evidence, Failure>)
      requires Valid() && c.captured(o) && c.minted(minted) && reading == ReadingOf(ledger, c) &&
        nonce == NonceFor(ledger, o, minted)
      requires !Replaced(ledger.history, o) && !Known(ledger.history, o, c) &&
        !BoundariesChanged(ledger.history, o, nonce, c)
      modifies this
      ensures Valid() && Advances(old(ledger), |old(ledgers)| - 1)
      ensures Outcome(old(ledger), ledger, o, minted, r, c)
    {
      var e := Build(reading, o, nonce, c, ledger);
      LastFollowsItself(ledgers);
      if e.None? {
        return Err(InvalidJournal);
      }
      NextEventIsSound(ledger, o, minted, c);
      var ok := Publish(reading, e.value, o, minted, ledger, |ledgers| - 1);
      r := if ok then Ok(PublicEvidence(e.value)) else Err(InvalidJournal);
      PublishedOutcome(old(ledger), ledger, e.value, ok, o, minted, r, c);
    }

    /**
     Observe one folder.  Every disk on the way is that of a well-formed ledger which keeps
     all that was recorded.
     */
    method Observe(o: Observation, minted: string) returns (r: Result<Evidence, Failure>)
      requires Valid() && c.captured(o) && c.minted(minted)
      modifies this
      ensures Valid() && Advances(old(ledger), |old(ledgers)| - 1)
      ensures Outcome(old(ledger), ledger, o, minted, r, c)
    {
      ghost var before := ledger;
      LastFollowsItself(ledgers);
      var reading := Read();
      var decision := Screen(reading.history, reading.orphan, o, minted, c, before);
      if decision.Bind? {
        r := RecordObservation(reading, o, minted, decision.nonce);
      } else if decision.Repeat? {
        r := Ok(PublicEvidence(decision.known));
      } else {
        r := Err(decision.failure);
        RefusedOutcome(before, o, minted, decision.failure, c);
      }
    }

    /**
     One call: look twice, observe if both looks agree, and look at the root once more after
     the head moved.  If the root is no longer the attested one then, the call fails with its
     event committed, and the same observation gives evidence when it is made again.
     */
    method ObserveFolder(sight: Sight, minted: string) returns (r: Result<Evidence, Failure>)
      requires Valid() && c.captured(sight.first) && c.captured(sight.locked) && c.minted(minted)
      modifies this
      ensures Valid() && Advances(old(ledger), |old(ledgers)| - 1)
      ensures sight.first != sight.locked ==> r == Err(ObservationChanged) && ledger == old(ledger) && disk == old(disk)
      ensures r.Ok? <==>
        && sight.first == sight.locked && Succeeds(old(ledger), sight.first, minted, c)
        && (Known(old(ledger).history, sight.first, c) || sight.rootStays)
      ensures r.Ok? ==> Outcome(old(ledger), ledger, sight.first, minted, r, c)
      ensures sight.first == sight.locked && Succeeds(old(ledger), sight.first, minted, c) ==>
        Known(ledger.history, sight.first, c) && Succeeds(ledger, sight.first, minted, c)
    {
      LastFollowsItself(ledgers);
      if sight.first != sight.locked {
        return Err(ObservationChanged);
      }
      var reading := Read();
      ghost var before := ledger;
      var known := exists k :: 0 <= k < |reading.history| && reading.history[k].observation == c.digest(sight.first);
      r := Observe(sight.first, minted);
      if r.Ok? {
        CommittedIsKnown(before, ledger, sight.first, minted, r, c);
        if !known && !sight.rootStays {
          r := Err(ObservationChanged);
        }
      }
    }

    /** A crash leaves one of the disks written since `from`. */
    method Crash(cut: nat, ghost start: Ledger, ghost from: nat)
      requires Valid() && Advances(start, from) && from <= cut < |trace|
      modifies this
      ensures Valid() && Follows(start, ledger) && disk == old(trace)[cut]
    {
      Commit(trace[cut], ledgers[cut], start, from);
    }

    /** Observe, and crash at an arbitrary point of it. */
    method Attempted(attempt: Attempt)
      requires Valid() && c.captured(attempt.sight.first) && c.captured(attempt.sight.locked) &&
        c.minted(attempt.minted)
      modifies this
      ensures Valid() && Follows(old(ledger), ledger)
    {
      var from := |trace| - 1;
      var _ := ObserveFolder(attempt.sight, attempt.minted);
      Crash(from + attempt.cut % (|trace| - from), old(ledger), from);
    }

    /**
     Any number of interrupted observations: each is cut after an arbitrary one of its disks.
     However often that happens, the journal is readable, and nothing recorded is lost.
     */
    method ObserveThroughCrashes(work: seq<Attempt>)
      requires Valid() && forall k :: 0 <= k < |work| ==>
        c.captured(work[k].sight.first) && c.captured(work[k].sight.locked) && c.minted(work[k].minted)
      modifies this
      ensures Valid() && Follows(old(ledger), ledger)
    {
      for k := 0 to |work|
        invariant Valid() && Follows(old(ledger), ledger)
      {
        ghost var before := ledger;
        Attempted(work[k]);
        FollowsIsTransitive(old(ledger), before, ledger);
      }
    }
  }

  // ---------- what the states guarantee ----------

  lemma FollowsIsTransitive(a: Ledger, b: Ledger, d: Ledger)
    requires Follows(a, b) && Follows(b, d)
    ensures Follows(a, d)
  {}

  /** The waiting event is committed by whoever observes its folder again, and by nobody else. */
  lemma OnlyRetryCommitsTheOrphan(l: Ledger, next: Ledger, o: Observation, minted: string, r: Result<Evidence, Failure>,
                                  c: Context)
    requires Faithful(c) && WellFormed(l, c) && l.orphan.Some? && Outcome(l, next, o, minted, r, c)
    requires AuthorityFits(l.orphan.value, c) && HeadFits(l.orphan.value, c)
    ensures if o == l.orphan.value.seen then next == Ledger(l.history + [l.orphan.value], None, true)
            else next.history == l.history && next.orphan == l.orphan && (r.Ok? ==> Known(l.history, o, c))
  {
    RetryBuildsTheOrphan(l, o, minted, c);
    RetryIsAdmitted(l, c);
  }

  /** The event that answers an observation has a seen observation of the same digest, and
      the two are hashed from the same bytes only if they are the same observation. */
  lemma EvidenceIsOfTheObservation(l: Ledger, site: Site, p: Platform, k: nat, o: Observation)
    requires Lossless(p) && WellFormed(l, StandardContext(site, p)) && k < |l.history|
    requires CountableSite(site) && CountableObservation(o) && CountableObservation(l.history[k].seen)
    ensures l.history[k].observation == ObservationSha(site, o, p) <==>
      p.sha(ObservationPreimage(site, l.history[k].seen)) == p.sha(ObservationPreimage(site, o))
    ensures ObservationPreimage(site, l.history[k].seen) == ObservationPreimage(site, o) <==> l.history[k].seen == o
  {
    var c := StandardContext(site, p);
    StandardIsFaithful(site, p);
    assert All(l)[k] == l.history[k];
    EventIsRecorded(l, k, c);
    if ObservationPreimage(site, l.history[k].seen) == ObservationPreimage(site, o) {
      ObservationPreimageInjective(site, o, l.history[k].seen);
    }
  }
}
