/**
 The journalled application of many Change Sets to one Folderbase.

 A set is named by its digest, which determines its ID and its deltas.  Each section of
 apply runs under the transaction lease; it may be cut after any durable step, and sections
 of different processes may interleave.  Capture and history finalization are one idempotent
 step whose outcome, a projection digest, is a parameter; so is what publication writes.
 */
module Apply {
  import opened Prelude
  import opened ChangeSet

  type Digest = string

  /** A Change Set digest: SHA-256 over a payload that contains the ID and the deltas. */
  datatype Sha = Sha(id: string, deltas: seq<Delta>)

  datatype Phase = Prepared | Published

  datatype Journal = Journal(id: string, sha: Sha, phase: Phase)

  /** The durable records of apply, and the workspace they protect. */
  datatype Disk = Disk(
    ids: map<string, Sha>,
    receipts: map<Sha, Digest>,
    active: Option<Journal>,
    workspace: Snapshot)

  predicate Bound(d: Disk, s: Sha) {
    s.id in d.ids && d.ids[s.id] == s
  }

  predicate OwnsJournal(d: Disk, s: Sha) {
    d.active.Some? && d.active.value.sha == s
  }

  /** What holds of the records at every moment. */
  ghost predicate Consistent(d: Disk) {
    && (d.active.Some? ==> d.active.value.id == d.active.value.sha.id && Bound(d, d.active.value.sha))
    && (forall s :: s in d.receipts ==> Bound(d, s))
  }

  // ---------- one durable step on behalf of a set ----------

  predicate Binds(s: Sha, d: Disk, e: Disk) {
    s.id !in d.ids && e == d.(ids := d.ids[s.id := s])
  }

  predicate Begins(s: Sha, d: Disk, e: Disk) {
    d.active.None? && Bound(d, s) && s !in d.receipts && e == d.(active := Some(Journal(s.id, s, Prepared)))
  }

  predicate Writes(s: Sha, d: Disk, e: Disk) {
    d.active == Some(Journal(s.id, s, Prepared)) && s !in d.receipts && e == d.(workspace := e.workspace)
  }

  predicate Publishes(s: Sha, d: Disk, e: Disk) {
    d.active == Some(Journal(s.id, s, Prepared)) && s !in d.receipts &&
      e == d.(active := Some(Journal(s.id, s, Published)))
  }

  predicate Completes(s: Sha, d: Disk, e: Disk) {
    s !in d.receipts && Bound(d, s) && s in e.receipts && e == d.(receipts := d.receipts[s := e.receipts[s]])
  }

  predicate Clears(s: Sha, d: Disk, e: Disk) {
    OwnsJournal(d, s) && s in d.receipts && e == d.(active := None)
  }

  predicate Step(s: Sha, d: Disk, e: Disk) {
    Binds(s, d, e) || Begins(s, d, e) || Writes(s, d, e) || Publishes(s, d, e) || Completes(s, d, e) || Clears(s, d, e)
  }

  // ---------- the sections ----------

  datatype Outcome =
    | AlreadyApplied(digest: Digest)
    | Applied(digest: Digest)
    | Attention
    | Continue(observed: Option<Digest>)
    | IdReused
    | Refused

  /**
   What the surroundings decide: whether the gate lets an interrupted workspace through, the
   assessment, whether the prepared bytes are there, the disks publication leaves and whether
   it reports success, and the projection of the workspace.
   */
  datatype Surroundings = Surroundings(
    recoverable: bool,
    clean: bool,
    prepared: bool,
    writes: seq<Snapshot>,
    completes: bool,
    projection: Digest)

  datatype Gate = Free | Resume | Done | Blocked

  /** What the active journal and the workspace allow the set to do. */
  function GateOf(d: Disk, s: Sha, recoverable: bool): (g: Gate)
    ensures g == Free ==> d.active.None?
    ensures g == Resume ==> d.active == Some(Journal(s.id, s, Prepared)) && !MatchesAfter(s.deltas, d.workspace.tree)
    ensures g == Done ==> OwnsJournal(d, s) && MatchesAfter(s.deltas, d.workspace.tree)
    ensures d.active.Some? && d.active.value.sha != s ==> g == Blocked
  {
    match d.active
    case None => Free
    case Some(active) =>
      if active.sha != s || active.id != s.id then Blocked
      else if MatchesAfter(s.deltas, d.workspace.tree) then Done
      else if active.phase == Prepared && recoverable then Resume
      else Blocked
  }

  // ---------- what a section answers, and the disks it leaves one after the other ----------

  /** The ID names no other set. */
  predicate MayBind(d: Disk, s: Sha) {
    s.id in d.ids ==> d.ids[s.id] == s
  }

  function Bind(d: Disk, s: Sha): Disk {
    d.(ids := d.ids[s.id := s])
  }

  function Under(d: Disk, s: Sha, phase: Phase): Disk {
    d.(active := Some(Journal(s.id, s, phase)))
  }

  /** The workspace at the end of a publication. */
  function Final(d: Disk, o: Surroundings): Snapshot {
    if o.writes == [] then d.workspace else o.writes[|o.writes| - 1]
  }

  function Clearing(d: Disk, s: Sha): seq<Disk> {
    if OwnsJournal(d, s) then [d.(active := None)] else []
  }

  function Writing(d: Disk, writes: seq<Snapshot>): seq<Disk> {
    seq(|writes|, n requires 0 <= n < |writes| => d.(workspace := writes[n]))
  }

  function Publishing(d: Disk, s: Sha, o: Surroundings): seq<Disk> {
    Writing(d, o.writes) + if o.completes then [Under(d.(workspace := Final(d, o)), s, Published)] else []
  }

  function Proceeding(d: Disk, s: Sha, o: Surroundings): seq<Disk> {
    match GateOf(d, s, o.recoverable)
    case Blocked => []
    case Done => []
    case Resume => if o.prepared then Publishing(d, s, o) else []
    case Free =>
      if o.clean && o.prepared then [Under(d, s, Prepared)] + Publishing(Under(d, s, Prepared), s, o) else []
  }

  function Beginning(d: Disk, s: Sha, o: Surroundings): seq<Disk> {
    if s in d.receipts then if Bound(d, s) then Clearing(d, s) else []
    else if !MayBind(d, s) then []
    else (if s.id in d.ids then [] else [Bind(d, s)]) + Proceeding(Bind(d, s), s, o)
  }

  function Finishing(d: Disk, s: Sha, observed: Option<Digest>, projection: Digest): seq<Disk> {
    if observed.Some? && observed.value != projection then []
    else if s !in d.receipts then
      [d.(receipts := d.receipts[s := projection])] + Clearing(d.(receipts := d.receipts[s := projection]), s)
    else if d.receipts[s] == projection then Clearing(d, s)
    else []
  }

  /** What the first section answers. */
  function Answer(d: Disk, s: Sha, o: Surroundings): Outcome {
    if s in d.receipts then if Bound(d, s) then AlreadyApplied(d.receipts[s]) else IdReused
    else if !MayBind(d, s) then IdReused
    else
      match GateOf(d, s, o.recoverable)
      case Blocked => Refused
      case Done => Continue(Some(o.projection))
      case Resume => if o.prepared && o.completes then Continue(None) else Refused
      case Free => if !o.clean then Attention else if o.prepared && o.completes then Continue(None) else Refused
  }

  class Store {
    var disk: Disk
    var trace: seq<Disk>

    /** Since `from`, the disk moved by steps of `s` only. */
    ghost predicate Steps(s: Sha, from: nat)
      reads this
    {
      && from < |trace| && trace[|trace| - 1] == disk
      && forall k :: from <= k < |trace| - 1 ==> Step(s, trace[k], trace[k + 1])
    }

    constructor (d: Disk)
      ensures disk == d && trace == [d]
    {
      disk, trace := d, [d];
    }

    method Commit(d: Disk)
      modifies this
      ensures disk == d && trace == old(trace) + [d]
    {
      disk, trace := d, trace + [d];
    }

    /** Remove the active journal when it is this set's own. */
    method Cleanup(s: Sha, ghost from: nat)
      requires Steps(s, from) && s in disk.receipts
      modifies this
      ensures Steps(s, from) && trace == old(trace) + Clearing(old(disk), s)
      ensures disk == if OwnsJournal(old(disk), s) then old(disk).(active := None) else old(disk)
    {
      if OwnsJournal(disk, s) {
        Commit(disk.(active := None));
      }
    }

    /** Answer a set that already has its receipt; the workspace is left alone. */
    method Replay(s: Sha, ghost from: nat) returns (r: Option<Outcome>)
      requires Steps(s, from)
      modifies this
      ensures Steps(s, from)
      ensures trace == old(trace) +
        if s in old(disk).receipts && Bound(old(disk), s) then Clearing(old(disk), s) else []
      ensures r == if s !in old(disk).receipts then None
                   else if Bound(old(disk), s) then Some(AlreadyApplied(old(disk).receipts[s])) else Some(IdReused)
      ensures disk == if r.Some? && r.value.AlreadyApplied? && OwnsJournal(old(disk), s)
                      then old(disk).(active := None) else old(disk)
    {
      if s !in disk.receipts {
        return None;
      }
      if !Bound(disk, s) {
        return Some(IdReused);
      }
      Cleanup(s, from);
      return Some(AlreadyApplied(disk.receipts[s]));
    }

    /** Publish: whatever it writes, it writes under the set's own prepared journal. */
    method Publication(s: Sha, ghost from: nat, o: Surroundings) returns (ok: bool)
      requires Steps(s, from) && s !in disk.receipts
      requires disk.active == Some(Journal(s.id, s, Prepared))
      modifies this
      ensures Steps(s, from) && trace == old(trace) + Publishing(old(disk), s, o)
      ensures ok == o.completes
      ensures disk == old(disk).(workspace := Final(old(disk), o),
                                 active := if ok then Some(Journal(s.id, s, Published)) else old(disk).active)
    {
      for n := 0 to |o.writes|
        invariant Steps(s, from) && trace == old(trace) + Writing(old(disk), o.writes[..n])
        invariant disk == old(disk).(workspace := if n == 0 then old(disk).workspace else o.writes[n - 1])
      {
        Commit(disk.(workspace := o.writes[n]));
      }
      assert o.writes[..|o.writes|] == o.writes;
      if !o.completes {
        return false;
      }
      Commit(disk.(active := Some(Journal(s.id, s, Published))));
      return true;
    }

    /** Bind the ID to this set, unless another set has it. */
    method BindId(s: Sha, ghost from: nat) returns (ok: bool)
      requires Steps(s, from) && s !in disk.receipts
      modifies this
      ensures Steps(s, from)
      ensures trace == old(trace) + if s.id in old(disk).ids then [] else [Bind(old(disk), s)]
      ensures ok <==> MayBind(old(disk), s)
      ensures disk == if ok then Bind(old(disk), s) else old(disk)
    {
      if s.id in disk.ids {
        assert disk.ids[s.id] == s ==> disk.ids[s.id := s] == disk.ids;
        return disk.ids[s.id] == s;
      }
      Commit(Bind(disk, s));
      return true;
    }

    /** Under the bound ID: pass the gate, journal the preparation, publish. */
    method Proceed(s: Sha, ghost from: nat, o: Surroundings) returns (r: Outcome)
      requires Steps(s, from) && Bound(disk, s) && s !in disk.receipts
      modifies this
      ensures Steps(s, from) && trace == old(trace) + Proceeding(old(disk), s, o)
      ensures r == Answer(old(disk), s, o)
      ensures disk == old(disk).(workspace := disk.workspace, active := disk.active)
      ensures old(disk).active.Some? && old(disk).active.value.sha != s ==> r.Refused? && disk == old(disk)
      ensures r.Continue? ==> OwnsJournal(disk, s)
      ensures r.Continue? && r.observed.Some? ==> MatchesAfter(s.deltas, disk.workspace.tree) && disk == old(disk)
      ensures r.Continue? && r.observed.None? ==>
        disk.active.value.phase == Published && disk.workspace == Final(old(disk), o)
      ensures r.Attention? ==> disk == old(disk)
    {
      match GateOf(disk, s, o.recoverable) {
        case Blocked => return Refused;
        case Done => return Continue(Some(o.projection));
        case Resume =>
          if !o.prepared {
            return Refused;
          }
        case Free =>
          if !o.clean {
            return Attention;
          }
          if !o.prepared {
            return Refused;
          }
          Commit(disk.(active := Some(Journal(s.id, s, Prepared))));
      }
      var ok := Publication(s, from, o);
      return if ok then Continue(None) else Refused;
    }

    /**
     From the lease to the published journal.  It goes on exactly when the set has no receipt
     yet, its ID is free or its own, and the gate finds the workspace done, or lets it be
     published and the publication succeeds.
     */
    method Begin(s: Sha, ghost from: nat, o: Surroundings) returns (r: Outcome)
      requires Steps(s, from)
      modifies this
      ensures Steps(s, from) && trace == old(trace) + Beginning(old(disk), s, o)
      ensures r == Answer(old(disk), s, o)
      ensures s in old(disk).receipts && Bound(old(disk), s) ==>
        r == AlreadyApplied(old(disk).receipts[s]) && disk.workspace == old(disk).workspace
      ensures r.IdReused? <==> !MayBind(old(disk), s) || (s in old(disk).receipts && !Bound(old(disk), s))
      ensures var gate := GateOf(old(disk), s, o.recoverable);
        r.Continue? <==>
          && s !in old(disk).receipts && MayBind(old(disk), s)
          && (gate == Done || (gate == Resume && o.prepared && o.completes) ||
                (gate == Free && o.clean && o.prepared && o.completes))
      ensures old(disk).active.Some? && old(disk).active.value.sha != s && s !in old(disk).receipts ==>
        (r.IdReused? || r.Refused?) && disk.workspace == old(disk).workspace && disk.active == old(disk).active
      ensures r.Continue? ==> Bound(disk, s) && s !in disk.receipts && OwnsJournal(disk, s)
      ensures r.Continue? && r.observed.Some? ==>
        MatchesAfter(s.deltas, disk.workspace.tree) && disk.workspace == old(disk).workspace
      ensures r.Continue? && r.observed.None? ==>
        disk.active.value.phase == Published && disk.workspace == Final(old(disk), o)
      ensures r.Attention? ==> disk.workspace == old(disk).workspace && disk.active == old(disk).active
    {
      var replayed := Replay(s, from);
      if replayed.Some? {
        return replayed.value;
      }
      var ok := BindId(s, from);
      if !ok {
        return IdReused;
      }
      r := Proceed(s, from, o);
    }

    /** After the history step, the receipt; an existing receipt is never changed. */
    method Finish(s: Sha, ghost from: nat, observed: Option<Digest>, projection: Digest) returns (r: Outcome)
      requires Steps(s, from) && Bound(disk, s)
      modifies this
      ensures Steps(s, from) && trace == old(trace) + Finishing(old(disk), s, observed, projection)
      ensures disk.workspace == old(disk).workspace && disk.ids == old(disk).ids
      ensures r == if observed.Some? && observed.value != projection then Refused
                   else if s in old(disk).receipts && old(disk).receipts[s] != projection then Refused
                   else Applied(projection)
      ensures disk.receipts == if r.Applied? then old(disk).receipts[s := projection] else old(disk).receipts
      ensures disk.active == if r.Applied? && OwnsJournal(old(disk), s) then None else old(disk).active
    {
      if observed.Some? && observed.value != projection {
        return Refused;
      }
      if s !in disk.receipts {
        Commit(disk.(receipts := disk.receipts[s := projection]));
      } else if disk.receipts[s] != projection {
        return Refused;
      }
      Cleanup(s, from);
      return Applied(projection);
    }
  }

  // ---------- whole runs ----------

  /**
   A run: the disks left by any number of applies, crashes and retries of any sets.  Step
   `k` is a durable step some section took on behalf of `actors[k]`.
   */
  ghost predicate IsRun(disks: seq<Disk>, actors: seq<Sha>) {
    && |disks| == |actors| + 1
    && Consistent(disks[0])
    && forall k :: 0 <= k < |actors| ==> Step(actors[k], disks[k], disks[k + 1])
  }

  /** What a section leaves, cut anywhere, extends a run that ended where the section began. */
  lemma SectionExtendsRun(disks: seq<Disk>, actors: seq<Sha>, s: Sha, trace: seq<Disk>, cut: nat)
    requires IsRun(disks, actors) && cut < |trace| && trace[0] == disks[|disks| - 1]
    requires forall k :: 0 <= k < |trace| - 1 ==> Step(s, trace[k], trace[k + 1])
    ensures IsRun(disks + trace[1..cut + 1], actors + seq(cut, _ => s))
  {
    var more, doers := disks + trace[1..cut + 1], actors + seq(cut, _ => s);
    forall k | 0 <= k < |doers| ensures Step(doers[k], more[k], more[k + 1]) {
      if k >= |actors| {
        assert more[k] == trace[k - |actors|] && more[k + 1] == trace[k - |actors| + 1];
      }
    }
  }

  lemma StepKeepsConsistent(s: Sha, d: Disk, e: Disk)
    requires Step(s, d, e) && Consistent(d)
    ensures Consistent(e)
    ensures forall i :: i in d.ids ==> i in e.ids && e.ids[i] == d.ids[i]
    ensures forall r :: r in d.receipts ==> r in e.receipts && e.receipts[r] == d.receipts[r]
  {}

  /** Along a run the records stay consistent, and ID bindings and receipts are write-once. */
  lemma {:induction false} RecordsAreWriteOnce(disks: seq<Disk>, actors: seq<Sha>, i: nat, j: nat)
    requires IsRun(disks, actors) && i <= j < |disks|
    ensures Consistent(disks[i]) && Consistent(disks[j])
    ensures forall id :: id in disks[i].ids ==> id in disks[j].ids && disks[j].ids[id] == disks[i].ids[id]
    ensures forall r :: r in disks[i].receipts ==>
      r in disks[j].receipts && disks[j].receipts[r] == disks[i].receipts[r]
    decreases j
  {
    if i < j {
      RecordsAreWriteOnce(disks, actors, i, j - 1);
      StepKeepsConsistent(actors[j - 1], disks[j - 1], disks[j]);
    } else if i > 0 {
      RecordsAreWriteOnce(disks, actors, i - 1, i - 1);
      StepKeepsConsistent(actors[i - 1], disks[i - 1], disks[i]);
    }
  }

  /** A set's journal only goes away once its receipt exists; no other set's journal replaces it. */
  lemma {:induction false} JournalOutlivesNothingButReceipt(disks: seq<Disk>, actors: seq<Sha>, i: nat, j: nat, s: Sha)
    requires IsRun(disks, actors) && i <= j < |disks| && OwnsJournal(disks[i], s)
    ensures OwnsJournal(disks[j], s) || s in disks[j].receipts
    decreases j - i
  {
    if i < j {
      JournalOutlivesNothingButReceipt(disks, actors, i, j - 1, s);
      RecordsAreWriteOnce(disks, actors, j - 1, j);
    }
  }

  ghost predicate WritesAt(disks: seq<Disk>, actors: seq<Sha>, k: nat, s: Sha)
    requires IsRun(disks, actors) && k < |actors|
  {
    actors[k] == s && disks[k].workspace != disks[k + 1].workspace
  }

  /** The workspace changes only under the acting set's own prepared journal, before its receipt. */
  lemma WorkspaceIsProtected(disks: seq<Disk>, actors: seq<Sha>, k: nat)
    requires IsRun(disks, actors) && k < |actors| && disks[k].workspace != disks[k + 1].workspace
    ensures disks[k].active == Some(Journal(actors[k].id, actors[k], Prepared)) && actors[k] !in disks[k].receipts
  {}

  /** Once a set has its receipt it never writes the workspace again. */
  lemma ReceiptEndsWriting(disks: seq<Disk>, actors: seq<Sha>, i: nat, k: nat, s: Sha)
    requires IsRun(disks, actors) && i <= k < |actors| && s in disks[i].receipts
    ensures !WritesAt(disks, actors, k, s)
  {
    RecordsAreWriteOnce(disks, actors, i, k);
  }

  /** The workspace writes of different sets never interleave. */
  lemma WritesAreSerial(disks: seq<Disk>, actors: seq<Sha>, i: nat, j: nat, k: nat, s: Sha, other: Sha)
    requires IsRun(disks, actors) && i < j < k < |actors| && s != other
    requires WritesAt(disks, actors, i, s) && WritesAt(disks, actors, j, other)
    ensures !WritesAt(disks, actors, k, s)
    ensures s in disks[j].receipts
  {
    WorkspaceIsProtected(disks, actors, i);
    WorkspaceIsProtected(disks, actors, j);
    JournalOutlivesNothingButReceipt(disks, actors, i, j, s);
    ReceiptEndsWriting(disks, actors, j, k, s);
  }

  /** Every later call of a set with a receipt is answered with the digest of that receipt. */
  lemma ReceiptIsTheAnswer(disks: seq<Disk>, actors: seq<Sha>, i: nat, j: nat, s: Sha, o: Surroundings)
    requires IsRun(disks, actors) && i <= j < |disks| && s in disks[i].receipts
    ensures Answer(disks[j], s, o) == AlreadyApplied(disks[i].receipts[s])
  {
    RecordsAreWriteOnce(disks, actors, i, j);
  }
}
