/**
 One Change Set applied for as long as it takes: each attempt finds its way through the
 records, the gate and the journal, publishes on the workspace, and may be cut after any
 durable step of any of them.
 */
module Attempts {
  import opened Prelude
  import opened ChangeSet
  import opened Transit
  import opened Passes
  import opened Reuse
  import opened Publication
  import Apply

  /**
   A set that was assessed clean of its source and prepared: its name in markers, the
   prepared files, and the digest capture and history give a workspace.  What a link leads to
   is not part of the model, so no path of the set leads through one.
   */
  datatype Job = Job(
    s: Apply.Sha,
    name: string,
    source: Tree,
    work: map<ObjectId, Node>,
    project: Tree -> Apply.Digest)
  {
    ghost predicate Valid() {
      Fits(s.deltas, source) && Ready(s.deltas, work) && !LeadsThroughLink(s.deltas, source)
    }

    ghost predicate Moving(w: Snapshot) {
      InTransit(s.deltas, source, w.tree, w.markers, name)
    }
  }

  predicate Answers(r: Apply.Outcome) {
    r.Applied? || r.AlreadyApplied?
  }

  /** A published workspace: the live deltas are applied, and nothing was moved into a deleted path. */
  ghost predicate Done(j: Job, t: Tree) {
    Applied(j.s.deltas, t) && NoMoveIntoDeleted(j.s.deltas)
  }

  /** The set has its receipt, or its publication was journalled as complete. */
  predicate Ended(s: Apply.Sha, d: Apply.Disk) {
    s in d.receipts || (d.active.Some? && d.active.value.phase == Apply.Published)
  }

  /**
   What every disk satisfies: the workspace is the source until the journal is there, in
   transit under it, and published when the journal or the receipt says so.
   */
  ghost predicate Safe(j: Job, d: Apply.Disk) {
    && Apply.Consistent(d) && Apply.MayBind(d, j.s)
    && (d.active.Some? ==> Apply.OwnsJournal(d, j.s))
    && j.Moving(d.workspace)
    && (d.active.None? && j.s !in d.receipts ==> d.workspace == Snapshot(j.source, map[]))
    && (Ended(j.s, d) ==> Done(j, d.workspace.tree))
    && (j.s in d.receipts ==> d.receipts[j.s] == j.project(d.workspace.tree))
  }

  /** The surroundings are those of a disk: they report what the workspace says. */
  ghost predicate Reports(j: Job, d: Apply.Disk, o: Apply.Surroundings) {
    && o.clean && o.prepared && o.projection == j.project(d.workspace.tree)
    && (forall k :: 0 <= k < |o.writes| ==> j.Moving(o.writes[k]))
    && (o.completes ==> Done(j, Apply.Final(d, o).tree))
  }

  ghost predicate AllSafe(j: Job, disks: seq<Apply.Disk>) {
    forall k :: 0 <= k < |disks| ==> Safe(j, disks[k])
  }

  lemma PublishingIsSafe(j: Job, d: Apply.Disk, o: Apply.Surroundings)
    requires Safe(j, d) && Reports(j, d, o)
    requires j.s !in d.receipts && d.active == Some(Apply.Journal(j.s.id, j.s, Apply.Prepared))
    ensures AllSafe(j, Apply.Publishing(d, j.s, o))
  {}

  /** The first section leaves safe disks only. */
  lemma BeginningIsSafe(j: Job, d: Apply.Disk, o: Apply.Surroundings)
    requires Safe(j, d) && Reports(j, d, o)
    ensures AllSafe(j, Apply.Beginning(d, j.s, o))
  {
    if j.s !in d.receipts {
      var bound := Apply.Bind(d, j.s);
      assert Safe(j, bound);
      match Apply.GateOf(bound, j.s, o.recoverable)
      case Blocked =>
      case Done =>
      case Resume => PublishingIsSafe(j, bound, o);
      case Free =>
        assert Safe(j, Apply.Under(bound, j.s, Apply.Prepared));
        PublishingIsSafe(j, Apply.Under(bound, j.s, Apply.Prepared), o);
    }
  }

  /** So does the last one, on a published workspace. */
  lemma FinishingIsSafe(j: Job, d: Apply.Disk, observed: Option<Apply.Digest>)
    requires Safe(j, d) && Done(j, d.workspace.tree) && Apply.Bound(d, j.s)
    ensures AllSafe(j, Apply.Finishing(d, j.s, observed, j.project(d.workspace.tree)))
  {}

  /** The gate lets the workspace through, and publication has not ended yet. */
  predicate Resumable(j: Job, d: Apply.Disk) {
    !Ended(j.s, d) && Recoverable(j.s.deltas, d.workspace.tree, d.workspace.markers, j.name)
  }

  /** A safe workspace of a set with no windows and no reuse is done, or resumable. */
  lemma SafeIsResumable(j: Job, d: Apply.Disk)
    requires j.Valid() && Safe(j, d) && NoRetarget(j.s.deltas) && !DeletedPathReused(j.s.deltas)
    ensures Ended(j.s, d) || Resumable(j, d)
  {
    NoRetargetNoWindow(j.s.deltas, d.workspace.tree);
    RecoverableUnlessInWindow(j.s.deltas, j.source, d.workspace.tree, d.workspace.markers, j.name);
  }

  /** The disks of a publication, after the one it started from, are what its surroundings report. */
  lemma TraceReports(j: Job, d: Apply.Disk, o: Apply.Surroundings, trace: seq<Snapshot>)
    requires o.clean && o.prepared && o.projection == j.project(d.workspace.tree)
    requires AllInTransit(j.s.deltas, j.source, trace, 0, j.name)
    requires trace != [] && trace[0] == d.workspace && o.writes == trace[1..]
    requires o.completes ==> Done(j, trace[|trace| - 1].tree)
    ensures Reports(j, d, o)
  {
    assert forall k :: 0 <= k < |o.writes| ==> o.writes[k] == trace[k + 1];
  }

  /** Ask the workspace what publishing the set does to it. */
  method Consult(j: Job, d: Apply.Disk) returns (o: Apply.Surroundings)
    requires j.Valid() && Safe(j, d)
    ensures Reports(j, d, o)
    ensures o.recoverable <==>
      Recoverable(j.s.deltas, d.workspace.tree, d.workspace.markers, j.name) && Reachable(j.s.deltas, d.workspace.tree)
    ensures !o.completes && NothingReused(j.s.deltas, d.workspace.tree) ==>
      !Passable(j.s.deltas, j.source) || !Covered(j.s.deltas, j.source) || !NoWindow(j.s.deltas, d.workspace.tree)
    ensures o.completes && d.workspace.tree == j.source ==> Unobstructed(j.s.deltas, j.source)
  {
    var ds, t := j.s.deltas, d.workspace.tree;
    var recoverable := Recoverable(ds, t, d.workspace.markers, j.name) && Reachable(ds, t);
    var workspace := new Workspace.At(d.workspace);
    var status := workspace.Publish(ds, j.source, j.name, 0, j.work);
    o := Apply.Surroundings(recoverable, true, true, workspace.trace[1..], status == Completed, j.project(t));
    TraceReports(j, d, o, workspace.trace);
  }

  ghost predicate StepsOf(s: Apply.Sha, disks: seq<Apply.Disk>) {
    forall k :: 0 <= k < |disks| - 1 ==> Apply.Step(s, disks[k], disks[k + 1])
  }

  /** Before its first attempt: no journal, no receipt, the ID free or its own. */
  ghost predicate Fresh(j: Job, d: Apply.Disk) {
    && Apply.Consistent(d) && Apply.MayBind(d, j.s)
    && d.active.None? && j.s !in d.receipts && d.workspace == Snapshot(j.source, map[])
  }

  /** Nothing keeps the set from being applied: it is done and recognised, or can be resumed. */
  ghost predicate Favourable(j: Job, d: Apply.Disk) {
    && Passable(j.s.deltas, j.source) && Covered(j.s.deltas, j.source)
    && (Resumable(j, d) || (NoRetarget(j.s.deltas) && !DeletedPathReused(j.s.deltas)))
  }

  /** Where everything is favourable, the first section finds a receipt or goes on. */
  lemma FavourableGoesOn(j: Job, d: Apply.Disk, o: Apply.Surroundings)
    requires j.Valid() && Safe(j, d) && Reports(j, d, o) && Favourable(j, d)
    requires o.recoverable <==>
      Recoverable(j.s.deltas, d.workspace.tree, d.workspace.markers, j.name) && Reachable(j.s.deltas, d.workspace.tree)
    requires !o.completes && NothingReused(j.s.deltas, d.workspace.tree) ==>
      !NoWindow(j.s.deltas, d.workspace.tree)
    ensures Apply.Answer(d, j.s, o).Continue? || Apply.Answer(d, j.s, o).AlreadyApplied?
  {
    var ds, t := j.s.deltas, d.workspace.tree;
    if !Resumable(j, d) {
      SafeIsResumable(j, d);
    }
    if Ended(j.s, d) {
      MatchesAfterIff(ds, t);
    } else {
      RecoverableHasNoWindow(ds, t, d.workspace.markers, j.name);
      RecoverableIsUnreused(ds, j.source, t, d.workspace.markers, j.name);
      PassableIsReachable(ds, j.source, t, d.workspace.markers, j.name);
    }
  }

  /** A fresh set goes on only if nothing stands above its paths. */
  lemma FreshGoesOn(j: Job, d: Apply.Disk, o: Apply.Surroundings)
    requires Fresh(j, d)
    ensures !Apply.Answer(d, j.s, o).AlreadyApplied?
    ensures Apply.Answer(d, j.s, o).Continue? ==> o.completes
  {}

  /** The workspace is published, the receipt is missing, and what was observed is its projection. */
  ghost predicate AtPublication(j: Job, d: Apply.Disk, observed: Option<Apply.Digest>) {
    && Safe(j, d) && Apply.Bound(d, j.s) && j.s !in d.receipts && Apply.OwnsJournal(d, j.s)
    && Done(j, d.workspace.tree)
    && (observed.Some? ==> observed.value == j.project(d.workspace.tree))
  }

  ghost predicate HasReceipt(j: Job, d: Apply.Disk, digest: Apply.Digest) {
    j.s in d.receipts && d.receipts[j.s] == digest && d.active.None?
  }

  lemma SafeTail(j: Job, trace: seq<Apply.Disk>, d: Apply.Disk, disks: seq<Apply.Disk>)
    requires Safe(j, d) && AllSafe(j, disks) && trace == [d] + disks
    ensures AllSafe(j, trace) && Safe(j, trace[|trace| - 1])
  {}

  /** Only a set that uses a deleted path again moves anything into one. */
  lemma OnlyReuseMovesIn(j: Job)
    requires j.Valid()
    ensures DeletedPathReused(j.s.deltas) || NoMoveIntoDeleted(j.s.deltas)
    ensures Unhindered(j.s.deltas, j.source) ==> Passable(j.s.deltas, j.source)
  {
    if !DeletedPathReused(j.s.deltas) {
      NoReuseNoMoves(j.s.deltas, j.source);
    }
  }

  /** Where the first section goes on, the workspace is published. */
  lemma GoingOnIsPublication(j: Job, e: Apply.Disk, observed: Option<Apply.Digest>)
    requires j.Valid() && Safe(j, e) && Apply.Bound(e, j.s) && j.s !in e.receipts && Apply.OwnsJournal(e, j.s)
    requires observed.Some? ==>
      MatchesAfter(j.s.deltas, e.workspace.tree) && observed.value == j.project(e.workspace.tree)
    requires observed.None? ==> e.active.value.phase == Apply.Published
    ensures AtPublication(j, e, observed)
  {
    if observed.Some? {
      OnlyReuseMovesIn(j);
      MatchesAfterIff(j.s.deltas, e.workspace.tree);
    }
  }

  /** The first section of an attempt, in given surroundings. */
  method Start(j: Job, d: Apply.Disk, o: Apply.Surroundings) returns (store: Apply.Store, r: Apply.Outcome)
    requires j.Valid() && Safe(j, d) && Reports(j, d, o)
    ensures fresh(store) && store.Steps(j.s, 0) && store.trace[0] == d && AllSafe(j, store.trace)
    ensures r == Apply.Answer(d, j.s, o)
    ensures r.Continue? ==> AtPublication(j, store.disk, r.observed)
    ensures !r.Applied? && (r.AlreadyApplied? ==> HasReceipt(j, store.disk, r.digest))
  {
    store := new Apply.Store(d);
    BeginningIsSafe(j, d, o);
    r := store.Begin(j.s, 0, o);
    SafeTail(j, store.trace, d, Apply.Beginning(d, j.s, o));
    if r.Continue? {
      GoingOnIsPublication(j, store.disk, r.observed);
    }
  }

  /** The first section of an attempt. */
  method Open(j: Job, d: Apply.Disk) returns (store: Apply.Store, r: Apply.Outcome)
    requires j.Valid() && Safe(j, d)
    ensures fresh(store) && store.Steps(j.s, 0) && store.trace[0] == d && AllSafe(j, store.trace)
    ensures r.Continue? ==> AtPublication(j, store.disk, r.observed)
    ensures !r.Applied? && (r.AlreadyApplied? ==> HasReceipt(j, store.disk, r.digest))
    ensures Favourable(j, d) ==> r.Continue? || r.AlreadyApplied?
    ensures Fresh(j, d) && (r.Continue? || r.AlreadyApplied?) ==> Unobstructed(j.s.deltas, j.source)
  {
    var o := Consult(j, d);
    if Favourable(j, d) {
      FavourableGoesOn(j, d, o);
    }
    if Fresh(j, d) {
      FreshGoesOn(j, d, o);
    }
    store, r := Start(j, d, o);
  }

  /** The last section of an attempt whose workspace is published. */
  method Conclude(j: Job, store: Apply.Store, observed: Option<Apply.Digest>) returns (r: Apply.Outcome)
    requires store.Steps(j.s, 0) && AllSafe(j, store.trace) && AtPublication(j, store.disk, observed)
    modifies store
    ensures store.Steps(j.s, 0) && old(store.trace) <= store.trace && AllSafe(j, store.trace)
    ensures r.Applied? && HasReceipt(j, store.disk, r.digest)
  {
    FinishingIsSafe(j, store.disk, observed);
    r := store.Finish(j.s, 0, observed, j.project(store.disk.workspace.tree));
  }

  /**
   One attempt, with the disks it leaves.  It ends with the receipt, or because it was
   refused; where everything is favourable, it is not.
   */
  method Attempt(j: Job, d: Apply.Disk) returns (r: Apply.Outcome, left: seq<Apply.Disk>)
    requires j.Valid() && Safe(j, d)
    ensures left != [] && left[0] == d && StepsOf(j.s, left) && AllSafe(j, left)
    ensures Answers(r) ==> HasReceipt(j, left[|left| - 1], r.digest)
    ensures Favourable(j, d) ==> Answers(r)
    ensures Fresh(j, d) && Answers(r) ==> Unobstructed(j.s.deltas, j.source)
  {
    var store;
    store, r := Open(j, d);
    if r.Continue? {
      r := Conclude(j, store, r.observed);
    }
    left := store.trace;
  }

  /** A receipt on a safe disk: the workspace is the merge, which the set covers. */
  lemma ReceiptMeansMerge(j: Job, d: Apply.Disk)
    requires j.Valid() && Safe(j, d) && j.s in d.receipts
    ensures Merge(j.s.deltas, j.source, d.workspace.tree)
    ensures Covered(j.s.deltas, j.source) && NoMoveIntoDeleted(j.s.deltas)
  {
    AppliedInTransitIsMerge(j.s.deltas, j.source, d.workspace.tree, d.workspace.markers, j.name);
    AppliedIsCovered(j.s.deltas, j.source, d.workspace.tree, d.workspace.markers, j.name);
  }

  /** A cut attempt extends the run. */
  method CutAt(j: Job, ghost run: seq<Apply.Disk>, ghost actors: seq<Apply.Sha>, left: seq<Apply.Disk>, cut: nat)
    returns (last: Apply.Disk, ghost longer: seq<Apply.Disk>, ghost more: seq<Apply.Sha>)
    requires Apply.IsRun(run, actors) && (forall a :: a in actors ==> a == j.s) && AllSafe(j, run)
    requires cut < |left| && left[0] == run[|run| - 1] && StepsOf(j.s, left) && AllSafe(j, left)
    ensures last == left[cut] && Apply.IsRun(longer, more) && longer[0] == run[0] && longer[|longer| - 1] == last
    ensures (forall a :: a in more ==> a == j.s) && AllSafe(j, longer)
  {
    Apply.SectionExtendsRun(run, actors, j.s, left, cut);
    last, longer, more := left[cut], run + left[1..cut + 1], actors + seq(cut, _ => j.s);
  }

  /**
   Any number of attempts that are cut after an arbitrary one of their disks, and one that is
   not.  The disks they leave one after the other form a run.  The set is answered as applied
   only when the workspace is the merge with its source and the receipt names the digest of
   that merge, and it covers what is beneath the directories it removes and moves nothing into a
   deleted path.  If no attempt is cut, it is answered so exactly when moreover nothing stands
   above its paths; if attempts are cut, whenever nothing hinders it and it retargets no moved link.
   */
  method ApplyThroughCrashes(j: Job, start: Apply.Disk, cuts: seq<nat>)
    returns (r: Apply.Outcome, last: Apply.Disk, ghost run: seq<Apply.Disk>, ghost actors: seq<Apply.Sha>)
    requires j.Valid() && Fresh(j, start)
    ensures Apply.IsRun(run, actors) && run[0] == start && run[|run| - 1] == last
    ensures (forall a :: a in actors ==> a == j.s) && AllSafe(j, run)
    ensures Answers(r) ==>
      && Merge(j.s.deltas, j.source, last.workspace.tree)
      && HasReceipt(j, last, r.digest) && r.digest == j.project(last.workspace.tree)
    ensures Answers(r) ==> Covered(j.s.deltas, j.source) && NoMoveIntoDeleted(j.s.deltas)
    ensures Unhindered(j.s.deltas, j.source) && (NoRetarget(j.s.deltas) || cuts == []) ==>
      (Answers(r) <==> Covered(j.s.deltas, j.source))
    ensures cuts == [] && NoLinkOverBefore(j.s.deltas) ==>
      (Answers(r) <==>
         && Unobstructed(j.s.deltas, j.source) && Covered(j.s.deltas, j.source)
         && NoMoveIntoDeleted(j.s.deltas))
  {
    CleanSourceIsInTransit(j.s.deltas, j.source, j.name);
    OnlyReuseMovesIn(j);
    last, run, actors := start, [start], [];
    var left;
    for c := 0 to |cuts|
      invariant Apply.IsRun(run, actors) && run[0] == start && run[|run| - 1] == last
      invariant (forall a :: a in actors ==> a == j.s) && AllSafe(j, run)
      invariant cuts == [] ==> last == start
    {
      r, left := Attempt(j, last);
      var cut := cuts[c] % |left|;
      last, run, actors := CutAt(j, run, actors, left, cut);
    }
    r, left := Attempt(j, last);
    last, run, actors := CutAt(j, run, actors, left, |left| - 1);
    if Answers(r) {
      ReceiptMeansMerge(j, last);
    }
  }

  /** A set that uses a deleted path again is stuck once its publication is journalled: what it
      put there is what the gate takes for an unrelated change. */
  lemma JournalledReuseIsStuck(d: Apply.Disk, s: Apply.Sha, o: Apply.Surroundings)
    requires Apply.Consistent(d) && Apply.OwnsJournal(d, s) && d.active.value.phase == Apply.Published
    requires s !in d.receipts && DeletedPathReused(s.deltas)
    ensures Apply.Answer(d, s, o) == Apply.Refused && Apply.Beginning(d, s, o) == []
  {
    if MatchesAfter(s.deltas, d.workspace.tree) {
      MatchesAfterIff(s.deltas, d.workspace.tree);
    }
  }
}
