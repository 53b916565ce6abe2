/**
 The whole way of a checkout, with crashes: propose it, assess it against the unchanged
 source, prepare it, and apply it in attempts that may be cut anywhere.
 */
module RecoveredCheckout {
  import opened Prelude
  import opened ChangeSet
  import opened Inventory
  import opened Propose
  import opened Passes
  import opened Publication
  import opened Assess
  import opened RoundTrip
  import opened Attempts
  import Apply

  /** No set is being applied, and the ID is new. */
  ghost predicate Idle(d: Apply.Disk, id: string, from: Tree) {
    Apply.Consistent(d) && d.active.None? && id !in d.ids && d.workspace == Snapshot(from, map[])
  }

  /** An accepted set is a job for a disk where nothing is going on. */
  lemma AcceptedIsJob(base: seq<Entry>, current: seq<Entry>, pairs: seq<Pair>, minted: seq<Minted>,
                      origins: seq<Origin>, keys: Keys, to: Tree, staging: map<string, Content>, j: Job,
                      start: Apply.Disk)
    requires Proposed(base, current, pairs, minted, j.s.deltas, origins)
    requires Describes(base, j.source) && Closed(j.source) && Describes(current, to) && Closed(to)
    requires StagesCheckout(current, minted, staging) && Ready(j.s.deltas, j.work)
    requires AllPeaceful(j.s.deltas, [], base, keys, j.source)
    requires Idle(start, j.s.id, j.source)
    ensures j.Valid() && Fresh(j, start)
    ensures Unhindered(j.s.deltas, j.source) && Covered(j.s.deltas, j.source)
    ensures SameKinds(base, current) && RenamesAreAliasFree(j.s.deltas, base, keys)
  {
    PeacefulOnBase(base, current, pairs, minted, j.s.deltas, origins, j.source, keys);
    ProposalPublishes(base, current, pairs, minted, j.s.deltas, origins, j.source, to, staging);
  }

  /** Assess a proposal against its own base, and prepare it. */
  method AssessAndPrepare(base: seq<Entry>, current: seq<Entry>, ghost pairs: seq<Pair>, minted: seq<Minted>,
                          ds: seq<Delta>, ghost origins: seq<Origin>, keys: Keys, from: Tree, ghost to: Tree,
                          staging: map<string, Content>)
    returns (work: Option<map<ObjectId, Node>>)
    requires Proposed(base, current, pairs, minted, ds, origins)
    requires Describes(base, from) && Closed(from) && Describes(current, to) && Closed(to)
    requires StagesCheckout(current, minted, staging)
    ensures work.Some? <==> SameKinds(base, current) && RenamesAreAliasFree(ds, base, keys)
    ensures work.Some? ==> AllPeaceful(ds, [], base, keys, from) && Ready(ds, work.value)
  {
    forall i | 0 <= i < |ds| ensures WellShaped(ds[i]) {
      ProposedDelta(base, current, pairs, minted, ds, origins, i);
    }
    PeacefulOnBase(base, current, pairs, minted, ds, origins, from, keys);
    var conflicts, found, owners := AssessConflicts(ds, [], base, keys, from, p => true);
    if conflicts != [] {
      return None;
    }
    ProposalPublishes(base, current, pairs, minted, ds, origins, from, to, staging);
    ProposalPathsAreDistinct(base, current, pairs, minted, ds, origins);
    work := PrepareWork(ds, from, staging);
  }

  /**
   Propose a checkout, and apply the proposal to the unchanged source in any number of attempts
   that are cut anywhere and one that is not.  The source becomes the checkout, and the receipt
   names its digest, or the set is not answered as applied.  If it retargets no moved link or no
   attempt is cut, it is answered as applied exactly when something changed, no path changed its
   kind and no new path is an alias of an old one.
   */
  method CheckoutThroughCrashes(base: seq<Entry>, current: seq<Entry>, minted: seq<Minted>, keys: Keys, from: Tree,
                                ghost to: Tree, staging: map<string, Content>, id: string, name: string,
                                project: Tree -> Apply.Digest, start: Apply.Disk, cuts: seq<nat>)
    returns (r: Apply.Outcome, last: Apply.Disk, deltas: seq<Delta>, ghost pairs: seq<Pair>, ghost origins: seq<Origin>)
    requires IsBase(base) && IsInventory(current) && MintedFor(base, current, minted)
    requires Describes(base, from) && Closed(from) && Describes(current, to) && Closed(to)
    requires StagesCheckout(current, minted, staging) && Idle(start, id, from)
    ensures Proposed(base, current, pairs, minted, deltas, origins) && Exhausted(base, current, pairs)
    ensures Answers(r) ==>
      last.workspace.tree == to && last.active.None? && r.digest == project(to)
    ensures Answers(r) ==>
      Apply.Sha(id, deltas) in last.receipts && last.receipts[Apply.Sha(id, deltas)] == r.digest
    ensures NoRetarget(deltas) || cuts == [] ==>
      (Answers(r) <==>
         && 1 <= |deltas| <= MAX_CHANGE_SET_ENTRIES
         && SameKinds(base, current) && RenamesAreAliasFree(deltas, base, keys))
  {
    r, last := Apply.Refused, start;
    var accepted;
    accepted, deltas, pairs, origins := ProposeDeltas(base, current, minted);
    if !accepted {
      return;
    }
    var work := AssessAndPrepare(base, current, pairs, minted, deltas, origins, keys, from, to, staging);
    if work.None? {
      return;
    }
    var j := Job(Apply.Sha(id, deltas), name, from, work.value, project);
    AcceptedIsJob(base, current, pairs, minted, origins, keys, to, staging, j, start);
    ghost var run, actors;
    r, last, run, actors := ApplyThroughCrashes(j, start, cuts);
    MergedProposalIsCheckout(base, current, pairs, minted, deltas, origins, from, to, last.workspace.tree);
  }
}
