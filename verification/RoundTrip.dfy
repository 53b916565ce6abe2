/**
 From a checkout back to its source: on a source nobody else changed, proposing and then
 publishing reproduces the checkout, exactly when no path changed its kind.
 */
module RoundTrip {
  import opened Prelude
  import opened ChangeSet
  import opened Transit
  import opened Inventory
  import opened Propose
  import opened Passes
  import opened Reuse
  import opened Publication
  import opened Merging
  import opened Assess

  /** No path is one kind of entry in the base and another in the checkout. */
  ghost predicate SameKinds(base: seq<Entry>, current: seq<Entry>) {
    forall b, c :: 0 <= b < |base| && 0 <= c < |current| && base[b].path == current[c].path ==>
      base[b].kind == current[c].kind
  }

  /** A path both inventories list is either unchanged or edited in place. */
  lemma SharedPathIsPaired(base: seq<Entry>, current: seq<Entry>, pairs: seq<Pair>, minted: seq<Minted>,
                           ds: seq<Delta>, origins: seq<Origin>, i: nat, b: nat, c: nat)
    requires Proposed(base, current, pairs, minted, ds, origins) && SameKinds(base, current)
    requires i < |ds| && b < |base| && c < |current| && base[b].path == current[c].path
    ensures ds[i].before.Some? && ds[i].before.value.path == base[b].path ==> origins[i] == Changed(b, c)
    ensures ds[i].after.Some? && ds[i].after.value.path == current[c].path ==> origins[i] == Changed(b, c)
  {
    assert SamePlace(base[b], current[c]);
    assert IsOrigin(base, current, pairs, origins[i]);
    if origins[i].Changed? {
      MatchingIsOneToOne(base, current, pairs, Pair(b, c), Pair(origins[i].b, origins[i].c));
    }
  }

  lemma SameKindsIsClean(base: seq<Entry>, current: seq<Entry>, pairs: seq<Pair>, minted: seq<Minted>,
                         ds: seq<Delta>, origins: seq<Origin>, from: Tree)
    requires Proposed(base, current, pairs, minted, ds, origins) && Describes(base, from) && SameKinds(base, current)
    ensures Clean(ds, from)
  {
    forall i: nat | i < |ds| ensures CleanDelta(ds[i], from) {
      ProposedDelta(base, current, pairs, minted, ds, origins, i);
      if (ds[i].Creates() || ds[i].Moves()) && ds[i].after.value.path in from {
        var c: nat :| c < |current| && ds[i].after.value.path == current[c].path;
        assert Listed(base, current[c].path);
        var b: nat :| b < |base| && base[b].path == current[c].path;
        SharedPathIsPaired(base, current, pairs, minted, ds, origins, i, b, c);
      }
    }
  }

  /** Where a path changes its kind, the new entry finds its path taken. */
  lemma ChangedKindIsNotClean(base: seq<Entry>, current: seq<Entry>, pairs: seq<Pair>, minted: seq<Minted>,
                              ds: seq<Delta>, origins: seq<Origin>, from: Tree, b: nat, c: nat)
    requires Proposed(base, current, pairs, minted, ds, origins) && Describes(base, from)
    requires b < |base| && c < |current| && base[b].path == current[c].path && base[b].kind != current[c].kind
    ensures !Clean(ds, from)
  {
    AfterPathsOfProposal(base, current, pairs, minted, ds, origins, c);
    var i: nat :| i < |ds| && ds[i].after.Some? && ds[i].after.value.path == current[c].path;
    assert IsOrigin(base, current, pairs, origins[i]);
    assert !CleanDelta(ds[i], from);
  }

  /** Against the untouched base, the proposal assesses clean exactly when no path changed kind. */
  lemma CleanIffSameKinds(base: seq<Entry>, current: seq<Entry>, pairs: seq<Pair>, minted: seq<Minted>,
                          ds: seq<Delta>, origins: seq<Origin>, from: Tree)
    requires Proposed(base, current, pairs, minted, ds, origins) && Describes(base, from)
    ensures Clean(ds, from) <==> SameKinds(base, current)
  {
    if SameKinds(base, current) {
      SameKindsIsClean(base, current, pairs, minted, ds, origins, from);
    } else {
      var b: nat, c: nat :| b < |base| && c < |current| && base[b].path == current[c].path &&
        base[b].kind != current[c].kind;
      ChangedKindIsNotClean(base, current, pairs, minted, ds, origins, from, b, c);
    }
  }

  // ---------- a proposal fits every source of which it is clean ----------

  lemma ProposalPathsAreDistinct(base: seq<Entry>, current: seq<Entry>, pairs: seq<Pair>, minted: seq<Minted>,
                                 ds: seq<Delta>, origins: seq<Origin>)
    requires Proposed(base, current, pairs, minted, ds, origins)
    ensures DistinctPaths(ds)
  {
    forall i: nat, j: nat | i < j < |ds|
      ensures ds[i].objectId != ds[j].objectId
      ensures ds[i].before.Some? && ds[j].before.Some? ==> ds[i].before.value.path != ds[j].before.value.path
      ensures ds[i].after.Some? && ds[j].after.Some? ==> ds[i].after.value.path != ds[j].after.value.path
    {
      assert IsOrigin(base, current, pairs, origins[i]) && IsOrigin(base, current, pairs, origins[j]);
    }
  }

  /** A path deleted and taken again in one kind would have been matched. */
  lemma ProposalReuseChangesKind(base: seq<Entry>, current: seq<Entry>, pairs: seq<Pair>, minted: seq<Minted>,
                                 ds: seq<Delta>, origins: seq<Origin>)
    requires Proposed(base, current, pairs, minted, ds, origins)
    ensures ReuseChangesKind(ds)
  {
    forall i: nat, j: nat | i < |ds| && j < |ds| && ds[i].Deletes() && ds[j].after.Some? &&
      ds[j].after.value.path == ds[i].before.value.path
      ensures ds[i].before.value.Kind() != ds[j].after.value.Kind()
    {
      assert IsOrigin(base, current, pairs, origins[i]) && IsOrigin(base, current, pairs, origins[j]);
      assert !SamePlace(base[origins[i].b], current[origins[j].c]);
    }
  }

  lemma ListedAt(entries: seq<Entry>, t: Tree, q: Path) returns (k: nat)
    requires IsInventory(entries) && Describes(entries, t) && q in t
    ensures k < |entries| && entries[k].path == q && entries[k].Node() == t[q]
  {
    assert Listed(entries, q);
    k :| k < |entries| && entries[k].path == q;
  }

  /** A directory of the checkout is new, or as it was. */
  lemma CheckoutDirectoryIsNewParent(base: seq<Entry>, current: seq<Entry>, pairs: seq<Pair>, minted: seq<Minted>,
                                     ds: seq<Delta>, origins: seq<Origin>, to: Tree, q: Path)
    requires Proposed(base, current, pairs, minted, ds, origins) && Describes(current, to)
    requires q in to && to[q] == Dir
    ensures NewParent(ds, q)
  {
    var c := ListedAt(current, to, q);
    AfterPathsOfProposal(base, current, pairs, minted, ds, origins, c);
    if b: nat :| b < |base| && Unchanged(base, current, pairs, b, c) {
      BeforePathsOfProposal(base, current, pairs, minted, ds, origins, b);
    }
    forall j: nat | j < |ds| && ds[j].after.Some? && ds[j].after.value.path == q
      ensures ds[j].after.value.DirectoryState?
    {
      ProposedDelta(base, current, pairs, minted, ds, origins, j);
    }
  }

  lemma ProposalNewParents(base: seq<Entry>, current: seq<Entry>, pairs: seq<Pair>, minted: seq<Minted>,
                           ds: seq<Delta>, origins: seq<Origin>, to: Tree)
    requires Proposed(base, current, pairs, minted, ds, origins)
    requires Describes(current, to) && Closed(to)
    ensures NewParents(ds)
  {
    forall i: nat, q | i < |ds| && ds[i].after.Some? && Ancestor(q, ds[i].after.value.path)
      ensures NewParent(ds, q)
    {
      ProposedDelta(base, current, pairs, minted, ds, origins, i);
      CheckoutDirectoryIsNewParent(base, current, pairs, minted, ds, origins, to, q);
    }
  }

  /** What the checkout has in place of a directory of the base displaced it. */
  lemma BaseDirectoryIsOldParent(base: seq<Entry>, current: seq<Entry>, pairs: seq<Pair>, minted: seq<Minted>,
                                 ds: seq<Delta>, origins: seq<Origin>, from: Tree, q: Path)
    requires Proposed(base, current, pairs, minted, ds, origins) && Describes(base, from)
    requires q in from && from[q] == Dir
    ensures OldParent(ds, q)
  {
    var b := ListedAt(base, from, q);
    if AfterAt(ds, q) {
      DisplacedDirectoryIsDeleted(base, current, pairs, minted, ds, origins, b);
    }
    forall j: nat | j < |ds| && ds[j].before.Some? && ds[j].before.value.path == q
      ensures ds[j].before.value.DirectoryState?
    {
      ProposedDelta(base, current, pairs, minted, ds, origins, j);
    }
  }

  lemma DisplacedDirectoryIsDeleted(base: seq<Entry>, current: seq<Entry>, pairs: seq<Pair>, minted: seq<Minted>,
                                    ds: seq<Delta>, origins: seq<Origin>, b: nat)
    requires Proposed(base, current, pairs, minted, ds, origins)
    requires b < |base| && base[b].kind == Directory && AfterAt(ds, base[b].path)
    ensures DeletedAt(ds, base[b].path)
  {
    if k: nat :| k < |pairs| && pairs[k].b == b {
      var c := pairs[k].c;
      assert pairs[k] in pairs && Unchanged(base, current, pairs, b, c);
      AfterPathsOfProposal(base, current, pairs, minted, ds, origins, c);
    } else {
      assert Gone(b) in origins;
      var i :| 0 <= i < |origins| && origins[i] == Gone(b);
      assert ds[i].Deletes();
    }
  }

  lemma ProposalOldParents(base: seq<Entry>, current: seq<Entry>, pairs: seq<Pair>, minted: seq<Minted>,
                           ds: seq<Delta>, origins: seq<Origin>, from: Tree)
    requires Proposed(base, current, pairs, minted, ds, origins)
    requires Describes(base, from) && Closed(from)
    ensures OldParents(ds)
  {
    forall i: nat, q | i < |ds| && ds[i].before.Some? && Ancestor(q, ds[i].before.value.path)
      ensures OldParent(ds, q)
    {
      ProposedDelta(base, current, pairs, minted, ds, origins, i);
      BaseDirectoryIsOldParent(base, current, pairs, minted, ds, origins, from, q);
    }
  }

  /** Whatever happened to the source since the checkout: a proposal that is clean of it fits it. */
  lemma ProposalFits(base: seq<Entry>, current: seq<Entry>, pairs: seq<Pair>, minted: seq<Minted>,
                     ds: seq<Delta>, origins: seq<Origin>, from: Tree, to: Tree, source: Tree)
    requires Proposed(base, current, pairs, minted, ds, origins)
    requires Describes(base, from) && Closed(from) && Describes(current, to) && Closed(to)
    requires Closed(source) && Clean(ds, source)
    ensures Fits(ds, source)
  {
    forall i | 0 <= i < |ds| ensures WellShaped(ds[i]) {
      ProposedDelta(base, current, pairs, minted, ds, origins, i);
    }
    ProposalPathsAreDistinct(base, current, pairs, minted, ds, origins);
    ProposalReuseChangesKind(base, current, pairs, minted, ds, origins);
    ProposalNewParents(base, current, pairs, minted, ds, origins, to);
    ProposalOldParents(base, current, pairs, minted, ds, origins, from);
  }

  // ---------- the unchanged source ----------

  /** Nothing is in the way in the base itself. */
  lemma ProposalIsUnhindered(base: seq<Entry>, current: seq<Entry>, pairs: seq<Pair>, minted: seq<Minted>,
                             ds: seq<Delta>, origins: seq<Origin>, from: Tree, to: Tree)
    requires Proposed(base, current, pairs, minted, ds, origins)
    requires Describes(base, from) && Closed(from) && Describes(current, to) && Closed(to)
    requires Fits(ds, from)
    ensures Unhindered(ds, from)
  {
    forall i: nat | i < |ds| ensures ds[i].before.Some? ==> ds[i].before.value.path in from {
      ProposedDelta(base, current, pairs, minted, ds, origins, i);
    }
    forall i: nat | i < |ds| ensures !Superseded(ds, ds[i]) {
      SupersededIsLost(ds, from, i);
    }
    forall p, q | Touched(ds, p) && Ancestor(q, p) && q in from ensures from[q] == Dir {
      if from[q] != Dir {
        SourceObstacleIsForeign(ds, from, p, q);
        UntouchedStays(base, current, pairs, minted, ds, origins, from, to, q);
      }
    }
  }

  lemma UntouchedStays(base: seq<Entry>, current: seq<Entry>, pairs: seq<Pair>, minted: seq<Minted>,
                       ds: seq<Delta>, origins: seq<Origin>, from: Tree, to: Tree, q: Path)
    requires Proposed(base, current, pairs, minted, ds, origins) && Describes(base, from) && Describes(current, to)
    requires q in from && !Touched(ds, q)
    ensures q in to && to[q] == from[q]
  {
    UntouchedPathStays(base, current, pairs, minted, ds, origins, from, to, q);
    CheckoutPathIsExplained(base, current, pairs, minted, ds, origins, from, to, q);
  }

  /** Whatever the base has beneath a directory the checkout lost, the proposal removes or moves. */
  lemma ProposalIsCovered(base: seq<Entry>, current: seq<Entry>, pairs: seq<Pair>, minted: seq<Minted>,
                          ds: seq<Delta>, origins: seq<Origin>, from: Tree, to: Tree)
    requires Proposed(base, current, pairs, minted, ds, origins) && SameKinds(base, current)
    requires Describes(base, from) && Closed(from) && Describes(current, to) && Closed(to)
    ensures Covered(ds, from)
  {
    forall i: nat, u | i < |ds| && ds[i].Deletes() && u in from && Ancestor(ds[i].before.value.path, u)
      ensures BeforeAt(ds, u)
    {
      assert Listed(base, u);
      var b: nat :| b < |base| && base[b].path == u;
      BeforePathsOfProposal(base, current, pairs, minted, ds, origins, b);
      if !BeforeAt(ds, u) {
        var c: nat :| c < |current| && Unchanged(base, current, pairs, b, c);
        var d := ds[i].before.value.path;
        assert d in to;
        assert Listed(current, d);
        var x: nat :| x < |current| && current[x].path == d;
        ProposedDelta(base, current, pairs, minted, ds, origins, i);
        var y: nat :| y < |base| && base[y].path == d;
        SharedPathIsPaired(base, current, pairs, minted, ds, origins, i, y, x);
      }
    }
  }

  /** The staging area holds the bytes of every checkout file under its minted staging ID. */
  ghost predicate StagesCheckout(current: seq<Entry>, minted: seq<Minted>, staging: map<string, Content>) {
    |minted| == |current| && forall c :: 0 <= c < |current| && current[c].kind == RegularFile ==>
      minted[c].stagingId in staging && Some(staging[minted[c].stagingId]) == current[c].content
  }

  /** No path the proposal newly occupies collides with a base path it does not itself vacate. */
  ghost predicate RenamesAreAliasFree(ds: seq<Delta>, base: seq<Entry>, keys: Keys) {
    forall i :: 0 <= i < |ds| ==> NewPathAliasFree(ds[i], base, keys)
  }

  /** A proposal that assesses clean can be prepared, and published to completion. */
  lemma ProposalPublishes(base: seq<Entry>, current: seq<Entry>, pairs: seq<Pair>, minted: seq<Minted>,
                          ds: seq<Delta>, origins: seq<Origin>, from: Tree, to: Tree, staging: map<string, Content>)
    requires Proposed(base, current, pairs, minted, ds, origins) && SameKinds(base, current)
    requires Describes(base, from) && Closed(from) && Describes(current, to) && Closed(to)
    requires StagesCheckout(current, minted, staging)
    ensures Fits(ds, from) && Unhindered(ds, from) && !LeadsThroughLink(ds, from) && Covered(ds, from)
    ensures AllAvailable(ds, from, staging)
  {
    CleanIffSameKinds(base, current, pairs, minted, ds, origins, from);
    ProposalFits(base, current, pairs, minted, ds, origins, from, to, from);
    ProposalIsUnhindered(base, current, pairs, minted, ds, origins, from, to);
    UnobstructedNoLink(ds, from);
    ProposalIsCovered(base, current, pairs, minted, ds, origins, from, to);
  }

  /** Entries that describe the same tree are matched pairwise and unchanged. */
  lemma SameTreeEntry(base: seq<Entry>, current: seq<Entry>, pairs: seq<Pair>, minted: seq<Minted>,
                      ds: seq<Delta>, origins: seq<Origin>, t: Tree, b: nat)
    requires Proposed(base, current, pairs, minted, ds, origins)
    requires Describes(base, t) && Describes(current, t) && b < |base|
    ensures exists c: nat :: c < |current| && current[c].path == base[b].path && Unchanged(base, current, pairs, b, c)
  {
    assert Listed(current, base[b].path);
    var c: nat :| c < |current| && current[c].path == base[b].path;
    assert base[b].Node() == current[c].Node();
    assert SamePlace(base[b], current[c]);
    assert Unchanged(base, current, pairs, b, c);
  }

  /** A checkout nobody worked in proposes nothing. */
  lemma SameTreeProposesNothing(base: seq<Entry>, current: seq<Entry>, pairs: seq<Pair>, minted: seq<Minted>,
                                ds: seq<Delta>, origins: seq<Origin>, t: Tree)
    requires Proposed(base, current, pairs, minted, ds, origins)
    requires Describes(base, t) && Describes(current, t)
    ensures |ds| == 0
  {
    if |ds| > 0 {
      var o := origins[0];
      assert IsOrigin(base, current, pairs, o);
      var b: nat;
      if o.New? {
        assert Listed(base, current[o.c].path);
        b :| b < |base| && base[b].path == current[o.c].path;
      } else {
        b := o.b;
      }
      SameTreeEntry(base, current, pairs, minted, ds, origins, t, b);
      assert false;
    }
  }

  /** The merge of a proposal into its untouched base is the checkout. */
  lemma MergedProposalIsCheckout(base: seq<Entry>, current: seq<Entry>, pairs: seq<Pair>, minted: seq<Minted>,
                                 ds: seq<Delta>, origins: seq<Origin>, from: Tree, to: Tree, t: Tree)
    requires Proposed(base, current, pairs, minted, ds, origins)
    requires Describes(base, from) && Describes(current, to) && Closed(to)
    ensures Merge(ds, from, t) ==> t == to
    ensures |ds| == 0 <==> from == to
  {
    ProposalIsPatch(base, current, pairs, minted, ds, origins, from, to);
    if Merge(ds, from, t) {
      MergeIsUnique(ds, from, t, to);
    }
    if |ds| == 0 {
      MergeIsUnique(ds, from, from, to);
    }
    if from == to {
      SameTreeProposesNothing(base, current, pairs, minted, ds, origins, from);
    }
  }

  // ---------- from the assessment to the merge ----------

  /** What comes of applying a set. */
  datatype Outcome = Conflicting | Unavailable | Stopped(status: Status, tree: Tree) | Merged(tree: Tree)

  /** What an outcome says about the set and its source. */
  ghost predicate Explains(r: Outcome, ds: seq<Delta>, source: Tree) {
    match r
    case Conflicting => true
    case Unavailable => true
    case Stopped(status, t) =>
      && (status == Completed ==> Merge(ds, source, t) && DeletedPathReused(ds))
      && (status == Diverted ==> LeadsThroughLink(ds, t))
    case Merged(t) => Closed(t) && Merge(ds, source, t) && MatchesAfter(ds, t)
  }

  /** All was published, whether or not the completion test takes it. */
  predicate IsPublished(r: Outcome) {
    r.Merged? || (r.Stopped? && r.status == Completed)
  }

  /** What a set needs to be published once its bytes are there. */
  ghost predicate Publishable(ds: seq<Delta>, source: Tree) {
    Unobstructed(ds, source) && Covered(ds, source) && NoMoveIntoDeleted(ds)
  }

  /** Publish prepared work on a source the set fits. */
  method PublishPrepared(ds: seq<Delta>, source: Tree, work: map<ObjectId, Node>, sha: string) returns (r: Outcome)
    requires Fits(ds, source) && Ready(ds, work)
    ensures r.Stopped? || r.Merged?
    ensures !LeadsThroughLink(ds, source) ==> (r.Merged? <==> Unhindered(ds, source) && Covered(ds, source))
    ensures !LeadsThroughLink(ds, source) && NoLinkOverBefore(ds) ==> (IsPublished(r) <==> Publishable(ds, source))
    ensures Explains(r, ds, source)
  {
    var workspace := new Workspace(source);
    var status := workspace.PublishFromSource(ds, sha, work);
    if status == Completed && MatchesAfter(ds, workspace.tree) {
      return Merged(workspace.tree);
    }
    return Stopped(status, workspace.tree);
  }

  ghost predicate AllPeaceful(ds: seq<Delta>, nested: seq<Path>, listed: seq<Entry>, keys: Keys, source: Tree) {
    forall i :: 0 <= i < |ds| ==> Peaceful(ds[i], nested, listed, keys, source)
  }

  /**
   Assess a proposal against a source that may have changed since the checkout, prepare it
   and publish it.  The source becomes the merge only when the assessment is silent, all
   bytes are there, only directories stand above the after-paths, no deleted path is used
   again and the set covers what is beneath the directories it removes.  Where no path of
   the set leads through a link, it does so exactly when nothing stands above the
   before-paths either.  A set that uses a deleted path again may be published all the same,
   exactly when it moves nothing into a deleted path.
   */
  method AssessAndPublish(ds: seq<Delta>, nested: seq<Path>, listed: seq<Entry>, keys: Keys, source: Tree,
                          staging: map<string, Content>, sha: string, ghost scope: Path -> bool,
                          ghost base: seq<Entry>, ghost current: seq<Entry>, ghost pairs: seq<Pair>,
                          ghost minted: seq<Minted>, ghost origins: seq<Origin>, ghost from: Tree, ghost to: Tree)
    returns (r: Outcome)
    requires Proposed(base, current, pairs, minted, ds, origins)
    requires Describes(base, from) && Closed(from) && Describes(current, to) && Closed(to)
    requires Closed(source) && ListsScope(listed, source, scope, nested)
    requires forall i :: 0 <= i < |ds| ==> InScope(ds[i], scope)
    ensures r.Conflicting? <==> !AllPeaceful(ds, nested, listed, keys, source)
    ensures r.Unavailable? <==> AllPeaceful(ds, nested, listed, keys, source) && !AllAvailable(ds, source, staging)
    ensures Explains(r, ds, source)
    ensures r.Merged? ==>
      && AllPeaceful(ds, nested, listed, keys, source) && AllAvailable(ds, source, staging)
      && ClearForAfterStates(ds, source) && !DeletedPathReused(ds) && Covered(ds, source)
    ensures !LeadsThroughLink(ds, source) ==>
      (r.Merged? <==>
         && AllPeaceful(ds, nested, listed, keys, source) && AllAvailable(ds, source, staging)
         && Unhindered(ds, source) && Covered(ds, source))
    ensures !LeadsThroughLink(ds, source) && NoLinkOverBefore(ds) ==>
      (IsPublished(r) <==>
         && AllPeaceful(ds, nested, listed, keys, source) && AllAvailable(ds, source, staging)
         && Publishable(ds, source))
  {
    forall i | 0 <= i < |ds| ensures WellShaped(ds[i]) {
      ProposedDelta(base, current, pairs, minted, ds, origins, i);
    }
    var conflicts, found, owners := AssessConflicts(ds, nested, listed, keys, source, scope);
    if conflicts != [] {
      return Conflicting;
    }
    ProposalPathsAreDistinct(base, current, pairs, minted, ds, origins);
    var work := PrepareWork(ds, source, staging);
    if work.None? {
      return Unavailable;
    }
    ProposalFits(base, current, pairs, minted, ds, origins, from, to, source);
    r := PublishPrepared(ds, source, work.value, sha);
    if r.Merged? {
      MergeExistsIff(ds, source);
      MatchingIsLive(ds, r.tree);
    }
  }

  /** No tree passes the completion test of a set that uses a deleted path again. */
  lemma MatchingIsLive(ds: seq<Delta>, t: Tree)
    requires MatchesAfter(ds, t)
    ensures !DeletedPathReused(ds)
  {
    MatchesAfterIff(ds, t);
  }

  /** Against its own base, a proposal is peaceful exactly when kinds are kept and new paths are alias-free. */
  lemma PeacefulOnBase(base: seq<Entry>, current: seq<Entry>, pairs: seq<Pair>, minted: seq<Minted>,
                       ds: seq<Delta>, origins: seq<Origin>, from: Tree, keys: Keys)
    requires Proposed(base, current, pairs, minted, ds, origins) && Describes(base, from)
    ensures AllPeaceful(ds, [], base, keys, from) <==> SameKinds(base, current) && RenamesAreAliasFree(ds, base, keys)
  {
    CleanIffSameKinds(base, current, pairs, minted, ds, origins, from);
    assert forall i :: 0 <= i < |ds| ==>
      (Peaceful(ds[i], [], base, keys, from) <==> CleanDelta(ds[i], from) && NewPathAliasFree(ds[i], base, keys));
  }

  /**
   Propose a checkout, assess the proposal against the unchanged source, and publish it.
   The deltas are a proposal of the checkout.  The source becomes the checkout exactly when
   something changed, no path changed its kind and no new path is an alias of an old one;
   otherwise nothing is published.
   */
  method CheckoutRoundTrip(base: seq<Entry>, current: seq<Entry>, minted: seq<Minted>, keys: Keys, from: Tree,
                           ghost to: Tree,
                           staging: map<string, Content>, sha: string)
    returns (result: Option<Tree>, deltas: seq<Delta>, ghost pairs: seq<Pair>, ghost origins: seq<Origin>)
    requires IsBase(base) && IsInventory(current) && MintedFor(base, current, minted)
    requires Describes(base, from) && Closed(from) && Describes(current, to) && Closed(to)
    requires StagesCheckout(current, minted, staging)
    ensures Proposed(base, current, pairs, minted, deltas, origins) && Exhausted(base, current, pairs)
    ensures result.Some? ==> result.value == to && from != to
    ensures |deltas| == 0 <==> from == to
    ensures result.Some? <==>
      1 <= |deltas| <= MAX_CHANGE_SET_ENTRIES && SameKinds(base, current) && RenamesAreAliasFree(deltas, base, keys)
  {
    var accepted;
    result := None;
    accepted, deltas, pairs, origins := ProposeDeltas(base, current, minted);
    MergedProposalIsCheckout(base, current, pairs, minted, deltas, origins, from, to, from);
    if !accepted {
      return;
    }
    PeacefulOnBase(base, current, pairs, minted, deltas, origins, from, keys);
    var r := AssessAndPublish(deltas, [], base, keys, from, staging, sha, p => true,
                              base, current, pairs, minted, origins, from, to);
    if SameKinds(base, current) {
      ProposalPublishes(base, current, pairs, minted, deltas, origins, from, to, staging);
    }
    if r.Merged? {
      MergedProposalIsCheckout(base, current, pairs, minted, deltas, origins, from, to, r.tree);
      result := Some(r.tree);
    }
  }

  // ---------- what a silent assessment can hide ----------

  /** The base has a directory "d", and the checkout adds "d/f". */
  const ADDED_BASE := [Entry(["d"], Directory, Some("obj_1"), None, None, None, None)]
  const ADDED_CHECKOUT := [Entry(["d"], Directory, None, None, None, None, None),
                           Entry(["d", "f"], RegularFile, None, None, Some([1]), Some(false), None)]
  const ADDED_MINTED := [Minted("obj_2", "v2", "s2"), Minted("obj_3", "v3", "s3")]
  const ADDED := [Delta("obj_3", None, Some(FileState(["d", "f"], [1], false, "v3", Staged("s3"))))]

  lemma AddedIsProposed()
    ensures Proposed(ADDED_BASE, ADDED_CHECKOUT, [Pair(0, 0)], ADDED_MINTED, ADDED, [New(1)])
  {
    var pairs := [Pair(0, 0)];
    assert HasSamePlaces(ADDED_BASE, ADDED_CHECKOUT, pairs);
    forall o ensures o in [New(1)] <==> IsOrigin(ADDED_BASE, ADDED_CHECKOUT, pairs, o) {
      assert pairs[0].b == 0 && pairs[0].c == 0;
    }
  }

  /** If the source meanwhile put a file or a link at "d", the assessment is silent. */
  lemma ReplacedParentIsSilent(node: Node, listed: seq<Entry>, keys: Keys)
    requires node != Dir && ListsScope(listed, map[["d"] := node], p => true, [])
    requires !keys.Collide(["d"], ["d", "f"])
    ensures AllPeaceful(ADDED, [], listed, keys, map[["d"] := node])
    ensures !Unobstructed(ADDED, map[["d"] := node]) && !DeletedPathReused(ADDED)
  {
    assert AfterAt(ADDED, ["d", "f"]) by { assert ADDED[0].after.value.path == ["d", "f"]; }
    assert Touched(ADDED, ["d", "f"]) && Ancestor(["d"], ["d", "f"]);
  }

  /** The base has a directory "d" with a file "f", and the checkout removes the file. */
  const REMOVED_BASE := [Entry(["d"], Directory, Some("obj_1"), None, None, None, None),
                         Entry(["d", "f"], RegularFile, Some("obj_2"), Some("v2"), Some([1]), Some(false), None)]
  const REMOVED_CHECKOUT := [Entry(["d"], Directory, None, None, None, None, None)]
  const REMOVED_MINTED := [Minted("obj_3", "v3", "s3")]
  const REMOVED := [Delta("obj_2", Some(FileState(["d", "f"], [1], false, "v2", ProjectionBase)), None)]

  lemma RemovedIsProposed()
    ensures Proposed(REMOVED_BASE, REMOVED_CHECKOUT, [Pair(0, 0)], REMOVED_MINTED, REMOVED, [Gone(1)])
  {
    var pairs := [Pair(0, 0)];
    assert HasSamePlaces(REMOVED_BASE, REMOVED_CHECKOUT, pairs);
    forall o ensures o in [Gone(1)] <==> IsOrigin(REMOVED_BASE, REMOVED_CHECKOUT, pairs, o) {
      assert pairs[0].b == 0 && pairs[0].c == 0;
    }
  }

  /** If the source meanwhile replaced "d" by a link to a new and empty "x", the assessment is
      silent and the untouched source is the merge, though the path leads through a link. */
  lemma RemovedBeneathLinkIsMerged(listed: seq<Entry>, keys: Keys)
    requires ListsScope(listed, map[["d"] := Link("x"), ["x"] := Dir], p => true, [])
    ensures var source: Tree := map[["d"] := Link("x"), ["x"] := Dir];
      && AllPeaceful(REMOVED, [], listed, keys, source) && Covered(REMOVED, source)
      && Closed(source) && Merge(REMOVED, source, source) && MatchesAfter(REMOVED, source)
      && LeadsThroughLink(REMOVED, source) && !Unobstructed(REMOVED, source)
  {
    var source: Tree := map[["d"] := Link("x"), ["x"] := Dir];
    assert BeforeAt(REMOVED, ["d", "f"]) by {
      assert REMOVED[0].before.value.path == ["d", "f"];
    }
    assert Ancestor(["d"], ["d", "f"]) && Touched(REMOVED, ["d", "f"]);
    assert ["d", "f"][..1] == ["d"];
    assert LinkAbove(source, ["d", "f"]);
  }

  /** The base has the files "p" and "q", and in the checkout "p" is a directory with "q" in it. */
  const NESTED_BASE := [Entry(["p"], RegularFile, Some("obj_1"), Some("v1"), Some([0]), Some(false), None),
                        Entry(["q"], RegularFile, Some("obj_2"), Some("v2"), Some([1]), Some(false), None)]
  const NESTED_CHECKOUT := [Entry(["p"], Directory, None, None, None, None, None),
                            Entry(["p", "q"], RegularFile, None, None, Some([1]), Some(false), None)]
  const NESTED_MINTED := [Minted("obj_3", "v3", "s3"), Minted("obj_4", "v4", "s4")]
  const NESTED := [Delta("obj_2", Some(FileState(["q"], [1], false, "v2", ProjectionBase)),
                         Some(FileState(["p", "q"], [1], false, "v2", ProjectionBase))),
                   Delta("obj_1", Some(FileState(["p"], [0], false, "v1", ProjectionBase)), None),
                   Delta("obj_3", None, Some(DirectoryState(["p"])))]

  lemma NestedIsMatched()
    ensures IsBase(NESTED_BASE) && IsInventory(NESTED_CHECKOUT)
    ensures MintedFor(NESTED_BASE, NESTED_CHECKOUT, NESTED_MINTED)
    ensures IsMatching(NESTED_BASE, NESTED_CHECKOUT, [Pair(1, 1)])
    ensures HasSamePlaces(NESTED_BASE, NESTED_CHECKOUT, [Pair(1, 1)])
    ensures DirectoriesStay(NESTED_BASE, NESTED_CHECKOUT, [Pair(1, 1)])
  {}

  lemma NestedOrigins()
    ensures forall o :: o in [Changed(1, 1), Gone(0), New(0)] <==>
      IsOrigin(NESTED_BASE, NESTED_CHECKOUT, [Pair(1, 1)], o)
  {
    var pairs := [Pair(1, 1)];
    forall o ensures o in [Changed(1, 1), Gone(0), New(0)] <==> IsOrigin(NESTED_BASE, NESTED_CHECKOUT, pairs, o) {
      assert pairs[0].b == 1 && pairs[0].c == 1;
    }
  }

  lemma NestedIsProposed()
    ensures Proposed(NESTED_BASE, NESTED_CHECKOUT, [Pair(1, 1)], NESTED_MINTED, NESTED,
                     [Changed(1, 1), Gone(0), New(0)])
  {
    NestedIsMatched();
    NestedOrigins();
  }

  /** If the source meanwhile lost "p", the assessment is silent, though the set moves a file
      beneath a path it clears. */
  lemma NestedIsSilent(listed: seq<Entry>, keys: Keys)
    requires ListsScope(listed, map[["q"] := File([1], false)], p => true, [])
    requires !keys.Collide(["p"], ["q"])
    ensures AllPeaceful(NESTED, [], listed, keys, map[["q"] := File([1], false)])
    ensures !NoMoveIntoDeleted(NESTED)
  {
    assert NESTED[1].Deletes() && DeletedAt(NESTED, ["p"]);
    assert Ancestor(["p"], NESTED[0].after.value.path);
  }

  /** The base has a link "p" and a file "q", and the checkout moved the file to "p". */
  const TAKEN_BASE := [Entry(["p"], Symlink, Some("obj_1"), Some("v1"), None, None, Some("x")),
                       Entry(["q"], RegularFile, Some("obj_2"), Some("v2"), Some([1]), Some(false), None)]
  const TAKEN_CHECKOUT := [Entry(["p"], RegularFile, None, None, Some([1]), Some(false), None)]
  const TAKEN_MINTED := [Minted("obj_3", "v3", "s3")]

  lemma TakenIsMatched()
    ensures IsBase(TAKEN_BASE) && IsInventory(TAKEN_CHECKOUT) && MintedFor(TAKEN_BASE, TAKEN_CHECKOUT, TAKEN_MINTED)
    ensures IsMatching(TAKEN_BASE, TAKEN_CHECKOUT, [Pair(1, 0)]) &&
      HasSamePlaces(TAKEN_BASE, TAKEN_CHECKOUT, [Pair(1, 0)])
    ensures DirectoriesStay(TAKEN_BASE, TAKEN_CHECKOUT, [Pair(1, 0)])
  {}

  lemma TakenIsProposed()
    ensures Proposed(TAKEN_BASE, TAKEN_CHECKOUT, [Pair(1, 0)], TAKEN_MINTED, LostAndTaken(), [Gone(0), Changed(1, 0)])
  {
    var pairs := [Pair(1, 0)];
    TakenIsMatched();
    forall o ensures o in [Gone(0), Changed(1, 0)] <==> IsOrigin(TAKEN_BASE, TAKEN_CHECKOUT, pairs, o) {
      assert pairs[0].b == 1 && pairs[0].c == 0;
    }
  }

  /** If the source meanwhile lost "p", the assessment is silent, though the set deletes where
      it moves a file. */
  lemma LostAndTakenIsSilent(listed: seq<Entry>, keys: Keys)
    requires ListsScope(listed, map[["q"] := File([1], false)], p => true, [])
    ensures AllPeaceful(LostAndTaken(), [], listed, keys, map[["q"] := File([1], false)])
    ensures FileOntoDeleted(LostAndTaken(), LostAndTaken()[1])
  {
    assert LostAndTaken()[0].Deletes();
  }
}
