# Folderbase: a Dafny model

This project models the parts of Folderbase in which an error would lose or confuse somebody's
files, and proves what those parts promise.

* **Change Sets** (`ChangeSet`, `Transit`, `Passes`, `Reuse`, `Publication`, `Merging`, `Inventory`,
  `Propose`, `Assess`, `RoundTrip`, `Envelope`, `Apply`, `Attempts`,
  `RecoveredCheckout`). A checkout is compared with its base, the difference is assessed against the
  current source, and what is assessed clean is published file by file under a journal. The workspace
  is a finite map from paths to nodes; publication is a sequence of durable steps, each recorded in a
  trace, and a crash may leave any disk of the trace. The source may have changed since the checkout
  in any way the assessment does not object to. `Attempts` joins records, journal and workspace into
  one run of interrupted attempts, and `RecoveredCheckout` takes a checkout all the way through it.
* **Folder Scope journal** (`ScopeRecords`, `JournalReader`, `ScopeLedger`, `ScopeObserver`). A
  hash-chained log of observations whose events, genesis authority and head are published one
  after the other. A ledger says what a disk means; every disk a crash can leave is that of a
  well-formed ledger, and the reader makes of it exactly what the ledger says.
* **Folderbase Versions** (`PortablePaths`, `Boundaries`, `FolderbaseVersion`,
  `VersionValidator`, `Encoding`, `CanonicalDigest`, `VersionDiff`, `DiffReplay`,
  `ExactDecimal`). Validity is stated entry by entry and pair by pair, and the validator decides
  it with indexes; the bytes of the canonical digest can be read back; the difference of two
  Versions can be replayed; a JSON number is read without rounding.
* **Chunks and transfers** (`Chunking`, `Transfer`). Content-defined chunking as the only list
  of pieces that obeys the rolling-hash rule, and a receiver that takes chunks in any order.
* **State primitives** (`Sanitizer`, `Exchange`). Taking a private directory apart through a
  queue, and swapping a file under another writer's hands.
* **Daemon session** (`DaemonSession`, `Framer`). What a transcript of hints and answers always
  satisfies, and framing that does not depend on how the input is buffered.

`Sorting` holds the insertion into a sorted list that reports are ordered by.

Objects whose methods change their fields in the original are classes here: the workspace, the
apply store, the collision index, the journal, the transfer, the private directory, the state
directory, the session and its mailbox, the frame reader. Their methods are tied to functions of
the old state; what is proved about runs is proved of those functions.

SHA-256 text is a function parameter. In the journal and in transfers nothing is assumed about
collisions: where different bytes could have one digest, the statement names the two byte strings at
hand, the two event files of one number, or an offered chunk and the piece it passes for. In Change
Sets a content digest stands for the content, and the digest of a set is its own preimage,
`Sha(id, deltas)`. Unicode tables, calendar arithmetic, the
JSON codec, minted identifiers and the other writer's moves are parameters as well.

## Places where the code does less than one might think

Each of these is a lemma or one half of an if-and-only-if below.

* The assessment looks at the paths of a set, not at what stands above them. If the source put a
  file or a link where the checkout adds something beneath, it is silent
  (`RoundTrip.ReplacedParentIsSilent`). Publication then stops at a file, and follows a link to
  wherever it leads, because path components are only joined, and may report success. The same holds
  for deletions beneath a directory the source replaced.
* A deletion whose path the source already lost raises no conflict, even if the same set puts
  something new at that path, as an ordinary proposal can (`RoundTrip.LostAndTakenIsSilent`). Then
  no workspace ever satisfies both deltas (`Assess.AppliableIffNoDeletedPathReused`), and if it is
  a file that was moved there, the removal pass deletes it: `Publication.MovedFileIsCleared`. If
  something is moved beneath such a path, as an ordinary proposal can
  (`RoundTrip.NestedIsSilent`), the removal pass stops at it. If nothing is moved into a deleted
  path, such a set is published like any other: `Publication.Workspace.Publish` says exactly when.
* A file added to the source inside a directory the set removes is not noticed by the assessment;
  publication stops at that directory (`Publication.AddedChildIsUncovered`).
* Where no path of the set leads through a link, these three are the only gaps:
  `RoundTrip.AssessAndPublish` then ends in an accepted merge if and only if the assessment is silent,
  the bytes are there, nothing stands above a path of the set, no deleted path is used again and the
  set covers what its deletions would leave without a parent. By `Merging.MergeExistsIff` the
  conditions on parents of new entries and on coverage are those under which a file system can hold
  the merge at all. Where a path does lead through a link, what publication goes on to do is left
  open, and only "accepted merge implies" is claimed; there the untouched source may already be the
  accepted merge, as `RoundTrip.RemovedBeneathLinkIsMerged` shows for a lost deletion.
* Publication is not followed by the completion test, which only the gate of a later attempt runs. A set
  that uses a deleted path again never passes it, even if everything was published
  (`Publication.ReplacedFileIsUnrecognised`), so once its publication is journalled and the attempt is
  cut before the receipt, every later attempt is refused: `Attempts.JournalledReuseIsStuck`.
* A moved symbolic link that also changes its target is absent from both its paths for a moment,
  and the recovery test refuses a workspace left in that moment
  (`Publication.RetargetLeavesWindow`). `PublishFromSource` shows that every disk of a completed
  publication is recoverable if and only if the set has no such link and uses no deleted path
  again; `Attempts.ApplyThroughCrashes` accordingly promises success after crashes only without such a link.
* A path that changes its kind is proposed as a deletion and a creation, which the assessment does
  not take as long as the source has the path: `RoundTrip.CleanIffSameKinds`.
* A checkout entry outside the authorized scopes is proposed like any other, and then makes the
  envelope invalid: `Envelope.SealProposal` says exactly when a proposal is refused.
* After a crash between event and head, the journal accepts only the observation that was
  interrupted, or one already committed; any other is refused until then:
  `ScopeObserver.OnlyRetryCommitsTheOrphan`.
* Chunk indices of 32 bits tell chunks apart exactly up to 2^32 chunks:
  `Transfer.IndicesAreDistinctIffFew`.
* An exchange deletes only sealed bytes unless a failure is reported after other bytes were swapped
  out, or a recovery file of the same owner is already there when bytes have to be recovered:
  `Exchange.DeletesOnlySealed` says so of the files and the other writer's moves beforehand, the
  last clause of `Exchange.StateDirectory.CompareExchange` is an if-and-only-if, and
  `Exchange.EarlierRecoveryIsLost` is such a case. Off Windows no caller outside the tests passes a
  hook that reports a failure (crates/folderbase-core/src/folderbase_state.rs:1567-1583).
* A hint that found no room is reported with the next input received after its flag is up. If the
  loop drains the queue before that, it waits for the next input: `DaemonSession.LateFlagWaits`.

## Model

| member | source | states |
|---|---|---|
| ChangeSet.AppliedInTransitIsMerge | crates/folderbase-core/src/change_set.rs:1591-1615 | a disk of the publication that passes the completion test is the three-way merge: source minus before-paths plus after-states, nothing else changed but implied parents |
| ChangeSet.MergeIsUnique | crates/folderbase-core/src/change_set.rs:1591-1615 | one set and one source have one merge |
| Publication.PrepareWork | crates/folderbase-core/src/change_set.rs:1066-1124 | preparing succeeds exactly when the content of every file to be written is available |
| Publication.Workspace.MoveFiles | crates/folderbase-core/src/change_set.rs:1164-1206 | the first pass brings every moved entry to its new path through disks that are all in transit; unless a deleted path is used already, it stops only where something stands above a path of the set, something is moved to, beneath or above a deleted path, or both ends of a move were gone at the start |
| Publication.Workspace.RemovePaths | crates/folderbase-core/src/change_set.rs:1207-1241 | the second pass leaves nothing at any before-path, not even what a move put at a deleted one; unless a deleted path is used otherwise, it stops only at an obstacle above a path, at a move to, beneath or above a deleted path, or at a directory that keeps something the set does not cover |
| Publication.Workspace.MakeDirectories | crates/folderbase-core/src/change_set.rs:1243-1265 | the third pass makes every directory of the set and adds nothing but directories the set needs; on a passable set it never stops |
| Publication.Workspace.OverwriteInPlace | crates/folderbase-core/src/change_set.rs:1326-1403 | bytes are written over a moved file one by one, and every disk on the way is covered by the durable marker; it fails exactly when the file is missing |
| Publication.Workspace.InstallOne | crates/folderbase-core/src/change_set.rs:1267-1318 | each kind of after-state ends applied without disturbing any other delta; on a passable set it does not fail, and a file moved where the set deletes always does; a retargeted link is seen in its window |
| Publication.Workspace.Publish | crates/folderbase-core/src/change_set.rs:1159-1320 | from any disk in transit: every disk on the way is in transit; completion means the workspace is the merge, the set is covered and moves nothing into a deleted path; from a disk on which no deleted path is used yet and no move lost both ends, and where no path leads through a link and no link is moved above a before-path, it completes if and only if moreover nothing stands above a path; it ends accepted if and only if besides no deleted path is used again; every retargeted link passes through its window |
| Publication.Workspace.PublishFromSource | crates/folderbase-core/src/change_set.rs:1159-1320 | from any source a proposal is clean of, where no path leads through a link: it completes, in the merge, if and only if nothing stands above a path, removed directories are covered and nothing is moved into a deleted path (a link moved above a before-path aside); it passes the completion test if and only if besides no deleted path is used again; without retargeted links and reused paths all its disks are recoverable, and upon completion only then |
| Publication.Workspace.Resume | crates/folderbase-core/src/change_set.rs:737-819 | an interrupted publication, rerun from any of its disks, completes only in the merge of the original source; where no path leads through a link and no link is moved above a before-path, if and only if it is applied already, or the gate lets it through and the set can be published |
| Publication.Workspace.RunThroughCrashes | crates/folderbase-core/src/change_set.rs:1159-1320 | a publication and any number of resumptions, each cut at an arbitrary disk: a completed run ends in the merge of the original source, and on an unobstructed source without reused paths it completes if and only if the set is covered, over recoverable disks only |
| Publication.RetargetLeavesWindow | crates/folderbase-core/src/change_set.rs:1464-1488 | a concrete moved and retargeted link whose in-transit disk the recovery test refuses |
| Reuse.PassableIsClear | crates/folderbase-core/src/change_set.rs:1159-1320 | on a set that nothing stands above and that moves nothing to, beneath or above a deleted path, every after-path stays clear on every disk of the publication, and every before-path as long as reused paths hold nothing but what was moved there |
| Reuse.RecoverableIsUnreused | crates/folderbase-core/src/change_set.rs:1498-1546 | the recovery test lets no disk through on which a deleted path is used again already |
| Reuse.ClearedMovesNothingIn | crates/folderbase-core/src/change_set.rs:1207-1241 | once the before-paths are cleared and no file was to be installed at one, nothing was moved to or beneath a deleted path |
| Publication.AddedChildIsUncovered | crates/folderbase-core/src/change_set.rs:1405-1418 | a concrete clean source with an added child that keeps a directory from being removed |
| Publication.MovedOntoDeletedIsGone | crates/folderbase-core/src/change_set.rs:1207-1241 | for every set: once the before-paths are cleared, an entry moved to a deleted path is at neither of its paths |
| Publication.MovedFileIsCleared | crates/folderbase-core/src/change_set.rs:1181-1241 | a concrete clean set whose moves and removals leave its moved file at neither path |
| Publication.ReplacedFileIsUnrecognised | crates/folderbase-core/src/change_set.rs:1591-1615 | a concrete clean set whose removal and install both succeed, and whose result neither the completion test nor the recovery test takes |
| Merging.MergeExistsIff | crates/folderbase-core/src/change_set.rs:1159-1320 | a file system can hold the merge of a set and a source it is clean of if and only if only directories stand above the after-paths and the set covers what is beneath the directories it removes |
| Propose.MatchInventory | crates/folderbase-core/src/change_set.rs:2530-2594 | the matching is exactly the pairs of one path and kind, the renames by content (the only displaced base entry with that content, for the first displaced checkout entry that has it), and the last file and the last link if one of each kind is left on both sides; it is a kind-preserving partial bijection and directories never move |
| Propose.AmbiguityIsNotGuessed | crates/folderbase-core/src/change_set.rs:2550-2573 | of two displaced base entries with one content neither is paired with anything |
| Propose.ProposeDeltas | crates/folderbase-core/src/change_set.rs:468-538 | there is exactly one delta for every changed pair, lost entry and new entry of that matching, and the set is accepted if and only if there are 1 through 16384 of them |
| Propose.IdentityFollowsBase | crates/folderbase-core/src/change_set.rs:468-531 | a changed or lost entry is named by the object its base entry has and described with its version and content, and its new path is that of the matched checkout entry; a new one gets the identifier minted for it |
| Propose.VersionFollowsContent | crates/folderbase-core/src/change_set.rs:2597-2700 | an after-state keeps the base version, and a file its projection-base bytes, exactly if bytes and mode (or target) are unchanged; otherwise it has the minted version and its staged bytes |
| Propose.ProposalIsPatch | crates/folderbase-core/src/change_set.rs:468-531 | removing the before-states and adding the after-states turns the base tree into exactly the checkout tree |
| Assess.AssessDelta | crates/folderbase-core/src/change_set.rs:2113-2223 | a delta raises no conflict if and only if it is outside nested boundaries, its before-state is intact or its deletion already happened, and its new path is free and alias-free; which code it raises otherwise |
| Assess.ConflictIsDetermined | crates/folderbase-core/src/change_set.rs:2113-2223 | what the report says of a delta is determined by the delta, the nested boundaries and the source: code, path, other path |
| Assess.AssessConflicts | crates/folderbase-core/src/change_set.rs:2113-2223 | one conflict for each delta that is not peaceful, sorted by path and code, and each with the code, path and other path of what is wrong; none at all if and only if all are peaceful, and then the source is clean |
| Assess.AppliableIffNoDeletedPathReused | crates/folderbase-core/src/change_set.rs:2207-2211 | a clean set can be satisfied by some workspace, and has separate deltas, if and only if it reuses no path it deletes |
| Assess.LostPathReusedIsClean | crates/folderbase-core/src/change_set.rs:2207-2211 | a concrete clean set that deletes and creates one path |
| Assess.MergedPathsAreAliasFree | crates/folderbase-core/src/change_set.rs:2142-2205 | collision-free inputs and a silent assessment of a set within the authorized scope make the merged paths collision-free |
| RoundTrip.ProposalFits | crates/folderbase-core/src/change_set.rs:451-663 | a proposal that is clean of a source fits it, whatever happened to the source since the checkout |
| RoundTrip.AssessAndPublish | crates/folderbase-core/src/change_set.rs:581-835 | assess, prepare, publish on a source that may have changed: it becomes the merge, accepted by the completion test, only if the assessment is silent, all bytes are available, only directories stand above after-paths, no deleted path is used again and the set is covered; where no path leads through a link, if and only if that holds and nothing stands above a before-path either; and everything is published, accepted or not, if and only if (no link being moved above a before-path) nothing is moved into a deleted path instead |
| RoundTrip.ReplacedParentIsSilent | crates/folderbase-core/src/change_set.rs:2113-2223 | for the proposal of `RoundTrip.AddedIsProposed`: a source that put a file or a link in place of a needed directory raises no conflict |
| RoundTrip.RemovedBeneathLinkIsMerged | crates/folderbase-core/src/change_set.rs:1405-1418 | for the proposal of `RoundTrip.RemovedIsProposed`: a source that replaced the directory of a removed file by a link to a directory without it raises no conflict and is, untouched, the merge that passes the completion test |
| RoundTrip.LostAndTakenIsSilent | crates/folderbase-core/src/change_set.rs:2207-2211 | for the proposal of `RoundTrip.TakenIsProposed`: a source that lost the deleted path to which a file was moved raises no conflict |
| RoundTrip.NestedIsSilent | crates/folderbase-core/src/change_set.rs:2207-2211 | for the proposal of `RoundTrip.NestedIsProposed`: a source that lost the file whose path became a directory raises no conflict, though the set moves a file beneath that path |
| RoundTrip.CleanIffSameKinds | crates/folderbase-core/src/change_set.rs:451-579 | a proposal is clean on its own base if and only if no shared path changed its kind |
| RoundTrip.MergedProposalIsCheckout | crates/folderbase-core/src/change_set.rs:451-579 | a merge of a proposal into its base is the checkout, and the proposal is empty if and only if base and checkout are the same tree |
| RoundTrip.CheckoutRoundTrip | crates/folderbase-core/src/change_set.rs:451-663 | propose, assess, publish on the unchanged source: the deltas are a proposal of the checkout, and the source becomes exactly the checkout, if and only if something changed within bounds, kinds were kept and new paths are alias-free |
| Envelope.ValidateDeltas | crates/folderbase-core/src/change_set.rs:1665-1733 | the deltas of an envelope are accepted if and only if they are 1 through 16384, strictly ordered by object ID, each meaningful and permitted, with final paths that cannot be confused |
| Envelope.RejectPathCollisions | crates/folderbase-core/src/change_set.rs:2316-2332 | three key sets find a collision if and only if two of the paths collide |
| Envelope.SealProposal | crates/folderbase-core/src/change_set.rs:532-579 | proposed, then validated as 1665-1733 do when the set is assessed or applied: a sorted proposal is a valid envelope of the proposed deltas; only size, unpermitted states and colliding final paths can keep one from being accepted |
| Apply.Store.Replay | crates/folderbase-core/src/change_set.rs:681-709 | a set with a receipt is answered with the stored digest and the workspace is left alone |
| Apply.Store.Begin | crates/folderbase-core/src/change_set.rs:710-835 | it goes on if and only if there is no receipt, the ID is free or its own, and the gate finds the workspace done, or lets it be published (after a clean assessment if no journal is there) with prepared bytes and a successful publication; the disks it leaves are given exactly; another set's journal is never touched; going on means the own journal is there and the ID is bound |
| Apply.Store.Finish | crates/folderbase-core/src/change_set.rs:866-905 | an existing receipt is never changed, and only the own journal is removed after it |
| Apply.SectionExtendsRun | crates/folderbase-core/src/change_set.rs:665-905 | a section of apply, cut after any durable step, extends a run |
| Apply.RecordsAreWriteOnce | crates/folderbase-core/src/change_set.rs:907-939 | over all runs of any sets, ID bindings and receipts are never changed or removed |
| Apply.JournalOutlivesNothingButReceipt | crates/folderbase-core/src/change_set.rs:962-1017 | a set's journal stays until its receipt exists; no other set replaces it |
| Apply.ReceiptEndsWriting | crates/folderbase-core/src/change_set.rs:681-734 | a set with a receipt never writes the workspace again |
| Apply.WritesAreSerial | crates/folderbase-core/src/change_set.rs:665-905 | writes of two sets never interleave |
| Apply.ReceiptIsTheAnswer | crates/folderbase-core/src/change_set.rs:681-734 | over all runs of any sets, every later call of a set with a receipt is answered with the digest of that receipt |
| Attempts.Attempt | crates/folderbase-core/src/change_set.rs:665-905 | one attempt from any disk an interrupted one left: all its disks are safe, it is answered as applied only with the receipt written and the journal cleared; if nothing is in its way and the gate lets the disk through, it is |
| Attempts.ApplyThroughCrashes | crates/folderbase-core/src/change_set.rs:665-905 | any number of attempts, each cut after an arbitrary durable step of records, journal or workspace, and one that is not: their disks form a run; applied means that the workspace is the merge, the receipt names its digest, the set is covered and moves nothing into a deleted path; uncut (no link being moved above a before-path), if and only if this holds and nothing stands above a path; cut, on an unhindered source without retargeted moved links, exactly when covered |
| Attempts.JournalledReuseIsStuck | crates/folderbase-core/src/change_set.rs:759-766 | a set that uses a deleted path again is refused, and leaves no disk, whenever its own published journal is found without a receipt |
| RecoveredCheckout.CheckoutThroughCrashes | crates/folderbase-core/src/change_set.rs:451-905 | propose a checkout, assess and prepare it, and apply it through any crashes: the source becomes exactly the checkout under a receipt of its digest; without retargeted moved links, or uncut, if and only if something changed within bounds, kinds were kept and new paths are alias-free |
| ScopeRecords.RelativeBoundaryBindings | crates/folderbase-core/src/folder_scope_evidence.rs:922-956 | boundaries are made relative if and only if each is sound, strictly beneath the folder and in strict byte order |
| ScopeRecords.RenameKeepsBoundaries | crates/folderbase-core/src/folder_scope_evidence.rs:922-956 | a folder renamed with its boundaries keeps the relative ones |
| ScopeRecords.EventIdIdentifiesEvent | crates/folderbase-core/src/folder_scope_evidence.rs:1411-1429 | event IDs are equal if and only if their preimages have one digest, and the preimages are equal if and only if number, predecessor and observation are |
| ScopeRecords.EvidenceShowsTheFolder | crates/folderbase-core/src/folder_scope_evidence.rs:217-227 | the evidence of a valid event shows path, boundaries, number, and the names of the binding and of the observation |
| ScopeRecords.HashObservation | crates/folderbase-core/src/folder_scope_evidence.rs:1266-1307 | the digest fed field by field is that of the observation's preimage |
| ScopeRecords.ObservationPreimageInjective | crates/folderbase-core/src/folder_scope_evidence.rs:1266-1307 | different observations of one root are hashed from different bytes, across counted lists and optional heads |
| ScopeRecords.ProofIdentifiesBinding | crates/folderbase-core/src/folder_scope_evidence.rs:1249-1264 | opaque proofs are equal if and only if their preimages have one digest, and the preimages are equal if and only if both are of the same folder under the same nonce |
| ScopeRecords.StandardIsFaithful | crates/folderbase-core/src/folder_scope_evidence.rs:848-910 | an event is self-consistent in its place exactly if it is the record of what it says was seen there |
| JournalReader.ReadJournal | crates/folderbase-core/src/folder_scope_evidence.rs:583-697 | a disk is read if and only if it is a contiguous chain with at most one event after it, within bounds, with matching head and genesis |
| JournalReader.ReadingIsUnique | crates/folderbase-core/src/folder_scope_evidence.rs:583-697 | a disk has at most one reading |
| JournalReader.HeadFixesHistory | crates/folderbase-core/src/folder_scope_evidence.rs:618-697 | two accepted journals with the same head have the same committed history, unless two of their event files with one number are different and have one digest |
| ScopeLedger.LedgerIsAccepted | crates/folderbase-core/src/folder_scope_evidence.rs:583-697 | the disk of every well-formed ledger is accepted, and read as that ledger |
| ScopeLedger.EventPublished | crates/folderbase-core/src/folder_scope_evidence.rs:366-437 | putting the next event on disk leads to a well-formed ledger: linked, within bounds, and continuous with the whole history |
| ScopeObserver.Screen | crates/folderbase-core/src/folder_scope_evidence.rs:308-364 | an observation is refused, answered from history or bound to its folder's nonce exactly as the whole history requires |
| ScopeObserver.AdmittedAgrees | crates/folderbase-core/src/folder_scope_evidence.rs:306-364 | what is admitted agrees with every event: equal paths name one folder, one folder keeps nonce and proof, one nonce keeps its relative boundaries, no observation digest occurs twice |
| ScopeObserver.Journal.Observe | crates/folderbase-core/src/folder_scope_evidence.rs:297-489 | evidence comes out if and only if the checks let it, it is of a committed event with this observation's digest, a known observation changes nothing, failure commits nothing, and every disk on the way keeps all that was recorded |
| ScopeObserver.Journal.ObserveFolder | crates/folderbase-core/src/folder_scope_evidence.rs:242-495 | one call: two looks that differ change nothing; evidence comes out if and only if they agree, the checks let it, and the observation was known or the root still is the attested one at the end; a call that failed only at the end left its event committed, and gives evidence when made again |
| ScopeObserver.Journal.ObserveThroughCrashes | crates/folderbase-core/src/folder_scope_evidence.rs:242-505 | after any number of observations cut at arbitrary disks the journal is that of a well-formed ledger, and nothing recorded before is changed or dropped |
| ScopeObserver.RetryBuildsTheOrphan | crates/folderbase-core/src/folder_scope_evidence.rs:316-409 | an observation builds the waiting event, byte for byte, if and only if it is the one that was interrupted |
| ScopeObserver.OnlyRetryCommitsTheOrphan | crates/folderbase-core/src/folder_scope_evidence.rs:407-494 | the interrupted observation commits the waiting event; any other leaves history and waiting event as they are |
| ScopeObserver.EvidenceIsOfTheObservation | crates/folderbase-core/src/folder_scope_evidence.rs:335-349 | a committed event answers an observation by digest if and only if the preimages of what it saw and of the observation have one digest, and the preimages are equal if and only if the observations are |
| PortablePaths.SplitJoin | crates/folderbase-core/src/folderbase_version.rs:1557-1587 | splitting joined components gives the components back |
| Boundaries.ContainsAncestor | crates/folderbase-core/src/folderbase_version.rs:1749-1769 | probing the ancestors of a path finds a boundary if and only if scanning all boundaries does |
| Boundaries.ValidateSymlinkTarget | crates/folderbase-core/src/folderbase_version.rs:1669-1724 | the component stack accepts a link if and only if its target resolves lexically inside the root, to a portable path outside every boundary |
| Boundaries.ValidateSafeSymlinkTarget | crates/folderbase-core/src/change_set.rs:2929-2953 | the depth counter accepts a target if and only if it is relative and no prefix of it climbs above the root |
| Boundaries.CounterIsResolution | crates/folderbase-core/src/change_set.rs:2929-2953 | the counter is lexical resolution with the names forgotten: both succeed together, and the counter is the depth reached |
| Boundaries.UpUndoesDown | crates/folderbase-core/src/folderbase_version.rs:1683-1702 | a component and a `..` after it lead back to where the target had led before |
| VersionValidator.ValidLinksAreSafe | crates/folderbase-core/src/folderbase_version.rs:765-793 | every link of a valid Version passes a checkout's depth counter and leads into no nested boundary |
| VersionValidator.CollisionIndex.Insert | crates/folderbase-core/src/folderbase_version.rs:1478-1494 | a path is inserted if and only if it collides with none already there |
| VersionValidator.CheckOwners | crates/folderbase-core/src/folderbase_version.rs:1642-1654 | the owner map accepts claims if and only if no Object Version has two owners |
| VersionValidator.CheckContained | crates/folderbase-core/src/folderbase_version.rs:765-793 | folded boundaries are an antichain, nothing lies beneath one, and links stay out of them, decided by the probing index |
| VersionValidator.Validate | crates/folderbase-core/src/folderbase_version.rs:578-795 | one pass with its indexes accepts a Version if and only if it meets the entry-by-entry, pair-by-pair definition |
| Encoding.FieldsPrefix | crates/folderbase-core/src/folderbase_version.rs:1401-1404 | length-prefixed fields are read back one by one, whatever follows |
| Encoding.SequencePrefix | crates/folderbase-core/src/folderbase_version.rs:876-935 | so are the items of a counted list |
| CanonicalDigest.PreimageInjective | crates/folderbase-core/src/folderbase_version.rs:852-939 | two valid Versions with the same canonical bytes agree in every field |
| CanonicalDigest.CanonicalDigest | crates/folderbase-core/src/folderbase_version.rs:852-939 | a digest exists if and only if the Version is valid, and what the hasher is fed is the canonical preimage |
| VersionDiff.Compare | crates/folderbase-core/src/folderbase_version.rs:941-1141 | the changes are exactly those that hold of the two Versions, each once, ordered by path, rank and object |
| VersionDiff.GroupsCoverReport | crates/folderbase-core/src/folderbase_version.rs:949-1138 | the loops over objects, paths, tombstones and exclusions together report every change and nothing else |
| DiffReplay.ReplayGivesNewer | crates/folderbase-core/src/folderbase_version.rs:941-1141 | applying deletions, moves, additions and recreations to the older path-to-object map gives exactly the newer one |
| DiffReplay.VanishedOnce | crates/folderbase-core/src/folderbase_version.rs:1011-1030 | an object that vanished is reported exactly once as deleted or replaced |
| DiffReplay.NewOnce | crates/folderbase-core/src/folderbase_version.rs:1004-1030 | a new object is reported exactly once as added or recreated |
| DiffReplay.MovedOnce | crates/folderbase-core/src/folderbase_version.rs:968-988 | an object is reported as moved once if its path changed, and never otherwise |
| DiffReplay.UpdatedOnce | crates/folderbase-core/src/folderbase_version.rs:977-1040 | an object is reported as updated once if anything but its path changed, and never otherwise |
| DiffReplay.RootOnce | crates/folderbase-core/src/folderbase_version.rs:948-956 | a changed root manifest is reported once, an unchanged one never |
| DiffReplay.SaysWhatIsReported | crates/folderbase-core/src/folderbase_version.rs:941-1141 | what the comparison finds in its lookup maps is what holds of the entries of the two Versions |
| DiffReplay.Diff | crates/folderbase-core/src/folderbase_version.rs:941-1141 | what a diff is asked for: it exists if and only if both Versions are valid and of one Folderbase; it holds exactly the changes that are true of their entries, each once and key-sorted; replaying it gives the newer path map; it is empty if and only if the contents are the same; every object appears once in its role, and so does a changed root manifest |
| ExactDecimal.ParseExactUnsigned | crates/folderbase-core/src/folderbase_version.rs:1941-1987 | for every JSON number text the result is v if and only if the exact value is the integer v, v fits 64 bits and the written exponent does |
| ExactDecimal.ScaleDown | crates/folderbase-core/src/folderbase_version.rs:1967-1985 | digits are taken away if and only if what is taken away is zero |
| Chunking.ChunkContent | crates/folderbase-core/src/chunk_transfer.rs:80-110 | a manifest exists if and only if the configuration is valid; it describes pieces that make up the input, each ending where its own rolling hash first says so |
| Chunking.LastByteChangesHash | crates/folderbase-core/src/chunk_transfer.rs:88-91 | pieces that differ in their last byte only have different rolling hashes |
| Chunking.ChunkingIsUnique | crates/folderbase-core/src/chunk_transfer.rs:80-110 | there is one such list of pieces for given bytes |
| Chunking.SharedSuffixSharesPieces | crates/folderbase-core/src/chunk_transfer.rs:75-110 | two inputs that agree from a cut of both on have identical pieces from there |
| Chunking.PiecesAreBounded | crates/folderbase-core/src/chunk_transfer.rs:91-99 | no piece is empty or above the maximum, and all but the last reach the minimum |
| Transfer.ProducedManifestIsValid | crates/folderbase-core/src/chunk_transfer.rs:339-355 | what the chunker makes passes the checkpoint validation |
| Transfer.IndicesAreDistinctIffFew | crates/folderbase-core/src/chunk_transfer.rs:330-345 | indices cut to 32 bits are distinct if and only if there are at most 2^32 chunks |
| Transfer.BytesAreConserved | crates/folderbase-core/src/chunk_transfer.rs:284-295 | received and missing bytes make up the object |
| Transfer.AssembledIsOriginal | crates/folderbase-core/src/chunk_transfer.rs:297-316 | whatever order the chunks came in, what is assembled has the length of the original and is the original if and only if every chunk is held as it was cut; any other held chunk has the length and digest of its piece |
| Transfer.SentChunksAreAcceptable | crates/folderbase-core/src/chunk_transfer.rs:319-328 | what the sender cuts out for a chunk is the chunker's piece and is acceptable |
| Transfer.ResumableTransfer.AcceptChunk | crates/folderbase-core/src/chunk_transfer.rs:264-282 | a chunk is taken if and only if it matches its description, and a repeat changes nothing |
| Transfer.ResumableTransfer.ReceivedBytes | crates/folderbase-core/src/chunk_transfer.rs:293-295 | the sum over the received chunks, in any order of adding, complements the missing bytes |
| Transfer.ResumableTransfer.Assemble | crates/folderbase-core/src/chunk_transfer.rs:297-316 | incomplete transfers name what is missing; complete ones give the concatenation if and only if length and digest match |
| Transfer.ResumableTransfer.Receive | crates/folderbase-core/src/chunk_transfer.rs:264-282 | after any offers a chunk is held if and only if it was held before or some offer brought it, byte for byte |
| Transfer.TransferObject | crates/folderbase-core/src/chunk_transfer.rs:80-316 | chunk with the configured chunker, receive in any way, assemble: what comes out has the length and digest of the object; unless some offer passes for a chunk it is not, it is the object, and comes out if and only if every chunk the chunker cuts was brought |
| Sanitizer.PrivateDirectory.Drain | crates/folderbase-core/src/folderbase_state.rs:1988-2058 | though a listing may miss entries, the queue is emptied in finitely many steps, and the root level stays as it is |
| Sanitizer.PrivateDirectory.Empty | crates/folderbase-core/src/folderbase_state.rs:2015-2048 | a queued directory is emptied into the queue without descending into it, by as many listings as it takes |
| Sanitizer.PrivateDirectory.SanitizeVisible | crates/folderbase-core/src/folderbase_state.rs:1923-1986 | what remains at the root is exactly the retained regular file and what no pass was shown, untouched |
| Sanitizer.PrivateDirectory.Sanitize | crates/folderbase-core/src/folderbase_state.rs:1908-1921 | seeing everything, exactly the retained regular file remains, untouched, or nothing |
| Sanitizer.NothingBeneathFiles | crates/folderbase-core/src/folderbase_state.rs:1923-1986 | a tree whose root level holds no directory is its root level |
| Exchange.StateDirectory.CompareExchange | crates/folderbase-core/src/folderbase_state.rs:1585-1644 | success means the target held the expected bytes at the swap; when an exchange is undone, the displaced bytes are back and bytes written in between are in the recovery file; which of these happens, and that only sealed bytes are deleted, is decided by the files and the other writer's moves beforehand |
| Exchange.StateDirectory.RecoverArtifacts | crates/folderbase-core/src/folderbase_state.rs:1646-1688 | artifacts are cleared if and only if all hold sealed bytes, and nothing else is ever removed |
| Exchange.EarlierRecoveryIsLost | crates/folderbase-core/src/folderbase_state.rs:1625-1634 | a concrete exchange in which a recovery file of the same owner is written over |
| DaemonSession.EventsAreSeparated | crates/folderbase-cli/src/daemon_capability.rs:340-369 | between two events there is a request answered with ok |
| DaemonSession.EventsAreNumbered | crates/folderbase-cli/src/daemon_capability.rs:351-354 | consecutive events carry consecutive numbers |
| DaemonSession.PendingIsSubscribed | crates/folderbase-cli/src/daemon_capability.rs:340-369 | an event is pending only for a subscriber |
| DaemonSession.Session.EmitHintIfNeeded | crates/folderbase-cli/src/daemon_capability.rs:340-369 | a subscriber without a pending event is told with the next number and the given reason, and nobody else is told anything; it fails exactly for want of room or numbers |
| DaemonSession.Session.Run | crates/folderbase-cli/src/daemon_capability.rs:217-338 | everything written is the reaction to the arrivals: each request gets its answer, each change one event if a subscriber has none pending; the loop goes on exactly past inputs that do not end it, ends with success at the end of input and at shutdown and with an error at a read error and a changed root, and otherwise only for want of room or numbers; a subscriber that had something to hear has been told at each mark |
| DaemonSession.AnswersInOrder | crates/folderbase-cli/src/daemon_capability.rs:240-300 | the responses of a session are exactly the answers to its requests, in order, whatever events lie between |
| DaemonSession.Mailbox.TryHint | crates/folderbase-cli/src/daemon_capability.rs:180-191 | the watcher's first step: a hint is queued if and only if there is room, and otherwise waits to raise the flag |
| DaemonSession.Mailbox.LowerFlag | crates/folderbase-cli/src/daemon_capability.rs:229-230 | the loop's second step reports all hints behind the flag at once, if there are any |
| DaemonSession.Interleave | crates/folderbase-cli/src/daemon_capability.rs:180-230 | in any interleaving of watcher, reader and loop, the mailbox is what the state function makes of the moves: as many hints were tried as there are hint moves, queued is what was sent while there was room, and the loop took and flagged what the function says |
| DaemonSession.SentInOrder | crates/folderbase-cli/src/daemon_capability.rs:180-230 | over any moves, what arrived, what is in hand and what is queued are together what was sent while there was room, in order |
| DaemonSession.HintsAreAccounted | crates/folderbase-cli/src/daemon_capability.rs:180-230 | over any moves, every hint was sent, stands behind the flag, was reported with it, or is about to raise it, and something was reported if and only if some arrival carried the flag |
| DaemonSession.FlagComesNext | crates/folderbase-cli/src/daemon_capability.rs:185-230 | once the flag is up, the very next input the loop handles carries it, whatever other moves come between |
| DaemonSession.LateFlagWaits | crates/folderbase-cli/src/daemon_capability.rs:185-230 | a concrete interleaving after which a hint waits behind the flag with nothing left to receive |
| Framer.Reader.ReadFrame | crates/folderbase-cli/src/daemon_capability.rs:533-571 | one frame is the first line of the remaining input, or its oversized mark, however the reader hands bytes out |
| Framer.ReadAll | crates/folderbase-cli/src/daemon_capability.rs:193-215 | all frames are those of cutting the input at its newlines, for every buffering |
| Framer.FramingIsLossless | crates/folderbase-cli/src/daemon_capability.rs:533-571 | frames ended by newlines are the input with its last line ended |

## Left out

- Real file-system calls, no-follow opens, link counts, fsync and Windows variants: durable steps over maps stand for them. The Windows form of the exchange, which goes through a backup name, is not modelled; only its artifact is cleared.
- Leftover `.tmp` files of staged writes: installing a file, creating a marker, `publish_new` and `replace` are single steps.
- SHA-256, Unicode tables, calendar arithmetic, semantic-version syntax and the JSON codec: parameters with the laws stated where they are used.
- Capture, history finalization and sealing inside apply: one idempotent step whose projection digest is a parameter, in `Attempts` a function of the workspace.
- Work directories of apply, and their reopening and removal: the prepared bytes are a map that survives a crash, and markers are kept with the workspace.
- Attempts.ApplyThroughCrashes: attempts of one set, with nobody else changing the workspace between them; sets where no path leads through a link. Runs of several sets are the subject of `Apply.IsRun`.
- Error texts and exit codes.
- Publication.Workspace.Publish: at a path that leads through a symbolic link it ends as `Diverted`, which leaves open what the original goes on to do, completing included; what it reads, writes and removes at the link's other end is not modelled. `PublishFromSource`, `Resume`, `RoundTrip.AssessAndPublish` and `Attempts.ApplyThroughCrashes` state their if-and-only-ifs for the other sets and sources. The link may also be one the set moves to a deleted path above another deleted path; `Reuse.NoLinkOverBefore` says that it does not.
- Publication.Workspace.PublishFromSource: takes sets as a proposal forms them (`RoundTrip.ProposalFits`). Deltas that change a kind, move a directory, name one path twice among before-states, or put something beneath a path that another delta gives to a file, which only an envelope made by hand could hold, are not modelled.
- ExactDecimal.ParseExactUnsigned: number texts of 2^63 bytes and more.
- Chunking.ChunkContent: inputs of 2^64 bytes and more.
- Propose.ProposeDeltas: gives the deltas in the order they are formed; ordering them by object ID is part of `Envelope.SealProposal`.
- Syntax of the IDs and digests in an envelope header, chunk manifests of staged files, and the 8 MiB bound on an encoded envelope.
- ScopeObserver.Journal.ObserveFolder: what a capture does to form an observation, and the identity checks of the root before the lock is taken; the attested root is fixed for a run.
- File names of journal events: an event file is named by its number, any other name is a stray.
- Reconstruction, migration, query and sync internals, and the capture traversal.
- PersistentTransfer: the same receiver with one file for each chunk.
- lookup_binding, accessors, availability decisions and guide policy, which would only add easy members.
- Overflow of a manifest's 64-bit offsets, which only a checkpoint that no chunker made could reach: sums are exact here.
- Sanitizer.PrivateDirectory.SanitizeVisible: says nothing of what lies beneath a directory no pass was shown, beyond that it still hangs there.
- The adapters behind the daemon's queries, the documents of answers and the epoch of events: an answer is a status, and a failing output is a number of messages that can be written.
