# zonegit in Dafny

zonegit keeps a DNS zone as a content-addressed tree of label nodes and puts
commits, branches, merge, diff, replication, zone transfer, signing and a
serving cache on top of it. Nearly every hard routine is a fast structural
algorithm with a short specification on the flat map from (label path, record
type) to blob hash. This project models those routines and proves that they
meet these specifications, over every input, every run and every reachable
state. `dafny verify dfyconfig.toml` checks all of it.

## How the model is built

* `Objects` defines the objects and the ideal hash `Zero | H(object)`: hashes
  never collide and cannot form cycles. A store is still a real map from
  hashes to objects, so a lookup can fail. `At(root, path, type)` is the flat
  map, `CanonRoot` the tree invariant.
* One module follows one source file: `TreeNode`, `TreeOps` and `TreeReads`
  (pkg/object/tree.go, treeops.go), `History` (pkg/history), `TreeMerge`
  (pkg/merge), `Ancestry`, `Staging` and `Repo` (pkg/repo), `Refs`,
  `MemStore`, `Zone`, `Sign`, `Replicate`, `Snapshot`, `Transfer`
  (pkg/resolve/axfr.go, ixfr.go), `NsecChain` and `ZoneSign` (pkg/zonesign),
  `TreeCodec` and `CommitCodec`. `Reach` says what a hash reaches
  (pkg/replicate/server.go), `CommitUse` which authors' commits can be read
  again.
* `Canonical`, `RefProtocol`, `PullProtocol` and `SignedZone` hold the results
  that span several of them: history independence, concurrent writers,
  interrupted replication, the zone that results from signing and committing,
  and, in `SerialReuse`, serials that several commits share.
* Loops and in-place updates stay loops and in-place updates; each method is
  proved equal to a function, and the properties are proved of that function.
  Iteration over a Go map is an arbitrary choice of the next key, so every
  result holds for all iteration orders.

## Where the code and its comments differ

The model follows the code.

* Revert promises to refuse when HEAD no longer holds the target's value
  (pkg/repo/merge.go:252-254). It overwrites instead: such a revert is refused
  iff HEAD already holds all the old values (`Repo.MismatchRefusedIff`, with
  trees that show it in `Repo.RevertIgnoresMismatch`).
* MergeBase is called the lowest common ancestor (pkg/repo/merge.go:143). It is
  a nearest one. Over the histories that Commit, Merge and Revert build, the
  lowest one always exists iff the second history has no merge
  (`Ancestry.LowestExistsIffLinear`); with a merge there are first tips for
  which no result can be the lowest, and shapes in which one exists but an
  earlier commit is returned (`Ancestry.NearestNeedNotBeLowest`).
* DecodeTree is documented as rejecting every non-canonical payload. It accepts
  padded counts (`TreeCodec.PaddedCountAccepted`), and a repeated unnamed entry
  silences its duplicate test (`TreeNode.DuplicateGoesUnreported`).
* The client relies on PutObject checking the hash
  (pkg/replicate/client.go:138-139); memstore does not. A fetch keeps the store
  content-addressed iff every fetched body is the one its hash names
  (`Replicate.FetchHonestIff`, `Replicate.WrongBodyAccepted`); the results on
  whole pulls assume such a primary.
* A branch name with a slash does not survive HEAD; `Refs.SlashBranchDrifts`
  says what is read instead and when the next move goes astray.
* A commit whose author has no email is written without angle brackets and does
  not read back: it decodes to another identity if the name ends in brackets of
  its own, and otherwise not at all (`CommitUse.LegibleIff`,
  `CommitCodec.NoEmailShrinksName`). Commit stores it and moves the branch all
  the same, after which nothing can be committed there
  (`Repo.IllegibleTipBlocks`).
* A Commit that loses its compare-and-swap leaves the bumped SOA staged, and
  the next Commit takes it as it is, so the serial does not advance past the
  winner's (`Repo.LostRaceKeepsSerial`, `Repo.SerialAdvancesIff`).
* After a watched-refs change, a ref that was deleted on disk before it was
  first remembered can stay visible in the served handle
  (`Snapshot.DeletedRefStaysServed`; `Snapshot.TickServesCurrent` gives the
  exact condition).
* A serial does not identify a zone: Revert brings the old SOA back and Merge
  does not bump. IXFR answers by serial are right for every client iff all
  commits with that serial have equal bodies (`SerialReuse.RightForAllIff`,
  with a wrong answer in `SerialReuse.CurrentAnswerIsWrong`).
* Signing stages a signature over HEAD's SOA and the following commit bumps that
  SOA, so the committed SOA is never covered (`SignedZone.SignaturesHold`).
* A zone with a DNSKEY set below the apex cannot be signed: the signature for
  that type is made over the apex keys and carries the apex name, and the set of
  signatures at the name is refused as heterogeneous, with the key set, the
  chain and some signature sets already staged (`ZoneSign.SignZone`,
  `ZoneSign.KeySetBelowApexRefused`).
* An owner outside the zone whose name ends in the zone's, such as
  "barfoo.com." in "foo.com.", is staged as a name inside it
  (`Names.ForeignOwnerCollides`); the comment on stripZoneSuffix
  (pkg/repo/repo.go:458-459) has no such case.
* The NSEC chain is in byte order. It is also one in the order of section 6.1 of
  RFC 4034 iff both listings agree up to where they start
  (`SignedZone.CommittedChainCanonicalIff`); an apex between its children is
  enough to break it (`NsecChain.ByteOrderIsNotCanonical`).

## Model

| member | source | states |
|---|---|---|
| TreeOps.UpdateTree | pkg/object/treeops.go:160-220 | the backward spine rewrite returns exactly the tree of the single-key update, adds exactly the rewritten spine to the store, and on a canonical root succeeds iff the spine loads and the names are valid |
| TreeOps.UpdateAt | pkg/object/treeops.go:160-253 | the update changes the flat map at its key only; a zero leaf removes the key |
| TreeOps.UpdateCanon | pkg/object/treeops.go:196-253 | the tree invariant (strict order, valid names, no zero child, no empty subtree below the root) survives every update |
| TreeOps.UpdateRootIn | pkg/object/treeops.go:196-220 | after the write every node of the new tree is in the store |
| TreeOps.UpdateNeedsNames | pkg/object/tree.go:148-159 | a set of a key with an invalid label or type shows up as an invalid entry on the new spine, so the write is refused |
| TreeOps.SetEntry | pkg/object/treeops.go:235-253 | the copy loop with its replaced flag yields the node with that entry set or dropped |
| TreeOps.PutFindSame | pkg/object/treeops.go:235-253 | the amended node holds the new hash at the key |
| TreeOps.PutFindOther | pkg/object/treeops.go:235-253 | the amended node is unchanged at every other key |
| TreeOps.LoadChain | pkg/object/treeops.go:162-186 | the loaded chain is the list of nodes along the path, a missing label giving an empty node |
| TreeOps.WriteSpine | pkg/object/treeops.go:193-219 | each level is written once, an emptied level below the root is dropped and unlinked, the root is kept |
| TreeOps.PutTree | pkg/object/treeops.go:44-55 | refused iff some name is invalid, otherwise the sorted node is stored under its own hash |
| TreeReads.WalkTree | pkg/object/treeops.go:63-85 | equals the flat-map lookup, with NotFound for an absent key |
| TreeReads.NodeExists | pkg/object/treeops.go:93-110 | below the apex a node exists iff the name or a descendant owns a record set |
| TreeReads.WalkAllLeaves | pkg/object/treeops.go:118-144 | the recursive walk returns the enumeration of the tree |
| TreeReads.LeavesExact | pkg/object/treeops.go:118-144 | that enumeration contains exactly the keys and blobs of the flat map |
| TreeReads.LeavesDistinct | pkg/object/treeops.go:118-144 | and lists every key once |
| Canonical.HashIsCanonical | pkg/object/treeops.go:160-253 | two invariant-keeping trees with equal non-empty maps have the same root hash |
| Canonical.ApplyAt | pkg/object/treeops.go:160-220 | a run of updates is the pointwise override and keeps the invariant |
| Canonical.HistoryIndependence | pkg/object/treeops.go:160-253 | two edit histories with the same non-empty outcome give the same hash, whatever their order and length |
| Canonical.OverrideDistinct | pkg/repo/repo.go:311-326 | edits of distinct keys commute |
| TreeNode.AcceptedIffStrict | pkg/object/tree.go:186-202 | strictly sorted nodes pass the decoder; an accepted node is strictly sorted iff it repeats no unnamed entry |
| TreeNode.DuplicateGoesUnreported | pkg/object/tree.go:195-202 | two unnamed entries hide a later duplicate from the duplicate test |
| TreeNode.Get | pkg/object/tree.go:134-145 | the binary search finds what a linear scan finds first, on every weakly sorted list |
| TreeNode.SortStrict | pkg/object/tree.go:163-167 | sorting a duplicate-free list gives the strict canonical order |
| Objects.CanonOrder | pkg/object/tree.go:163-184 | a canonical node has its subtrees first, then its record sets, each in strict byte order of names |
| Ordering.StrLessIff | pkg/object/tree.go:170-184 | that order is decided at the first byte that differs, a proper prefix being less |
| Sorting.SortedPermutationUnique | pkg/object/tree.go:163-167 | without ties there is only one sorted permutation, so the result does not depend on the sorting routine |
| TreeCodec.DecodeOfEncode | pkg/object/tree.go:62-130 | decoding an encoding returns the entries in canonical order for any duplicate-free input order |
| TreeCodec.OneEntryBytes | pkg/object/tree.go:62-80 | the bytes of a node with one entry: 1, 1, the kind, the length of the name, the name, the hash |
| TreeCodec.EncodeOfDecode | pkg/object/tree.go:86-130 | an accepted payload without a repeated unnamed entry re-encodes to itself iff its count varint is minimal |
| TreeCodec.PaddedCountAccepted | pkg/object/tree.go:93-98 | a padded count decodes to the same tree as the unpadded one |
| TreeCodec.UvarintCanonical | pkg/object/tree.go:93-98 | the bytes read for a count are the canonical ones iff they are unpadded |
| TreeCodec.Encode | pkg/object/tree.go:62-80 | the buffer loop writes version, count and sorted entries |
| TreeCodec.Decode | pkg/object/tree.go:86-130 | the loop over the shrinking rest, with the order and duplicate tests, computes the decoding function |
| History.DiffExact | pkg/history/diff.go:61-181 | the list holds one change for exactly the keys whose values differ, with both values, an addition iff there was none before and a removal iff there is none after, in byte order of name and type; skipping equal subtrees hides nothing |
| History.Diff | pkg/history/diff.go:61-76 | the method returns that list, and always succeeds when both trees are stored |
| History.DiffWalk | pkg/history/diff.go:78-154 | the two-cursor walk appends exactly the changes below the two nodes to the shared buffer |
| History.EmitOnlySide | pkg/history/diff.go:158-181 | a one-sided subtree contributes one addition or removal per leaf |
| History.ReplayAt | pkg/history/diff.go:61-181 | replaying a diff or its inverse on any third tree sets exactly the changed keys |
| History.ReplayGivesNew | pkg/history/diff.go:61-181 | replaying the diff on the old tree gives the new map, and the same root hash unless the map is empty |
| TreeMerge.MergeExact | pkg/merge/merge.go:104-226 | at every key the merged map is the pointwise leaf resolution, the tree invariant holds, and the conflicts are exactly the keys with three different values, once each, with reason and blobs, sorted |
| TreeMerge.NoConflictsIffClashFree | pkg/merge/merge.go:104-226 | no conflict is reported iff no key clashes |
| TreeMerge.MergeCommutes | pkg/merge/merge.go:104-188 | without conflicts, swapping ours and theirs gives the same root hash |
| TreeMerge.MergeTrees | pkg/merge/merge.go:94-102 | the method returns that tree and conflict list and stores every node of the result |
| TreeMerge.MergeTreesAt | pkg/merge/merge.go:104-188 | subtree fast paths included, one node of the walk computes the functional merge |
| TreeMerge.MergeLoop | pkg/merge/merge.go:128-187 | the three-cursor loop appends the merged entries and conflicts in order |
| TreeMerge.MergeStep | pkg/merge/merge.go:132-180 | one turn consumes the least key from every cursor that carries it |
| TreeMerge.ResolveLeafMeaning | pkg/merge/merge.go:194-226 | one-sided changes win, a clash is three different values and leaves ours in place, and each reason has its shape |
| Ancestry.IsAncestor | pkg/repo/merge.go:184-211 | the search answers reachability along parent edges and ends on every finite history |
| Ancestry.AncestorSet | pkg/repo/merge.go:213-234 | returns exactly the reachable commits |
| Ancestry.MergeBase | pkg/repo/merge.go:146-181 | zero iff there is no common ancestor, else one that no common ancestor beats in parent steps from the second tip |
| Ancestry.LowestExistsIffLinear | pkg/repo/merge.go:143-181 | over a history whose merges all join diverged branches: every related first tip has a lowest common ancestor iff the history has no merge; with a merge there is a first tip for which nothing the search could return is the lowest |
| Ancestry.NearestIsLowestIffLinear | pkg/repo/merge.go:143-181 | on any history: every commit at least distance is the lowest common ancestor, for every first tip, iff the history has no merge |
| Repo.ChildKeepsTrueMerges | pkg/repo/repo.go:328-353 | the commits that Commit and Revert add keep all merges true |
| Repo.MergeKeepsTrueMerges | pkg/repo/merge.go:60-140 | so does every ref move of Merge |
| Ancestry.NearestNeedNotBeLowest | pkg/repo/merge.go:161-179 | with a short side branch the search returns the root although a later commit is shared |
| Ancestry.NearestNotLowestExample | pkg/repo/merge.go:161-179 | concrete commits for which this happens |
| Ancestry.AncsAntisymmetric | pkg/repo/merge.go:184-211 | reachability is antisymmetric |
| Names.SplitFQDN | pkg/repo/repo.go:478-488 | the in-place reversal yields the tree path of a relative name |
| Names.FoldsCase | pkg/repo/repo.go:489-497 | folding leaves no ASCII capital and makes two names equal iff they differ in case alone |
| Repo.CaseNamesOneKey | pkg/repo/repo.go:213-248 | Set and Delete address the same key for names that differ in case alone |
| Names.StripZone | pkg/repo/repo.go:458-471 | the staged name: nothing for the apex, the part in front of the zone with or without a dot between, and any other name without its final dot |
| Names.ForeignOwnerCollides | pkg/repo/repo.go:458-471 | an owner that ends in the zone name without a dot before it is staged under the key of a name inside the zone |
| Names.PathDeterminesName | pkg/repo/repo.go:478-497 | different normalised names never share a path |
| Names.BuildOwner | pkg/zonesign/zonesign.go:387-400 | the backward loop spells the owner name of a path |
| Names.OwnerRoundTrip | pkg/zonesign/zonesign.go:387-400 | path to owner name to staged name and back gives the same path |
| Refs.ParseRoundTrip | pkg/refs/refs.go:211-223 | a branch ref parses back to its parts iff the zone is non-empty and the branch is non-empty without a slash |
| Refs.SetHEAD | pkg/refs/refs.go:153-168 | HEAD points at the branch afterwards, whether or not it existed |
| Refs.HeadRoundTrip | pkg/refs/refs.go:126-168 | for a slash-free branch HEAD reads back the zone, branch and tip it was set to, and later moves address the same ref |
| Refs.SlashBranchDrifts | pkg/refs/refs.go:202-223 | with any slash in the branch name HEAD reads back as another zone, or not at all; the next move addresses the same ref iff what is taken for the zone is in canonical form |
| Refs.SlashBranchMovesElsewhere | pkg/refs/refs.go:202-223 | HEAD on feature/x of foo.com. reads back as branch x of another zone, and the next move addresses another ref |
| Zone.BumpsCompareGreater | pkg/zone/soa.go:19-33 | n bumps of a 32-bit serial compare greater under section 3.2 of RFC 1982 iff 0 < n < 2^31 |
| MemStore.Store.PutObject | pkg/store/memstore/memstore.go:40-49 | stores the body under any hash, without checking it |
| MemStore.Store.GetObject | pkg/store/memstore/memstore.go:52-64 | the stored body or NotFound |
| MemStore.Store.CASRef | pkg/store/memstore/memstore.go:119-136 | moves the ref iff the expected value matches, a zero expectation meaning creation |
| MemStore.Store.DeleteRef | pkg/store/memstore/memstore.go:139-151 | removes the ref iff the expected value matches |
| Staging.SortedKeys | pkg/repo/repo.go:499-511 | every staged key once, sorted by name and type |
| Staging.SortedKeysUnique | pkg/repo/repo.go:499-511 | the iteration order of the map cannot show in the result |
| Staging.StagingIsOverride | pkg/repo/repo.go:311-326 | applying the staged edits in any order is the override by staged sets and tombstones |
| Staging.ApplyEdits | pkg/repo/repo.go:312-325 | the loop of UpdateTree calls computes the run of updates, and succeeds iff all names are valid |
| Repo.Repo.Set | pkg/repo/repo.go:213-240 | refuses an empty set, a set with mixed owner names and a missing zone, and otherwise stages the blob under the owner relative to the zone |
| Repo.Repo.Delete | pkg/repo/repo.go:244-248 | stages a tombstone |
| Repo.OneOwnerIff | pkg/zone/blob.go:55-68 | the records of a set count as one owner iff their names differ from it in case and a final dot at most |
| Repo.Repo.MaybeBumpSOA | pkg/repo/repo.go:518-565 | stages the parent SOA with the next serial unless the apex SOA is staged, the parent has none or nothing is staged (the record and the failures: BumpStagesSOA, BumpFailsIff) |
| Repo.Repo.BuildTree | pkg/repo/repo.go:307-326 | the tree half of Commit: bump, then the sorted staged edits on the parent tree; the staging it leaves is the bumped one |
| Repo.Repo.Commit | pkg/repo/repo.go:282-359 | succeeds iff something is staged, names and SOA are valid and the tip is still the one read; then the map is the parent map overridden by staging and bump, and only that branch moves; on failure no ref moves and staging is exactly what the bump left; a well-kept repository stays so if the new commit decodes |
| Repo.Repo.Merge | pkg/repo/merge.go:46-141 | every outcome satisfies its exact description, errors move no ref, and with an unchanged tip the call succeeds; a well-kept repository stays so unless a merge commit is added that does not decode |
| Repo.Repo.MergeDiverged | pkg/repo/merge.go:101-140 | with diverged tips the result is a two-parent commit over the merged tree, or conflicts and no ref move |
| Repo.MergeTakesRefOrName | pkg/repo/merge.go:57-57 | the branch to merge may be given by name or by ref |
| Repo.MergeOutcomeExact | pkg/repo/merge.go:46-141 | up-to-date iff theirs is an ancestor of ours, fast-forward iff ours is empty or a proper ancestor of theirs, otherwise merged or conflicted; only merges and fast-forwards move the ref |
| Repo.MergedMap | pkg/repo/merge.go:101-140 | a merge commit has both tips as ancestors and the pointwise merged map |
| Repo.Repo.Revert | pkg/repo/merge.go:255-349 | the new commit on HEAD carries exactly the reverted tree; it goes through only if the target changed something and HEAD does not hold all old values already, and always then when the trees of the target are stored; failures move no ref; a well-kept repository stays so if the new commit decodes |
| Repo.StoredTargetReady | pkg/repo/merge.go:266-279 | any commit of a fully stored history meets the conditions of Revert on its target |
| Repo.NothingToDoIff | pkg/repo/merge.go:322-324 | the revert leaves the tree as it is iff HEAD has a tree and holds the old value of every changed key |
| Repo.MismatchRefusedIff | pkg/repo/merge.go:252-324 | a HEAD that no longer holds the value of the target is reverted all the same iff it has no tree or some changed key differs from its old value |
| Repo.RevertIgnoresMismatch | pkg/repo/merge.go:252-324 | three one-key trees with three different values for which the revert goes through |
| Repo.RevertedMap | pkg/repo/merge.go:294-320 | exactly the keys the target changed go back to the first-parent values |
| Repo.RevertHeadRestores | pkg/repo/merge.go:266-324 | reverting HEAD restores the parent map, and the same root hash unless that map is empty |
| Repo.RevertedMerge | pkg/repo/merge.go:266-279 | reverting a merge at HEAD restores the map of its first parent |
| Repo.RevertOverwrites | pkg/repo/merge.go:252-320 | a later edit of a single reverted key survives iff it equals the restored value |
| Repo.CommitAdvancesSerial | pkg/repo/repo.go:518-565 | a commit that stages no apex SOA advances the parent serial by one modulo 2^32 |
| Repo.CommitBumpsSOA | pkg/zone/soa.go:19-33 | such a commit stores the SOA record of the parent with serial s replaced by s + 1 modulo 2^32 and all its other fields unchanged |
| Repo.BumpStagesSOA | pkg/zone/soa.go:19-33 | what is staged for that is this one record, and nothing else changes in the staging area |
| Repo.BumpFailsIff | pkg/repo/repo.go:518-565 | the bump fails iff a commit with edits leaves the apex SOA alone and that set is missing from the store or is no single SOA record |
| Repo.CommitTakesStaged | pkg/repo/repo.go:307-326 | every other key takes the blob staged for it, disappears if a deletion is staged, and keeps the value of the parent otherwise |
| Repo.RestAlongChain | pkg/zone/soa.go:19-33 | however many such commits there are, the SOA record keeps all fields but the serial |
| Repo.StagedSerialWins | pkg/repo/repo.go:518-563 | a staged SOA is committed whatever the parent serial is |
| Repo.SerialAdvancesIff | pkg/repo/repo.go:518-565 | a commit advances the serial by one iff the apex SOA is not staged or the staged set is an SOA with just that serial |
| Repo.LostRaceKeepsSerial | pkg/repo/repo.go:351-353 | the loser of a race that commits its leftover staging on top of the winner keeps the serial of the winner |
| Repo.SetKeepsNormalIff | pkg/repo/repo.go:213-240 | Set keeps the staged names normal iff the relative owner is not a lone @ and does not end in a dot |
| Repo.DeleteKeepsNormalIff | pkg/repo/repo.go:244-248 | Delete keeps them normal iff the name does not end in two dots |
| Repo.SerialsAlongChain | pkg/repo/repo.go:518-565 | after n such commits the serial compares greater iff 0 < n < 2^31 |
| RefProtocol.TipsOnlyAdvance | pkg/repo/repo.go:328-353 | in every interleaving of any number of writers each past tip stays an ancestor of the current tip |
| RefProtocol.NoLostUpdates | pkg/repo/merge.go:340-346 | whatever a writer moved a branch to stays part of the branch |
| RefProtocol.OneWinnerPerTip | pkg/store/memstore/memstore.go:119-136 | of all writers that read the same tip at most one moves the branch from it |
| RefProtocol.MergeIsProposed | pkg/repo/merge.go:46-141 | the ref change promised by Merge is that of the steps read, propose, swap from the same state, and no change otherwise |
| RefProtocol.ChildIsProposed | pkg/repo/repo.go:328-353 | so is the ref change promised by Commit and Revert |
| Replicate.Walk | pkg/replicate/server.go:169-195 | the mark-then-recurse search marks only reachable unknown objects that load, loads each once, and leaves everything it marked settled |
| Replicate.WalkChildren | pkg/replicate/server.go:203-232 | the same for the children of an object |
| Replicate.ExpandKnown | pkg/replicate/server.go:101-116 | expands the known hashes as far as they are stored; a missing object ends the expansion without an error |
| Replicate.HandleWalk | pkg/replicate/server.go:74-127 | missing plus known always covers what the roots reach; it equals reach(roots) minus reach(known) when the known side is complete; every object it lists is stored and decodes |
| Replicate.FetchAll | pkg/replicate/client.go:140-157 | for any primary: objects already present are kept, the others are stored as served under the missing hashes, and all of them are when the loop ends normally |
| Replicate.FetchHonestIff | pkg/replicate/client.go:138-157 | the local store stays content-addressed iff every body that was really fetched is the one its hash names |
| Replicate.WrongBodyAccepted | pkg/replicate/client.go:138-157 | an object whose body is not the one its hash names is stored all the same |
| Replicate.PullBranch | pkg/replicate/client.go:129-169 | the ref moves only after everything the target reaches is stored: then every commit below it is held, with every node and record set of its zone, and a canonical tree loads in full; on failure refs are unchanged |
| Replicate.PullOne | pkg/replicate/client.go:111-125 | one branch of a cycle leaves every branch tip readable, zones included, and reaches the target when nothing fails |
| Replicate.Pull | pkg/replicate/client.go:95-127 | zones are registered first; a cycle leaves the whole history of every branch tip readable, commits, nodes and record sets, changes branches only to listed values, and ends in sync when nothing fails |
| Refs.RegisterZone | pkg/refs/refs.go:57-79 | marks a zone, refuses an empty name and a marker with other content, and changes nothing the second time |
| PullProtocol.SecondaryAlwaysWhole | pkg/replicate/client.go:95-169 | in every state of every run, interrupted pulls included, the secondary holds each commit below a tip of its own with every node and record set of that commit's zone, and each tip was that branch's tip on the primary |
| PullProtocol.SecondaryServes | pkg/replicate/client.go:95-169 | so in each such state a branch with a well-formed history has all that transfers of it need |
| Reach.ReachedIffLed | pkg/replicate/server.go:203-232 | an object is reached iff references lead there, from a commit to its tree and parents and from a node to what its entries point to |
| Reach.HasMeansReadable | pkg/replicate/server.go:203-232 | holding what a tip reaches is holding every commit below it and every node and value of the flat map of its zone |
| PullProtocol.WalkBegins | pkg/replicate/server.go:101-127 | whatever the walk answers to the request of the client is a legal start of a job |
| PullProtocol.PastIsHistory | pkg/replicate/client.go:95-169 | the recorded past tips are tips the primary really had |
| CommitCodec.RoundTripIffWellFormed | pkg/object/commit.go:60-226 | encoding then decoding returns the commit iff it is well formed |
| CommitCodec.DecodeOfEncode | pkg/object/commit.go:86-162 | every well-formed commit, with any number of parents, reads back |
| CommitCodec.EncodeInjective | pkg/object/commit.go:60-83 | two well-formed commits with the same bytes are equal |
| CommitCodec.NoEmailShrinksName | pkg/object/commit.go:22-27 | a line written without an email never reads back as the same name |
| CommitCodec.ZeroTimeReads | pkg/object/commit.go:166-179 | the zero time is written as second 0 and reads back as that |
| CommitCodec.LongZoneFails | pkg/object/commit.go:209-226 | an offset of a hundred hours or more does not read back |
| CommitCodec.EncodeCommit | pkg/object/commit.go:60-83 | the buffer writes compute the encoding |
| CommitCodec.DecodeCommit | pkg/object/commit.go:86-162 | the line loop with its fields and flags computes the decoding |
| CommitUse.LegibleIff | pkg/object/commit.go:60-207 | a commit with one-line identities decodes iff each of them has an email or a name that ends in a bracketed part; then its tree and parents come back |
| CommitUse.SignerReadsIff | pkg/object/commit.go:182-207 | the same for one identity line |
| CommitUse.AuthorDecides | pkg/object/commit.go:60-207 | well-formed identities always decode, an author with neither email nor brackets never |
| Repo.IllegibleTipBlocks | pkg/repo/repo.go:296-303 | once a commit that does not decode is the tip, no Commit and no Revert on the branch goes through |
| Sign.SignedCommitVerifies | pkg/sign/sign.go:88-126 | a signed, stored and reloaded commit verifies, whatever signature it carried before |
| Sign.VerdictExact | pkg/sign/sign.go:107-126 | for every commit and key: valid iff the line is "ed25519:" and a text that decodes to a signature verifying for the commit without that line, unsigned iff the line is empty, bad format iff it is neither empty nor of that form, and otherwise a mismatch |
| Sign.SignatureCoversCommit | pkg/sign/sign.go:107-126 | a signature verifies on a commit iff that commit equals the signed one apart from the signature |
| Snapshot.EachHandleInOnePlace | pkg/resolve/snapshot.go:191-239 | in every run each opened handle is in exactly one of served, waiting and closed, and closed at most once |
| Snapshot.TickServesCurrent | pkg/resolve/snapshot.go:191-224 | in every run: after a tick that opened the repository the served handle agrees on a watched ref iff the tick swapped, the ref was remembered, it exists on disk, or neither side has it |
| Snapshot.DeletedRefStaysServed | pkg/resolve/snapshot.go:191-224 | a run in which a ref that was deleted before it was first watched stays visible |
| Snapshot.ServedOutlivesGrace | pkg/resolve/snapshot.go:229-239 | a handle that was ever served is closed no sooner than the grace period after its retirement |
| Snapshot.ReplacedClosedIff | pkg/resolve/snapshot.go:214-239 | in every run the handle that a tick with clocks t1 and t2 replaces is closed iff that tick or a later one sweeps at t1 + 45000 ms or later, and only by such a sweep |
| Snapshot.ReplacedIff | pkg/resolve/snapshot.go:191-224 | in every run a tick replaces the served handle iff the probe shows another hash for some watched ref, one not watched at the last swap counting as absent |
| Snapshot.PollingSnapshotter.SweepPending | pkg/resolve/snapshot.go:229-239 | the in-place compaction keeps the handles that are not due, in order, and closes each other one once |
| Snapshot.PollingSnapshotter.Tick | pkg/resolve/snapshot.go:191-224 | the method realises the tick of the state machine |
| Snapshot.PollingSnapshotter.CaptureHashes | pkg/resolve/snapshot.go:241-250 | remembers the hash of every watched ref and nothing new |
| Snapshot.PollingSnapshotter.SetWatchedRefs | pkg/resolve/snapshot.go:103-107 | replaces the watch list only |
| Snapshot.PollingSnapshotter.Close | pkg/resolve/snapshot.go:155-166 | after shutdown each handle ever opened has been closed exactly once |
| Transfer.ServeAXFR | pkg/resolve/axfr.go:27-95 | answers iff there is an apex SOA and every other record set loads; the answer is the SOA set, then the sum of all record sets of the zone but the one at the apex of type SOA, then the SOA set again: each such set in full and no other record |
| Transfer.FindCommitBySerial | pkg/resolve/ixfr.go:139-177 | what it finds is a reachable commit with that serial; with fewer than 10000 reachable commits it finds one iff there is one |
| Transfer.BuildDelta | pkg/resolve/ixfr.go:91-116 | removed and added records of the changes, apex SOA left out, a set that does not load skipped together with what follows in its change |
| Transfer.AllSendable | pkg/resolve/ixfr.go:91-116 | nothing is skipped iff every set of the changes loads |
| Transfer.ServeIXFR | pkg/resolve/ixfr.go:38-132 | SERVFAIL without a single apex SOA, and otherwise only if a full transfer is due and does not load; the lone SOA iff the client is current; else a full transfer, or a delta from a commit with the client serial, which with fewer than 10000 commits is sent iff there is one; in full it carries every set but the apex SOA, as a delta exactly the sets gone and new, whatever their key |
| Transfer.StoredZoneServes | pkg/resolve/ixfr.go:38-132 | with every blob stored neither of these failures occurs |
| Transfer.DeltaSets | pkg/resolve/ixfr.go:91-116 | the removals are the record sets only the old zone has, the additions those only the new one has |
| Transfer.DeltaSends | pkg/resolve/ixfr.go:91-116 | the removed records are the sum of the old sets that changed and load, the added ones that of the new sets that load next to a loadable old one, at every key but the apex SOA |
| Transfer.BodyIsSum | pkg/resolve/axfr.go:60-82 | the body of a full transfer is the sum of all record sets but the apex SOA |
| Transfer.DeltaOrder | pkg/resolve/ixfr.go:118-130 | a delta is the new SOA, the old SOA, the removals, the new SOA, the additions, the new SOA |
| Transfer.DeltaRebuildsZone | pkg/resolve/ixfr.go:74-130 | old body minus removals plus additions is the new body, as multisets |
| Transfer.ReadsBackIffNoSOA | pkg/resolve/ixfr.go:118-130 | a client that splits the records in the order sent at SOA records recovers removals and additions iff neither contains an SOA |
| Transfer.IncrementalAgreesWithFull | pkg/resolve/ixfr.go:74-130 | applying the records in the order sent to the full transfer of the old commit gives exactly the full transfer of HEAD |
| SerialReuse.RightForAllIff | pkg/resolve/ixfr.go:58-130 | the answer to a serial is right for every client that took a commit with it iff all commits with that serial have equal bodies |
| SerialReuse.DeltaRightIff | pkg/resolve/ixfr.go:74-130 | a delta is right for a holder of a commit iff that commit has the body of the one the server found |
| SerialReuse.SerialNamesCommit | pkg/repo/repo.go:518-565 | along fewer than 2^32 commits that stage no apex SOA no two carry one serial |
| SerialReuse.CommitsOnlyAlwaysRight | pkg/resolve/ixfr.go:58-130 | on such a branch every answer by serial is right for every client |
| SerialReuse.RevertRepeatsSerial | pkg/repo/merge.go:303-341 | after commit, revert, commit the second commit carries the serial of the first |
| SerialReuse.CurrentAnswerIsWrong | pkg/resolve/ixfr.go:65-70 | such a history, with a client that is told it is current although its zone differs |
| NsecChain.SortedNames | pkg/zonesign/zonesign.go:130-134 | every owner once, in byte order, whatever order the map yields |
| NsecChain.OneCycle | pkg/zonesign/zonesign.go:136-138 | for any records that link the sorted owners up: from any owner the chain returns after exactly as many records as there are owners and meets every owner |
| NsecChain.ExactlyOneGap | pkg/zonesign/zonesign.go:136-138 | every name that is no owner lies in exactly one gap, wrap-around included, and no owner lies in any |
| NsecChain.SearchStrings | pkg/zonesign/zonesign.go:176-177 | the binary search splits the sorted list at the name |
| NsecChain.UniqStrings | pkg/zonesign/zonesign.go:414-427 | the same strings, each once |
| NsecChain.TypesToBitmap | pkg/zonesign/zonesign.go:372-383 | the strictly ascending codes of the known types |
| NsecChain.BitmapUnique | pkg/zonesign/zonesign.go:372-383 | a set of types has one bitmap, whatever order the types come in |
| ZoneSign.CollectOwners | pkg/zonesign/zonesign.go:94-105 | the owner table holds exactly the owners and types of the tree |
| ZoneSign.StageChain | pkg/zonesign/zonesign.go:136-157 | one NSEC per owner is staged, pointing to the next owner, with the bitmap of its types plus NSEC and RRSIG |
| ZoneSign.CoveredRecords | pkg/zonesign/zonesign.go:170-195 | the NSEC rebuilt through the binary search for signing is the staged one, bitmap included |
| ZoneSign.SignOwner | pkg/zonesign/zonesign.go:164-213 | one signature per type of the owner except RRSIG |
| ZoneSign.UniformIff | pkg/zonesign/zonesign.go:164-230 | the signatures of an owner carry one name, as Set demands, iff the owner is the apex or lists no key set |
| ZoneSign.StageSigs | pkg/zonesign/zonesign.go:214-230 | the signature sets are staged in any order until one with mixed owner names is refused; all are iff none is mixed |
| ZoneSign.SignZone | pkg/zonesign/zonesign.go:68-232 | succeeds iff there is an active zone, HEAD has records and no name below the apex has a DNSKEY set; on success staging gains the key set, the chain and all signature sets, on such a failure the key set, the whole chain and the signature sets of some owners, on an earlier failure nothing |
| ZoneSign.KeySetBelowApexRefused | pkg/zonesign/zonesign.go:170-230 | a one-name HEAD with a DNSKEY set at "sub", for which signing begins and then fails |
| SignedZone.CommittedAt | pkg/zonesign/zonesign.go:109-230 | the value of every key after the staged view is committed |
| SignedZone.CommittedSOA | pkg/zone/soa.go:19-33 | the apex SOA of the signed zone is the earlier record with serial s + 1 modulo 2^32 and its other fields unchanged |
| SignedZone.TypesAfter | pkg/zonesign/zonesign.go:109-157 | after the commit a name carries exactly its listed types plus NSEC and RRSIG, and names without records gain none |
| SignedZone.BitmapsTellTheTypes | pkg/zonesign/zonesign.go:136-157 | every NSEC bitmap lists exactly the types committed at its owner |
| SignedZone.SignAndCommit | pkg/zonesign/zonesign.go:68-232 | signing on empty staging and then committing establishes the hypothesis of the results below |
| SignedZone.CommittedLinks | pkg/zonesign/zonesign.go:136-157 | the NSEC records in the committed tree link the sorted owners up |
| SignedZone.CommittedChainIsOneCycle | pkg/zonesign/zonesign.go:136-157 | the NSEC records in the committed tree form one cycle through their owners |
| SignedZone.CommittedChainCanonicalIff | pkg/zonesign/zonesign.go:130-157 | the committed records chain the owners in the order of section 6.1 of RFC 4034 iff the canonical listing is the byte-sorted one up to where it starts |
| NsecChain.ByteOrderIsNotCanonical | pkg/zonesign/zonesign.go:130-138 | an apex and two children for which it is not |
| SignedZone.OnChainIffHasRecords | pkg/zonesign/zonesign.go:94-157 | their owners are exactly the names with records |
| SignedZone.DenialIsExact | pkg/zonesign/zonesign.go:130-157 | the committed NSEC records deny a name iff it has no records, and then only one of them does |
| SignedZone.SignaturesHold | pkg/zonesign/zonesign.go:164-230 | each record set has exactly one signature, named for its owner, and it is over the committed records iff the set is not the apex SOA |

## Left out

- The Badger backend, HTTP and JSON transport, DNS sockets, the command line,
  configuration, metrics and the CoreDNS plugin: input and output only.
- SHA-256, Ed25519, base64 and DNS wire formats: hashes and zone signatures are
  ideal values, commit signatures an abstract scheme, records plain values.
- Record-set blobs: their byte format is not modelled, and a stored blob decodes
  to its records. Of the homogeneity tests of EncodeRRset the one on owner names
  is modelled, for signatures; class, type and TTL are not part of a record.
- Tag objects, undecodable objects beyond `Raw`, the legacy HEAD slot and the
  v0.3 migration.
- The reflog: its append errors are discarded by the code.
- Log, Blame, ResetHard, removal of zones and refish resolution: each is
  settled by one branch or one simple loop. Revert takes the resolved hash.
- AutoSign and the placeholder signatures of dry-run mode: only signing with
  keys is modelled, and the abstract signing never fails. TTLs, inception and
  expiration times are not part of the record model.
- Case folding beyond ASCII, and identities with line breaks in them.
- Context cancellation, time-outs and log output.
- sort.Slice and sort.Strings: modelled by insertion sort on values; only "a
  sorted permutation" is used, which is unique where there are no ties.
- Author, committer, times and message of a commit are one text field in the
  object model, with a mark that says whether they decode; `CommitCodec` and
  `CommitUse` treat them in full.
- RefProtocol.NoLostUpdates: runs contain Commit, Merge and Revert steps, no
  reset or ref deletion, for which the statement is false by design.
- Ancestry.MergeBase: among several nearest common ancestors it does not say
  which one the queue order picks.
- Transfer.ServeIXFR: assumes that the commits and trees reachable from HEAD
  are stored; blobs may be missing.
- Transfer.FindCommitBySerial: completeness is not stated for 10000 or more
  reachable commits, where the search gives up.
- ZoneSign.SignZone: assumes the blobs of HEAD are stored, its labels are
  non-empty, dot-free, lower-case and not a lone "@", and a stored record set
  is named for the path it is stored at, as Set does for owners in the zone.
- SignedZone.SignAndCommit: covers a signing with nothing else staged; other
  staged edits are not seen by the signer, which reads HEAD.
- TreeOps.UpdateTree: exact success is stated for canonical roots; on other
  roots only the result of a successful call is.
- TreeCodec.DecodeOfEncode: for names of at most 255 bytes and fewer than 2^64
  entries; the allocation of a huge declared count is not modelled.
- Repo.Repo.Revert: when a tree of the target is only partly stored it is not
  said whether the diff runs into the gap; the target's trees keep the tree
  invariant.
- CommitCodec.RoundTripIffWellFormed: an instant is a whole second; Encode drops
  the nanoseconds of the current time, so the commit in memory differs from the
  one that reads back by those.
- SignedZone.SignaturesHold: compares record lists in the order they were
  staged; that EncodeRRset sorts the records of a set (pkg/zone/blob.go:86) is
  not modelled.
- Replicate.HandleWalk: with an incompletely stored known side the missing set
  is only bounded from both sides, since it depends on where the walk stops.
