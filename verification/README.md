# Grid node registry: verified model

A Dafny model of the grid node registry's write path, of the bus actor around it and of the rebuild
that restores it from captured messages, with proofs of what they promise.

The registry is a table of rows (`id`, `alias`, `prev_alias`, class, status, position), a permanent
ledger of alias owners, a log of applied commands and a table of non-tree edges. The tree exists
only as dotted aliases. Two commands change it, `g.node.create.cmd` and `g.node.reparent.cmd`; each
is one transaction that is Applied, Refused (its own error) or Aborted (any other exception:
constraint, foreign ledger owner, failed row conversion).

`dafny verify dfyconfig.toml` checks the project.

## How it is laid out

- `Prelude`, `Aliases`, `Paths`: sequences and sorting; alias strings; aliases as word lists, and
  SQL `LIKE`.
- `GNodes`, `Tables`: rows, edges, forests and commands as values, with the axioms of the wire
  types; the tables and their constraints. `Env` holds what the registry is run with: universe,
  proof gate, alias order, and the order in which an unordered query happens to return rows.
- `Validator`: the whole-registry audit and its loops. `Audit`: what its five rules and the row axioms
  come to, on word lists and classes.
- `Transactions`: the two commands as functions from a registry to a registry and a verdict, one
  branch per branch of the handlers. `Authority` has the handlers as they are, classes that change a
  session in place and commit it, each method proved to compute those functions.
- `Invariants`, `Rewriting`, `Reparents`, `Creates`, `ForestReads`, `Topology`: what one command
  keeps and means. `Runs`: what runs of commands keep. `Currency`: when a forest root still reads as
  it did. `Conditions`: when the two commands are applied, in terms a caller can read off the tables.
  `Orphans`, `Clashes`: re-parents that break parent-completeness, and those that name a
  child twice or two children alike. `GlobalShape`, `Lifecycle`: what the audit implies, and
  base-class changes.
- `Protocol`: the consumer and snapshot threads as interleaved steps around one lock. `Rabbit`: the
  actor's methods. `Rounds`: what a whole turn of either thread publishes, and that none gets stuck.
- `Capture`, `Rebuild`: object names and arrival order; the replay loop with its first-in-first-out
  checkpoint queue. `Listening`, `Fidelity`, `Restore`: what can have been heard of a run, what
  replaying it gives, and the whole rebuild. `Examples`: the hypotheses of the main results can be
  met.

A registry is `Sound` when the tables' constraints hold, the ledger and the rows agree and every row
satisfies its axioms. It is `ParentComplete` when every row but the forest roots has a row at its
alias-parent. `Clean` means the audit finds nothing. A re-parent is `WellFormed` when N's id is new
and the moved ids are distinct rows directly under N's alias-parent; this is what the wire contract
says of it (`src/gnr/sema/definitions/types/g.node.reparent.cmd/002.yaml:6-10`), and the handler
does not check it. A run is well-formed when each of its re-parents is, or repeats a logged command.

## Where the code and its documentation differ

The model follows the code.

- The handler never checks that a moved id is a child of N's parent
  (`src/gnr/db/authority.py:394-407`). `Orphans.ReparentKeepsCompleteIff` says exactly what goes
  wrong without it, for every applied re-parent.
- `apply_create` accepts a Pending parent; its docstring says Active
  (`src/gnr/db/authority.py:282-283`, `320-325`).
- `get_forest` returns rows of every status; the abstract docstring speaks of active descendants
  (`src/gnr/db/authority.py:137-140`).
- `rebuild` builds an authority without the proof gate (`src/gnr/rebuild.py:239`), so "refusals
  re-refuse" (`src/gnr/rebuild.py:5-7`) is not always so. `Fidelity.UngatedRebuildIffGateIdle` says
  when it is: exactly if the gate turned away only commands that their guards refuse.
- A broadcast matching neither the queue's head nor the current state is called a real divergence
  (`src/gnr/rebuild.py:191-192`). `Restore.EarlySnapshotMismatches` is a capture where it is none;
  `Fidelity.NoMismatchIffTimely` says exactly which captures report a mismatch. The state and the
  counts are restored all the same (`Fidelity.RebuildFidelity`).
- "Re-apply byte-identically" (`src/gnr/rebuild.py:6-7`) is promised although the re-parent queries
  have no order (`src/gnr/db/authority.py:442-450`, `480-487`). The comparison of broadcasts is
  modelled with one row order on both sides; what is restored does not depend on it
  (`Fidelity.RebuildUnderAnyOrder`).
- Some ill-formed re-parents fail with errors other than the command's own, where nothing was
  checked (`src/gnr/db/authority.py:393-414`): `Clashes` has their exact verdicts.
- "An alias segment never is all digits" (`src/gnr/rebuild.py:67-68`) is not enforced by the alias
  format; `Capture.NameRoundTrip` has the exact condition.

## Model

| member | source | states |
|---|---|---|
| Restore.RebuildFromEar | src/gnr/rebuild.py:151-247 | end to end: whatever the two threads did from an empty registry with nothing aborted, and whatever order a store lists the ear's objects in, ordering them by name and replaying their payloads restores the live registry with the live applied and refused counts; no mismatch is found if every snapshot was heard with nothing outstanding and, in a well-formed run, if and only if the capture is timely. Live and rebuilt tables return unordered rows in one order (see Fidelity.RebuildUnderAnyOrder) |
| Fidelity.RebuildFidelity | src/gnr/rebuild.py:175-229 | for every run without aborts and every interleaving of its commands with its published broadcasts in which a change comes after its command, replay reaches exactly the live state, with the live applied and refused counts and every broadcast a checkpoint, and its mismatches are exactly the late snapshots. Live and rebuilt tables return unordered rows in one order, which the list comparison of broadcasts needs |
| Fidelity.VerdictCounts | src/gnr/rebuild.py:194-214 | the applied and refused counts in these results are the numbers of positions with such an answer |
| Fidelity.NoMismatchIffTimely | src/gnr/rebuild.py:188-192 | in a well-formed run no mismatch is found if and only if no snapshot is overtaken: heard after a first application, later than the snapshot, whose new node is at or below the snapshot's root, except where it took the place of a repeat's broadcast, which then stands in its place |
| Fidelity.LateIffOvertaken | src/gnr/rebuild.py:219-226 | a snapshot that takes no broadcast's place differs from the current forest if and only if it is overtaken |
| Listening.HeadEqualsIff | src/gnr/rebuild.py:217-218 | the broadcast outstanding longest equals a snapshot heard early if and only if it answers a repeat of the command that created the snapshot's root |
| Listening.NothingTakenWithoutRepeats | src/gnr/rebuild.py:217-218 | where no command is delivered twice, no snapshot takes a broadcast's place |
| Fidelity.SettledNeverMismatches | src/gnr/rebuild.py:188-192 | in any run whatever, snapshots heard with no broadcast outstanding are never mismatches |
| Currency.StepReadsTheSameIff | src/gnr/db/authority.py:238-275 | one proper command changes what reading a forest root gives if and only if it is a first application whose new node is at or below that root |
| Currency.RunReadsTheSameIff | src/gnr/db/authority.py:238-275 | the same over a well-formed run: what was planted stays, so an old read never comes back |
| Fidelity.RebuildRestoresServer | src/gnr/rebuild.py:175-229 | state, counts and mismatches for the queue any interleaving of the consumer and snapshot threads produces |
| Fidelity.ReplayIsRun | src/gnr/rebuild.py:175-229 | the commands of a capture alone decide whether a replay raises, where it ends and what it counts as applied and refused, whatever broadcasts come between them |
| Fidelity.RebuildUnderAnyOrder | src/gnr/db/authority.py:480-487 | a rebuild on tables that return rows in another order restores the rows, ledger, log and counts of a well-formed run all the same |
| Runs.RunOrderIndependent | src/gnr/db/authority.py:442-450 | a well-formed run leaves the same rows, ledger and log and gets answers of the same kinds in whatever order tables return rows |
| Rebuild.Replay | src/gnr/rebuild.py:175-229 | the loop, on the mutable registry, computes the replay of the whole capture: same end state and report, and it raises exactly when some command aborts or some forest cannot be read |
| Rebuild.ReplayPayload | src/gnr/rebuild.py:194-228 | one turn: applies a command and queues its forest, or checks a broadcast against the head of the queue and else against the current forest, or records a skipped type |
| Fidelity.ChangeMatches | src/gnr/rebuild.py:217-218 | a change broadcast in its place pairs with the head of the queue, which leaves it |
| Fidelity.SnapshotReplays | src/gnr/rebuild.py:219-226 | a snapshot that takes no broadcast's place leaves the queue alone and is recorded exactly if it is late |
| Listening.EmissionAt | src/gnr/rebuild.py:188-192 | the forest a command emitted keeps its number in every longer history, so pairing first in first out is sound |
| Restore.RebuildFromStore | src/gnr/rebuild.py:232-247 | lists once, orders, fetches and replays; the report adds the types skipped by name and the names outside the grammar |
| Fidelity.UngatedRebuildIffGateIdle | src/gnr/rebuild.py:239 | a rebuild without the proof gate restores a gated server's well-formed run if and only if the gate was idle: it turned away only commands whose own guards, or whose class or activity where they hang, have them refused; its whole report is then that of a gated rebuild |
| Runs.UngatedAgreesIffGateIdle | src/gnr/rebuild.py:239 | a server without the gate answers a well-formed run alike if and only if the gate was idle; then it also ends in the same state |
| Runs.RefusedIffGuards | src/gnr/db/authority.py:279-467 | on a clean parent-complete registry a new proper command is refused if and only if a guard of its handler fails, or its class or activity is illegal where it hangs and its position exists |
| Runs.UngatedRestoresIffRefused | src/gnr/rebuild.py:239 | in any run, well-formed or not, a server without the gate that aborts nothing ends in the gated server's state if and only if it refuses each command the gate turned away |
| Runs.UnprovenCreateAppliesUngated | src/gnr/rebuild.py:239 | an unproven create of a forest root is refused live and applied by a rebuild without the gate |
| Restore.EarlySnapshotMismatches | src/gnr/rebuild.py:188-192 | a concrete capture: a snapshot read before a command and heard between it and its broadcast is recorded as a mismatch though the rebuilt registry is the live one |
| Restore.EarlyRead | src/gnr/db/authority.py:238-275 | the snapshot in that capture is what the root read before the second command |
| Capture.ArrivalOrderRecovered | src/gnr/rebuild.py:151-165 | for any stream named by the ear's rule and any permutation of its listing, the sorted objects are exactly the arrivals of replay types in arrival order, strictly ascending in millisecond and counter: the key tie-break is never used |
| Capture.ArrivalsAscend | tests/test_rebuild_layer2.py:57-68 | the ear's per-millisecond counter makes later arrivals strictly later by name |
| Capture.CountersCount | tests/test_rebuild_layer2.py:57-68 | an arrival counter is the number of messages of that millisecond persisted up to that one |
| Capture.CaptureObjects | src/gnr/rebuild.py:151-165 | every listed key ends up once: selected and sorted, or its type skipped, or counted as unparsed |
| Capture.CaptureOrdered | src/gnr/rebuild.py:151-165 | whatever is listed, the selected objects are the replayable ones, each as often as listed, by millisecond, then arrival counter, then key |
| Capture.ClassifiedOnce | src/gnr/rebuild.py:156-164 | each key is exactly one of: selected as the object its tokens name, if its type is one of the three replayed; skipped under any other type; unparsed |
| Capture.ParsesIffNamed | src/gnr/rebuild.py:62-81 | a key parses if and only if what follows its last slash is four dash-free tokens joined by dashes, the third all digits, and `.json`; and then to what those tokens say |
| Capture.HeartbeatUnparsed | src/gnr/rebuild.py:75-77 | a heartbeat name `<alias>-hb-<alias>.json` is outside the grammar |
| Capture.NameRoundTrip | src/gnr/rebuild.py:62-81 | a printed name under any directory parses back to its type, millisecond and counter if and only if the counter is at least 2, or the source does not end in a number, or that number is 1 |
| Capture.NumberedSourceIsLegal | src/gnr/sema/property_format.py:10 | the alias format does allow a source whose last word is a number other than 1 |
| Protocol.PublishOrderSafe | src/gnr/gnr_rabbit.py:69-72 | over every interleaving of the two threads: published versions never go back, and every published forest is the one its command emitted, or the one its snapshot would read, in queue order; that nothing read or emitted is dropped is said by Rounds.RoundPublishesRoots and Rounds.ChangesAreAnswers |
| Protocol.FollowerAgrees | src/gnr/gnr_rabbit.py:69-72 | whenever the lock is free, a follower that upserts rows by id in publish order agrees with the registry on every id ever published and knows every row added since it began; from empty it equals the registry |
| Rounds.RoundPublishesRoots | src/gnr/gnr_rabbit.py:161-176 | over every interleaving, at every point of a snapshot round: the roots of the snapshots published since the thread woke, followed by the roots ahead, are exactly the forest roots there were at the wake; when the round is over each, in order, has one published snapshot |
| Rounds.PublishedWhileCurrent | src/gnr/gnr_rabbit.py:69-72 | a step publishes at most one message, and a snapshot shows what its root reads at the moment it is published |
| Rounds.UndisturbedRound | src/gnr/gnr_rabbit.py:161-176 | a round during which the registry does not change publishes, whatever else goes on, exactly what one call of `broadcast_all_snapshots` sends |
| Rounds.ChangesAreAnswers | src/gnr/gnr_rabbit.py:101-130 | the change broadcasts in the queue, in order, are exactly the forests of the applied commands, in order; only the last can be missing, and only while the lock is held |
| Rounds.CommandTurn | src/gnr/gnr_rabbit.py:90-130 | with the lock free and the consumer idle, any command can be taken to the end: the registry makes one step, and the forest of an applied command, and nothing else, joins the queue |
| Rounds.SnapshotTurns | src/gnr/gnr_rabbit.py:161-176 | with the lock free and the thread asleep, a whole round can be run: one current snapshot of each root joins the queue, in order, as the actor sends them, and it is the round that bootstraps a follower |
| Rounds.NeverDeadlocked | src/gnr/gnr_rabbit.py:90-176 | over every interleaving the thread that holds the lock can go on, and with the lock free both can |
| Protocol.NextKeepsInv | src/gnr/gnr_rabbit.py:90-176 | every step of either thread keeps the invariant behind this; what a whole turn publishes is said by the rows of `Rounds` |
| Rabbit.SnapshotRoundBootstraps | src/gnr/gnr_rabbit.py:161-176 | one undisturbed round of snapshots of a parent-complete registry teaches a follower that knew nothing exactly the registry |
| Rabbit.GnrRabbit.ProcessMessage | src/gnr/gnr_rabbit.py:90-99 | one command is applied once and answered in order: forest first, on the channel whose words are the new root's or all but the last of the new node's, then the verdict, for senders of a known class; a refusal sends only a nack, anything else escapes and sends nothing; the lock is free afterwards in every case |
| Rabbit.GnrRabbit.ApplyAndBroadcast | src/gnr/gnr_rabbit.py:101-144 | the same with the lock held |
| Rabbit.CreateGoesOut | src/gnr/gnr_rabbit.py:103-110 | the forest of an applied create goes out on the new alias itself if it has two words, and else on all but its last word, which is the alias of a row that was there before and has not changed |
| Rabbit.ReparentGoesOut | src/gnr/gnr_rabbit.py:111-130 | the forest of a well-formed re-parent goes out on all but the last of N's words: the longest path that leads both to where each moved row was and to where it is, short of either, and the alias of a row that has not changed |
| Rabbit.GnrRabbit.BroadcastAllSnapshots | src/gnr/gnr_rabbit.py:161-176 | one forest per root, each on its own root's channel, stopping at the first that cannot be read |
| Rabbit.SnapshotSendsAre | src/gnr/gnr_rabbit.py:161-176 | on a sound registry no read fails: as many forests as roots, the k-th being what the k-th root reads, on that root |
| Rabbit.GnrRabbit.BroadcastSnapshot | src/gnr/gnr_rabbit.py:168-176 | the current forest of a root goes out on that root's channel |
| Topology.ChannelIsStableCommonPrefix | src/gnr/gnr_rabbit.py:111-120 | for every moved row, N's alias-parent is a proper path prefix of its old and of its new alias, the longest common one, and names a row the re-parent did not change |
| Topology.ReparentRefinesRewriteMap | src/gnr/db/authority.py:90-102 | the row-by-row renames leave exactly what the simultaneous rewrite maps of the moved children give, plus N, and every other row unchanged |
| Topology.ReparentRefinesTree | src/gnr/db/authority.py:425-432 | by id: N hangs under the row named by its alias, the moved children under N, and every other row where it hung before |
| Topology.ReparentOrderIndependent | src/gnr/db/authority.py:425-432 | any order of the child list and any order in which tables return rows give the same verdict, rows and ledger |
| Reparents.PrecheckExact | src/gnr/db/authority.py:389-423 | the predicted claims are exactly those the rewrite makes: no claim and no flush fails if and only if the pre-check found no collision and N's position exists |
| Reparents.ReparentDecided | src/gnr/db/authority.py:352-467 | on a clean parent-complete registry a well-formed re-parent is applied if and only if its guards pass, its position exists, classes are legal for N under its parent and each child under N, and activity is closed the same way |
| Conditions.ReparentAppliedIff | src/gnr/db/authority.py:352-467 | the same in words, statuses, classes and owners: proven, N in the universe with three words or more, its position known, a row of the right class above N (Active if N is), each child fit to hang under N, and no alias it would give out owned by another |
| Conditions.UnknownChildRefused | src/gnr/db/authority.py:394-397 | a re-parent naming an id without a row, N's own included, is refused |
| Conditions.TakenIdAborts | src/gnr/db/authority.py:421-423 | a re-parent whose N has the id of a row is refused if a guard fails and aborted otherwise |
| Reparents.WellFormedVerdict | src/gnr/db/authority.py:352-467 | on every sound registry: exactly when a well-formed re-parent is applied, exactly when it aborts (an unknown position), and the whole state it leaves |
| Reparents.EdgesStayNonTree | src/gnr/db/validate.py:283-302 | no stored non-tree edge becomes a tree edge by a well-formed re-parent |
| Topology.ReparentBroadcast | src/gnr/db/authority.py:438-456 | the broadcast carries N first and then the moved rows in their new form, and exactly the active edges among them, each row and edge once |
| Topology.ReparentBroadcastIsForest | src/gnr/db/authority.py:438-456 | on parent-complete registries that is, as sets, what reading N's subtree gives afterwards |
| Topology.FirstApplyMatchesReplay | src/gnr/db/authority.py:367-372 | an applied command delivered again at once changes nothing and answers with the same forest |
| Rewriting.RenameRowsSucceeds | src/gnr/db/authority.py:480-494 | if the ledger agrees with a set of claims covering the new aliases, no single-row flush and no claim fails, and it still agrees afterwards |
| Rewriting.RenameRowsResult | src/gnr/db/authority.py:480-494 | renaming row by row equals renaming all selected rows at once, and exactly those are recorded |
| Rewriting.RenameRowsClaims | src/gnr/db/authority.py:480-494 | the ledger grows by exactly the new aliases, each owned by its row |
| Rewriting.MoveChildrenIs | src/gnr/db/authority.py:426-432 | the nested loop over children whose subtrees are looked up as they go equals one relocation of the union of their subtrees |
| Orphans.ReparentKeepsCompleteIff | src/gnr/sema/definitions/types/g.node.reparent.cmd/002.yaml:6-10 | an applied re-parent, whatever ids it names, leaves every non-root row its parent if and only if no named id is N's parent or above it, which the handler does not check |
| Clashes.SharedLastWordAborts | src/gnr/db/authority.py:393-414 | a re-parent naming two rows that share a last word passes its pre-check unseen: it is refused if its guards refuse it and aborted otherwise |
| Clashes.RepeatingVerdict | src/gnr/db/authority.py:425-432 | a re-parent naming a child twice is never applied: it is refused exactly if it would be naming every child once, and aborts where that would be applied |
| Orphans.NamingTheParentOrphansIt | src/gnr/db/authority.py:394-407 | two commands from empty: a forest root, then a re-parent naming that root itself, passes every check and commits a row without a parent |
| Orphans.DevRootAndLeaf | src/gnr/db/authority.py:394-407 | such a pair of rows exists in the dev universe |
| Examples.ThreeCommandsApply | src/gnr/db/authority.py:352-467 | from empty, creating a root and a node under it and then moving that node under a third is a well-formed re-parent that is applied: what the results above assume does occur |
| Examples.DevSiblings | src/gnr/db/authority.py:352-467 | three such rows exist in the dev universe |
| Examples.ServerExists | src/gnr/db/authority.py:157-166 | a server exists for every universe and every proof gate |
| Creates.CreateDecided | src/gnr/db/authority.py:279-350 | on a clean parent-complete registry a new create is applied if and only if its guards pass and class and activity are legal where it is placed |
| Conditions.CreateAppliedIff | src/gnr/db/authority.py:279-350 | the same in words, statuses, classes and owners: proven, in the universe, id and alias new, and either two words and a class that may be a root, or a Pending or Active row above it that may carry its class, Active if it is Active |
| Creates.RetiredParentRefuses | src/gnr/db/authority.py:325-329 | a create of a non-root whose alias-parent row is Suspended or PermanentlyDeactivated is refused and changes nothing, whatever else holds |
| Creates.PlantedUnderLiveParent | src/gnr/db/authority.py:309-329 | whatever non-root a create plants has a Pending or Active row above it |
| Creates.CreateNeverAborts | src/gnr/db/authority.py:279-350 | on every sound registry a create is applied or refused with its own error, never anything else |
| Creates.CreateBroadcastIsForest | src/gnr/db/authority.py:343-350 | the single-node broadcast is what reading the new node's subtree gives afterwards |
| Creates.CreateKeepsComplete | src/gnr/db/authority.py:309-329 | an applied create keeps every non-root row's parent in place |
| Invariants.StepKeepsSound | src/gnr/db/authority.py:279-494 | every command keeps: unique live aliases, each owned in the ledger by its holder, every owner a row, keys and references valid, every row within all six axioms; rows, owners and log entries are only added, id, class, status and position never change; not applied means unchanged; and every changed row is in the broadcast in final form |
| Runs.RunKeepsSound | src/gnr/db/authority.py:279-494 | the same over every run; a clean registry stays clean |
| Runs.WellFormedRunKeepsComplete | src/gnr/db/authority.py:352-467 | under creates and well-formed re-parents every non-root's parent row exists at all times |
| Runs.WellFormedRunNeverAborts | src/gnr/db/authority.py:279-494 | and no command aborts, if the positions named are registered |
| Runs.AliasPermanent | src/gnr/db/authority.py:217-228 | once an alias resolves to an id, it resolves to that id's current row in every later state |
| Runs.HeldAliasResolves | src/gnr/db/authority.py:217-228 | every alias a row holds still finds that row after any run |
| Runs.ResolvesToOwner | src/gnr/db/authority.py:217-228 | the live-row branch and the ledger branch never disagree: an alias resolves to its ledger owner or to nothing |
| Runs.LogProjection | src/gnr/db/models.py:211-226 | from empty, running the log of any run gives the state of the run, refused commands and all |
| Runs.RedeliveryChangesNothing | src/gnr/db/authority.py:293-295 | any number of repeats of applied commands, anywhere later in a run, changes nothing |
| Authority.PostgresAuthority.Apply | src/gnr/db/authority.py:279-467 | a command takes the registry to exactly the specified state and verdict, only adds, and leaves it untouched unless applied |
| Authority.PostgresAuthority.HandleCreate | src/gnr/db/authority.py:279-350 | the handler, on a session changed in place and committed or dropped, computes the specified create |
| Authority.PostgresAuthority.HandleReparent | src/gnr/db/authority.py:352-467 | the handler computes the specified re-parent |
| Authority.PostgresAuthority.FinishReparent | src/gnr/db/authority.py:434-467 | validate, assemble the broadcast, log and commit |
| Authority.PostgresAuthority.ResolveAlias | src/gnr/db/authority.py:217-228 | the current row of an alias, or of its permanent owner, in a form that its conversion to the wire type accepts |
| Authority.PostgresAuthority.ForestRoots | src/gnr/db/authority.py:230-236 | exactly the two-word aliases of rows, each once, in string order |
| Authority.PostgresAuthority.GetForest | src/gnr/db/authority.py:238-275 | the accumulation loop computes the specified forest, rows in the order of ForestReads.GetForestOrdered, or raises when a row fails its axioms |
| Authority.PostgresAuthority.Replay | src/gnr/db/authority.py:293-295 | a logged command is answered with the current forest of its new node |
| Authority.Session.ClaimAlias | src/gnr/db/alias_ledger.py:41-69 | three outcomes: an unowned alias becomes the claimant's, an alias of its own is a no-op, another owner's alias fails; the binding never changes hands |
| Authority.Session.AddNode | src/gnr/db/authority.py:330-332 | adds row and claim, or fails on a taken id, a taken alias, an unknown position or a foreign claim |
| Authority.Session.RenameRow | src/gnr/db/authority.py:488-494 | renames one row, flushes it against the unique index and claims its alias, or fails |
| Authority.Session.RewritePrefix | src/gnr/db/authority.py:470-494 | the loop renames and claims the once-selected rows one after the other, the unique index holding after each |
| Authority.Session.MoveChildren | src/gnr/db/authority.py:425-432 | the outer loop, each child looked up when its turn comes |
| Authority.Session.Rewrite | src/gnr/db/authority.py:421-432 | the insert of N followed by the moves |
| Authority.Session.IntendedClaims | src/gnr/db/authority.py:393-407 | the nested pre-check loops compute the predicted claims |
| Authority.Session.PredictSubtree | src/gnr/db/authority.py:399-407 | the inner loop over one child's subtree |
| Authority.Session.ParentAdmits | src/gnr/db/authority.py:309-329 | true if and only if a row with the alias-parent exists and is Pending or Active |
| Authority.Session.FindByAlias | src/gnr/db/authority.py:383 | the one row with an alias, if any |
| Authority.Session.SelectSubtree | src/gnr/db/authority.py:399-406 | the SQL filter selects exactly the rows of the subtree |
| Authority.AppendUnseen | src/gnr/db/authority.py:247-257 | the rows not seen before are appended in order and recorded as seen |
| ForestReads.GetForestLists | src/gnr/db/authority.py:238-275 | a forest lists each row of the union of the requested subtrees exactly once, whatever its status, and exactly the active edges with both ends listed; on sound registries it never fails |
| ForestReads.GetForestOrdered | src/gnr/db/authority.py:247-267 | rows come by the first requested root that holds them and, within a root, ascend by alias; edges ascend by id; both in the database's collation |
| ForestReads.GetForestFailsIff | src/gnr/db/authority.py:270-275 | a read fails if and only if a row it would list breaks its axioms or an active edge it would list joins a row to itself |
| ForestReads.GetForestDeterministic | src/gnr/db/authority.py:243-256 | the order in which tables return rows does not show in a forest |
| Topology.ForestRootsPartition | src/gnr/db/authority.py:230-236 | on parent-complete registries every row is in the subtree of exactly one forest root |
| Topology.ForestRootsAre | src/gnr/db/authority.py:230-236 | exactly the two-word aliases of rows, each once, in string order |
| Prelude.StringLeqMeans | src/gnr/db/authority.py:230-236 | that order: a prefix first, else the smaller code point at the first difference |
| Validator.ValidateRegistry | src/gnr/db/validate.py:283-302 | reports exactly the violations of the five invariants, which Audit.ScopeReported and the rows after it spell out; empty if and only if all five hold |
| Validator.CheckParentClosedActive | src/gnr/db/validate.py:73-104 | reports exactly the active non-roots whose parent is missing or not Active |
| Validator.CheckEdgesNonTree | src/gnr/db/validate.py:156-208 | reports at least once each listed edge with an unknown or inactive end or between a row and its alias-parent, and no other edge |
| Validator.CheckClassHierarchy | src/gnr/db/validate.py:211-280 | reports exactly the rows whose class is illegal under their parent or as a root |
| Validator.AlikeClean | src/gnr/db/validate.py:283-302 | tables that agree row by row in all but previous aliases, or differ in the two forms of copper nodes, are clean together |
| Validator.CleanIffNothingViolated | src/gnr/db/validate.py:283-302 | the five invariants hold if and only if nothing is violated |
| Audit.ScopeReported | src/gnr/db/validate.py:107-125 | reported out of scope: exactly the rows whose first word is not the universe |
| Audit.ClosureReported | src/gnr/db/validate.py:73-104 | reported as unsupported: exactly the Active rows of three words or more with no Active row at all but their last word |
| Audit.EdgeReported | src/gnr/db/validate.py:156-208 | reported edges: exactly the Active ones with an end that is no row or not Active, or with one end right above the other |
| Audit.ClassReported | src/gnr/db/validate.py:211-280 | reported by class: exactly the two-word rows that are a TerminalAsset, a LeafTransactiveNode or a Scada, and the other rows that the row above them may not carry, by a table seen from the parent |
| Audit.ClassTable | src/gnr/db/validate.py:211-280 | no row is reported by class if and only if every root is copper or logical but no Scada, and every row with a row above it has copper above if it is copper or a LeafTransactiveNode, and a LeafTransactiveNode above if it is a TerminalAsset or a Scada |
| Audit.PositionReported | src/gnr/db/validate.py:128-153 | reported as unplaced: exactly the Active physical rows whose position is missing or unknown |
| GlobalShape.CleanRegistryShape | src/gnr/db/validate.py:14-22 | in any registry the validator passes, every Active row's ancestor chain exists and is Active up to a forest root, and an Active physical row's chain is at most one TerminalAsset, at most one LeafTransactiveNode, then copper only |
| GlobalShape.EveryAncestorActive | src/gnr/db/validate.py:73-104 | every dotted alias prefix of an Active row is the alias of an Active row |
| GlobalShape.PhysicalChain | src/gnr/db/validate.py:211-280 | the layers of a physical chain, with how many rows each has |
| Lifecycle.CopperSwitchingKeepsClean | src/gnr/db/lifecycle.py:46-77 | any run of allowed base-class changes, class name in lockstep, on any rows keeps a sound registry sound, and leaves it clean if and only if it was |
| Lifecycle.SanctionedMoves | src/gnr/db/lifecycle.py:41-77 | allowed are exactly: staying, and switching between ConnectivityNode and MarketMaker |
| Paths.SqlSubtreeIsPathPrefix | src/gnr/db/authority.py:400-406 | the SQL filter, with its wildcards, selects an alias if and only if it is in the subtree, if and only if its word list extends the prefix's |
| Paths.LikePrefix | src/gnr/db/authority.py:482-485 | `LIKE p + "%"` is a string prefix test for every `p` without wildcard characters |
| Paths.InSubtreeIsPrefix | src/gnr/db/authority.py:71-73 | the string test is the prefix relation on word lists |
| Paths.RewriteReplacesPrefix | src/gnr/db/authority.py:76-80 | rewriting replaces the word-list prefix and keeps the rest |
| Paths.MovedPrefixIsPath | src/gnr/db/authority.py:83-87 | a moved child's new prefix is N's words and the child's last word |
| Paths.ParentIsAllButLast | src/gnr/db/validate.py:52-70 | alias-parent, universe and forest root, read on word lists |
| Paths.PatternIsLeftRightDot | src/gnr/sema/property_format.py:10-25 | the regular expression accepts a string if and only if the character-by-character format does |
| Paths.JoinSplit | src/gnr/db/validate.py:57-63 | joining the words of an alias gives it back |
| Aliases.RewriteInverts | src/gnr/db/authority.py:76-80 | rewriting back undoes a rewrite |
| Aliases.RewriteInjective | src/gnr/db/authority.py:76-80 | a rewrite is injective on a subtree |
| Aliases.RewriteCommutesWithParent | src/gnr/db/authority.py:76-80 | strictly below the prefix, the parent of the rewritten alias is the rewritten parent |
| Aliases.RewriteKeepsFormat | src/gnr/db/authority.py:76-80 | a rewritten alias is still in the format |
| Aliases.SiblingsDisjoint | src/gnr/db/authority.py:71-73 | subtrees of different siblings share no alias |
| GNodes.RenameKeepsAxioms | src/gnr/sema/types/g_node_gt.py:24-129 | a valid row whose proper alias prefix is really changed still satisfies every axiom, so converting it cannot fail |
| Audit.RowAxioms | src/gnr/sema/types/g_node_gt.py:24-129 | a row satisfies the axioms if and only if: its aliases match the pattern, have two words or more and differ; a physical class is named by itself and a logical one by a name of its own without blanks; the last word is `ta` just for TerminalAssets and `scada` just for Scadas; and it has a position when Active and physical |

## Left out

- SQL, the ORM and isolation: a transaction is one atomic step on values, with the key, unique and foreign-key checks made at each flush.
- Collation: `order_by(alias)` sorts by any fixed total order, `sorted` by code points; an unordered query returns rows in a fixed but unknown order of the selected ids.
- Of SQL patterns only `LIKE` with `%`, `_` and Postgres's default escape character is modelled.
- The wire form of a row is the row: `to_gt` and `from_gt` copy field by field and otherwise only check the axioms.
- SHA-256 and canonical bytes: the log holds the commands themselves, so two different commands never share a hash.
- The proof gate: a predicate on the proof string; secrets and their digest are not part of this model.
- Pydantic, JSON, the codec's versions and the uuid format: a command arrives decoded and valid, ids are opaque strings.
- Clocks: send times exist only to be dropped by `checkpoint_state`; `first_assigned_at`, `applied_at` and `created_at` are not modelled.
- `str.isdigit` beyond ASCII digits: object names are read with `0` to `9` only.
- Listing S3 or a directory: a store is any finite map from keys to payloads and a listing any sequence of keys.
- RabbitMQ: published messages form one queue in order, and sending does not fail. The snapshot loop's timing and its skipping of ticks only decide which interleaving happens.
- Protocol.FollowerAgrees: a follower upserts whole rows by id in publish order; listeners that bind only some channels are not modelled.
- Edge writes: no command creates or retires an edge, so the edge table is arbitrary but fixed in a run.
- `get_by_id`, `get_by_alias`, `assert_active`, `fetch_edges`: lookups that would only add easy members.
- Status transitions: a constant table no command consults.
- Refusal wording and violation details: only the outcome, the invariant and the subject are kept. `Report.mismatches` holds payload numbers instead of messages.
- The HTTP facade, the command line, settings, migrations and display names.
