# Standardoc, modelled and proved in Dafny

Standardoc keeps a symbol graph in step with source text: extractors turn files into
symbols, edges and documents, a batch writer stores them incrementally, sweeps link
edges across crates and workspaces, queries hand bodies back in compact form, and a
small proxy and a set of configuration files hold it together. This project models the
parts of that program whose correctness is not visible from one function, and proves
what they promise for every input, every run or every reachable state.

`dafny verify dfyconfig.toml` checks the whole project.

| part | modules |
|---|---|
| incremental index: diff, replay, whole runs, the writer as a class | `IndexTables`, `SymbolDiff`, `IndexReplay`, `IndexTheorems`, `IndexRuns`, `IndexCollisions`, `IndexWriter` |
| unresolved-edge sweep: tiers, fixed points, report, ordering, meaning | `EdgeSweep`, `EdgeSweepTheorems`, `EdgeSweepPass`, `EdgeSweepOrder`, `EdgeSweepMeaning` |
| cross-workspace rewrite and suffix chain, and what they mean | `CrossWorkspace`, `CrossWorkspaceMeaning` |
| comment stripper and an independent grammar for it | `CommentStripper`, `CommentGrammar` |
| single-file components: scanner, blocks, an independent grammar, script payload, template regions | `SfcScanner`, `SfcBlocks`, `SfcGrammar`, `SfcPayload`, `SfcTemplate`, `SfcExamples`, `SfcLateSetup` |
| indentation compaction | `IndentCompaction`, `IndentRoundTrip` |
| `.sxd` schema: lowering, validator, their agreement, what files and messages mean | `SxdTree`, `SxdLowering`, `SxdSchema`, `SxdMirror`, `SxdMeaning`, `SxdComplaints` |
| proxy: register body, registry and counters, whole runs, retry loop | `RegisterBody`, `RegisterMeaning`, `ProxyRegistry`, `ProxyRuns`, `ProxyRouting`, `ProxyRetry` |
| lockfile-driven cache invalidation | `LockfileCache`, `LockfileRuns` |
| scopes, cursor lookup, signature re-spacing, AGENTS.md merge | `ScopeArena`, `CursorLookup`, `Signature`, `AgentsMd` |

## How to read it

Where the program loops over state, the model has a method with a loop, or a class with
methods, and its `ensures` ties the result to a function of the inputs; the theorems are
about that function. Text is a sequence of characters that stands for the bytes of the
source: only ASCII steers the scanners. Clocks, the network, the file system and SQL's
choice of row order are parameters of the steps.

A function that a method is proved against says how a result is computed. Beside it stands
a statement of what the result is, without that function: rows of the tables for the sweep
(`EdgeSweepMeaning.ResolveMeans`), a grammar for component sources and for comments
(`SfcGrammar.WalkReads`, `CommentGrammar.GrammarAgrees`), a table of fields for `.sxd` files
(`SxdMeaning.LoadsAsIff`), the resolver's answers for the rewrite
(`CrossWorkspaceMeaning.RewriteMeans`), the history of a run for the proxy
(`ProxyRouting`), the text for a register body (`RegisterMeaning.AcceptedIff`).

Several promises of the program's comments do not hold as they stand. The code is
modelled as it is, and the exact condition is proved.

- Stripping comments gives the reference text if and only if the scan ends outside a
  comment (`CommentStripper.Strip`): a body that ends inside one gets part of its code
  twice, followed by the comment.
- The edge sweep says it is idempotent. Two sweeps always settle
  (`EdgeSweepTheorems.TwoSweepsSettle`), one does not (`EdgeSweepPass.OneSweepIsNotEnough`),
  and a second sweep finds work exactly for the calls that trait dispatch can place now
  (`EdgeSweepTheorems.SecondSweepIff`). The pass is also written for a unique index on
  (source, kind, target) that `crates/standardoc-core/migrations/init_v0.sql` does not
  create, so every sweep theorem holds with it and without it (parameter `unique`).
- The cross-workspace rewrite is documented as idempotent. It is if and only if the splits
  of every name it writes give that name back, or nothing (`CrossWorkspace.FileTwiceIff`);
  a resolver whose single answers are canonical is enough
  (`CrossWorkspace.RewriteIsIdempotent`).
- With names distinct within and across files, the incremental index equals a rebuild if
  and only if the body hash decides a symbol's columns, edges and document
  (`IndexRuns.ReplaceIsRebuild`). A symbol without a hash never does
  (`IndexRuns.UnhashedGoesStale`). A name that two files share is taken over with its old
  edges, so its entry is what the later file says if and only if it had none
  (`IndexCollisions.CollisionIsFreshIff`); what a run means with such names in it is
  `IndexRuns.RunMeans`.
- The script payload is aligned with the source if and only if no `<script setup>` comes
  before a plain `<script>`, given that setup scripts hold a visible byte
  (`SfcPayload.AlignedIff`). With blank ones: if the last script is plain, if and only if
  setup scripts are empty (`SfcExamples.PlainLastIff`); if one setup script follows the
  last plain one, if and only if the earlier setup contents repeat the blanked source they
  land on and end before it starts (`SfcLateSetup.LateSetupIff`).
- The outer range of a block starts at its opening tag if and only if that tag holds no
  other `<` (`SfcExamples.OuterStartIff`).
- The validator is documented as a mirror of the lowering. They agree but for one rule,
  an empty `paths` list, and for constructs of a newer grammar (`SxdMirror.LoadsIffSilent`).
- A register body is read back if and only if the path is non-empty and has no comma
  (`RegisterBody.RegisterRoundTripIff`).
- Re-spacing a type is idempotent if and only if its first two tokens are not lone colons
  followed by a token that keeps its space (`Signature.CompactTwiceIff`); from the second
  pass on it always is.
- Merging AGENTS.md settles after one write if and only if no begin marker is left
  unclosed; otherwise the second merge drops the text after that marker
  (`AgentsMd.WriteSettlesIff`, `AgentsMd.UnclosedLosesText`).
- Cached externals are current in every run that stops only with no event pending or
  being handled, and in which no fingerprint moves before the watcher subscribes
  (`LockfileRuns.QuietRunsAreCoherent`). A restart is safe if and only if every cached row
  agrees with the stored baseline (`LockfileRuns.StopSafeIff`). A pending event does no
  harm while the rows still agree with the baseline; it does once another origin's event
  has rewritten the baseline of both (`LockfileRuns.PendingStopGoesStale`). An edit between
  the boot sweep and the watcher's subscription is safe if and only if it moves no
  fingerprint of a cached origin (`LockfileRuns.UnwatchedEditIff`).
- Registering a workspace is documented as idempotent; two interleaved registrations both
  answer 201 (`ProxyRegistry.BothCreated`). A registration is answered as existing if and
  only if an insert of its id, not undone by a removal, precedes its lookup
  (`ProxyRuns.AnsweredIff`), so two of one id both create if and only if the second looks
  before the first has inserted, or after a removal (`ProxyRuns.BothCreateIff`).
- The default workspace keeps its entry through a run if and only if no insert carries its
  id with another entry (`ProxyRuns.DefaultKeptIff`); an id that moves between lookup and
  creation can bring one (`ProxyRegistry.DefaultCanBeReplaced`).
- A health snapshot can show more successes than requests
  (`ProxyRegistry.SnapshotCanExceed`). It adds up if and only if the requests it shows as
  ended but not in its total are no more than those in its total it does not show as ended
  (`ProxyRuns.SnapshotIff`), as when nothing is counted between its loads.
- The symbol under the cursor is innermost, for all rows and cursors, if and only if
  columns stay below a thousand (`CursorLookup.InnermostIff`).
- The walk up the scopes ends if and only if it does not come back to a scope without
  having met a binding (`ScopeArena.WalkEndsIff`); `push_scope` does not check parents.

## Model

| member | source | states |
|---|---|---|
| `SymbolDiff.IndexRows` | crates/standardoc-core/src/pipeline/diff.rs:44-47 | The map by fqdn holds, for each name, the last stored row of that name and no other name |
| `SymbolDiff.DiffSymbols` | crates/standardoc-core/src/pipeline/diff.rs:40-76 | The plan puts each extracted symbol in exactly one of insert, modify, move by its stored row and hash, and deletes exactly the stored rows that were not extracted; distinct names give a plan without repeats |
| `SymbolDiff.DiffIsDiff` | crates/standardoc-core/src/pipeline/diff.rs:40-76 | The four lists satisfy the declarative description of a diff, both ways, for all rows and extractions |
| `SymbolDiff.DiffHasNoRepeats` | crates/standardoc-core/src/pipeline/diff.rs:40-76 | With distinct extracted names no name occurs twice in the plan |
| `IndexTables.DeleteSymbolKeeps` | crates/standardoc-core/src/storage/symbols.rs:147-157 | Deleting a symbol demotes the edges that pointed at it to its name, so every other entry reads as before, keys stay intact and links stay complete |
| `IndexTables.UpsertSymbolKeeps` | crates/standardoc-core/src/storage/symbols.rs:25-110 | An upsert keeps the id of a known name, takes the next id for a new one, changes no other entry and leaves only that name to be promoted |
| `IndexTables.UpdatePositionsKeeps` | crates/standardoc-core/src/storage/symbols.rs:112-137 | A move changes the location of one symbol and nothing else |
| `IndexTables.InsertEdgeKeeps` | crates/standardoc-core/src/storage/edges.rs:7-83 | A new edge is linked if its target is stored, appears last among its source's edges and changes nothing else |
| `IndexTables.PromoteUnresolvedKeeps` | crates/standardoc-core/src/storage/edges.rs:93-126 | Promotion changes no name any edge points at, and leaves no edge unresolved to a stored name |
| `IndexReplay.ReplayPlanSound` | crates/standardoc-core/src/pipeline/batch.rs:20-74 | Whatever the plan, replaying it keeps keys, foreign keys and unique names, and every edge that names a stored symbol ends up linked |
| `IndexReplay.AddEdgesEffect` | crates/standardoc-core/src/pipeline/batch.rs:215-238 | Touched symbols gain exactly the extracted edges of their name, in order; other symbols keep theirs |
| `IndexReplay.AddDocumentsEffect` | crates/standardoc-core/src/pipeline/batch.rs:249-285 | Touched symbols end with the last extracted document of their name; other documents stay |
| `IndexTheorems.ReplayOld` | crates/standardoc-core/src/pipeline/batch.rs:20-74 | A stored symbol that is not dropped keeps its id and name; its entry is the old one if it was not extracted, the old one taken over with its edges if another file stored it, the old one moved if its hash is unchanged, and otherwise exactly what the extraction says |
| `IndexTheorems.ReplayNew` | crates/standardoc-core/src/pipeline/batch.rs:196-213 | A new name gets an entry that is exactly what the extraction says: columns, edges and document, whatever else the extraction shares with other files |
| `IndexTheorems.UpsertReplacesFile` | crates/standardoc-core/src/pipeline/batch.rs:20-74 | One upsert with distinct names replaces the entries of its file by the reference, takes over the names it shares with other files, touches no other entry and keeps the id of every survivor |
| `IndexTheorems.DeleteRemovesFile` | crates/standardoc-core/src/pipeline/batch.rs:141-149 | Deleting a file removes exactly its entries; all others keep content and id |
| `IndexRuns.ReplaceIsRebuild` | crates/standardoc-core/src/pipeline/batch.rs:20-74 | After an upsert the index is a rebuild of the latest extractions if and only if equal hashes mean equal columns, edges and document |
| `IndexRuns.StaleEntry` | crates/standardoc-core/src/pipeline/diff.rs:52-68 | A name whose hash does not decide keeps what an earlier extraction said |
| `IndexRuns.LastUpsertIff` | crates/standardoc-core/src/pipeline/batch.rs:20-74 | After any admissible run, one more upsert leaves a rebuild if and only if its hashes decide |
| `IndexRuns.UndecidedGoesStale` | crates/standardoc-core/src/pipeline/diff.rs:52-68 | For any two extractions of a file whose hashes do not decide there is a run of two upserts, and it does not end in a rebuild |
| `IndexRuns.UnhashedGoesStale` | crates/standardoc-core/src/pipeline/diff.rs:58-67 | A symbol extracted without a hash, as in crates/standardoc-lang-provider/src/lua/ffi_tagger.rs:224, is never updated: two extractions with different columns end in an index that is no rebuild |
| `IndexRuns.IncrementalIsRebuild` | crates/standardoc-core/src/pipeline/batch.rs:20-149 | Over every admissible sequence of upserts and deletes the stored index equals the rebuild of each file's last extraction, with all links in place |
| `IndexRuns.RunMeans` | crates/standardoc-core/src/pipeline/batch.rs:20-149 | Over every run whose extractions have distinct names, with shared names and undeciding hashes, the view is the fold of the commands' meanings: neither ids nor row order can be seen in it |
| `IndexRuns.SurvivorsKeepIds` | crates/standardoc-core/src/pipeline/batch.rs:196-213 | In every such run a symbol present before and after a command keeps its id |
| `IndexRuns.HistoryDoesNotMatter` | crates/standardoc-core/src/pipeline/batch.rs:20-149 | Two runs with the same latest extractions end with the same index |
| `IndexCollisions.CollisionKeepsOldEdges` | crates/standardoc-core/src/pipeline/batch.rs:196-213 | In every upsert with distinct names, each name that another file stores changes its file under the same id and keeps its old edges before the new ones |
| `IndexCollisions.CollisionIsFreshIff` | crates/standardoc-core/src/pipeline/batch.rs:196-213 | The entry of such a name is what the extraction says if and only if the stored symbol had no edges |
| `IndexWriter.Index.constructor` | crates/standardoc-core/migrations/init_v0.sql:58-149 | A new index is empty and sound |
| `IndexWriter.Index.LookupId` | crates/standardoc-core/src/pipeline/batch.rs:110-123 | Finds the id of a stored name, or nothing if it is not stored |
| `IndexWriter.Index.InsertSymbol` | crates/standardoc-core/src/storage/symbols.rs:25-110 | The new tables are the upserted ones and the returned id is the symbol's |
| `IndexWriter.Index.UpdateSymbolPositions` | crates/standardoc-core/src/storage/symbols.rs:112-137 | The new tables are the old ones with one location moved |
| `IndexWriter.Index.DeleteSymbol` | crates/standardoc-core/src/storage/symbols.rs:147-157 | The new tables are the old ones without the symbol, its edges and document, with incoming edges demoted |
| `IndexWriter.Index.InsertEdge` | crates/standardoc-core/src/storage/edges.rs:7-83 | Appends one edge, linked if its target is stored |
| `IndexWriter.Index.PromoteUnresolvedBatch` | crates/standardoc-core/src/storage/edges.rs:93-126 | Links exactly the unresolved edges that name one of the given symbols |
| `IndexWriter.Index.FetchExistingSymbols` | crates/standardoc-core/src/pipeline/diff.rs:23-38 | Lists the rows of one file, all of them and no others |
| `IndexWriter.Index.ApplyDeletes` | crates/standardoc-core/src/pipeline/batch.rs:178-183 | Deletes the planned symbols in order |
| `IndexWriter.Index.ApplyPositionUpdates` | crates/standardoc-core/src/pipeline/batch.rs:185-194 | Moves the planned symbols in order |
| `IndexWriter.Index.ApplyInsertsAndModifications` | crates/standardoc-core/src/pipeline/batch.rs:196-213 | Rewrites modified symbols without their edges, then inserts, and returns the ids written |
| `IndexWriter.Index.ApplyEdges` | crates/standardoc-core/src/pipeline/batch.rs:215-238 | Adds the extracted edges of touched symbols |
| `IndexWriter.Index.ApplyDocuments` | crates/standardoc-core/src/pipeline/batch.rs:249-285 | Drops the documents of written symbols and adds the extracted ones of touched symbols |
| `IndexWriter.Index.ApplyUpsertFile` | crates/standardoc-core/src/pipeline/batch.rs:20-74 | The whole command keeps the index sound, is one step of the run model, and with distinct names leaves exactly the reference view |
| `IndexWriter.Index.ApplyDeleteFile` | crates/standardoc-core/src/pipeline/batch.rs:141-149 | The whole command keeps the index sound and removes exactly one file's entries |
| `EdgeSweep.ApplyAllProgresses` | crates/standardoc-core/src/pipeline/resolve_unresolved.rs:169-191 | Applying a plan only turns unresolved edges into resolved ones and leaves edges outside the plan alone |
| `EdgeSweep.ApplyAllDecides` | crates/standardoc-core/src/pipeline/resolve_unresolved.rs:169-191 | Every planned edge ends up rewritten, or colliding with an edge that already is what it would become |
| `EdgeSweepTheorems.SweepDecides` | crates/standardoc-core/src/pipeline/resolve_unresolved.rs:71-201 | A sweep leaves resolved edges untouched, keeps exactly one target column set, and what it leaves unresolved no tier can place |
| `EdgeSweepTheorems.TraitsMembers` | crates/standardoc-core/src/pipeline/resolve_unresolved.rs:273-307 | The traits walked are exactly the targets of resolved IMPLEMENTS edges whose source the receiver may stand for |
| `EdgeSweepTheorems.DispatchGrows` | crates/standardoc-core/src/pipeline/resolve_unresolved.rs:273-307 | Resolving more edges never takes a trait-dispatch answer away |
| `EdgeSweepTheorems.SettledIff` | crates/standardoc-core/src/pipeline/resolve_unresolved.rs:71-201 | A sweep changes nothing if and only if every unresolved edge has no answer or its place is taken |
| `EdgeSweepTheorems.OneSweepSettles` | crates/standardoc-core/src/pipeline/resolve_unresolved.rs:17-19 | If the first sweep rewrote no IMPLEMENTS edge, the second changes nothing |
| `EdgeSweepTheorems.ImplementsSettleFirst` | crates/standardoc-core/src/pipeline/resolve_unresolved.rs:71-201 | A second sweep rewrites no IMPLEMENTS edge |
| `EdgeSweepTheorems.TwoSweepsSettle` | crates/standardoc-core/src/pipeline/resolve_unresolved.rs:17-19 | A third sweep changes no edge, for every table, resolver and LIKE |
| `EdgeSweepTheorems.SecondSweepIff` | crates/standardoc-core/src/pipeline/resolve_unresolved.rs:17-19 | A second sweep changes nothing if and only if no unresolved call can now be placed by trait dispatch |
| `EdgeSweepPass.TryResolveViaTraitDispatch` | crates/standardoc-core/src/pipeline/resolve_unresolved.rs:273-307 | The loop returns the answer of the first trait that has the method |
| `EdgeSweepPass.TrySuffixChain` | crates/standardoc-core/src/pipeline/resolve_unresolved.rs:148-166 | Looking a hit up through the memo gives what the table gives, and keeps the memo true |
| `EdgeSweepPass.ComputeUpdates` | crates/standardoc-core/src/pipeline/resolve_unresolved.rs:96-167 | The first loop plans exactly the resolvable edges, counts the others, and counts the answers of each tier |
| `EdgeSweepPass.EdgeTable.ApplyUpdates` | crates/standardoc-core/src/pipeline/resolve_unresolved.rs:169-191 | Updates are applied or skipped, each counted once, and `resolved` is how many fewer edges are unresolved |
| `EdgeSweepPass.EdgeTable.ApplyResolveUnresolved` | crates/standardoc-core/src/pipeline/resolve_unresolved.rs:71-201 | One sweep in place; resolved + skipped + still unresolved is the number of edges unresolved at the start |
| `EdgeSweepMeaning.ResolveMeans` | crates/standardoc-core/src/pipeline/resolve_unresolved.rs:96-167 | An edge is answered by a tier with a symbol if and only if that tier has that symbol, by the rows of the tables, and no earlier tier has any: the receiver's own method, then the first trait's, then the first flagged builtin's, all three for calls with a receiver only, then the longest module prefix that hits |
| `EdgeSweepMeaning.UnplacedMeans` | crates/standardoc-core/src/pipeline/resolve_unresolved.rs:96-167 | There is no answer if and only if no tier has a symbol |
| `EdgeSweepMeaning.InherentIs` | crates/standardoc-core/src/pipeline/resolve_unresolved.rs:228-261 | The first tier answers with the row of the exact name, else for a nominal receiver with the only workspace row that ends in it, else with the builtin of that name, and with nothing else |
| `EdgeSweepMeaning.DispatchedIs` | crates/standardoc-core/src/pipeline/resolve_unresolved.rs:262-307 | Trait dispatch answers with the method of the first trait, in the order of names, that a resolved IMPLEMENTS row gives a workspace type the receiver may name and that has the method |
| `EdgeSweepMeaning.BuiltinIs` | crates/standardoc-core/src/pipeline/resolve_unresolved.rs:309-337 | The builtin tier answers with the first flagged builtin row of that method in the order of names |
| `EdgeSweepMeaning.BeforeIs` | crates/standardoc-core/src/pipeline/resolve_unresolved.rs:293-293 | The order is bytewise: a proper prefix first, else the smaller byte at the first difference |
| `EdgeSweepMeaning.SweepMeans` | crates/standardoc-core/src/pipeline/resolve_unresolved.rs:71-201 | After a sweep each row that a tier decides links to that tier's symbol, unless with the unique index another row already has that source, kind and target; every other row is untouched |
| `EdgeSweepMeaning.SweepKeepsUnique` | crates/standardoc-core/src/pipeline/resolve_unresolved.rs:169-191 | With the unique index no two rows come to have the same source, kind and target |
| `EdgeSweepMeaning.ReportMeans` | crates/standardoc-core/src/pipeline/resolve_unresolved.rs:101-104 | Each tier counter of the report is the number of edges that tier decides |
| `EdgeSweepPass.OneSweepIsNotEnough` | crates/standardoc-core/src/pipeline/resolve_unresolved.rs:17-19 | A table on which a second sweep finds work the first made possible |
| `EdgeSweepOrder.LookupMeaning` | crates/standardoc-core/src/pipeline/resolve_unresolved.rs:210-216 | With unique names a lookup answers exactly for the stored names, with their own id |
| `EdgeSweepOrder.NominalTakesOnlyMatch` | crates/standardoc-core/src/pipeline/resolve_unresolved.rs:228-261 | A nominal receiver without an exact name takes the workspace symbol that is the only one its suffix matches |
| `EdgeSweepOrder.AmbiguousFallsThrough` | crates/standardoc-core/src/pipeline/resolve_unresolved.rs:228-261 | Two suffix matches, or a path for a receiver, leave only the builtin of that name |
| `EdgeSweepOrder.DispatchPicksLeast` | crates/standardoc-core/src/pipeline/resolve_unresolved.rs:262-307 | Trait dispatch answers with the alphabetically first trait that has the method |
| `EdgeSweepOrder.LeastBuiltinIsLeast` | crates/standardoc-core/src/pipeline/resolve_unresolved.rs:309-337 | The builtin tier answers exactly when a match exists, with one no other match precedes |
| `CrossWorkspace.JoinSplit` | crates/standardoc-core/src/pipeline/cross_workspace_post.rs:95-132 | Joining the segments of a path gives the path back |
| `CrossWorkspace.SplitJoin` | crates/standardoc-core/src/pipeline/cross_workspace_post.rs:95-132 | Segments without a separator inside, and without a colon before one, are given back by joining and cutting |
| `CrossWorkspace.HitSegments` | crates/standardoc-core/src/pipeline/cross_workspace_post.rs:95-120 | The name of a hit with its tail is cut into the segments of the resolver's name followed by the tail, unless that name ends in a colon |
| `CrossWorkspace.ChainMeaning` | crates/standardoc-core/src/pipeline/cross_workspace_post.rs:95-132 | The search hits exactly when some split hits, and then with the name of the longest module prefix that hits and the tail appended; else it gives the answer of the longest prefix that is a known module; else nothing |
| `CrossWorkspace.ResolveWithSuffixChain` | crates/standardoc-core/src/pipeline/cross_workspace_post.rs:95-132 | The reverse loop with its fallback variable computes that answer |
| `CrossWorkspace.RewriteCrossWorkspaceEdges` | crates/standardoc-core/src/pipeline/cross_workspace_post.rs:31-78 | The array holds each edge rewritten on its own, or is untouched when the module has no prefix |
| `CrossWorkspaceMeaning.FoundIsResolved` | crates/standardoc-core/src/pipeline/cross_workspace_post.rs:49-66 | A foreign name that some split finds is resolved to what the longest such module gives it, tail appended, confidence extracted, source name kept, the two stamps added once behind the old attributes |
| `CrossWorkspaceMeaning.MissingIsBridged` | crates/standardoc-core/src/pipeline/cross_workspace_post.rs:67-74 | A foreign name that no split finds, below a known module, becomes a `custom:cross-workspace` bridge under its own name, inferred and stamped |
| `CrossWorkspaceMeaning.OthersAreLeft` | crates/standardoc-core/src/pipeline/cross_workspace_post.rs:50-60 | Bridges, local names and names no split knows are left as they are |
| `CrossWorkspaceMeaning.RewriteMeans` | crates/standardoc-core/src/pipeline/cross_workspace_post.rs:49-77 | Every edge falls under one of these three cases |
| `CrossWorkspaceMeaning.FileMeans` | crates/standardoc-core/src/pipeline/cross_workspace_post.rs:31-78 | What stands before the first `::` of the module's name decides what is local; without it, or in a language without prefixes, the file is untouched |
| `CrossWorkspace.RewriteTwiceIff` | crates/standardoc-core/src/pipeline/cross_workspace_post.rs:27-30 | Rewriting an edge twice is rewriting it once, attributes included, if and only if the longest split of its new name that hits gives that name in a stamped workspace, or no split hits or is a known module |
| `CrossWorkspace.FileTwiceIff` | crates/standardoc-core/src/pipeline/cross_workspace_post.rs:27-30 | A second pass over a file is idle if and only if every edge rests in that sense |
| `CrossWorkspace.HitNameRests` | crates/standardoc-core/src/pipeline/cross_workspace_post.rs:95-132 | If every path on the way to a name the resolver gives, and every path below it, answers with itself or not at all, a found name is found again as itself or not at all |
| `CrossWorkspace.RewriteIsIdempotent` | crates/standardoc-core/src/pipeline/cross_workspace_post.rs:27-30 | With a resolver whose single answers are canonical in that sense a second pass over a file changes no edge, attributes included |
| `CrossWorkspace.ReexportIsCanonical` | crates/standardoc-core/src/pipeline/cross_workspace_post.rs:80-94 | A plain re-export is such a resolver |
| `CrossWorkspace.RewriteIsNotAlwaysIdempotent` | crates/standardoc-core/src/pipeline/cross_workspace_post.rs:31-78 | A forwarding resolver moves an edge again on the second pass |
| `CommentStripper.Strip` | crates/standardoc-core/src/query/body.rs:229-345 | The slice-copying scan equals the byte-wise reference if and only if it ends outside a comment; otherwise it appends the body from where copying last resumed: at the newline or behind the mark that ended the last closed comment, or at the start |
| `CommentStripper.OneResume` | crates/standardoc-core/src/query/body.rs:229-345 | There is exactly one such place in a body |
| `CommentStripper.NewlinesSurvive` | crates/standardoc-core/src/query/body.rs:212-228 | Every newline of the body survives and none is added |
| `CommentStripper.KeptIsSelection` | crates/standardoc-core/src/query/body.rs:229-345 | Exactly the bytes outside comments and the newlines are kept, in order |
| `CommentGrammar.GrammarAgrees` | crates/standardoc-core/src/query/body.rs:229-345 | On every list of code bytes, line comments, arbitrarily nested block comments, strings, templates and raw literals, each standing where what follows lets it be read as itself, literals survive whole, comments leave their newlines, and the scan ends in a comment exactly when the last piece is an open one |
| `CommentGrammar.EveryBodyParses` | crates/standardoc-core/src/query/body.rs:229-345 | The grammar leaves no body out: every text is a list of such pieces, an `r`, `/` or `*` being text wherever it opens or closes nothing |
| `CommentGrammar.OpenCommentExample` | crates/standardoc-core/src/query/body.rs:341-343 | The stripper returns text for a body that is one open comment and should leave nothing |
| `SfcScanner.SkipComment` | crates/standardoc-lang-provider/src/sfc.rs:173-182 | Stops right after the first comment end, or at the end of the source |
| `SfcScanner.ReadTagName` | crates/standardoc-lang-provider/src/sfc.rs:184-195 | Stops at the first byte that is not part of a tag name |
| `SfcScanner.ReadAttributeValue` | crates/standardoc-lang-provider/src/sfc.rs:246-292 | Reads a quoted or bare value and stops where the reference does |
| `SfcScanner.ParseAttributes` | crates/standardoc-lang-provider/src/sfc.rs:201-240 | Collects the attributes of a tag, where it closes, and whether it closes itself |
| `SfcScanner.FindCloseTag` | crates/standardoc-lang-provider/src/sfc.rs:299-311 | Finds the first matching close tag, ignoring case, or nothing |
| `SfcScanner.FindAfter` | crates/standardoc-lang-provider/src/sfc.rs:320-325 | Stops right after the first target byte |
| `SfcScanner.PastByteIsFirst` | crates/standardoc-lang-provider/src/sfc.rs:320-325 | No target byte lies before the one found |
| `SfcBlocks.ExtractAt` | crates/standardoc-lang-provider/src/sfc.rs:72-130 | One turn of the walk takes the block that starts there, or skips as the reference does |
| `SfcBlocks.ExtractBlocks` | crates/standardoc-lang-provider/src/sfc.rs:68-133 | The document holds the scripts, the first template and the styles found by the walk, in order |
| `SfcBlocks.WalkOrdered` | crates/standardoc-lang-provider/src/sfc.rs:68-133 | For every source the blocks are in bounds, in order and disjoint, tags included |
| `SfcBlocks.WalkFaithful` | crates/standardoc-lang-provider/src/sfc.rs:68-133 | Every block is what the tag at its `<` says |
| `SfcBlocks.ContentIsOpen` | crates/standardoc-lang-provider/src/sfc.rs:299-311 | The content of a block ends at a tag that closes it and holds no earlier one |
| `SfcGrammar.WalkReads` | crates/standardoc-lang-provider/src/sfc.rs:68-133 | However a source reads as plain bytes, comments, empty tags, tags nothing closes and blocks, the walk finds exactly the blocks written, each with its place, its attributes and the value of its first `lang` |
| `SfcGrammar.EverySourceReads` | crates/standardoc-lang-provider/src/sfc.rs:68-133 | The grammar leaves no source out |
| `SfcGrammar.DocumentMeans` | crates/standardoc-lang-provider/src/sfc.rs:120-125 | The document lists all scripts and all styles in order, and the first template |
| `SfcGrammar.CommentIsSkipped` | crates/standardoc-lang-provider/src/sfc.rs:73-76 | Nothing inside a comment is a block: the walk goes on behind the first end of comment, or ends with the source |
| `SfcGrammar.TagReads` | crates/standardoc-lang-provider/src/sfc.rs:201-240 | The rest of an opening tag is read as its blanks, stray bytes and attributes, up to its end |
| `SfcGrammar.ValueReads` | crates/standardoc-lang-provider/src/sfc.rs:246-292 | An attribute's value is what stands in its quotes, its bare run, or nothing |
| `SfcGrammar.SetupIff` | crates/standardoc-lang-provider/src/sfc.rs:52-60 | A script is a setup script if and only if an attribute named `setup` was written, with or without a value |
| `SfcGrammar.ByteClasses` | crates/standardoc-lang-provider/src/sfc.rs:184-240 | The bytes of names, attribute names and blanks |
| `SfcPayload.PadUntilByteOffset` | crates/standardoc-lang-provider/src/sfc.rs:147-161 | Padding appends a newline where the source has one and a space elsewhere, up to the target |
| `SfcPayload.BuildScriptPayload` | crates/standardoc-lang-provider/src/workspace.rs:188-206 | The payload is the scripts, plain ones first, each padded to its offset; the language is the first given one |
| `SfcPayload.FirstLangIs` | crates/standardoc-lang-provider/src/workspace.rs:201-204 | The language is that of the first script, in the sorted order, that names one, or the default |
| `SfcPayload.MaskKeepsLines` | crates/standardoc-lang-provider/src/sfc.rs:147-161 | In a masked payload every newline is where it is in the source, and what is not script is blank |
| `SfcPayload.AlignedWhenSetupLast` | crates/standardoc-lang-provider/src/workspace.rs:188-206 | With setup scripts last, the payload is the source masked outside scripts, up to the last script's end |
| `SfcPayload.MisalignedSetup` | crates/standardoc-lang-provider/src/workspace.rs:188-206 | A setup script before a plain one leaves blanks where its text was |
| `SfcPayload.AlignedIff` | crates/standardoc-lang-provider/src/workspace.rs:188-206 | When setup scripts hold a visible byte, the payload is the mask if and only if none precedes a plain script |
| `SfcPayload.ComponentPayload` | crates/standardoc-lang-provider/src/workspace.rs:33-66 | From source text to payload: the scripts are in order, and the payload is the mask under that condition |
| `SfcExamples.SetupFirstIsMisaligned` | crates/standardoc-lang-provider/src/workspace.rs:188-206 | Every source of a setup script with a visible byte followed by a plain script gets a payload that is not its mask |
| `SfcExamples.SetupFirstText` | crates/standardoc-lang-provider/src/sfc.rs:68-133 | Such sources exist for any two contents without `<`, and are read as those two scripts |
| `SfcExamples.PlainLastIff` | crates/standardoc-lang-provider/src/workspace.rs:188-206 | If the last script is plain the payload is the mask if and only if every setup script is empty; a blank one is enough to break it |
| `SfcLateSetup.LateSetupIff` | crates/standardoc-lang-provider/src/workspace.rs:188-206 | With one setup script behind the last plain one the payload is aligned if and only if the earlier setup contents, if any, repeat the blanked source right behind that plain script and end before the setup script starts |
| `SfcTemplate.BlockOuterStart` | crates/standardoc-lang-provider/src/workspace.rs:293-303 | Finds the last `<` before the content |
| `SfcExamples.OuterStartIff` | crates/standardoc-lang-provider/src/workspace.rs:289-303 | The search finds the `<` of the opening tag if and only if no other `<` lies inside that tag |
| `SfcExamples.AngleInTag` | crates/standardoc-lang-provider/src/workspace.rs:289-303 | With a `<` in an attribute it stops in the middle of the tag |
| `SfcExamples.AngleText` | crates/standardoc-lang-provider/src/workspace.rs:289-303 | Such sources exist for every content without `<` |
| `SfcTemplate.BlockOuterEnd` | crates/standardoc-lang-provider/src/workspace.rs:307-317 | Stops right after the closing tag |
| `SfcTemplate.CarveRegions` | crates/standardoc-lang-provider/src/workspace.rs:275-287 | The cursor loop computes the gaps between blocked ranges |
| `SfcTemplate.GapsSplit` | crates/standardoc-lang-provider/src/workspace.rs:275-287 | Gaps are non-empty, sorted and disjoint and hold exactly the bytes no blocked range holds |
| `SfcTemplate.SvelteTemplateRegions` | crates/standardoc-lang-provider/src/workspace.rs:262-287 | For every source the regions are non-empty, sorted, disjoint, free of script and style content, and with the blocked ranges cover every byte once |
| `IndentCompaction.LongestCommonLeadingWs` | crates/standardoc-core/src/query/body.rs:491-510 | The prefix is shared by all non-blank lines, and every shared one is a prefix of it |
| `IndentCompaction.DetectIndentUnit` | crates/standardoc-core/src/query/body.rs:521-559 | No unit, four, two or zero exactly when the indents are all tabs, all multiples of four spaces, of two but not four, or none of these |
| `IndentRoundTrip.ConvertLeadingSpacesToTabs` | crates/standardoc-core/src/query/body.rs:561-578 | Each whole unit of leading spaces becomes one tab |
| `IndentRoundTrip.TabbedUndone` | crates/standardoc-core/src/query/body.rs:561-578 | Expanding the tabs gives the line back, and the number of tabs is the number of units |
| `IndentRoundTrip.LineRestored` | crates/standardoc-core/src/query/body.rs:443-484 | Expanding and prepending the removed prefix gives back every non-blank line |
| `IndentRoundTrip.DepthOrderKept` | crates/standardoc-core/src/query/body.rs:443-484 | Non-blank lines keep their relative indentation order |
| `IndentRoundTrip.SplitJoin` | crates/standardoc-core/src/query/body.rs:479-483 | The lines can be read back from the joined body |
| `IndentRoundTrip.CompactBodyIndent` | crates/standardoc-core/src/query/body.rs:443-484 | The whole pass: the longest prefix is removed, tabs are announced exactly when the rest has a unit, every line is the stripped line in that unit, every non-blank line can be had back, order is kept, and the prefix length saturates at 32 bits |
| `SxdLowering.StringLitToPlain` | crates/standardoc-core/src/config/sxd.rs:482-503 | Concatenates literal parts and stops at the first interpolation or unknown part |
| `SxdLowering.LowerBlockFields` | crates/standardoc-core/src/config/sxd.rs:290-432 | The loop over a block's assignments, one table per kind of block, stops at the first error |
| `SxdLowering.LowerFile` | crates/standardoc-core/src/config/sxd.rs:218-288 | The statement loop computes the configuration or the first error |
| `SxdMeaning.LoadsAsIff` | crates/standardoc-core/src/config/sxd.rs:218-432 | A file loads as a configuration if and only if the table of fields allows every statement, labels and single blocks are as required and every project says once where it is, and the configuration is what the last assignments of its blocks say; there is one such configuration |
| `SxdMeaning.FieldsMean` | crates/standardoc-core/src/config/sxd.rs:290-432 | The assignments of a block load if and only if the table has them all with fitting values, and each field is what its last assignment says |
| `SxdMeaning.BlockMeans` | crates/standardoc-core/src/config/sxd.rs:226-432 | What each kind of block adds: patterns, a project with its label and paths, a group with its label and members, a port |
| `SxdLowering.LoweredIsSensible` | crates/standardoc-core/src/config/sxd.rs:218-432 | A file that loads has ports in 1..65535, a path for every project, and one project and group per block, in order |
| `SxdSchema.ExpectPlainString` | crates/standardoc-cli/src/sxd_schema.rs:313-337 | Appends one diagnostic per interpolation, or one for a value that is no string |
| `SxdSchema.ValidateBlock` | crates/standardoc-cli/src/sxd_schema.rs:120-295 | Appends the diagnostics of a block: its fields in order by the validator's own tables, then the path rules of a project |
| `SxdSchema.Validate` | crates/standardoc-cli/src/sxd_schema.rs:36-71 | Appends the diagnostics of all statements, repeated `mcp` and `viz` first |
| `SxdComplaints.ShownIff` | crates/standardoc-cli/src/sxd_schema.rs:36-295 | A message at a token is among the diagnostics if and only if some statement breaks that rule there |
| `SxdMirror.BlocksAgree` | crates/standardoc-cli/src/sxd_schema.rs:94-118 | Both readings know the same blocks and ask the same ones for a label |
| `SxdMirror.FieldMirror` | crates/standardoc-cli/src/sxd_schema.rs:120-295 | The tables of the two readings agree on every field of every block: names, types, contexts and errors |
| `SxdMirror.LoadsIffSilent` | crates/standardoc-cli/src/sxd_schema.rs:1-18 | A file lowers if and only if the validator is silent, the grammar is known, and no project's last `paths` is the empty list |
| `SxdMirror.FirstErrorIsFirstDiag` | crates/standardoc-cli/src/sxd_schema.rs:1-18 | The error that stops the lowering is the validator's first diagnostic, unless it is the empty `paths` rule |
| `SxdMirror.PlainIsJoined` | crates/standardoc-core/src/config/sxd.rs:482-503 | A literal is plain exactly when all its parts are text, and then it is their concatenation |
| `SxdMirror.LastAssignmentWins` | crates/standardoc-core/src/config/sxd.rs:290-432 | In every block each field of a loaded file holds the text, texts or port its last assignment says, or nothing |
| `SxdMirror.VersionIsLast` | crates/standardoc-core/src/config/sxd.rs:226-238 | The version of a loaded file is the text of its last `version` |
| `SxdMirror.SilentButRefused` | crates/standardoc-core/src/config/sxd.rs:351-355 | A file the validator accepts and the lowering refuses |
| `RegisterBody.ParseRegisterBody` | crates/standardoc-mcp-proxy/src/proxy.rs:716-749 | The entry loop computes the parsed path or its first error, and no body yields an empty path or one with a comma |
| `RegisterBody.UnescapeEscape` | crates/standardoc-mcp-proxy/src/proxy.rs:584-590 | Two successive global replaces undo the two escapes over any runs of backslashes and quotes |
| `RegisterBody.OnlyPlainPathsAreRead` | crates/standardoc-mcp-proxy/src/proxy.rs:716-749 | Whatever the body, a path that is read is non-empty and has no comma |
| `RegisterBody.RegisterRoundTripIff` | crates/standardoc-mcp-proxy/src/proxy.rs:271-279 | Reading the written body gives the path back if and only if it is non-empty and has no comma |
| `RegisterBody.CommaPathIsRefused` | crates/standardoc-mcp-proxy/src/proxy.rs:716-749 | A comma after anything but a quote or a space makes the server answer that the value is not quoted |
| `RegisterMeaning.AcceptedIff` | crates/standardoc-mcp-proxy/src/proxy.rs:716-749 | A body is read as a path if and only if it is a braced list of entries, each blank or a name, a colon and a quoted value, whose last `path` unescapes to that path and is not empty |
| `RegisterMeaning.BadEntryIsTold` | crates/standardoc-mcp-proxy/src/proxy.rs:716-749 | Otherwise the first bad entry decides the refusal: no colon, or no quotes |
| `RegisterMeaning.NotBracedRefused` | crates/standardoc-mcp-proxy/src/proxy.rs:716-749 | The body is refused as no object if and only if it has no braces |
| `RegisterMeaning.TrimIs` | crates/standardoc-mcp-proxy/src/proxy.rs:716-749 | Trimming takes exactly the whitespace around a text |
| `ProxyRegistry.RunBoot` | crates/standardoc-mcp-proxy/src/proxy.rs:90-115 | The default is the first root's id and registered, keys are the roots' ids, each holds the last root of that id, and the first root that cannot be watched stops the boot |
| `ProxyRegistry.CountersStayExact` | crates/standardoc-mcp-proxy/src/proxy.rs:455-540 | After every step each counter equals the number of requests of its class |
| `ProxyRegistry.DefaultIsNeverMissing` | crates/standardoc-mcp-proxy/src/proxy.rs:412-425 | A default request always finds its workspace; the "missing (bug)" branch is not taken |
| `ProxyRegistry.EveryRunIsSafe` | crates/standardoc-mcp-proxy/src/proxy.rs:412-711 | Under every interleaving the default stays registered, every key is its entry's id, successes plus 503s never exceed the total, and no default request was answered 500 |
| `ProxyRouting.ReachesItsWorkspace` | crates/standardoc-mcp-proxy/src/proxy.rs:412-444 | In every run from boot a request for a named workspace only ever reaches the one of that id, and a request for none the default's |
| `ProxyRouting.UnknownIff` | crates/standardoc-mcp-proxy/src/proxy.rs:431-444 | It is answered 404 if and only if it named an id that at its lookup was neither there since boot nor inserted, or was removed again |
| `ProxyRouting.RemovalIff` | crates/standardoc-mcp-proxy/src/proxy.rs:682-711 | A removal is answered 409 for the default, 204 for an id registered at that step, which then is not, and 404 otherwise |
| `ProxyRouting.RemovalLives` | crates/standardoc-mcp-proxy/src/proxy.rs:682-711 | In every run a removal waits, or has taken effect at one step exactly as its answer says |
| `ProxyRouting.RegistrationLives` | crates/standardoc-mcp-proxy/src/proxy.rs:628-680 | In every run a registration is answered 400, 200, 500 or 201 by the step that ended it, and a 201 leaves its path under its id |
| `ProxyRouting.HoldsIff` | crates/standardoc-mcp-proxy/src/proxy.rs:412-711 | An id holds an entry if and only if that entry was there at the start or inserted, and nothing wrote that id since |
| `ProxyRegistry.DefaultStays` | crates/standardoc-mcp-proxy/src/proxy.rs:634-680 | While ids do not move, which is enough for the condition of `ProxyRuns.DefaultKeptIff`, no interleaving replaces the default's entry |
| `ProxyRuns.DefaultKeptIff` | crates/standardoc-mcp-proxy/src/proxy.rs:634-711 | In every run that starts with the default's entry, that entry is the same in every state if and only if no insert carries the default's id with another entry |
| `ProxyRegistry.DefaultCanBeReplaced` | crates/standardoc-mcp-proxy/src/proxy.rs:634-680 | An id that moves between lookup and creation lets a registration replace it |
| `ProxyRegistry.BothCreated` | crates/standardoc-mcp-proxy/src/proxy.rs:628-680 | Two registrations of one path that look before either inserts are both answered 201, although registering is documented as idempotent |
| `ProxyRuns.TraceOf` | crates/standardoc-mcp-proxy/src/proxy.rs:412-711 | Every run has a trace of states, so the statements about traces are about all runs |
| `ProxyRuns.RegisteredIff` | crates/standardoc-mcp-proxy/src/proxy.rs:628-711 | After any number of steps an id is registered if and only if it was at the start or was inserted, and no removal of it came later |
| `ProxyRuns.AnsweredIff` | crates/standardoc-mcp-proxy/src/proxy.rs:644-652 | A registration is answered 200 if and only if an insert of its id, or its presence at the start, precedes its lookup with no removal between; otherwise it goes on to create |
| `ProxyRuns.BothCreateIff` | crates/standardoc-mcp-proxy/src/proxy.rs:628-680 | Of two registrations of one new id the second goes on to create, like the first, if and only if it looks before the first has inserted or after the id was removed again |
| `ProxyRegistry.SnapshotsBehind` | crates/standardoc-mcp-proxy/src/proxy.rs:547-563 | What a health request has loaded is never ahead of the counters |
| `ProxyRegistry.SnapshotCanExceed` | crates/standardoc-mcp-proxy/src/proxy.rs:559-561 | An interleaving whose snapshot shows more successes than requests, because the total is loaded first |
| `ProxyRuns.HealthAnswers` | crates/standardoc-mcp-proxy/src/proxy.rs:547-563 | What a health request answers are the three counters at its three loads, whatever other requests do between them |
| `ProxyRuns.SnapshotIff` | crates/standardoc-mcp-proxy/src/proxy.rs:547-563 | Successes plus 503s of a snapshot stay within its total if and only if the requests it shows as ended but not counted are no more than those counted but not shown as ended |
| `ProxyRuns.QuietSnapshotAddsUp` | crates/standardoc-mcp-proxy/src/proxy.rs:547-563 | If no request is counted between the first load and the last, the snapshot adds up |
| `ProxyRetry.ForwardLoop` | crates/standardoc-mcp-proxy/src/proxy.rs:482-540 | For every timing: at most 2 + m attempts, one for an empty window, a 503 only after the window, replies from the last attempt; with instant attempts the bound is met |
| `ProxyRetry.MostSleepsExists` | crates/standardoc-mcp-proxy/src/proxy.rs:482-540 | Every positive window has exactly one m, the most sleeps that sum to less than it |
| `ProxyRetry.SleepSumSettles` | crates/standardoc-mcp-proxy/src/proxy.rs:482-540 | From the fifth on the sleeps sum to 3100 ms plus 2000 ms each |
| `ProxyRetry.DefaultWindow` | crates/standardoc-mcp-proxy/src/proxy.rs:40-47 | m is 18 for thirty seconds, so twenty attempts |
| `LockfileCache.OneFileOneOrigin` | crates/standardoc-core/src/pipeline/external_invalidation.rs:99-130 | Touching a file can move the fingerprint of its own origin only |
| `LockfileCache.NpmIsFirstPresent` | crates/standardoc-core/src/pipeline/external_invalidation.rs:109-123 | The npm fingerprint is the kind and digest of the first lockfile present, in the order pnpm, yarn, Plug'n'Play, bun text, bun binary, npm |
| `LockfileCache.NpmEditMovesIff` | crates/standardoc-core/src/pipeline/external_invalidation.rs:109-123 | Writing an npm lockfile moves the fingerprint if and only if none asked for before it is present and it was not already that kind and digest |
| `LockfileCache.ClassifyIff` | crates/standardoc-core/src/pipeline/external_invalidation.rs:312-324 | A file belongs to an origin exactly by its name |
| `LockfileCache.BaselineRoundTripIff` | crates/standardoc-core/src/pipeline/external_invalidation.rs:144-226 | Stored fingerprints are read back if and only if no digest is blank and each has its row, since rows are updated and never added |
| `LockfileCache.SweptMembers` | crates/standardoc-core/src/pipeline/external_invalidation.rs:259-284 | The boot sweep keeps exactly the rows of origins whose fingerprint is the stored one |
| `LockfileCache.ExternalCache.PurgeExternalsByOrigin` | crates/standardoc-core/src/pipeline/external_invalidation.rs:235-252 | Deletes exactly one origin's rows, counts them, and moves the revision only if there were any |
| `LockfileCache.ExternalCache.WriteStoredHashes` | crates/standardoc-core/src/pipeline/external_invalidation.rs:193-226 | Writes the baseline of all origins |
| `LockfileCache.ExternalCache.InvalidateChangedLockfiles` | crates/standardoc-core/src/pipeline/external_invalidation.rs:259-284 | Purges and reports exactly the origins whose fingerprint changed, each with the number of its rows, then stores the live ones |
| `LockfileCache.ExternalCache.HandleLockfileChange` | crates/standardoc-core/src/pipeline/external_invalidation.rs:298-310 | Purges the origin of the changed file and rewrites the baseline of all, or does nothing for another file |
| `LockfileRuns.StepKeeps` | crates/standardoc-core/src/pipeline/external_invalidation.rs:235-310 | Every careful step keeps rows coherent, including the steps between purge, read and write of one event |
| `LockfileRuns.RowKeptIff` | crates/standardoc-core/src/pipeline/external_invalidation.rs:235-310 | A row is cached after a step if and only if it was and its origin is not purged, by its own lockfile's event or by a changed fingerprint at boot, or it was just resolved |
| `LockfileRuns.CacheIsCoherent` | crates/standardoc-core/src/pipeline/external_invalidation.rs:1-29 | In every run whose stops leave rows that agree with the baseline, once swept and with no event pending for an origin, its cached rows were read under the lockfile now on disk |
| `LockfileRuns.QuietRunKeeps` | crates/standardoc-core/src/pipeline/external_invalidation.rs:235-310 | A run that stops only when quiet, with steady fingerprints before each subscription, keeps rows and baseline coherent through every step and restart |
| `LockfileRuns.QuietRunsAreCoherent` | crates/standardoc-core/src/pipeline/external_invalidation.rs:1-29 | In every such run from a new index, once swept and with no event pending for an origin, its cached rows were read under the lockfile now on disk |
| `LockfileRuns.QuietStopIsCareful` | crates/standardoc-core/src/pipeline/external_invalidation.rs:298-310 | Stopping with nothing pending and nothing being handled is careful, if no fingerprint moved between a sweep and its subscription |
| `LockfileRuns.StopSafeIff` | crates/standardoc-core/src/pipeline/external_invalidation.rs:259-284 | The next boot is safe for every disk if and only if each row agrees with the baseline |
| `LockfileRuns.PendingStopGoesStale` | crates/standardoc-core/src/pipeline/external_invalidation.rs:298-310 | Handling another origin's event and restarting leaves a stale row with nothing pending |
| `LockfileRuns.PendingIsReachable` | crates/standardoc-core/src/pipeline/external_invalidation.rs:298-310 | Such a state is reached from every fresh index |
| `LockfileRuns.UnwatchedEditIff` | crates/standardoc-cli/src/main.rs:745-762 | After an edit between the boot sweep and the subscription, which raises no event, the rows are current if and only if the origin of every cached row keeps its fingerprint |
| `LockfileRuns.UnwatchedIsReachable` | crates/standardoc-cli/src/main.rs:745-762 | From every fresh index such a state with a cached row is reached, and one edit then leaves a stale row with nothing pending |
| `ScopeArena.ResolvesToNearest` | crates/standardoc-ir/src/lookup.rs:314-325 | The answer is the latest binding in the nearest enclosing scope that has one |
| `ScopeArena.UnresolvedIff` | crates/standardoc-ir/src/lookup.rs:314-325 | There is no answer if and only if no scope up to the root binds the name |
| `ScopeArena.PushScopeKeepsAnswers` | crates/standardoc-ir/src/lookup.rs:271-275 | A new scope changes no answer from another scope |
| `ScopeArena.PushBindingChanges` | crates/standardoc-ir/src/lookup.rs:299-304 | A new binding is the answer where the chain reaches it before any nearer binding, and changes no other answer |
| `ScopeArena.ModuleLookup.constructor` | crates/standardoc-ir/src/lookup.rs:251-267 | A new arena has the root scope and binds nothing |
| `ScopeArena.ModuleLookup.PushScope` | crates/standardoc-ir/src/lookup.rs:271-275 | Appends any scope, returns its index modulo 2^32, keeps parents before children exactly when the new parent exists, and then keeps all answers |
| `ScopeArena.ModuleLookup.PushScopeWithSpan` | crates/standardoc-ir/src/lookup.rs:283-287 | Appends any scope and records its span |
| `ScopeArena.ModuleLookup.PushBinding` | crates/standardoc-ir/src/lookup.rs:299-304 | Appends a binding under its name only, with the change of answers it causes |
| `ScopeArena.WalkEndsIff` | crates/standardoc-ir/src/lookup.rs:314-325 | In any arena the walk up ends if and only if it does not come back to a scope without having met a binding |
| `ScopeArena.ParentsFirstEnds` | crates/standardoc-ir/src/lookup.rs:311-325 | With every parent before its child no walk goes round |
| `ScopeArena.ModuleLookup.ResolveLocal` | crates/standardoc-ir/src/lookup.rs:314-325 | An unbound name has no answer; for a bound one whose walk ends the answer is the latest binding of the first scope it stops at, with parents before children the nearest binding |
| `CursorLookup.MatchesIsContainment` | crates/standardoc-core/src/query.rs:698-702 | The SQL test is lexicographic start <= cursor <= end |
| `CursorLookup.ThousandColumnsIff` | crates/standardoc-core/src/query.rs:681-704 | Inner ranges always weigh less if and only if columns stay below a thousand |
| `CursorLookup.SymbolAtIsInnermost` | crates/standardoc-core/src/query.rs:686-712 | An answer exists exactly when a range contains the cursor, and no other match lies strictly inside it |
| `CursorLookup.InnermostIff` | crates/standardoc-core/src/query.rs:681-712 | For all rows and cursors with columns below a limit the answer has no other match strictly inside it, if and only if the limit is at most a thousand |
| `CursorLookup.OuterIsReturned` | crates/standardoc-core/src/query.rs:681-712 | Two nested ranges of equal weight for which the outer one is returned |
| `Signature.CompactRustTokens` | crates/standardoc-ir/src/signature.rs:71-87 | The loop keeps the sequence of non-whitespace characters |
| `Signature.WordsCut` | crates/standardoc-ir/src/signature.rs:51-53 | Every whitespace character separates: the words before it, then the words behind it |
| `Signature.CompactTwiceIff` | crates/standardoc-ir/src/signature.rs:56-103 | A second pass changes nothing if and only if the first two tokens are not lone colons before a token that keeps its space |
| `Signature.CompactIsStableFromTheSecondPass` | crates/standardoc-ir/src/signature.rs:70-70 | On compact output the pass is idempotent, for every input |
| `Signature.SplitColonsExample` | crates/standardoc-ir/src/signature.rs:71-103 | A family of inputs where the second pass removes a space |
| `Signature.NormalizeAndCompact` | crates/standardoc-ir/src/signature.rs:51-53 | Normalising is idempotent, does not change what compacting gives, and leaves compact text alone |
| `AgentsMd.WriteSettlesIff` | crates/standardoc-cli/src/init/agents_md.rs:28-62 | After a write the next merge is a no-op if and only if no begin marker was left unclosed |
| `AgentsMd.UnclosedLosesText` | crates/standardoc-cli/src/init/agents_md.rs:28-62 | Otherwise the second merge drops everything from that marker on |
| `AgentsMd.AtMostTwoWrites` | crates/standardoc-cli/src/init/agents_md.rs:28-62 | For every text the third merge does not write |
| `AgentsMd.ReplacePreserves` | crates/standardoc-cli/src/init/agents_md.rs:33-42 | A replacing write keeps everything outside the markers and changes the block |
| `AgentsMd.ReplacedIsMarked` | crates/standardoc-cli/src/init/agents_md.rs:56-62 | What is replaced runs from a begin marker to an end marker |
| `AgentsMd.AppendPreserves` | crates/standardoc-cli/src/init/agents_md.rs:44-53 | An appending write keeps the whole text and leaves a blank line after it, and more than one exactly when the text already ended in more |
| `AgentsMd.StandardMarkers` | crates/standardoc-cli/src/init/agents_md.rs:7-8 | The program's markers cannot straddle one another or a line end, and differ |
| `AgentsMd.MarkersAreManaged` | crates/standardoc-cli/src/init/agents_md.rs:7-19 | Such markers one after the other are a managed text, so the merge theorems speak of something |

## Left out

- Index columns: `columns` and `attributes` bundle the columns the diff and the replay copy without looking at them; edge sites, revisions, confidence and context columns are inside them.
- IndexTables.UpdatePositionsKeeps: the revision that a move also writes is not modelled, because no query modelled here reads it.
- IndexWriter.Index.UpdateSymbolPositions: the revision that a move also writes is not modelled.
- IndexTheorems.UpsertReplacesFile: the names of one extraction are distinct, as for `ReplayOld` and `ReplayNew`; an extraction that gives one name twice is only shown to keep the tables sound (`IndexReplay.ReplayPlanSound`).
- File rows, parse errors, call sites, FFI bindings, module lookups and bridge-kind validation: passes of the same shape over other tables, which would add easier members.
- Several workspaces in one index: the model is one workspace, where the fqdn is a key.
- Storage errors and transactions: every statement succeeds, and a command is one step.
- Language extractors, SQLite, HTTP transport, file watching, the editor protocol and BLAKE3: foreign code; extractions, resolver answers, LIKE and digests are arbitrary inputs.
- CrossWorkspace.RewriteCrossWorkspaceEdges: the attributes and confidence of edges that are not rewritten are carried, not interpreted.
- CommentStripper.Strip: the nesting depth is unbounded; the program's 32-bit counter is not modelled.
- SfcPayload.AlignedIff: the only-if half needs a visible byte in every setup script; with blank ones `SfcExamples.PlainLastIff` and `SfcLateSetup.LateSetupIff` are exact when the last script is plain or is one setup script behind it, and several late setup scripts after blank early ones are not followed.
- SfcBlocks.ExtractBlocks: the recognised tags are compared in lower case as the program does; attribute text is not decoded further.
- IndentRoundTrip.CompactBodyIndent: takes lines without newlines, which is what the caller splits a body into; the width a tab stands for is not part of the transmitted result, so undoing needs the detected width.
- `collapse_blank_lines_in_body` and `count_leading_noise_lines`: small filters beside the two passes modelled here.
- SxdLowering.LowerBlockFields: the five blocks share one loop over five field tables; messages are rules, not texts, so wording that differs between the two readings is not compared.
- SxdMirror.LoadsIffSilent: positions of diagnostics are carried, but not proved to lie inside the file.
- ProxyRegistry.EveryRunIsSafe: counters do not wrap at 64 bits; the registry is a value changed by atomic steps rather than a locked object.
- ProxyRetry.ForwardLoop: time is a whole number of milliseconds; streaming of the response is not modelled.
- LockfileRuns.CacheIsCoherent: a resolution is one atomic step, and a file's content is identified with its digest.
- Luarocks: it has no lockfile, so its rows are never invalidated and carry no claim.
- ScopeArena.ModuleLookup.ResolveLocal: for a bound name it requires that the walk ends, and `ScopeArena.WalkEndsIff` says exactly when it does; imports are not modelled.
- CursorLookup.SymbolAtIsInnermost: rows are ranges; ties go to the first row, where SQL leaves the choice open.
- AgentsMd.WriteSettlesIff: the managed text is a parameter with one begin marker at its start and one end marker at its end.
- Migration of `.stdignore`, hover texts, slug tables, the hex codec, the playground, camera and canvas code: fixed-size or user-interface facts.
