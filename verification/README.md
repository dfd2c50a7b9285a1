# Howler: a verified model of its data layer

Howler keeps security hits in Elasticsearch and marks them with classifications. This project models the parts of it
where a mistake loses data or grants access, and proves what those parts are for. `dafny verify dfyconfig.toml` checks
all of it.

- **Index maintenance** (`Elastic`, `Reindex`, `FixShards`, `IlmBootstrap`, `IndexList`). The cluster is a map from index
  name to documents, write block, aliases and shard count. Every Elasticsearch call is one atomic step that takes effect
  or raises without effect, and before each of them any number of writers may store and delete documents in indexes that
  are not blocked. A process that dies is a run in which every later call raises, so a statement about all runs covers
  every point where a run can stop. `ledger` (in `FixShards`, `ack`) is what writers were acknowledged. `Sound` says that
  the documents found under each name, or under its `__reindex` copy when the name is missing, are the acknowledged ones,
  now and after every step before. `faults` counts the calls that raised although nothing stood against them, `losses` the
  copies that left something out, and `frozen` holds the documents an index had when it was last blocked; with them the
  contracts say when a run must succeed.
- **Optimistic concurrency** (`VersionToken`, `VersionedSave`) and the **update scripts** (`Script`, `ScriptText`). `found` and
  `before` are the document and the log as the last request found them, after the other clients' turn. `ScriptText` reads the
  text of a script back and runs it.
- **Classification** (`Strings`, `Marking*`, `Parsing`, `Spelling`, `Printing`, `Formats`, `Normalization`, `AutoSelect`,
  `Access`, `Engine`, `Rereading`, `TextLaws`, `Validity`, `Classifier`, `CacheLimits`, `Sample`, `Counterexamples`).
  `Marking.Parse` and `Marking.Print` say what a marking means and how it is written; `Parsing` and `Printing` are the
  loops, proved against them; `Formats` says on the definition's tables what a printed text looks like, and `Spelling` which
  texts mean the same; `Normalization` proves that parsing undoes printing, and
  `AutoSelect` what that means with automatic items; `Access` is the algebra on parsed parts,
  `TextLaws` what it promises about the texts returned, and `Classifier` the object with its caches.
  `Rereading.ReadAgain` is what the text of given parts parses to, so that a condition on it can be evaluated before a text
  is printed; `Rereading.Operand` is what a text stands for once it is normalized, with the cache as it is. `WellFormed`
  collects what a coherent configuration guarantees, and `Sample` and `Counterexamples` build definitions that meet it. The
  order of a list made from a Python set is the parameter `hash`, about which nothing but its members is known.
- **Duplicate finder** (`Duplicates`, `DuplicateRemoval`). `snap` is the content of the indexes when the scan starts,
  `done` the last identifier reported.
- **WebSocket connection** (`Utf8`, `WebSocket`, `Handover`), after section 5.4 of RFC 6455.
- **Workflow and voting** (`Workflow`, `Voting`), **nested and flat documents** (`Nesting`, `Columns`), **field-scoped
  updates** (`Prune`, `Bulk`).

## What turned out not to hold everywhere

- Reindex cleanup does not unblock an index that a failed reindex left blocked before its target existed:
  `Reindex.CleanupRecovers` says exactly when, and `Reindex.BlockStays` is such a run.
- `fix_shards` takes a collection whose aliased index has the target count for finished, even with a copy left over from
  a run towards another count (`FixShards.Store.FixShards`), and lifts the write block. A copy that is there wins over what
  was written since it was made (`FixShards.Store.Move`): a later run towards another count loses what was acknowledged in
  between, and nothing else (`FixShards.Store.TwoTargets`). Unblocking is datastore-wide, so another collection's run does
  it too.
- The lifecycle bootstrap makes a leftover `__reindex` index the write index exactly when no rollover index is newer than the
  one it belongs to, be that one still there or deleted by a reindex that stopped (`IlmBootstrap.LatestIsTarget`).
- When two processes migrate a legacy index, the one whose clone fails removes the first rollover index in its rollback. That
  takes the alias off the collection exactly when the other one has switched (`IlmBootstrap.TwoMigrations`).
- A version token is misread exactly for index names with three dashes or a final dash (`VersionToken.TokenDecodes`).
- Two saves with the create token can both succeed, without a deletion in between, if and only if the collection's name
  stood for different physical indexes, as after a rollover (`VersionedSave.Datastore.TwoCreates`).
- A dynamic group that holds `REL ` after its first cleaning, or that alone spells an item with another solitary name, does
  not survive printing; `Normalization.ParseInvertsPrint` says exactly when groups do.
- For such groups the cache of normalized texts shows: it answers with a text that parses to something else than its
  normalized form, or that does not parse (`CacheLimits.CacheShows`, `CacheLimits.CacheAnswersUnread`);
  `Engine.CachedAnswer` says exactly when it does not. Two engines with one definition and different histories answer the
  same calls differently (`CacheLimits.HistoryShows`).
- For such groups, too, the text of a maximum need not bound access (`TextLaws.DisplayNameEscapes`,
  `Counterexamples.MaxEscapes`), and the grouping of a maximum of three can decide whether there is one
  (`TextLaws.DisplayNameRegroups`). `Access.MaxGuards`, `Access.MinOpen`, `Access.IntersectSound` and `Access.BuildSeesAll`
  say exactly when a text read back as something else keeps what the operation promises.
- `is_valid` rejects a normalized marking in three cases and no other: it does not parse; it is not in the cache and its
  groups do not survive printing once more (`CacheLimits.NormalizedNotValid`); or its only group is the empty dynamic one,
  between required items and subgroups and behind another section of required items (`Validity.NormalizedIsValid`,
  `Counterexamples.TornMarking`).
- With required groups, max and min bound access only under a condition (`Access.MaxGuardsWithRequiredGroups`,
  `Access.MinOpenWithRequiredGroups`, `Counterexamples.RequiredGroupEscapes`); when the groups go beyond the limit of a
  subgroup, the text of max, min or build does not even parse, if its groups are printable (`TextLaws.UnfitIsUnread`,
  `Counterexamples.LimitedGroupUnread`).
- With automatic groups or subgroups, a marking keeps its parts only if it has those already (`AutoSelect.SelectionKeeps`).
- Voting on a hit one is assigned to is always refused when the transition leads to another status than open; one without a
  destination lets it through (`Voting.CastVote`). And a vote computed from an older hit can leave an email in two lists
  (`Voting.LateBallotKeepsOne`).
- The workflow's table joins status and name without a separator, so two that run together select another transition
  (`Workflow.FindSelects`, `Workflow.NamesRunTogether`).
- With two receivers a wake-up can be lost (`Handover.TwoReceivers`).
- A partial update clobbers unrelated paths when its body has a list or a scalar above them and some selected path goes on
  below that (`Prune.UpdateKeepsOthers`).
- A bulk plan without a batch size raises when it is empty (`Bulk.BulkPlan.GetPlanBatches`).

## Model

| member | source | states |
|---|---|---|
| Reindex.Reindex | api/howler/datastore/collection.py:770-920 | Over every interleaving of writers and raising calls, with `allow_failures` off every acknowledged document is at all times in an existing index; on success every index is the rebuilt one with the shard count asked for, has its aliases with their data, accepts writes and has no target left; without a leftover target it raises only when a call did, or a copy left something out; a failure before a source is deleted leaves every index recoverable, and a block that stays has such a cause |
| Reindex.ReindexOne | api/howler/datastore/collection.py:796-918 | One round: refuses, changing nothing, exactly when a target is left over or a call or a copy fails; on success the index was rebuilt with the shard count asked for, from the documents it had when it was blocked or, with failures allowed, a part of them; otherwise it is recoverable unless its source was already deleted |
| Reindex.BlockSource | api/howler/datastore/collection.py:820-834 | The source keeps its aliases, is blocked if and only if the flag says so, and the saved count is that of the blocked documents |
| Reindex.CopyAndCheck | api/howler/datastore/collection.py:836-867 | When the checks pass without `allow_failures`, the target holds exactly the source's documents; the source is still there, blocked |
| Reindex.CheckCopy | api/howler/datastore/collection.py:855-867 | Passing means no failure, no conflict and the source's count |
| Reindex.CopyCounts | api/howler/datastore/collection.py:973-1001 | A part of the source documents with an equal count is all of them |
| Reindex.ValidateResult | api/howler/datastore/collection.py:930-971 | Passes exactly without failures and conflicts, or when failures are allowed |
| Reindex.ValidateCounts | api/howler/datastore/collection.py:973-1001 | Passes exactly on equal counts, or when failures are allowed |
| Reindex.DeleteSource | api/howler/datastore/collection.py:869-871 | Deleting a source whose target holds the same documents loses nothing acknowledged |
| Reindex.Restore | api/howler/datastore/collection.py:881-901 | Cloning back, restoring every saved alias and removing the target, without losing a document at any point |
| Reindex.Commit | api/howler/datastore/collection.py:869-909 | After the commit the index is the one cloned from the target, with the saved aliases, accepts writes and has no target; the handler's flag is still set exactly when the source is intact |
| Reindex.ActAdds | api/howler/datastore/collection.py:890-897 | A list of alias additions gives the index each named alias with its data and leaves the other aliases |
| Reindex.CleanupOne | api/howler/datastore/collection.py:1017-1064 | Refuses, changing nothing, exactly when only the target is left or a call raises; otherwise the source has the merged aliases, accepts writes and its target is gone, and a source without target is left as it is |
| Reindex.RestoreAliases | api/howler/datastore/collection.py:1037-1054 | The source ends with its own aliases and the target's: it is the write index of an alias exactly when one of the two was, and the source's settings win |
| Reindex.ReindexCleanup | api/howler/datastore/collection.py:1003-1066 | Every index of the list is cleaned, no acknowledged document is lost; unless a target has lost its source it raises only when a call did |
| Reindex.CleanupRecovers | api/howler/datastore/collection.py:1003-1066 | A recoverable failure followed by cleanup gives the original aliases and no target; the index stays write-blocked exactly when it was left blocked without a target |
| Reindex.BlockStays | api/howler/datastore/collection.py:820-834 | A round that stops right after blocking its source leaves a block that cleanup does not lift |
| Reindex.ReindexThenCleanup | api/howler/datastore/collection.py:770-1066 | The two commands in sequence, for every index of the collection |
| Reindex.Operate | api/howler/datastore/collection.py:770-1066 | Any sequence of reindex runs and cleanups over any lists, each ending anywhere, never loses an acknowledged document |
| Elastic.Elastic.Write | api/howler/datastore/collection.py:79-80 | Writers honour the write block, and what they are acknowledged stays what the slot holds |
| IndexList.IndexListFacts | api/howler/datastore/collection.py:255-265 | The list names every physical index once, the active one first and the others from the greatest name down |
| IndexList.IndexListFalls | api/howler/datastore/collection.py:255-300 | When the active index is the newest, the list goes strictly from newest to oldest |
| FixShards.Store.FixShards | api/howler/datastore/collection.py:610-758 | From any state a run may leave and without a raising call, it completes if one shard count divides the other, and otherwise aborts, changing nothing; a completed run has the alias on the index, the target count, all acknowledged documents, no copy and no write block, if and only if it did not start with a copy and the target count reached |
| FixShards.Store.Rerun | api/howler/datastore/collection.py:610-758 | Any number of runs that stop anywhere keep every acknowledged document behind the alias; the first without a raising call completes, and that restores everything |
| FixShards.Store.RunAll | api/howler/datastore/collection.py:610-758 | Any sequence of runs towards any counts keeps every acknowledged document behind the alias, up to the first run that would meet a copy and the count it is after |
| FixShards.Store.TwoTargets | api/howler/datastore/collection.py:610-758 | After a run that met both, a run towards another count puts back what was acknowledged before: all documents survive exactly when nothing was acknowledged in between |
| FixShards.Store.Relocate | api/howler/datastore/collection.py:610-747 | The run up to unblocking, from any state with something to carry over; it fails only when a call raises |
| FixShards.HousekeepingStarts | api/howler/datastore/collection.py:660-690 | There is a state a run may stop in that holds a copy and already has the count of the next one |
| FixShards.Store.Move | api/howler/datastore/collection.py:674-747 | What ends up in the index is the copy if there was one, else all that was acknowledged; every shrink or split has dividing counts |
| FixShards.Store.MoveBlocked | api/howler/datastore/collection.py:683-747 | Under the write block: one copy, one rebuild, two swaps, and the alias always on an index with the carried documents |
| FixShards.Store.EnsureCopy | api/howler/datastore/collection.py:683-710 | A copy is there afterwards, the one of an earlier run if it had made one |
| FixShards.Store.PointAtCopy | api/howler/datastore/collection.py:712-725 | The alias is on the copy afterwards, moved in one step with the removal of the original |
| FixShards.Store.DropOriginal | api/howler/datastore/collection.py:727-730 | Nothing is left under the original name, and the alias is not touched |
| FixShards.Store.Rebuild | api/howler/datastore/collection.py:732-734 | The copy is shrunk or split into the original name with all its documents |
| FixShards.Store.PointAtIndex | api/howler/datastore/collection.py:736-747 | The alias is on the rebuilt index and the copy is gone, in one step |
| FixShards.Store.RestoreWrites | api/howler/datastore/collection.py:749-758 | Without a copy the collection stays resumable, and on completion nothing is blocked; a copy stays what it was |
| FixShards.NamesOf | api/howler/datastore/collection.py:622-622 | The copy's name is never the index's |
| IlmBootstrap.AliasActions | api/howler/datastore/collection.py:3017-3048 | The actions leave the alias with the latest index as its one write index and without the legacy member; there are none exactly when that holds already |
| IlmBootstrap.RepairBootstraps | api/howler/datastore/collection.py:3017-3048 | The repair establishes that state and keeps every other setting and alias |
| IlmBootstrap.EnsureAlias | api/howler/datastore/collection.py:3011-3056 | The same against a cluster with writers and raising calls: all or nothing, and nothing only when a call raised |
| IlmBootstrap.LatestIsTarget | api/howler/datastore/collection.py:3005-3013 | The index taken for the latest is a leftover reindex target exactly when no rollover index is newer than the one some target belongs to, whether that one is still there or was deleted by a reindex that stopped |
| IlmBootstrap.CloneAndSwap | api/howler/datastore/collection.py:3073-3097 | The new index holds exactly the legacy documents, accepts writes and is the alias's write index; when a call raises the legacy index is as before and a clone carries no alias; it raises when the index was there already |
| IlmBootstrap.Rollback | api/howler/datastore/collection.py:3099-3131 | Both recovery calls are tried; those that succeed restore writes and remove the first rollover index, whoever made it; the legacy index keeps its aliases |
| IlmBootstrap.Migrate | api/howler/datastore/collection.py:3060-3145 | A migration that raises and whose recovery succeeds restores indexes, aliases and write access; one that switched has the documents of the blocked legacy index behind the alias; one that finds the index of another process raises |
| IlmBootstrap.TwoMigrations | api/howler/datastore/collection.py:3060-3145 | Of two processes that migrate, the rollback of the second leaves the alias with what it stood for if and only if the first has not switched; otherwise the alias loses the first rollover index too, after the legacy one |
| IlmBootstrap.SwitchedIsBootstrapped | api/howler/datastore/collection.py:3089-3097 | After the switch the alias has one write index |
| IlmBootstrap.EnsureCollectionIlm | api/howler/datastore/collection.py:2985-3168 | Over existing rollover indexes, by migration, from scratch or next to another process creating the same first index, the alias ends with the latest index as its one write index, a migrated one with the documents the legacy index was blocked with, a new one with the shard count asked for; it raises only when a call did |
| IlmBootstrap.CreateInitial | api/howler/datastore/collection.py:3147-3168 | The first index, made here or by another process, carries the alias as its write index; only the answer that it exists is tolerated |
| IlmBootstrap.BootstrapTwice | api/howler/datastore/collection.py:2985-3168 | A second run issues no alias action |
| VersionToken.TokenDecodes | api/howler/datastore/collection.py:1229-1263 | A token gives back its index, sequence number and term if and only if the index holds no three dashes and does not end in a dash |
| VersionToken.ShortTokenDecodes | api/howler/datastore/collection.py:1251-1263 | A token without index stands for the collection's name |
| VersionToken.TokenIsNoCreate | api/howler/datastore/collection.py:82-85 | No version token is taken for the request to create |
| VersionedSave.Datastore.IndexDoc | api/howler/datastore/collection.py:1400-1421 | A write is accepted exactly when it is unconditional, creates what is not there, or replaces the one version it names, and then the document is what it stored |
| VersionedSave.Datastore.TwoCreatesApart | api/howler/datastore/collection.py:1400-1421 | In every run, two accepted creations in one physical index have a deletion in between |
| VersionedSave.Datastore.TwoCreates | api/howler/datastore/collection.py:1400-1421 | Without a deletion, two saves with the create token are both accepted if and only if the collection's name stood for different physical indexes |
| VersionedSave.Datastore.Get | api/howler/datastore/collection.py:1187-1249 | The token handed out belongs to what was read, even when the search shows an old version; a document counts as missing only after every retry, and, when it is there, only if a search missed it |
| VersionedSave.Datastore.Save | api/howler/datastore/collection.py:1365-1428 | Whatever other clients do in between, a save with a token is accepted if and only if the version of the token is still the document, and then replaces exactly that; in a managed collection so is one without a token, over a version read at its start; in another collection such a save always stores the data. Every accepted save is one entry of the log, and a refused one is none; a token that cannot be decoded raises |
| Script.CompiledScript | api/howler/datastore/collection.py:1467-1526 | Running the compiled script is applying the operations from left to right, errors included |
| Script.JoinedText | api/howler/datastore/collection.py:1520-1524 | The joined text is one statement a line with a semicolon after each but blocks and the last |
| ScriptText.ReadsStmt | api/howler/datastore/collection.py:1477-1514 | A reader of the script language gives every statement back from its text |
| ScriptText.TextDoesOperations | api/howler/datastore/collection.py:1467-1526 | The text of the script, read and run, does what the operations say from left to right, errors included, for field paths of letters, digits, underscores and dots |
| Script.CreateScript | api/howler/datastore/collection.py:1467-1526 | The text is the rendering of the compiled statements and each parameter is bound to its own value |
| Script.PositionFacts | api/howler/datastore/collection.py:1488-1494 | Removing at the position found is removing the first occurrence |
| Parsing.GetParts | api/howler/common/classification.py:505-523 | The loops compute the meaning of the text, and fail exactly when it has none |
| Parsing.GetRequired | api/howler/common/classification.py:281-304 | The required items found, and the pieces left over |
| Parsing.GetGroups | api/howler/common/classification.py:306-396 | Groups, subgroups and leftovers, in any order of Python's sets |
| Printing.GetText | api/howler/common/classification.py:413-503 | The loops print what the seven steps of the printer say; `Formats.PrintedIsWorded` says what text that is |
| Formats.PrintedIsWorded | api/howler/common/classification.py:413-503 | A printed text is, in the long format, made of the long names of the raised level, the required items, the groups and the subgroups, and in the short format of the short names: required items shown with the groups apart and in order, a display name exactly for a single group that has one, the first fitting alias of several groups in the short format only, and otherwise the groups in order |
| Engine.PrintedInFormat | api/howler/common/classification.py:193-201 | Every cached text is such a text, of its format |
| Normalization.ParseCloses | api/howler/common/classification.py:505-523 | What a text parses to is closed: configured names, required groups added, limits kept |
| Spelling.AnyCase | api/howler/common/classification.py:252-284 | Markings are read without regard to letter case |
| Spelling.LevelSpelling | api/howler/common/classification.py:252-266 | A marking parses the same with the short name, the long name or an alias of its level |
| Spelling.AbbreviationSpelledOut | api/howler/common/classification.py:281-366 | A marking parses the same with a long name, an alias or the display name of a group as with the names it stands for, whatever stands around it |
| Spelling.GroupsSpelledOut | api/howler/common/classification.py:306-337 | The same for a long name or an alias among the names of a group list |
| Normalization.ParseInvertsPrint | api/howler/common/classification.py:252-503 | Parsing a printed text gives back exactly its parts, the level raised to the required one, if and only if its groups can be written in a marking and read back |
| AutoSelect.ParseInvertsSelection | api/howler/common/classification.py:252-503 | For any definition, automatic groups and subgroups included: parsing a printed text gives exactly the parts printing selected, the level raised, if and only if those groups are printable |
| AutoSelect.SelectionKeeps | api/howler/common/classification.py:413-503 | Printing and parsing keep the parts of a marking exactly when they already hold what printing selects and are at the level their required items ask for |
| AutoSelect.SelectionIsWorded | api/howler/common/classification.py:413-503 | With automatic items the text is worded like that too, for the parts printing selects |
| AutoSelect.SelectedTwice | api/howler/common/classification.py:433-463 | Selecting what printing adds a second time adds nothing |
| AutoSelect.SelectedIsFilled | api/howler/common/classification.py:433-463 | Without automatic items, or when they are skipped, printing adds required groups only |
| MarkingRoundTrip.GroupsReadBack | api/howler/common/classification.py:306-396 | A printed group section means exactly its groups, for solitary names and multi-group aliases too |
| MarkingRoundTrip.GroupsLost | api/howler/common/classification.py:306-396 | When the groups are not printable, one of them is lost |
| Engine.NormalizedRoundTrip | api/howler/common/classification.py:986-1027 | Parsing a normalized text gives the parsed parts with the level raised, exactly when its groups are printable |
| Engine.ConfiguredArePrintable | api/howler/common/classification.py:306-396 | Without dynamic groups every parsed classification is printable |
| Rereading.TextReadAgain | api/howler/common/classification.py:306-503 | What the text of any parts parses to is a function of the parts, whatever the format and the order of Python's sets |
| Rereading.ReadAgainFacts | api/howler/common/classification.py:306-503 | What is read back has the level and the required items of the printed parts and is closed; it is the printed parts exactly when their groups are printable |
| Sample.SmallIsWellFormed | api/howler/common/classification.py:59-205 | A definition with a required level, a solitary name and a subgroup tied to its group meets what the laws assume, whatever its names are |
| Sample.SmallExists | api/howler/common/classification.py:59-205 | There is such a definition |
| Engine.ConversionKeepsParts | api/howler/common/classification.py:986-1027 | A further printing of normal parts, in either format, parses to the same parts exactly when their groups are printable |
| Engine.PrintedIsFixed | api/howler/common/classification.py:986-1027 | Without dynamic groups a printed text parses, to normal parts |
| Engine.PrintedAgain | api/howler/common/classification.py:986-1027 | Normalizing a printed text gives a text of the same meaning exactly when it parses and its groups are printable |
| Engine.CachedAnswer | api/howler/common/classification.py:1010-1014 | A cached answer means what every uncached one does exactly when the text parses and its groups are printable, hence always without dynamic groups |
| CacheLimits.CacheShows | api/howler/common/classification.py:1010-1014 | With dynamic groups, the printed text of a group that still holds `REL ` when read back once is answered from the cache and is not what normalizing it gives |
| CacheLimits.CacheShowsSomewhere | api/howler/common/classification.py:1010-1014 | Every definition with dynamic groups has such a text: the one printed for the group RREL EL Y |
| CacheLimits.CacheAnswersUnread | api/howler/common/classification.py:1010-1014 | The printed text of a dynamic group that spells an item whose display name means nothing is answered from the cache though it does not parse |
| CacheLimits.HistoryShows | api/howler/common/classification.py:808-1027 | With dynamic groups there is a marking that two engines with the same definition normalize to texts of different meaning and of which only one says that it is valid, because only one has normalized another marking before |
| CacheLimits.NormalizedNotValid | api/howler/common/classification.py:808-1014 | A normalized form that is valid exactly when it is in the cache |
| Classifier.Classification.constructor | api/howler/common/classification.py:193-201 | The preloaded caches hold printed texts only |
| Classifier.Classification.Normalize | api/howler/common/classification.py:986-1027 | A cached text is answered as it is, and means what the computed answer would exactly when it parses and its groups are printable; any other text is parsed and printed, with the names of the format asked for; the cache stays coherent |
| Classifier.Classification.NormalizeBoth | api/howler/common/classification.py:912-925 | The two texts a binary operation goes on with stand for the parts of the normalized forms, the second one found in what the first left in the cache |
| Rereading.OperandFacts | api/howler/common/classification.py:986-1027 | The normalized form of a text has normal parts; they depend on the cache only for groups that do not survive printing |
| Rereading.KeepsItsParts | api/howler/common/classification.py:823-842 | Normalizing keeps the parts of a marking exactly when its text is in the cache, or its groups are printable and its level is the one its required items ask for |
| Classifier.Classification.IsValid | api/howler/common/classification.py:808-896 | It accepts exactly the markings whose parts normalizing keeps, as the cache stands, and that have the shape of a marking; the cache afterwards |
| Validity.WellShaped | api/howler/common/classification.py:844-896 | The loops over sections and items accept exactly a level, required items, and at last groups and subgroups |
| Validity.PrintedIsShaped | api/howler/common/classification.py:844-896 | A printed marking has that shape exactly unless the empty dynamic group stands between required items and subgroups, with other required items before |
| Validity.NormalizedIsValid | api/howler/common/classification.py:808-896 | A normalized marking is valid exactly when it parses, is in the cache or parses to printable groups, and is not torn apart by the empty dynamic group; without dynamic groups always |
| Counterexamples.TornMarking | api/howler/common/classification.py:808-896 | A definition and a marking whose every normalized form is rejected, cached or not |
| Classifier.Classification.IsAccessible | api/howler/common/classification.py:761-806 | Access as defined on parsed parts, with both treatments of unparsable markings |
| Classifier.Classification.MaxClassification | api/howler/common/classification.py:898-937 | For any two texts: it raises exactly when one of them has no normalized form that parses or their maximum does not exist; otherwise the text is that of the maximum of the normalized forms, with what `TextLaws.MaxTexts` says of it; with one text missing it is the other one, normalized; the caches afterwards |
| Classifier.Classification.MinClassification | api/howler/common/classification.py:939-984 | For any two texts: the text of the minimum of the normalized forms, with what `TextLaws.MinTexts` says of it; the caches afterwards |
| Classifier.Classification.IntersectUserClassification | api/howler/common/classification.py:719-759 | For any two texts: the text of what the normalized forms share, with what `TextLaws.IntersectTexts` says of it; the caches afterwards |
| Classifier.Classification.BuildUserClassification | api/howler/common/classification.py:1029-1068 | For any two texts: the text of all that the normalized forms have, with what `TextLaws.BuildTexts` says of it; the caches afterwards |
| TextLaws.MaxTexts | api/howler/common/classification.py:898-937 | When the maximum with its required groups is within the limits of its subgroups, its text parses to it exactly when the groups are printable; who sees the text sees both classifications exactly when no group was added, and, without group rules, exactly when what the maximum reads back as names no more; outside the limits the text of printable groups does not parse |
| TextLaws.MinTexts | api/howler/common/classification.py:939-984 | The same for the minimum and for who sees one of two classifications |
| TextLaws.IntersectTexts | api/howler/common/classification.py:719-759 | The text of an intersection is always within the limits; a user with it sees only what both users see, exactly when the groups it reads back as are shared ones |
| TextLaws.BuildTexts | api/howler/common/classification.py:1029-1068 | Within the limits a user with the text of a combination sees all that either user sees, exactly when all their groups are read back; outside them the text of printable groups does not parse |
| TextLaws.UnfitIsUnread | api/howler/common/classification.py:343-396 | Parts outside the limits of their subgroups are printed, and the text does not parse |
| Counterexamples.LimitedGroupUnread | api/howler/common/classification.py:343-396 | A definition and two classifications whose maximum is such a text |
| TextLaws.MaxTextsCommute | api/howler/common/classification.py:898-937 | The text of a maximum means the same in either order, within the limits or for printable groups; the maximum of a classification with itself means the classification exactly when its groups are printable |
| TextLaws.MaxTextsAssociate | api/howler/common/classification.py:525-538 | Either grouping of three classifications raises on the same triples and otherwise means the same, when the maxima taken first have printable groups |
| TextLaws.StaysUnlessAlone | api/howler/common/classification.py:525-538 | They have, unless what two classifications share is a single dynamic group that spells another item |
| TextLaws.DisplayNameRegroups | api/howler/common/classification.py:478-538 | Then the grouping matters: with a third classification of other groups one grouping answers and the other raises |
| Counterexamples.MaxRegroups | api/howler/common/classification.py:478-538 | A definition and three classifications of which that is true |
| TextLaws.DisplayNameEscapes | api/howler/common/classification.py:478-486 | The maximum of two classifications that share only a dynamic group spelling a subgroup with a display name does not bound access: its text names the subgroup |
| Counterexamples.MaxEscapes | api/howler/common/classification.py:478-486 | A definition and two classifications of which that is true |
| Access.MaxGuards | api/howler/common/classification.py:898-937 | A text read back in place of the maximum keeps both classifications from whoever may not see them exactly when it names no more groups and subgroups than the maximum, and some where the maximum does |
| Access.MinOpen | api/howler/common/classification.py:939-984 | A text read back in place of the minimum is open to both sides exactly when whoever sees the minimum's groups and subgroups sees its own |
| Access.IntersectSound | api/howler/common/classification.py:719-759 | A user read back in place of what two users share sees only what both see exactly when it has no group or subgroup one of them lacks |
| Access.BuildSeesAll | api/howler/common/classification.py:1029-1068 | A user read back in place of two combined sees all that either sees exactly when it has all their groups and subgroups |
| Access.MaxIsLeast | api/howler/common/classification.py:898-937 | Without group rules the maximum is the least marking that keeps both classifications: a marking does exactly when there is a maximum and whoever sees the marking sees that |
| Access.MinIsGreatest | api/howler/common/classification.py:939-984 | Without group rules the minimum is the greatest marking open to both sides |
| Access.IntersectIsGreatest | api/howler/common/classification.py:719-759 | The intersection is the greatest user that sees only what both see |
| Access.BuildIsLeast | api/howler/common/classification.py:1029-1068 | The combination is the least user that sees all that either sees |
| Access.MaxGuardsWithRequiredGroups | api/howler/common/classification.py:898-937 | Within the limits, the printed maximum bounds the access of normalized users if and only if it already held every group its subgroups require |
| Access.MinOpenWithRequiredGroups | api/howler/common/classification.py:939-984 | With required groups the printed minimum stays visible to both sides under the same condition, and only then |
| Counterexamples.RequiredGroupEscapes | api/howler/common/classification.py:413-503 | A definition and two classifications whose maximum is seen by a user who may see only one of them |
| Access.MaxRaised | api/howler/common/classification.py:413-430 | Raising the level for required items does not disturb the maximum |
| Access.IntersectClosed | api/howler/common/classification.py:719-759 | Intersection respects required and limited groups by itself |
| Duplicates.NextPage | api/howler/external/check_duplicates.py:10-34 | A page fetched after deletions at or below what was reported is the page of the original snapshot |
| Duplicates.Scan.NextId | api/howler/external/check_duplicates.py:10-34 | A generator yields the next identifier of the snapshot, or ends with it |
| Duplicates.Scan.PushNext | api/howler/external/check_duplicates.py:37-41 | The heap gains the stream's next identifier, if it has one |
| Duplicates.OneEntryPerIndex | api/howler/external/check_duplicates.py:51-65 | The heap holds at most one entry per index, so comparing entries never goes past the index name |
| Duplicates.Scan.Round | api/howler/external/check_duplicates.py:55-62 | A round takes exactly the holders of the least identifier left, in ascending order, and terminates |
| Duplicates.Scan.Next | api/howler/external/check_duplicates.py:44-66 | The next report is the least duplicate not yet reported, with exactly the indexes that contain it; the end means there is none |
| DuplicateRemoval.KeepIndex | api/howler/external/check_duplicates.py:130-130 | The kept index is the first of the list among the holders |
| DuplicateRemoval.NewestKept | api/howler/external/check_duplicates.py:130-135 | On a list from newest to oldest the copy kept is the newest |
| DuplicateRemoval.DeleteDuplicates | api/howler/external/check_duplicates.py:69-76 | The listed copies are gone, nothing else is, and the count is that of the copies that were there |
| DuplicateRemoval.Deduplicate | api/howler/external/check_duplicates.py:111-148 | Every duplicate is reported once in ascending order with exactly its holders, up to an interruption; the stale copies of accepted ones are gone and counted, and nothing else is touched |
| DuplicateRemoval.NoIdDisappears | api/howler/external/check_duplicates.py:125-143 | Whatever is answered and wherever the scan stops, no identifier disappears |
| DuplicateRemoval.OneCopyLeft | api/howler/external/check_duplicates.py:125-140 | When every deletion is accepted, each identifier ends up in exactly the first index of the list that held it |
| Utf8.DecodeEncode | api/howler/helper/ws.py:228-249 | Decoding an encoded text gives it back |
| Utf8.EncodeConcat | api/howler/helper/ws.py:228-234 | Encoding fragment by fragment is encoding the whole |
| WebSocket.Connection.HandlePart | api/howler/helper/ws.py:214-255 | One fragment: too big exactly when the total passes the bound, and otherwise the stream is followed |
| WebSocket.Connection.Finish | api/howler/helper/ws.py:244-252 | The finished message is the concatenation of its fragments, in its type |
| WebSocket.Connection.HandleEvents | api/howler/helper/ws.py:189-264 | The buffer and the pending fragments follow the events in order, up to a fragment that goes over the bound; the counter is the pending length; no delivered message is over the bound; a delivery sets the event. The connection goes on if and only if there was no such fragment, no close and no refused answer, and only a request, a ping or, on the server's side, a close has an answer to refuse |
| WebSocket.Connection.Read | api/howler/helper/ws.py:148-187 | The same over any number of batches: the reader delivers everything and stays connected unless there is a close, a refused answer or a fragment over the bound |
| WebSocket.AnySplit | api/howler/helper/ws.py:214-255 | A text or binary message split into fragments in any way, with any other events in between, is delivered whole |
| Handover.ReturnedInOrder | api/howler/helper/ws.py:107-123 | In every interleaving of reader and receivers the messages returned are a prefix of the completed ones |
| Handover.NoLostWakeUp | api/howler/helper/ws.py:107-123 | With one receiver no wake-up is lost and the buffer is never popped empty |
| Handover.TwoReceivers | api/howler/helper/ws.py:107-123 | With two receivers a wake-up can be lost: a run that shows it |
| Workflow.MergeFacts | api/howler/helper/workflow.py:78-87 | Merging fails exactly on two updates of one property with different values, and otherwise has each property once with its value |
| Workflow.MergedAssignments | api/howler/helper/workflow.py:78-87 | Assignments merged key by key have the effect of all of them in order |
| Workflow.Workflow.Init | api/howler/helper/workflow.py:43-61 | Accepted exactly when every transition is valid and no start, name and destination repeat; the table is what the transitions say, the last one winning |
| Workflow.FindSelects | api/howler/helper/workflow.py:48-68 | For a status and a name the workflow finds the transition declared last for both, or else the one declared last for the name from any status, if and only if the two texts do not run together into those of another declared transition |
| Workflow.IntendedIsAdmitted | api/howler/helper/workflow.py:64-76 | That transition is refused exactly when it comes from a list that holds the empty status and not the current one |
| Workflow.NamesRunTogether | api/howler/helper/workflow.py:48-76 | An accepted workflow in which status and name run together: another transition than the one meant is taken |
| Workflow.Workflow.Transition | api/howler/helper/workflow.py:63-104 | The updates of the actions and the status change, merged, or an exception; the status is kept on an exception |
| Voting.VoteHit | api/howler/helper/hit.py:186-246 | It refuses exactly without an email, for an unknown vote, or for an assigned voter of a hit that is neither open nor in progress; otherwise its operations apply to the hit, leave the voter in the chosen list alone or nowhere when the vote repeats the old one, release an assigned voter and touch no other field |
| Voting.VotedCounts | api/howler/helper/hit.py:215-234 | The voter is in the chosen list alone, or nowhere when the vote repeats the old one, and nobody else's votes change |
| Voting.CastVote | api/howler/helper/hit.py:186-246 | A vote through the workflow, the compiled script and the run of its text keeps at most one vote per email, gives the hit the status of the transition, releases an assigned voter and touches no other field; it is refused exactly on bad input, without transition, or for an assigned voter whose hit cannot go back to open |
| Voting.CastVotes | api/howler/helper/hit.py:186-246 | Over any run of votes each one does that to the document before it, or nothing when it is refused |
| Voting.RepeatWithdraws | api/howler/helper/hit.py:215-234 | A vote repeated is a vote withdrawn |
| Voting.LateBallotKeepsOne | api/howler/helper/hit.py:215-234 | A vote computed from an older hit keeps one vote per email if and only if it only withdraws, or the voter has since voted for nothing, for the same, or for what it withdraws |
| Nesting.FlatToNested | api/howler/odm/base.py:93-110 | When no key begins another it never raises and gives the nested form of its argument, for keys in any order, values of any kind and despite repeated children; it terminates on every input |
| Nesting.NestingUndoes | api/howler/odm/base.py:93-110 | The nested form of a dotted form is the tree that was flattened |
| Nesting.NestedHolds | api/howler/odm/base.py:93-110 | Every value is found at the end of its key in the nested form |
| Nesting.NestedAddsNothing | api/howler/odm/base.py:93-110 | Every path of the nested form is a key, leads on from one or towards one |
| Nesting.Gather | api/howler/odm/base.py:96-105 | The first loop gathers exactly the sub-keys of each child |
| Nesting.FlattenedIsClean | api/howler/odm/base.py:93-110 | The dotted form of a nested dictionary never has a key that is also the beginning of another |
| Nesting.DottedFormFlattens | api/howler/odm/base.py:93-110 | Every nested dictionary has one dotted form and no other |
| Nesting.HasBound | api/howler/odm/base.py:107-108 | Every dictionary has the bound the termination rests on |
| Columns.Rows | api/howler/odm/base.py:871-891 | Column k of the rows is column k, no row has another key, and the columns are refused exactly when their lengths differ |
| Columns.TransposedOnce | api/howler/odm/base.py:871-891 | The rows are determined by the columns |
| Prune.PruneIsExact | api/howler/datastore/utils.py:38-59 | A value is kept exactly when a beginning of its dotted path is allowed or its path is the beginning of an allowed one, with lists transparent and of the same length; nothing is moved or made up |
| Prune.KeptIsSelected | api/howler/datastore/utils.py:48-55 | The step by step decisions come to that selection |
| Prune.PruneIdempotent | api/howler/datastore/utils.py:38-59 | Pruning again changes nothing |
| Prune.UpdateKeepsOthers | api/howler/datastore/bulk.py:187-205 | A field-scoped update leaves the stored value of every unrelated path as it is, exactly unless the body has a list or a scalar above the path and some selected path goes on below it |
| Bulk.ExpandFieldPatterns | api/howler/datastore/utils.py:10-35 | The expansion is each literal pattern and the known paths the others match |
| Bulk.GlobOneStar | api/howler/datastore/utils.py:31-34 | A pattern with one star matches by beginning and end, without overlap |
| Bulk.BulkPlan.AddUpdate | api/howler/datastore/bulk.py:160-205 | One operation per target with the pruned body, behind those already queued |
| Bulk.BulkPlan.GetPlanBatches | api/howler/datastore/bulk.py:216-229 | With a positive size the batches are the queue, cut every size operations; it raises exactly on a size of zero, the default one of an empty queue included |

## Left out

- Elasticsearch itself: retries, timeouts of calls that took effect anyway, a copy task that goes on after its result could
  not be read, and the automatic creation of a missing index are not modelled; the name list and the settings of an index
  are read in one step.
- Reindex.Reindex: with `allow_failures` on, nothing is claimed about the documents, because dropping some is what the option
  is for.
- Reindex.Commit: after a source is deleted and before the aliases are restored, only the survival of documents is claimed,
  because the saved aliases are in memory only. One maintenance command runs at a time.
- Reindex.CopyAndCheck: documents are copied as they are; mappings, settings, lifecycle metadata and replicas are not modelled.
- FixShards.Store.FixShards: replicas, routing and shard allocation, and collections with more than one index, are not
  modelled; writers are those of the collection itself.
- IlmBootstrap.Migrate: writers that go on addressing the legacy index by its own name after the switch, and writers through
  the alias after it, are not modelled; nor are the policy, the template and the field check, which only may raise.
- IlmBootstrap.EnsureCollectionIlm: another process is modelled where it creates the first index too, or, in
  `IlmBootstrap.TwoMigrations`, where its whole migration comes before the block of this one.
- VersionedSave.Datastore.Get: an unbounded number of retries (`require`) is not modelled.
- VersionedSave.Datastore.Save: normalization by the ODM, the ban on spaces in keys and `refresh` are not modelled.
- ScriptText.TextDoesOperations: field paths with other characters, which the script language reads otherwise, are not claimed
  to work.
- Script.CompiledScript: a field is addressed by its whole dotted path, so operations on a field and on one below it do not
  interfere; list removal by value and numbers other than integers are not modelled.
- Parsing.GetParts: the text of a level number given in place of a level name counts as invalid, Unicode beyond ASCII is not
  upper-cased and white space is that of Latin-1.
- Classifier.Classification.Normalize: of definitions with automatic items only the round trip is claimed, not the caches and
  the operations; the mode that does not enforce and the invalid mode are left out.
- Classifier.Classification.constructor: the definition and the list of combinations are parameters; loading them from YAML and
  enumerating the combinations is not modelled, and the caches are coherent for any list.
- Classifier.Classification.MaxClassification: of parts beyond the limits of their subgroups whose groups are not printable
  either, only that they are printed is claimed; so for min and build.
- TextLaws.MaxTextsAssociate: which triples a maximum of a single group that spells another item splits is not said exactly.
- Duplicates.Scan.Next: the heap is a list in ascending order, which pops in the order of `heapq`; documents stored in the
  scanned indexes by others during the scan are not modelled.
- DuplicateRemoval.Deduplicate: arguments, printing and a delete call that raises are not modelled.
- Handover.NoLostWakeUp: waking a receiver on disconnection and the handshake are not modelled.
- WebSocket.Connection.HandleEvents: what is sent back, the failure to send the refusal of a message
  over the bound, and the timing of pings, are not modelled.
- Workflow.Workflow.Transition: `get_transitions` and the transitions of the hit service are left out; actions are parameters,
  and a destination given as `None` counts as absent.
- Voting.VoteHit: the other actions return constant lists of assignments, to which `Workflow.MergedAssignments` applies.
- Nesting.FlatToNested: a caller's own dictionaries are values here, so a dictionary found under a key is not changed in place;
  when one key begins another, the order of the keys decides what is kept and whether it raises, and only termination and
  dot-free keys are claimed.
- Columns.Rows: the validation of the cells by the model is not modelled.
- Bulk.ExpandFieldPatterns: paths with line breaks, which the regular expression treats apart, are not modelled.
- Bulk.BulkPlan.AddUpdate: the other operations append a request without looking at the document, and rendering the plan as text is
  serialization; neither is modelled.
- Date, network and regular expression validators, random data, Flask routes, OAuth, the MCP server and the UI.
