# git-list-viewer: threading, indexing and search, modelled in Dafny

git-list-viewer shows a mailing-list archive kept in a git repository
(public-inbox style: every commit adds one message as a blob). An indexer
walks the history and writes one row per message id into a SQLite table,
together with the id of the thread's root, found by a single lookup in
the map of roots built during the walk. The search page lists the newest
100 threads whose first message is neither a reply nor a re-roll of a
patch series. The thread page selects the rows of one thread. It then
runs Jamie Zawinski's threading algorithm:

- build containers from the Message-ID and References headers;
- take the parentless ones as the root set;
- prune empty containers;
- group the roots by normalised subject;
- sort every sibling list by date;
- flatten the forest into indented lines. A reply that repeats its
  parent's subject is shown without one.

The model covers:

| module | file | what it models |
|---|---|---|
| `Text` | text.dfy | Python's `strip`, `lstrip`, `rstrip`, `strip(chars)` and `in` on strings, and the ASCII case folding SQLite applies |
| `Mail` | mail.dfy | the decoded `EmailMessage` |
| `Headers` | headers.dfy | extraction of the message id and the references |
| `Sanitize` | sanitize.dfy | `sanitize_message_id` of app.py |
| `Subjects` | subjects.dfy | `normalize_subject`, `_normalize_subject` and `_display_subject` |
| `Containers` | containers.dfy | the `Container` class, as a class `Arena` holding every container record, updated in place |
| `Frames` | frames.dfy | what `add_child` and new containers leave unchanged |
| `Build` | build.dfy | `build_containers_from_messages` and the root set |
| `BuildLinks` | build_links.dfy | what `build_containers_from_messages` links and stores, message by message |
| `Pruning` | prune.dfy | `prune_empty_containers`, and the forest of trees that an arena holds below a list |
| `Grouping` | grouping.dfy | `build_subject_table` |
| `Merging` | merging.dfy | `group_by_subject` and `merge_subject_containers` |
| `Sorting` | sorting.dfy | `sort_all_children` and the stable sort it relies on |
| `Flattening` | flatten.dfy | `_flatten` of jwz_threading.py and mbox_handler.py |
| `Coverage` | coverage.dfy | which messages the forest below a list of containers shows |
| `Nesting` | nesting.dfy | how a link between a message and its direct reply survives pruning and flattening; `Threading` follows it through grouping and sorting |
| `Threading` | thread.dfy | `thread` |
| `Indexer` | indexer.dfy | `_add_message_to_db`, `index_git_repo` and the query of `find_thread` |
| `Search` | search.dfy | `_search`, including SQLite's `LIKE` |

Pointers between containers become indices into the arena's sequence of
records. A ghost rank per container, smaller for a child than for its
parent, gives termination of the recursions over children. It is also
the proof that the child lists stay acyclic.

The definitions of `_normalize_subject`, `_display_subject` and
`_flatten` are the same in jwz_threading.py and mbox_handler.py. One
Dafny definition models both.

## Model

| member | source | states |
|---|---|---|
| Containers.HasDescendant | jwz_threading.py:33-38 | true exactly when the second container is a proper descendant of the first |
| Containers.GetSubject | jwz_threading.py:44-50 | a container holding a message gives that message's subject |
| Containers.GetSubjectFromSubtree | jwz_threading.py:44-50 | a non-empty `get_subject` comes from a message of the subtree |
| Containers.NotOwnDescendant | jwz_threading.py:33-38 | with acyclic child lists no container is its own descendant |
| Containers.RemoveFirst | jwz_threading.py:29-30 | `list.remove` of a present element takes out its first occurrence and keeps the rest in order |
| Containers.Detached | jwz_threading.py:27-31 | `remove_child` on records: the child leaves the list and loses its parent; nothing changes if it was not a child |
| Containers.Adopted | jwz_threading.py:19-25 | `add_child` on records: detached from its old parent, then appended to the new parent's children with the parent set |
| Containers.AdoptedRanked | jwz_threading.py:19-25 | linking keeps the child lists acyclic when the parent is outside the child's subtree |
| Containers.AdoptedCycle | jwz_threading.py:19-25 | the converse: linking a container under one of its own subtree leaves a cycle, so no ranks fit the result |
| Containers.AdoptedConsistent | jwz_threading.py:19-25 | `add_child` keeps parent and children links in agreement |
| Containers.Arena.NewContainer | jwz_threading.py:14-17 | a fresh container with the message, no parent, no children; the other records unchanged |
| Containers.Arena.SetMessage | jwz_threading.py:140 | only the message of one container changes |
| Containers.Arena.RemoveChild | jwz_threading.py:27-31 | the arena's records become `Detached`, links stay consistent |
| Containers.Arena.AddChild | jwz_threading.py:19-25 | the arena's records become `Adopted`, the child lists stay acyclic and consistent |
| Frames.AdoptedKeepsReach | jwz_threading.py:19-25 | `add_child` keeps every descendant relation except through the moved child |
| Frames.IntactSubject | jwz_threading.py:44-50 | a subtree that `add_child` did not touch keeps its `get_subject` |
| Subjects.NormalizeSubject | jwz_threading.py:53-62 | the key is no longer than the subject, trimmed at both ends, and "" for "" |
| Subjects.NormalizeDropsReplyPrefix | jwz_threading.py:59 | one `re:`/`RE:`/`re[n]:` prefix and the spaces after it do not change the key |
| Subjects.NormalizeRemovesAtMostTwo | jwz_threading.py:59-60 | after two prefixes are removed, a third `re:` stays in the key |
| Subjects.MixedCaseReplyKeepsPrefix | jwz_threading.py:59-60 | `Re: X` and `X` get different keys: mixed-case `Re:` is not removed |
| Subjects.NormalizeUnprefixed | jwz_threading.py:59-62 | without a prefix the key is the trimmed subject |
| Subjects.DisplayNormalize | jwz_threading.py:248-249 | `_normalize_subject`: no longer than its input, trimmed |
| Subjects.DisplayNormalizeDropsPrefix | mbox_handler.py:20-21 | a `Re:`/`Fwd:`/`Fw:` prefix, in any case, makes no difference to the normalised subject |
| Subjects.DisplaySubject | jwz_threading.py:252-259 | the shown subject is the subject or ""; "" exactly when the subject is empty or repeats the parent's, below the top level |
| Subjects.ReplyToParentHidesSubject | mbox_handler.py:24-31 | a reply titled `Re: <parent's subject>` shows no subject below the top |
| Build.UniqueRefs | jwz_threading.py:146-152 | the references without repeats, every one kept, in order of first occurrence |
| Build.DedupProperties | jwz_threading.py:146-152 | no repeats, same set, first-occurrence order |
| Build.LastWithIdIsLast | jwz_threading.py:138-140 | a later message with the same id replaces the stored one |
| Build.LinkReference | jwz_threading.py:161-163 | a reference is linked under the previous one only if it has no parent and would not close a loop |
| Build.LinkReferences | jwz_threading.py:154-165 | the loop over the distinct references yields exactly the state `Chained`: each reference found or created and linked under the previous one when line 162 allows; old table entries kept; `prev` is the last reference's container |
| Build.LinkTurn | jwz_threading.py:155-165 | one turn of that loop: the state is `Chained` one reference further, and the returned container is the reference's |
| Build.StoreMessage | jwz_threading.py:137-143 | the new state is `Stored`: the message replaces the one in its id's container, or a new container is appended for it; no link changes |
| Build.ParentGuard | jwz_threading.py:168 | the corrected guard: true exactly when there is a last reference outside the message's subtree, itself included |
| Build.ParentGuardKeepsRanked | jwz_threading.py:168-169 | linking under the corrected guard keeps the child lists acyclic |
| Build.SelfReferenceLoop | jwz_threading.py:168-169 | with the guard as written, a self-reference makes the container its own child, unreachable from any root |
| Build.LinkMessage | jwz_threading.py:167-169 | with the corrected guard of the Findings table (not line 168 as written): the message is linked under its last reference exactly when that is outside its subtree, itself included |
| Build.AddMessage | jwz_threading.py:136-169 | one message processed: the new state is `AddStep` of the old one, and every container holds the last message with its id |
| Build.BuildContainers | jwz_threading.py:132-171 | the arena and the id table are exactly `Built(messages)`, the fold of `AddStep` over the messages: one container per id seen, links acyclic and consistent |
| BuildLinks.FreshChainIsPath | jwz_threading.py:154-165 | references not seen before become a path of new empty containers, each the only child of the one before; the old containers are unchanged |
| BuildLinks.AddStepMessages | jwz_threading.py:136-159 | after one message its container holds it, the containers of ids seen before keep their messages, and a new reference's container holds none |
| BuildLinks.BuiltMessages | jwz_threading.py:132-171 | every container built holds the last message with its id, or none when the id occurs only as a reference |
| BuildLinks.AddStepLinksMessage | jwz_threading.py:167-169 | the message's container becomes the last child of its last distinct reference's container exactly when that lies outside its subtree; otherwise nothing changes |
| BuildLinks.ThreeMessageChain | jwz_threading.py:132-171 | a message `a`, a reply with References `<a>` and a reply to it with References `<a> <b>` build the chain `a`, `b` under `a`, `c` under `b` |
| Coverage.BuiltHolds | jwz_threading.py:136-143 | every message that is last with its id sits in a built container, each message in one container only, and every message held is an input message last with its id |
| Build.RootSet | jwz_threading.py:282 | exactly the parentless containers, in creation order |
| Build.RootSetCovers | jwz_threading.py:282 | every container lies below some root |
| Build.RootsAreNoChildren | jwz_threading.py:282 | no root is in a child list |
| Pruning.PrunedShape | jwz_threading.py:65-96 | after pruning: no childless dummy, no dummy below the top, a top dummy only with two or more children |
| Pruning.PruneKeepsReals | jwz_threading.py:65-96 | pruning keeps every real container, in the same pre-order |
| Pruning.Reparent | jwz_threading.py:89-91 | promoted children take the dummy's parent; trees unchanged |
| Pruning.DroppedDummy | jwz_threading.py:73-75 | a childless dummy is dropped |
| Pruning.KeptContainer | jwz_threading.py:85-86 | a real container, or a top dummy with several children, stays with its pruned children |
| Pruning.PromotedChildren | jwz_threading.py:79-91 | a dummy's children replace it: always below the top, with one child at the top |
| Pruning.PruneContainer | jwz_threading.py:69-94 | one container handled: its result is the pruned tree of its subtree |
| Pruning.PruneList | jwz_threading.py:65-96 | the returned list holds the pruned forest of the input list |
| Pruning.PruneRoots | jwz_threading.py:285 | the returned roots are parentless, distinct, and hold the pruned forest; everything else is discarded |
| Pruning.PrunedRootSet | jwz_threading.py:285 | the pruned root set has the shape of `PrunedShape` and keeps every real container |
| Grouping.SubjectTableSlots | jwz_threading.py:99-121 | a slot for exactly the non-empty keys, each holding a root with that key |
| Grouping.SubjectTableFinal | jwz_threading.py:108-119 | no later root with the same key is preferred to the one in the slot |
| Grouping.BuildSubjectTable | jwz_threading.py:99-121 | the loop computes the subject table |
| Merging.PassKeeps | jwz_threading.py:184-194 | a root with an empty key, or its own representative, is appended unchanged |
| Merging.DropKeeps | jwz_threading.py:218-221 | a reply whose representative left the grouped list is dropped, nothing linked |
| Merging.AdoptKeeps | jwz_threading.py:224-237 | one root becomes the other's last child; the parent joins the grouped list |
| Merging.ReplyKeeps | jwz_threading.py:218-221 | a reply becomes the last child of its handled representative |
| Merging.SiblingKeeps | jwz_threading.py:206-217 | the two become siblings under a new dummy, which replaces the representative or is appended |
| Merging.Replaced | jwz_threading.py:212-217 | the dummy replaces the representative's entry, or is appended |
| Merging.MergeSubjectContainers | jwz_threading.py:203-245 | the new arena is `Merged` of the old one; the grouping invariant is kept; the representative is handled too; the grouped list gains only new or unhandled containers; at most the root itself is dropped, and only when its representative was handled and is not an entry |
| Merging.MergeWithHandled | jwz_threading.py:205-221 | a handled representative: a non-reply and it become siblings under a new dummy that takes its place in the grouped list; a reply becomes its last child while it is grouped and is dropped otherwise |
| Merging.DummyInPlace | jwz_threading.py:208-217 | the two become the children of a new dummy, which replaces the representative's entry or is appended |
| Merging.MergeWithFresh | jwz_threading.py:222-245 | neither handled: the one `FreshTop` picks adopts the other, or both go under a new dummy; that top container is appended to the grouped list |
| Merging.SiblingsAppended | jwz_threading.py:240-245 | both replies or neither: siblings under a new dummy appended to the grouped list |
| Merging.UnderNewDummy | jwz_threading.py:209-211 | a new dummy is appended with children `tc`, `c`, whose parent it becomes; no message changes |
| Merging.FreshTopSymmetric | jwz_threading.py:224-245 | which of two unhandled roots goes on top does not depend on their order |
| Merging.MergedKeepsMessages | jwz_threading.py:203-245 | a merge adds at most one container, a dummy holding exactly the two, and changes no message |
| Merging.MergedJoins | jwz_threading.py:203-245 | a merge changes nothing exactly when a reply meets a handled representative that left the grouped list; otherwise one becomes the other's parent or both a new dummy's children |
| Merging.GroupBySubject | jwz_threading.py:174-200 | every root is dropped or below an entry of the grouped list; entries are distinct, parentless, live; empty-key roots stay entries; a dropped root is a reply with a non-empty key whose representative is another root, was handled before its turn and is no longer an entry, and some earlier root has its key (`DroppedBehind`) |
| Merging.GroupRoots | jwz_threading.py:179-198 | after the loop every root is handled, empty-key roots are entries, and the drop rule holds |
| Merging.GroupTurn | jwz_threading.py:180-197 | a handled root is skipped; one turn keeps the grouping invariant and the drop rule and hands the turn on |
| Merging.GroupRoot | jwz_threading.py:182-197 | one root not handled yet is appended or merged; the grouping invariant and the drop rule are kept, the root and its representative are handled |
| Merging.KeptRoots | jwz_threading.py:185-194 | a root with an empty key, a key without a slot, its own representative, or the first with its key, is not dropped and lies below an entry |
| Merging.PassDropRule | jwz_threading.py:185-194 | appending an unhandled root keeps the drop rule |
| Merging.MergeDropRule | jwz_threading.py:205-221 | a merge adds only new or unhandled containers to the grouped list and drops at most the root itself, when its representative was handled and left the list; the drop rule is kept |
| Merging.EarlierKey | jwz_threading.py:205-221 | a root whose representative was handled before its turn has an earlier root with the same key |
| Merging.HandledUpToWitness | jwz_threading.py:180-197 | anything handled before a turn is an earlier root or an earlier root's representative |
| Sorting.SortByPermutes | jwz_threading.py:126 | the sort is a permutation |
| Sorting.SortBySorted | jwz_threading.py:126 | the sort orders by key |
| Sorting.SortByStable | jwz_threading.py:126 | elements with equal keys keep their order, as `list.sort` does |
| Sorting.SortByIdempotent | jwz_threading.py:126 | sorting twice is sorting once |
| Sorting.SortAllChildren | jwz_threading.py:124-129 | the list is sorted by date, every child list below it sorted, nothing else changed |
| Flattening.LineFor | jwz_threading.py:264-267 | the line carries the message and level, and shows the subject or "" |
| Flattening.Flatten | mbox_handler.py:33-47 | every line at the given level or deeper, showing its subject or nothing |
| Flattening.FlattenMessages | jwz_threading.py:261-275 | the lines hold exactly the real messages, in pre-order |
| Flattening.FlattenReal | mbox_handler.py:35-43 | a message's line, then its children one level deeper under its subject |
| Flattening.FlattenDummy | mbox_handler.py:44-47 | a dummy yields its children at its level under the inherited subject |
| Flattening.FlattenAppend | jwz_threading.py:262 | flattening distributes over sibling lists |
| Flattening.TopLevelShowsSubject | jwz_threading.py:252-259 | a top-level message shows its own subject at level 0 |
| Flattening.FlattenAsWritten | jwz_threading.py:261-275 | as written, a dummy makes the flattening fail with the AttributeError message |
| Flattening.FlattenAsWrittenAgrees | jwz_threading.py:261-275 | as written it succeeds exactly without dummies, and then matches the corrected one |
| Flattening.DummyRootFails | jwz_threading.py:263-264 | a kept top dummy with two replies makes the code fail; the correction shows both |
| Flattening.FlattenList | jwz_threading.py:261-275 | the loop computes the corrected flattening of the arena's subtrees |
| Threading.SortedPhase | jwz_threading.py:291 | after sorting, the top list and every sibling list below it are ordered by date |
| Coverage.ReachedInForest | jwz_threading.py:261-275 | a real container below an entry of a list is one of the real containers of that list's forest |
| Coverage.RealsInForest | jwz_threading.py:261-275 | every real container of a list's forest lies below an entry of the list |
| Coverage.ForestRealsNoDup | jwz_threading.py:261-275 | the forest of a list of distinct siblings holds no real container twice |
| Coverage.RealsHold | jwz_threading.py:261-275 | the messages of a forest are those of its real containers, in the same order |
| Threading.PrunedHolder | jwz_threading.py:279-285 | after building and pruning, each message that is last with its id sits in a container below a pruned root |
| Threading.DroppedTrees | jwz_threading.py:218-221 | after grouping, every message that is last with its id is below a grouped entry or in a dropped reply tree; a dropped message is below none, and each dropped tree holds a reply |
| Threading.GroupedRoots | jwz_threading.py:279-288 | build, root set, prune and group, recorded as `PhasesOf(messages, ph)`; entries distinct, live and parentless; the `dropped` trees are the trees of the pruned roots that lie below no entry, and those roots obey the drop rule `DroppedBehind`; every message last with its id is shown below an entry or dropped with a reply tree |
| Threading.ShownAfterSort | jwz_threading.py:291 | sorting keeps exactly the messages shown below the grouped entries |
| Threading.SortedUnique | jwz_threading.py:279-291 | the sorted forest holds distinct messages, each the last with its id |
| Threading.Thread | jwz_threading.py:277-296 | the phases are `PhasesOf(messages, ph)`; the forest is the sorted forest of the grouped list and the dropped trees are those of the pruned roots below no entry, each allowed by the drop rule `DroppedBehind`; the lines flatten that forest; each line is an input message last with its id, none twice; every such message appears exactly once unless it is in a dropped reply tree; no reply subject in the input means nothing is dropped; when the built containers put `m` directly under `p` and `p` is not dropped, `m`'s tree is a child of `p`'s in the forest and `m`'s line is one level deeper than `p`'s; as written it fails exactly when a dummy remains |
| Threading.ThreadKeepsLink | jwz_threading.py:279-291 | a parent-child link of the built containers, with the parent not dropped, is a parent-child link of the sorted forest |
| Threading.PrunedKeepsLink | jwz_threading.py:65-96 | pruning keeps every link between two messages: it lies below the pruned root set |
| Threading.GroupedKeepsLink | jwz_threading.py:174-245 | a link below the pruned root set, with the parent not dropped, is a link of the sorted forest of the grouped list |
| Threading.GroupKeepsLink | jwz_threading.py:174-245 | grouping keeps a link below a root it does not drop: the link lies below an entry of the grouped list |
| Threading.SortKeepsLink | jwz_threading.py:124-129 | sorting the child lists keeps every link below the sorted list |
| Threading.DroppedHolds | jwz_threading.py:218-221 | a message in the subtree of a dropped root is a message of the dropped trees |
| Threading.ThreadOfChain | jwz_threading.py:277-296 | `thread` on `a`, a reply `b` with References `<a>` and a reply `c` with References `<a> <b>`, whatever the subjects: three lines, `a` at level 0, `b` at level 1, `c` at level 2 |
| Threading.ChainLevels | jwz_threading.py:277-296 | any result meeting `Thread`'s contract on that input has those three lines at levels 0, 1 and 2 |
| Threading.ChainNothingDropped | jwz_threading.py:174-221 | on that input, whatever the subjects, the pruned root set is `a`'s container alone and the grouping drops nothing |
| Threading.FirstRootKept | jwz_threading.py:180-194 | the first pruned root is never dropped |
| Threading.ChainPruned | jwz_threading.py:65-96 | on that input pruning the built root set leaves one tree, `a`'s |
| Threading.ChainLinks | jwz_threading.py:132-171 | on that input `a`'s container lists `b`'s and `b`'s lists `c`'s |
| Nesting.LinkInForest | jwz_threading.py:19-25 | a link in the arena below an entry of a list is a parent-child link of that list's forest |
| Nesting.LinkFromForest | jwz_threading.py:19-25 | conversely, a link of a list's forest is a link in the arena below an entry of the list |
| Nesting.PruneKeepsLink | jwz_threading.py:65-96 | pruning keeps every parent-child link between two messages |
| Nesting.FlattenLink | jwz_threading.py:261-275 | a parent-child link of the forest shows the child's line one level below the parent's |
| Nesting.FlattenFirstLevel | jwz_threading.py:261-275 | the first line of a flattened forest is at the forest's own level |
| Headers.MessageId | emailindex.py:34 | no `<` or `>` at either end; the id lies inside the trimmed header, surrounded only by brackets |
| Headers.MessageIdRoundTrip | emailindex.py:34 | a bracketed id with spaces around parses back to the id |
| Headers.FindRefsWellFormed | emailindex.py:72 | every reference found is non-empty and holds no `>` |
| Headers.RefsHeaderRoundTrip | emailindex.py:72 | a header of bracketed ids gives back the ids, in order |
| Headers.ReferencesFirst | emailindex.py:69-72 | with every `<` of References closed, its references come before In-Reply-To's |
| Headers.OpenReferenceSpans | emailindex.py:69-72 | an unclosed `<` in References runs into In-Reply-To and yields one joined reference |
| Sanitize.SanitizeIsCharByChar | app.py:11-18 | the four replaces act per character: `@` to `_at_`, `.` to `_`, brackets deleted, the rest kept |
| Sanitize.NoUnsafeCharacters | app.py:11-18 | the result has no `<`, `>`, `@` or `.` |
| Sanitize.SanitizeIdempotent | app.py:11-18 | sanitizing twice is sanitizing once |
| Sanitize.SanitizeLength | app.py:11-18 | length changes by -1 per bracket and +3 per `@` |
| Indexer.RootOf | emailindex.py:149-160 | the root is the message's own id, its first reference or a root already in the map; an unrecorded first reference is the root itself |
| Indexer.RootOfLocal | emailindex.py:149-160 | only the first reference and its entry in the map decide the root; later references are never read |
| Indexer.RootOfOneHop | emailindex.py:154-157 | a single lookup: when the recorded root of the first reference has a different root of its own, that one is not followed |
| Indexer.SkippedBlob | emailindex.py:141-146 | a blob without the mail markers, or with an empty id, changes nothing |
| Indexer.StoredBlob | emailindex.py:163-180 | the row holds the message's fields, the blob id, and the root also written to the map |
| Indexer.StepFrame | emailindex.py:165-180 | the upsert touches only the message's own id, in table and map |
| Indexer.StepIdempotent | emailindex.py:139-180 | adding the same blob twice in a row is adding it once |
| Indexer.RunAgrees | emailindex.py:125-135 | throughout a run every mapped id has a row with the mapped root |
| Indexer.RunOverwrites | emailindex.py:128-135 | the roots do not depend on the old table; the new table is the old one overwritten by the run's rows |
| Indexer.Reindex | emailindex.py:117-137 | indexing the same history again leaves the table unchanged |
| Indexer.InOrderThread | emailindex.py:149-163 | a thread arriving in order gets the starter's id as root everywhere |
| Indexer.OutOfOrderThread | emailindex.py:149-160 | a reply arriving before its parent records the parent, not the starter, as root |
| Indexer.FindThread | emailindex.py:183-193 | the rows with the target's root, each once, by date; none for an unknown target |
| Indexer.EmailIndex.AddMessageToDb | emailindex.py:139-180 | the new map and table are one `Step` of the old ones |
| Indexer.EmailIndex.IndexGitRepo | emailindex.py:117-137 | the table is the fold of `Step`, from an empty map, over every blob of every commit in order |
| Search.LikePrefix | search.py:24 | `p%` matches exactly the strings starting with `p`, ignoring ASCII case |
| Search.LikeContains | search.py:17 | `%q%` matches exactly the strings containing `q`, ignoring ASCII case |
| Search.ReplyPatterns | search.py:24 | `Re:%` and `RE:%` both match exactly the subjects starting with `re:` in any case |
| Search.EligibleWanted | search.py:24-29 | the WHERE clause means: not a reply, no ` vN ` for N in 2-9, query in subject or sender |
| Search.UnderscoreMatchesAny | search.py:17 | a `_` in the search text matches any character |
| Search.Filtered | search.py:21-30 | exactly the eligible rows |
| Search.LeadersFrom | search.py:31-35 | the rows numbered 1 in their thread, with distinct roots |
| Search.ThreadCount | search.py:36-40 | the number of rows of the thread, 0 exactly when none |
| Search.QuerySound | search.py:41-44 | every listed thread starts with an eligible row and counts its thread's rows, at least one |
| Search.QueryOnePerThread | search.py:31-44 | no two listed rows share a root |
| Search.QueryEarliest | search.py:33 | each listed row is the earliest eligible row of its thread |
| Search.QueryNewestFirst | search.py:45 | the list is ordered newest first |
| Search.Query | search.py:46 | at most 100 rows |
| Search.QueryComplete | search.py:45-46 | a thread with an eligible row is missing only when 100 threads at least as recent are listed |
| Search.RunSearch | search.py:49-59 | one result per row: id, subject, `name <address>`, date, thread size |

## Left out

- The SQLite and git plumbing is not part of this model: the connection, the schema, commits and `repo.walk`. The table is a map from message id to row, or, for the search, a sequence of rows in scan order. The history is a sequence of commits, each a sequence of tree entries.
- Decoding a raw e-mail is not part of this model: MIME header decoding, `parseaddr`, the date parsing and the body. A blob carries the message decoded from it. If a message has no parsable date, an `assert` in `EmailMessage.__init__` aborts the whole indexing run. That abort is not modelled.
- `Headers.MessageId` and `Headers.References` are defined on the header texts. The `email` package's header lookup is not part of this model.
- Dates are whole seconds (`int`). `sort_all_children` keys a dummy as `0`. Python cannot compare a `datetime` with `0`, so a sibling list that mixes a dummy with a dated message raises a TypeError. The model compares integers and does not raise.
- The `count` and the log line in `index_git_repo` only log, so they are left out.
- `strftime` of the result date in `_search` is left out. A result keeps the timestamp.
- Search.Query: SQLite leaves the order among equal dates open in `ROW_NUMBER` and in `ORDER BY date_sent DESC`. The model takes scan order for the first and the stable sort for the second.
- Search.LikeContains, Search.EligibleWanted: these state the intended meaning only for search text without `%` or `_`. The filter itself uses `Search.Like`, which models both wildcards.
- Indexer.FindThread: rows with equal dates come in one of the orders SQLite may return. It is a ghost function because it lists a set.
- After its query, `find_thread` re-reads each selected blob from git and runs `thread` on the messages. That step is `Threading.Thread` on those messages. Re-reading from git is not modelled.
- The glue in mbox_handler.py:12-18 calls `find_thread` with one argument where two are required. It also passes `_flatten` the messages that `thread` already flattened; `_flatten` yields nothing for a bare message. This glue is not modelled.
- Build.LinkMessage, Build.AddMessage, Build.BuildContainers, Threading.Thread: these use the corrected guard `Build.ParentGuard`, not line 168 as written. As written, a message `a` whose last distinct reference is `<a>` becomes its own child (`Build.SelfReferenceLoop`). It then leaves the root set and is never shown. A later message with id `a` and a different last reference then calls `has_descendant` on that container, which recurses without end and raises a RecursionError. The model shows such a message like any other.
- Threading.Thread: does not promise that every input message appears, since the source does not. `merge_subject_containers` drops a reply whose representative has already left the grouped list (jwz_threading.py:218-221), and that reply's subtree is not shown. `Thread` returns those subtrees as the ghost `dropped` trees, and every other message that is last with its id is shown exactly once. What is proved about the dropped roots is the drop rule `Merging.DroppedBehind`: each is titled as a reply, has a non-empty key whose representative is another root, handled before its turn and no longer in the grouped list, and follows an earlier root with the same key. The converse is not proved: the model does not promise that every root meeting these conditions is dropped. An earlier message with a repeated id is replaced (jwz_threading.py:138-140) and is not shown.
- Merging.GroupBySubject: does not state that roots with the same key end up in one tree. It states that every root not dropped lies below an entry of the grouped list, and which roots may be dropped (`DroppedBehind`), not that each such root is dropped.
- `_flatten` sets `display_subject` and `level` as attributes on the message objects. The model yields `Line` records carrying the message, the level and the display subject.
- `Text.AsciiLower` folds ASCII letters only. That is what SQLite's `LIKE` does. Python's `lower()` is used only on `re:` prefixes, where the two agree.
- `\d` in the subject pattern `re[n]:` is taken as the ASCII digits. Python's `\d` on `str` also matches the other Unicode decimal digits. `\s` is Python's full whitespace set (`Text.IsSpace`).

## Findings

| source | as written | input that shows it | evidently intended | confidence | as-written member | corrected member |
|---|---|---|---|---|---|---|
| jwz_threading.py:168 | the guard `prev_container and not container.has_descendant(prev_container)` lets a message whose last distinct reference is its own id through, and `add_child` makes its container its own child | a message with id `a` and References `<a>` | also require `prev_container is not container` | high (not executed) | Build.SelfReferenceLoop | Build.ParentGuard |
| jwz_threading.py:263 | `hasattr(container, 'message')` is true for dummy containers too, so a dummy's `None` message is dereferenced and an AttributeError ends the request | two replies to a message that is not in the list: pruning keeps their dummy parent at the top level | treat a container whose message is `None` as a dummy and flatten its children (lines 272-275) | high (not executed) | Flattening.DummyRootFails | Flattening.FlattenMessages |
