# Models and proofs for version-control-tools

This project models the parts of the repository whose correctness rests on an invariant over many steps, and proves those
invariants with Dafny 4.11. `dafny verify dfyconfig.toml` checks every file. Each module stands for one source file or one
concern of it; code that works on values is written as functions, code that changes things step by step as methods and
classes that are proved against those functions.

- `Prelude`, `Dag`: options, ordered sequences, the order of strings, and the changeset graph. A revision is an index and
  its parents come first.
- `ConfigQuote`, `ConfigQuoteMatching`, `ConfigQuoteRoundTrip`, `ConfigQuoteLists`: ConfigObj values as text. The regular
  expressions of the reader are modelled by the positions a backtracking engine tries, in its order. A string or a list
  comes back exactly unless a part of it is written bare with, at one end, a blank that `wspace_plus` does not name, or
  a string has a carriage return before a line end, which the loader strips.
- `ConfigTree`, `ConfigTreeRoundTrip`, `ConfigTreeWriteBack`: section trees as marker and key lines, and the parser that
  walks a current section up and down. What is written is read back, and what is read without error is written back.
- `ConfigInterpolation`: the lookup through enclosing sections, the splice loop, and when expansion fails.
- `ConfigSection`, `ConfigSectionRoundTrip`: the ordered dictionary under every mutator, `rename` and `merge`, with reads
  that interpolate, and what of it survives being written and read.
- `UnifySchedule`, `UnifyMinimal`, `UnifyPushes`, `UnifyGroups`, `UnifyOrigins`: which nodes unifyrepo pulls, in what order
  and with how many pulls, and how the push logs of several repositories become one.
- `TryMerge`: collapsing Try heads, with batches, signals, rollbacks, stale tips and resumption.
- `PathGraphs`: the McCabe visitor, its graphs and its complexity number.
- `PushStream`, `PushTables`, `PushReplication`: the wire format of `pushlog-stream` on the level of characters, the tables
  with their UNIQUE indexes, and the replicated log over any history of pulls.
- `PushReconcile`: renumbering the rows after a strip. `PushQuery`, `PushFeed`: reading pushes back, pages and change list.
- `Checkout`: the repair-and-retry machine of robustcheckout.
- `Releases`, `FirstVersion`, `ManifestDiff`: three searches with early exit, claiming order or two cursors.

Where the code does less than its description promises, the model keeps the code; one lemma gives the exact condition and
another a failing input:

- `ConfigQuoteRoundTrip.TextRoundTripExactly`, with `FormFeedLost` and `CarriageReturnLost`;
- `ConfigQuoteLists.ListRoundTripExactly`, with `ListLosesFormFeed`;
- `ConfigTreeRoundTrip.RoundTripExactly` and `ReadIsStable`, with `FirstCommentMoves` and `NestedStartMoves`;
- `ConfigSection.RenameListedIff`, `RenameKeepsPlace`, `KindsAgreeIff`, `RefusedListingIff` and `MergeTwice`, with
  `RenamedOntoKey`, `RenameStoresExpansion`, `ScalarReplaced`, `RefusedKeyListed` and `MergeTwiceRaises`;
- `ConfigSectionRoundTrip.RoundTripsIff`, with `TextSwallowed`;
- `UnifySchedule.ReplayIsPushOrder`, with `ReplayCounterexample`;
- `UnifyMinimal.ScheduleIsMinimalIff`, with `MergePulledTwice`;
- `UnifyGroups.PushStaysWholeIff`, with `InterleavedPushTorn`;
- `PushReconcile.ReconcilesUnlessOvertaking`, with `OvertakingExample`;
- `PushFeed.TipsOnlyRaisesIff`, with `StrippedPushRaises`;
- `Checkout.StartsAreChecked` and `AlwaysChecked`, with `UndottedCloneIsPulledInto`.

What the code takes from outside comes in as parameters: the answers of the network and what a transfer leaves on disk, the
signals that arrive, the bytes a connection delivered before it broke, which commits of the database get through, the
result of a SELECT.

## Model

| member | source | states |
|---|---|---|
| ConfigQuoteRoundTrip.TextRoundTripExactly | pylib/configobj/configobj.py:1725-1897 | every string the writer accepts, in whatever quoting and over however many lines, reads back from the file as itself if and only if no carriage return stands before one of its line ends and it is not written bare with an overlooked blank at one end |
| ConfigQuoteRoundTrip.TripleValue | pylib/configobj/configobj.py:1284-1284 | a triple-quoted value reads back, over however many lines, as itself without the carriage returns before its line ends, which the loader strips |
| ConfigQuoteRoundTrip.CarriageReturnLost | pylib/configobj/configobj.py:1284-1284 | "a", a carriage return, a line end and "b" come back without the carriage return |
| ConfigQuoteRoundTrip.TextRefused | pylib/configobj/configobj.py:1034-1039 | a string is refused if and only if it holds both kinds of triple quotes |
| ConfigQuoteRoundTrip.FormFeedLost | pylib/configobj/configobj.py:90-90 | the string of an "a" and a form feed is written bare and not read back |
| ConfigQuoteLists.ListRoundTripExactly | pylib/configobj/configobj.py:1081-1127 | every list the writer accepts, empty, of one or of many members, reads back as itself if and only if no member is written bare with an overlooked blank at one end |
| ConfigQuoteLists.ListLosesFormFeed | pylib/configobj/configobj.py:1754-1761 | a one-member list whose member ends in a form feed does not come back |
| ConfigQuote.QuotedAs | pylib/configobj/configobj.py:1777-1814 | which quotes a string gets: none unless it starts or ends in one of seven characters or holds a comma, a comment sign, a line end or, outside lists, both quotes; triple ones only for a line end or both quotes; single ones only around a double quote |
| ConfigQuote.ListsWritten | pylib/configobj/configobj.py:1758-1765 | members are set apart by a comma and a blank, a list of one ends in a comma, an empty one is a comma |
| ConfigQuote.Multiline | pylib/configobj/configobj.py:1865-1897 | the loop over the lines of a triple-quoted value yields the value up to the nearest closing quotes, or the parse error; parsing goes on behind the value's own line when it closes there, and else behind the first line below that holds the closing quotes |
| ConfigTree.Write | pylib/configobj/configobj.py:2022-2048 | writing a section appends the lines of its scalars, then of its subsections one level deeper, in order |
| ConfigTree.FindDepth | pylib/configobj/configobj.py:1687-1703 | the walk through the parents finds the enclosing section of the given depth, or fails |
| ConfigTree.MatchDepthFinds | pylib/configobj/configobj.py:1695-1699 | parents lose one level a step, so a depth at or above the current one is always found |
| ConfigTree.ConfigReader.Parse | pylib/configobj/configobj.py:1521-1684 | the in-place reader leaves the tree, comments and errors that the line-by-line function gives |
| ConfigTree.RefusedLineIgnored | pylib/configobj/configobj.py:1578-1599 | a line is refused exactly when it is a marker more than one level below the current section or repeats a name of its section, with the error of that case; the sections and the current one then stay as they are |
| ConfigTree.EntriesStay | pylib/configobj/configobj.py:1595-1673 | whatever lines follow, an entry that was accepted stays where it is: of two with one name the first wins |
| ConfigTreeRoundTrip.WriteThenRead | pylib/configobj/configobj.py:1535-1673 | the lines of any tree with distinct names read back without error as the same tree in the same order, up to the comments before the first entry |
| ConfigTreeRoundTrip.RoundTripExactly | pylib/configobj/configobj.py:1547-1551 | a configuration is rebuilt exactly if and only if its first entry has no comments of its own |
| ConfigTreeRoundTrip.FirstCommentMoves | pylib/configobj/configobj.py:1547-1551 | a configuration of one key with a comment comes back with the comment as the initial comment |
| ConfigTreeRoundTrip.RunSafe | pylib/configobj/configobj.py:1567-1599 | whatever the lines, no two entries of a section share a name and the parents and depths stay consistent |
| ConfigTreeRoundTrip.ReadIsStable | pylib/configobj/configobj.py:1547-1583 | whatever the lines, the error "Cannot compute nesting level" never occurs; lines read without an error, or not starting with a section nested too deep, give a configuration that writing and reading again does not change; for any others it changes if and only if the first entry read has comments, which then become part of the initial comment, and a further pass changes nothing |
| ConfigTreeRoundTrip.ReadsFirstBare | pylib/configobj/configobj.py:1547-1551 | what is read has no comments before its first entry unless the first line is a section nested too deep, which is always an error |
| ConfigTreeRoundTrip.NestedStartMoves | pylib/configobj/configobj.py:1582-1585 | a first section nested too deep and then a commented key: writing and reading what was read moves the comment |
| ConfigTreeWriteBack.ReadThenWrite | pylib/configobj/configobj.py:1535-1684 | writing what was read gives back the very lines, comments and order included, if and only if reading them reported no error |
| ConfigInterpolation.FetchKey | pylib/configobj/configobj.py:312-343 | the loop through the enclosing sections and their DEFAULT sections is the recursive lookup, and takes a value of the section itself before any other |
| ConfigInterpolation.FetchedFrom | pylib/configobj/configobj.py:319-343 | the innermost enclosing section that has a value, or whose DEFAULT section has one, decides: its own value first, then that of its DEFAULT section, and a failure when DEFAULT is no section; at the top level a section under the key is taken too, and nothing found is the missing option |
| ConfigInterpolation.FetchIsInnermost | pylib/configobj/configobj.py:322-338 | a value is taken from the innermost enclosing section that offers one |
| ConfigInterpolation.SearchIsLeftmost | pylib/configobj/configobj.py:369-369 | the search finds the leftmost `%(key)s` at or after a position, with a key without closing parenthesis, if there is one |
| ConfigInterpolation.ReferenceReplaced | pylib/configobj/configobj.py:282-300 | the first reference of a text gives way to what it stands for, the text before it stays and the text behind it is expanded in turn |
| ConfigInterpolation.ReferenceStandsFor | pylib/configobj/configobj.py:285-292 | a reference stands for the expansion of the text found under its key, wherever that is |
| ConfigInterpolation.InterpolationEngine.RecursiveInterpolate | pylib/configobj/configobj.py:264-304 | the in-place splice loop ends and equals the substitution in which replacements are not scanned again, and gives back the trail it was given |
| ConfigInterpolation.InterpolatesUnlessDead | pylib/configobj/configobj.py:259-309 | a value interpolates if and only if no walk of references from it reaches a missing key, a value that is no text, or a key already on the walk; the error raised is that of such a walk |
| ConfigInterpolation.TrailIrrelevant | pylib/configobj/configobj.py:274-302 | a text that expands below other keys expands to the same text on its own |
| ConfigInterpolation.ReferenceReadsAsKey | pylib/configobj/configobj.py:359-374 | a reference to a key of the same section is replaced by what reading that key yields |
| ConfigSection.PlainTextReads | pylib/configobj/configobj.py:508-522 | a text without a reference, and with interpolation off any text, is read as it is |
| ConfigSection.FoundInLevel | pylib/configobj/configobj.py:319-338 | a reference is looked up from the section it stands in outwards; the first level with a text under the key, of its own or else in its DEFAULT section, gives it |
| ConfigSection.SetItemListed | pylib/configobj/configobj.py:525-581 | setting a key to a string or a dictionary keeps both lists together a duplicate-free listing of exactly the keys, at every level |
| ConfigSection.SetItemKeepsRest | pylib/configobj/configobj.py:533-581 | setting a key keeps its place or puts a new key last among its kind, replaces its value as a whole, and changes no other entry and no comment |
| ConfigSection.MergeListed | pylib/configobj/configobj.py:765-772 | merging keeps the listing at every level |
| ConfigSection.MergeKeepsUntouched | pylib/configobj/configobj.py:750-772 | a merge keeps every text, at whatever level, that the dictionary has no word on |
| ConfigSection.RenameListedIff | pylib/configobj/configobj.py:784-802 | a rename that is not stopped by reading the old value keeps the listing if and only if the new key is the old one or fresh |
| ConfigSection.RenamedOntoKey | pylib/configobj/configobj.py:792-796 | renaming a key onto another one lists that one twice |
| ConfigSection.RenameKeepsPlace | pylib/configobj/configobj.py:790-802 | the new key takes the old one's place in the key order, its comments and what reading it gives, no other entry or comment changes, and the stored value is the old one if and only if that is read as it is |
| ConfigSection.RenameStoresExpansion | pylib/configobj/configobj.py:792-794 | renaming a key whose text refers to another key stores the expanded text |
| ConfigSection.KindsAgreeIff | pylib/configobj/configobj.py:550-581 | setting a key leaves scalars and sections in their own lists if and only if it does not turn one kind into the other |
| ConfigSection.ScalarReplaced | pylib/configobj/configobj.py:555-568 | a scalar replaced by a dictionary stays in the list of scalars |
| ConfigSectionRoundTrip.RoundTripsIff | pylib/configobj/configobj.py:2023-2048 | sections written in the order of their listing and read again keep what they hold, without error and up to the comments before the first entry, if and only if at no level a text is listed behind a section |
| ConfigSectionRoundTrip.KindsKeepTextsFirst | pylib/configobj/configobj.py:2023-2023 | while every list holds the keys of its own kind, at every level, no text is listed behind a section |
| ConfigSectionRoundTrip.TextSwallowed | pylib/configobj/configobj.py:555-568 | two texts of which the first is replaced by an empty dictionary: the second is read back inside that section |
| ConfigSection.RefusedListingIff | pylib/configobj/configobj.py:570-580 | with `stringify` off a refused value leaves the listing intact if and only if its key was there before |
| ConfigSection.RefusedKeyListed | pylib/configobj/configobj.py:569-580 | a new key whose value is refused is listed and has no entry |
| ConfigSection.RemovedInOrder | pylib/configobj/configobj.py:587-590 | deleting a key takes one element out of its list and keeps the others in order |
| ConfigSection.MergeTwice | pylib/configobj/configobj.py:765-772 | once a dictionary has been merged, merging it again changes nothing, and raises if and only if a text held under one of its keys, at some level, cannot be interpolated |
| ConfigSection.MergeTwiceUninterpolated | pylib/configobj/configobj.py:765-772 | with interpolation off a merge never raises and merging twice is merging once |
| ConfigSection.MergeTwiceRaises | pylib/configobj/configobj.py:768-772 | merging a key whose text refers to a missing option works once; a second time, or with any other value, it raises |
| ConfigSection.DanglingUnreadable | pylib/configobj/configobj.py:632-633 | on such a section `popitem` raises although it is not empty |
| ConfigSection.Section.Set | pylib/configobj/configobj.py:525-581 | the new state of the section, which keeps the listing |
| ConfigSection.Section.Delete | pylib/configobj/configobj.py:584-592 | the key leaves the dictionary, the comments and the order of keys, in which the others keep their places, or there is a KeyError and no change |
| ConfigSection.Section.PopItem | pylib/configobj/configobj.py:627-635 | the first of the scalars followed by the sections is read, removed and returned, and the other keys keep their order; a KeyError means the dictionary is empty, and when the value cannot be read nothing changes |
| ConfigSection.Section.RenameKey | pylib/configobj/configobj.py:775-802 | the renamed state, or no change when the old value cannot be read, and exactly when the result is still well listed |
| ConfigSection.Section.MergeWith | pylib/configobj/configobj.py:741-772 | the loop of a merge leaves the recursively merged section, up to the key whose value cannot be read, and that error |
| UnifySchedule.IndexChildren | hgext/unifyrepo/__init__.py:154-164 | one pass over the changelog maps every node to its wanted children |
| UnifySchedule.EmitFastForwardNodes | hgext/unifyrepo/__init__.py:143-195 | the generator emits the schedule, and exactly when its closing assertion holds |
| UnifySchedule.ClosingAssertion | hgext/unifyrepo/__init__.py:193-195 | when every wanted parent precedes its children in push order the closing assertion holds, also when ancestors are left out |
| UnifySchedule.AncestorsAtOrBefore | hgext/unifyrepo/__init__.py:143-150 | every ancestor of a wanted node is in the destination or at or before it in push order |
| UnifySchedule.ScheduleCoversExactly | hgext/unifyrepo/__init__.py:166-191 | under the same condition the emitted nodes are a strictly increasing subsequence of push order that holds every DAG head and covers every wanted node |
| UnifySchedule.ScheduleIsTight | hgext/unifyrepo/__init__.py:143-150 | when no ancestor is left out, an emitted node pulls no wanted node from later in push order |
| UnifySchedule.ReplayIsPushOrder | hgext/unifyrepo/__init__.py:470-474 | pulling the emitted nodes one by one recreates push order if and only if no head follows an unfinished run that it does not continue |
| UnifySchedule.ReplayCounterexample | hgext/unifyrepo/__init__.py:172-177 | a repository of four changesets that the schedule does not recreate in push order |
| UnifyMinimal.ScheduleIsMinimalIff | hgext/unifyrepo/__init__.py:143-150 | a schedule that recreates push order takes the fewest pulls of all that do if and only if no linear run of push order starts at a later revision than the node before it and leads to a descendant of that node |
| UnifyMinimal.MinimalWithoutMerges | hgext/unifyrepo/__init__.py:143-150 | so it takes the fewest when no wanted node has two wanted parents |
| UnifyMinimal.MergePulledTwice | hgext/unifyrepo/__init__.py:178-191 | two roots and their merge are pulled twice where one pull recreates push order |
| UnifyPushes.CollectPushInfo | hgext/unifyrepo/__init__.py:319-363 | the loops over sources, pushes and nodes keep for each node the entry that the fold over all entries keeps |
| UnifyPushes.KeepAllEarliest | hgext/unifyrepo/__init__.py:358-363 | each node has its earliest push over all sources, the first of those at equal times |
| UnifyOrigins.EarliestPushWins | hgext/unifyrepo/__init__.py:319-363 | a changeset is given time, user, id and revision of the earliest push of any source that holds it; among those of one time, of the first push of the first source |
| UnifyOrigins.KeptIsPushed | hgext/unifyrepo/__init__.py:347-363 | exactly the changesets that some source holds and has a push for are given one |
| UnifyPushes.InverseLosesNothing | hgext/unifyrepo/__init__.py:431-432 | inverting the dictionary loses no changeset and lists none twice |
| UnifyPushes.UnifyPushes | hgext/unifyrepo/__init__.py:198-235 | the groups cut the sorted items into stretches of one push each, neighbours of different pushes |
| UnifyPushes.GroupsConserve | hgext/unifyrepo/__init__.py:209-235 | the groups concatenate to the sorted node list |
| UnifyPushes.GroupsAlternate | hgext/unifyrepo/__init__.py:219-226 | neighbouring groups differ in source or push id |
| UnifyGroups.GroupsByTime | hgext/unifyrepo/__init__.py:209-235 | the groups come by time, and those of one time by the path of their source |
| UnifyGroups.PushStaysWholeIff | hgext/unifyrepo/__init__.py:209-226 | an original push has more than one group if and only if another push of its source and time has a revision between two of its own |
| UnifyGroups.InterleavedPushTorn | hgext/unifyrepo/__init__.py:209-226 | two pushes of one source at one time with interleaved revisions: the first becomes two |
| UnifyPushes.GroupsKeepProvenance | hgext/unifyrepo/__init__.py:226-235 | every changeset keeps the user and time of its original push |
| UnifyPushes.NewPushes | hgext/unifyrepo/__init__.py:238-258 | the pushes inserted have the nodes the destination lacks and consecutive ids above every logged one |
| UnifyOrigins.InsertedFrom | hgext/unifyrepo/__init__.py:251-258 | each new push is what the destination lacks of one group, with its user and time, and they follow the order of the groups |
| UnifyOrigins.MissingInOrder | hgext/unifyrepo/__init__.py:252-252 | the changesets that are missing keep their order |
| UnifyOrigins.NewPushesByTime | hgext/unifyrepo/__init__.py:238-258 | new pushes are numbered by the time of the original pushes |
| UnifyOrigins.NewPushKeepsOrigin | hgext/unifyrepo/__init__.py:251-258 | end to end, a changeset in a new push has the user and time of the earliest push that held it |
| UnifyPushes.NewPushesRecorded | hgext/pushlog/__init__.py:565-602 | when the groups name each changeset once and the destination has them, no unique index refuses a row of the new pushes |
| UnifyPushes.RecordingSucceeds | hgext/unifyrepo/__init__.py:487-491 | end to end, recording the new pushes of the aggregated changesets succeeds and leaves the old log followed by them |
| UnifyPushes.EveryChangesetPushedOnce | hgext/unifyrepo/__init__.py:252-258 | each aggregated changeset missing from the destination's log is in exactly one new push, and no other is |
| UnifyPushes.SecondPassIsEmpty | hgext/pushlog/__init__.py:565-602 | once the new pushes are recorded a second pass inserts nothing |
| TryMerge.HeadsCaptured | scripts/merge_try_heads.py:455-466 | the captured heads are exactly the drafts of the default branch that are not below the target and that no other revision of the branch descends from, each once and oldest first |
| TryMerge.TargetResolved | scripts/merge_try_heads.py:492-507 | the recorded tip is resumed from wherever the clone has it; without one, or when it was rolled back, the run starts from its base |
| Dag.AncestorsAreLeastClosed | scripts/merge_try_heads.py:459-459 | the ancestors of a revision are the least set that holds it and the parents of each of its members |
| TryMerge.NothingEscapes | scripts/merge_try_heads.py:455-466 | whatever the target, every draft revision of the default branch is an ancestor of it or of a captured head |
| TryMerge.MergeTakesOneHead | scripts/merge_try_heads_commit.py:153-163 | one merge removes exactly the merged head from the captured heads, in order |
| TryMerge.ResumeFromTip | scripts/merge_try_heads_commit.py:118-143 | after k merges the new tip's captured heads are the list without its first k |
| TryMerge.ResumeAnywhere | scripts/merge_try_heads.py:492-507 | resuming from any commit of the chain finds the unmerged heads and, if that commit is stale, the chain's tip: one extra merge and no head lost |
| TryMerge.FullRunMergesEverything | scripts/merge_try_heads.py:149-164 | after a full run every draft revision of the branch is below the tip to be pushed |
| TryMerge.NoHeadLost | scripts/merge_try_heads.py:134-164 | over any history of pulls and runs with stops, rollbacks and stale tips, what was pulled stays and, while a draft, is covered by the next run from any base |
| TryMerge.NextRunFinishes | scripts/merge_try_heads.py:505-507 | when the recorded tip survived, the next run captures what is left and at most one head more |
| TryMerge.ResumeBelow | scripts/merge_try_heads.py:455-466 | after k merges onto one target, a run from any other old revision captures the heads not merged that this revision does not include, and the tip of the chain |
| TryMerge.NextRunStartsOver | scripts/merge_try_heads.py:498-503 | when the recorded tip was rolled back, the next run starts from its base, whatever the last one started from: it captures the heads that are left and not below the base (all of them when the base is public or was the target) and the tip of what was kept, or what it would have captured before when nothing was kept |
| TryMerge.Clone.Poll | scripts/merge_try_heads.py:119-128 | the first signal requests a stop, a further one aborts |
| TryMerge.Clone.MergeHeads | scripts/merge_try_heads_commit.py:118-143 | the repository keeps a prefix of the chain; after an abort it is what was reported or ends at a batch boundary; the reports number the commits; once a stop is requested at most the merge in flight is reported; without signals every head is merged |
| TryMerge.Clone.Run | scripts/merge_try_heads.py:149-161 | one run from the resolved target over the captured heads: which merges it keeps, exactly which tip it records, and that it stops behind the merge in flight |
| PathGraphs.WalkVisits | pylib/mccabe/mccabe.py:108-222 | visiting any syntax inside a graph adds as many edges over nodes as it has decisions, sends every edge to a later node and leaves the tail as the only new node without an edge |
| PathGraphs.ComplexityIsDecisions | pylib/mccabe/mccabe.py:80-86 | the complexity of a finished graph is the number of decisions of its body plus two |
| PathGraphs.GraphsOfStatements | pylib/mccabe/mccabe.py:108-222 | node by node and edge by edge, the graphs of a block that may be skipped (loop, closure, `if`), of the two ways through an `if` with `else` and through a `try` with a handler, and of statements that add no way |
| PathGraphs.NoCycle | pylib/mccabe/mccabe.py:68-69 | a path of n edges climbs at least n nodes, so no graph has a cycle |
| PathGraphs.LeadsToTail | pylib/mccabe/mccabe.py:140-146 | every node of a finished graph leads to its one exit |
| PathGraphs.ScanMatches | pylib/mccabe/mccabe.py:126-138 | visiting a module stores exactly one graph per key of its functions and global loops, the last one, with entity, line and complexity as the syntax gives them |
| PathGraphs.OutlineNames | pylib/mccabe/mccabe.py:108-146 | a function is stored once, under the names of its classes, with the decisions of all it holds; a global loop is stored under its class names but reported without them |
| PathGraphs.OutlineParts | pylib/mccabe/mccabe.py:185-222 | outside any graph both parts of an `if` and all parts of a `try` are searched, and of two functions with one name the later one is kept |
| PathGraphs.LoopNamed | pylib/mccabe/mccabe.py:162-162 | the name of a loop ends in its line, so loops of different lines never share a key |
| PathGraphs.PathGraph.CountPaths | pylib/mccabe/mccabe.py:80-86 | the sum over the adjacency lists less the nodes plus two |
| PathGraphs.PathGraphingAstVisitor.Dispatch | pylib/mccabe/mccabe.py:31-39 | a dispatch inside a graph walks it on, outside it stores the graphs it finds |
| PathGraphs.PathGraphingAstVisitor.IfInGraph | pylib/mccabe/mccabe.py:185-201 | both loose ends of an `if` meet in a new bottom node |
| PathGraphs.PathGraphingAstVisitor.VisitTryExcept | pylib/mccabe/mccabe.py:203-217 | body and handlers start from the `try` and meet in a new bottom node |
| PathGraphs.Run | pylib/mccabe/mccabe.py:246-254 | the checker reports exactly the keys whose complexity, read off the syntax, reaches the limit |
| PushStream.LineParses | hgext/pushlog/__init__.py:165-170 | parsing undoes rendering for every clean push, also without nodes |
| PushStream.ResponseLetters | hgext/pushlog/__init__.py:151-182 | the letters of a response: id, user, time and nodes set apart by blanks, a line for each push, and the trailer |
| PushStream.OddLines | hgext/pushlog/__init__.py:192-202 | a blank line is skipped, and a line that cannot be split into its fields ends the reception with an error that is not retried |
| PushStream.ReceivesResponse | hgext/pushlog/__init__.py:192-256 | a complete response followed by any bytes yields the longest run of known pushes and leaves exactly those bytes, also after draining past an unknown changeset |
| PushStream.CutIsNoticedOrHarmless | hgext/pushlog/__init__.py:256-258 | wherever a response is cut, it is either an error or yields what the whole response would have yielded |
| PushTables.InsertAllIff | hgext/pushlog/__init__.py:85-93 | inserting pushes row by row succeeds if and only if the three indexes hold with all of them there, and then appends their rows |
| PushReplication.PushlogDb.ApplyPushlogStream | hgext/pushlog/__init__.py:185-258 | reading, inserting and draining line by line leaves the tables, count, error and unread bytes of the received pushes |
| PushReplication.PushlogDb.ExchangePullPushlog | hgext/pushlog/__init__.py:292-318 | of three attempts, each from a clean slate, the first that does not end in the retryable error decides; if all three end in it, the pull is aborted |
| PushReplication.FirstFinalAttempt | hgext/pushlog/__init__.py:294-318 | the same over any number of responses: the first final attempt decides, and without one the exchange is an abort |
| PushReplication.InterruptionsAreRetried | hgext/pushlog/__init__.py:292-318 | responses that break off behind known pushes, or are ended there by an error of the server, cost nothing but their number: the first whole response behind them makes the exchange succeed and extends the replica by the longest run of known pushes; if all are such, the pull is aborted |
| PushReplication.PushlogDb.Pull | hgext/pushlog/__init__.py:352-401 | a pull commits what its successful attempt inserted, or leaves the tables as they were |
| PushReplication.AttemptReplicates | hgext/pushlog/__init__.py:261-268 | a successful attempt moves the replica on by exactly the longest run of known new pushes |
| PushReplication.WholeResponseSucceeds | hgext/pushlog/__init__.py:244-254 | no index refuses a replicated push: a whole response makes the attempt succeed |
| PushReplication.FetchesTheRest | hgext/pushlog/__init__.py:280-280 | asking from the last id on asks for exactly the missing pushes |
| PushReplication.AlwaysReplica | hgext/pushlog/__init__.py:261-318 | over any history of failed, cut and whole pulls the client's tables are the first pushes of the server's log, of known changesets under their local revisions, and never fall behind |
| PushReplication.FreshClientReplicates | hgext/pushlog/__init__.py:271-283 | in particular a client that starts with empty tables holds the first pushes of the server's log |
| PushReconcile.ReconcilesUnlessOvertaking | hgext/pushlog/__init__.py:1000-1060 | reconciling fails on the index if and only if a surviving row listed earlier takes the revision a later one still has; otherwise exactly the remaining changesets stay, under the repository's revisions and old pushes |
| PushReconcile.OrderedStripReconciles | hgext/pushlog/__init__.py:1022-1052 | when pushes follow revision order, a strip that keeps the order of what it leaves is always reconciled, and exactly the stripped rows go |
| PushReconcile.OvertakingExample | hgext/pushlog/__init__.py:1048-1052 | a strip after pushes out of revision order on which an update violates the index |
| PushReconcile.ChangesetsTable.HandleDestroyed | hgext/pushlog/__init__.py:1011-1060 | comparing, deleting and updating one by one commits the reconciled table, or nothing |
| PushQuery.Pushes | hgext/pushlog/__init__.py:825-860 | the grouping loop yields one push per run of rows with its nodes sorted |
| PushQuery.ReadsTheSelection | hgext/pushlog/__init__.py:806-860 | in whatever order a push's rows arrive, exactly the selected pushes are read, empty ones included, each with all its nodes in revision order |
| PushQuery.OrderingInPythonIsEnough | hgext/pushlog/__init__.py:811-823 | rows ordered by the database and rows only grouped by push read the same |
| PushQuery.NodesAscend | hgext/pushlog/__init__.py:846-860 | read oldest first, a push has its id, user and time, and exactly the nodes recorded for it by ascending revision |
| PushQuery.NodesDescend | hgext/pushlog/__init__.py:846-860 | read newest first, the same by descending revision |
| PushQuery.NewestNodeFirst | hgext/pushlog/feed.py:104-108 | read newest first, the first node of a push is its highest revision, the tip |
| PushFeed.PagesPartitionTheLog | hgext/pushlog/feed.py:96-113 | pages 1 to the offered number concatenate to all replicated pushes, each once, by falling id |
| PushFeed.PageShows | hgext/pushlog/feed.py:96-103 | a page shows ten pushes at their places by falling id, and the last one what is left |
| PushFeed.CollectEntries | hgext/pushlog/feed.py:157-164 | the entries of a query, and that it raises exactly when tips only are asked outside a COUNT query and some push is empty |
| PushFeed.EntryOfNode | hgext/pushlog/feed.py:104-113 | the entries are the nodes of the first push in order, then those of the second, and so on, each with id, user and time of its push |
| PushFeed.EntryOfTip | hgext/pushlog/feed.py:105-106 | with tips only, they are the first node of each push |
| PushFeed.EmptyPushSkipped | hgext/pushlog/feed.py:105-109 | with tips only, a push without nodes adds no entry |
| PushFeed.TipsOnlyRaisesIff | hgext/pushlog/feed.py:157-161 | on the tables: a tips-only query raises if and only if it is no COUNT query and selects a push without a changeset row |
| PushFeed.StrippedPushRaises | hgext/pushlog/feed.py:157-161 | a strip of the only changeset of a push makes a tips-only query by date raise |
| PushFeed.ChangeListShowsAll | hgext/pushlog/feed.py:406-434 | the change list shows every entry once in order and counts exactly on the first entry of a push |
| PushFeed.CountsTheRun | hgext/pushlog/feed.py:417-428 | that count is the length of the push's run of entries |
| PushFeed.HiddenWithFirst | hgext/pushlog/feed.py:417-434 | all entries of a push are hidden when its first one is a merge, and none when it is not |
| PushFeed.ListChanges | hgext/pushlog/feed.py:460-533 | the queue loop yields that list, or its first line when only the tip is asked |
| Checkout.ChecksMakeReady | hgext/robustcheckout/__init__.py:488-538 | the checks of destination and store make every state they accept ready to clone or pull, and delete something if and only if it was not |
| Checkout.DestChecked | hgext/robustcheckout/__init__.py:488-538 | a destination is refused exactly when it is no working directory or sparse where it should not be or the other way round, and kept exactly when it is unlocked and shares an existing store of a pool |
| Checkout.StoreChecked | hgext/robustcheckout/__init__.py:671-720 | the store is kept exactly when it is unlocked and lists both requirements, in either file when it is share-safe, and else goes together with the destination |
| Checkout.TransfersBegun | hgext/robustcheckout/__init__.py:722-855 | a call clones exactly into an absent destination and pulls exactly when the revision is missing |
| Checkout.StartsAreChecked | hgext/robustcheckout/__init__.py:488-780 | every clone, and every pull into a destination that was there, begins with usable files, and a pull after a clone with a shared destination; all transfers of a call begin with usable files if and only if it does not pull into what its own clone left unready |
| Checkout.UndottedCloneIsPulledInto | hgext/robustcheckout/__init__.py:743-776 | with `format.dotencode` off a clone leaves a store without that requirement, which is pulled into, and which the next call deletes together with the destination |
| Checkout.NetworkFailureRetried | hgext/robustcheckout/__init__.py:557-642 | an unexpected end of the stream, an SSL error, an HTTP server error, a socket error or a timeout of a lookup, a clone or a pull is counted and tried again below the limit, and raised at it |
| Checkout.LookupsRetried | hgext/robustcheckout/__init__.py:644-665 | a run whose first k lookups fail so, within the limit, starts over k times and goes on as if it had begun there |
| Checkout.NetworkDown | hgext/robustcheckout/__init__.py:557-582 | with a network that stays down the command makes as many attempts as the limit allows and then raises |
| Checkout.OtherErrorRaised | hgext/robustcheckout/__init__.py:589-642 | any other error is raised, but for an unrelated repository at the destination, which is deleted and tried again |
| Checkout.BrokenStoreRepaired | hgext/robustcheckout/__init__.py:540-552 | a corrupt store, or one whose abandoned transaction cannot be recovered, is deleted and the call tried again when the destination tells which store it is; a recovery is tried again as it is; every other repository error is raised |
| Checkout.FinishesIff | hgext/robustcheckout/__init__.py:722-880 | a call finishes exactly when its revision is there before or after a pull, and leaves the files of the last transfer and the count as it was |
| Checkout.AttemptJustified | hgext/robustcheckout/__init__.py:540-642 | every retry follows a counted network failure below the limit, the removal of a destination or store that was there, or a successful recovery |
| Checkout.AttemptsBounded | hgext/robustcheckout/__init__.py:557-582 | in every run the network counter grows by the network retries and never passes max(1, limit) from a fresh start |
| Checkout.AlwaysChecked | hgext/robustcheckout/__init__.py:429-446 | the same over every clone and pull of a whole run with its self-calls, with the same exact condition |
| Checkout.RetriesArePaidFor | hgext/robustcheckout/__init__.py:429-446 | the retries of a run number at most its network retries, recoveries, and what it found or left on disk to remove |
| Checkout.Robustcheckout.PrepareDest | hgext/robustcheckout/__init__.py:488-538 | the checks leave no destination, or one tied to an existing pooled store without a lock |
| Checkout.Robustcheckout.PrepareStore | hgext/robustcheckout/__init__.py:671-720 | the computed store is left absent, or unlocked with all requirements |
| Checkout.Robustcheckout.DoCheckout | hgext/robustcheckout/__init__.py:644-880 | one call ends as the machine says, with its retries, and begins exactly the clone and pull that the machine lists |
| Checkout.Robustcheckout.Run | hgext/robustcheckout/__init__.py:409-446 | the self-calls run the machine round after round, with its retries, its clones and its pulls in order |
| Releases.ReleaseInfoForChangeset | hgext/firefoxreleases/__init__.py:257-327 | with its early exits the search finds what the full scans find: per configuration the nearest build before, the last one here, the earliest one after |
| Releases.FindPrevious | hgext/firefoxreleases/__init__.py:263-276 | stopping once all configurations are found changes nothing |
| Releases.FindFirst | hgext/firefoxreleases/__init__.py:301-316 | the same, for the walk over later revisions that skips those that do not descend |
| Releases.NearestIsHighest | hgext/firefoxreleases/__init__.py:266-272 | the previous build is at the highest strict ancestor that has one of its configuration |
| Releases.EarliestIsLowest | hgext/firefoxreleases/__init__.py:303-316 | the future build is at the lowest descendant that has one of its configuration |
| FirstVersion.EarliestVersionAncestors | hgext/mozext/__init__.py:1561-1584 | each version is given exactly the revisions for which it is the first version whose head descends from them |
| FirstVersion.DisjointAndComplete | hgext/mozext/__init__.py:1564-1569 | the sets are pairwise disjoint and together are all ancestors of the heads |
| FirstVersion.FirstVersionOf | hgext/mozext/__init__.py:982-994 | the lookup returns that version whatever order the dictionary is read in |
| ManifestDiff.GetChangedFiles | hghooks/mozhghooks/changelog_correctness.py:61-96 | the two cursors end; when the files ascend in both manifests they find exactly the files of the lines that only one of the manifests has |
| ManifestDiff.CompareIsDifference | hghooks/mozhghooks/changelog_correctness.py:73-94 | stepping through sorted manifests computes the difference of their contents |
| Prelude.BeforeAt | hghooks/mozhghooks/changelog_correctness.py:89-89 | the order of files is the order of strings: the first difference decides, and a string comes before its continuations |

## Left out

- ConfigObj: encodings, byte order marks, `unrepr`, `validate` and configspecs, `list_values` off, inline comments, default
  entries, indentation, and how `write` prefixes comment lines with a marker.
- ConfigObj: the expressions that recognise a section marker or a key in a line, and brackets that do not match; a line
  comes to the tree parser as a marker with its depth, a key with its value, or a comment. `raise_errors` mode is not
  modelled: errors are collected.
- ConfigTree.ConfigReader.Parse: sections refer to each other by number instead of by object, so aliasing is not modelled.
- ConfigQuote: what is read is a file, whose lines end in a line feed; a text object or stream given instead is split at
  other line separators too.
- ConfigSection: sections nested in another one are values, so a section object given as a value and shared by two parents
  is not modelled; `merge` and `update` take plain dictionaries of strings and dictionaries. `defaults` and inline comments
  of a refused value are not kept apart from the comments. A section is taken to be named after its key, which a rename
  of the section itself does not change in the code; names only tell a reference cycle. After a DEFAULT that is no section
  was asked for a key, the code leaves interpolation switched off; that later state is not modelled.
- ConfigInterpolation: `$`-templates (the second engine) and the interpolation of list members one by one.
- The Unify driver: bookmarks, staging and the checks that abort it; `pullrevs` are a set of wanted nodes.
- TryMerge: running hg, logging, the pulls of Try heads with their batches, retries and deferred list; a pull is any
  extension of the repository.
- TryMerge.NextRunStartsOver: no pull comes between the two runs; that no head is lost in any case is `NoHeadLost`.
- PathGraphs: printing the graphs, the names of path nodes, and parsing of options.
- PushStream: `int()` also accepts signs, blanks and underscores, which no server line holds; a node that is not 40
  hexadecimal digits counts as an exception here.
- PushReplication: the locks, timeouts and files of SQLite, and a database commit followed by a failure of Mercurial's own
  transaction.
- PushQuery: the filters of `pushes` by id, time, user, node and branch; the selected rows are a parameter. The caches of
  `pushfromnode` and `cache_data_for_nodes`.
- PushFeed: rendering, navigation links, JSON output and row parity.
- Checkout: applying a bundle, purging, sparse configuration and the update after the pull; a `ResponseError`, which no
  except clause catches; the waiting times.
- Releases: the cache keyed by the database's modification time, and the web view. The revisions and configurations are
  taken to be of the same database.
- FirstVersion: how release versions are read from tags.
- ManifestDiff: the hook around the comparison.
- Policy hooks, LDAP helpers, deployment scripts, `hghave`, `convert-pushlog-db.py`, `firefoxtree` and `serverlog`: mostly
  single branches or library calls, or facts that would need heavy preconditions.
