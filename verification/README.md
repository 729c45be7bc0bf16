# nanolance: a verified model

nanolance reads and writes Lance datasets. This project models the parts of it where a wrong step would lose or invent
data without anyone noticing, and proves for all inputs, all runs or all reachable states what those parts are relied
on for.

- **Layering tools** (`Graph`, `Order`, `Tarjan`, `Reduction`, `Layers`, `Allowlist`, `CheckLayers`, `ReadmeBlock`).
  Tarjan's algorithm with its index, low-link, stack and on-stack tables updated in place finds exactly the dependency
  cycles of every finite graph. The transitive reduction of the layer diagram keeps what is reachable if and only if a
  condition on the graph's cycles holds; the rank check of the include graph implies that condition, so the drawn
  diagram is faithful. After the list of known violations is written the check of the same tree passes, if and only if
  no name on it has a blank or a number sign in it. The README rewriter is stable under a second run if and only if no
  end mark stands before the block's place.
- **Commits** (`Commit`, `History`, `Progress`, `Drops`, `Retry`, `Rerun`). Any number of writers publish create-only
  versions while old versions are cleaned up, with lost replies and every interleaving. In every run the latest
  version's table is the serial history of the changes first published as each number, and only ever grows. No number
  is published twice and every committed change is in the latest table if and only if no put goes to a number that was
  published and removed; a run in which one does loses a committed change. A publish that finds its number taken goes
  on to the latest version and commits there if every version since is compatible, and is refused for the first that
  is not; a call that used up its attempts lost each to a version published since. A version whose transaction file
  was dropped stops every rebase over it: a call that misread its own manifest and dropped its file is never
  committed. So without a put as above a committed change is in the table exactly once if and only if none of its own
  manifests was misread while its file could not be dropped. Over all the calls of a rerun operation it is there
  exactly once if and only if no manifest was misread.
- **Nested columns** (`Levels`, `Unravel`, `RepDef`, `UnravelPage`, `Validity`, `Columns`, `Serialize`, `Nested`,
  `Lossless`, `Values`, `Occurrences`, `Interleave`, `Parts`). Lists, structs and items with nulls and empties at
  every depth are written as repetition and definition levels and read back layer by layer. For every column and every
  run of its rows the layers read are those of the rows: each list's offsets, each entry's validity, a null struct
  masking what it holds, garbage under nulls gone. The levels lose nothing: two runs of rows with the same levels are
  the same nested rows. Leaf values gathered by the slots and read with the unravelled layers are the rows' own nested
  values. The first pass of the writer counts exactly what the second one writes, and names a layer nullable or
  emptyable exactly when such an entry occurs. Written by several threads over parts of the rows, with their steps
  interleaved in any way, the output is that of one pass.
- **Encodings** (`Fsst`, `Lz4`, `BitPack`, with `Bytes` and `Octets`; `WrittenOut` has small values of these and the
  index formats with their bytes). The FSST compressor that reads 8-byte words past its value is blind to what is
  there, equals a greedy form that sees only the value, and is undone by the code-stream format. The LZ4 block
  compressor's output decompresses to its input under the format's end-of-block rules. Bool packing by a carry-free
  multiply and unpacking by a table are inverse at every bit offset.
- **Indexes over compactions** (`Search`, `FragReuse`, `Contents`, `FragBuild`, `Rewritten`, `Roaring`, `RoaringRuns`,
  `Treemap`, `IndexMessages`, `IndexWire`). A version of the fragment-reuse index is accepted exactly when its groups
  add up, and lets every rewritten row be found if and only if each old fragment's rows are recorded ascending and
  inside it; a treemap whose keys are all different records them so. Resolving row addresses through any number of
  versions is injective on surviving rows and leads to a row with the same content, and every live row of a fragment
  that a remapped coverage still claims is where a row of the original coverage is now. Roaring bitmaps round-trip
  byte by byte if and only if the ids are ascending, treemaps if and only if every span of one bitmap is. On the wire,
  changing the fragments of some indices leaves every other record of the section's messages as it was.
- **Wire rules** (`ProtoWire`, `WireGrammar`, `FieldCodec`, `KeyFields`). The reader yields a record exactly where one
  is written, by a grammar of its own. Unknown fields survive decoding and encoding byte for byte and in order, and a
  second round changes nothing.
- **The browser reader** (`Text`, `Remote`, `Listing`, `Pages`, `Sizes`, `Web`, `Directories`, `Takes`). The redirect
  cache's retry machine, and takes of rows in any order. The listing cache answers "no such file" without a request:
  every such answer is true if and only if the pages a walk did not read name nothing new, so always after a complete
  walk of the directory's own listing, whose URL is no other directory's under a condition on the repository's name. A
  listed file opens at its listed size if and only if nothing recorded later gave it another.
- **Text and digests** (`Csv`, `Json`, `Table`, `Md5`, `Md5Suite`). CSV and JSON output is read back by the grammars
  of RFC 4180 and RFC 8259; a row stands under its header if and only if a condition on its null and empty structs
  holds; the streaming MD5 is the one of RFC 1321.

Code that updates variables, arrays or object fields step by step is modelled by methods and classes proved against
specification functions; code made of expressions is modelled by functions. `Options` holds the optional value the
other modules share. Where the code and its comments disagree, the model follows the code:

- `remap_coverage` promises ids "ascending and distinct on return" (include/nanolance/frag_reuse.hpp:38), but returns
  its argument untouched when the index has no version; `FragReuse.RemapCoverage` does the same.
- The comment of `commit_back_off` speaks of a local ceiling of 50 ms (include/nanolance/commit_backoff.hpp:31), but
  the doubling stops at 32 ms; `Retry.Ceiling` states 32.
- `commit_next_version` is said to keep a concurrent change from being lost (src/dataset/dataset.cpp:276-278), but a
  put at a number that a cleanup has freed is not refused; `History.CleanupLosesChange` is such a run and
  `History.SafeIffNoStalePut` the exact condition.
- The comment of `g_listings` takes a cached listing for a complete one (wasm/weblance_glue.cpp:118-119), but a 404 on
  a later page and the limit of 10000 pages end a walk that is then cached; `Web.LaterPageRefused` refuses a file the
  server has, and `Sizes.RefusalsTrueIff` states exactly when none is.
- A treemap's keys are neither ordered nor merged when it is read (src/base/roaring_bitmap.cpp:238-256), and the rows
  of an old fragment are only checked at their last one (src/table/frag_reuse.cpp:240-243), though the lookup halves
  an ascending list; `FragBuild.UnorderedLost` shows rows lost that way.
- `csv_row_cells` promises cells that match the header's order (tools/nlance2table.cpp:144), but writes one cell a
  direct child of a null struct; `Table.RowUnderHeader` states exactly when the two agree.

## Model

| member | source | states |
|---|---|---|
| Tarjan.Search.constructor | tools/check_layers.py:118-119 | an empty search satisfies the invariant |
| Tarjan.Search.Visit | tools/check_layers.py:121-141 | one call keeps the invariant, visits only what v reaches, and returns with low[v] the least index v's unfinished part exits to, v popped exactly when that is its own; it terminates because unvisited nodes run out |
| Tarjan.Search.Consider | tools/check_layers.py:126-131 | one successor taken into low[v]: visited if new, bounded by its index if on the stack, ignored if its component was popped |
| Tarjan.Search.Close | tools/check_layers.py:132-141 | after the successors, v's component is popped and reported if low[v] is v's index, and otherwise everything stays anchored below v |
| Tarjan.Search.PopDownTo | tools/check_layers.py:134-139 | the pop loop removes exactly the stack from v's place up, on-stack set included |
| Tarjan.PushKeeps | tools/check_layers.py:122-125 | numbering and pushing a node keeps the invariant |
| Tarjan.AfterVisit | tools/check_layers.py:128-129 | what a returned visit and its low-link say about v's own exits |
| Tarjan.AfterSeen | tools/check_layers.py:130-131 | the same for a successor seen before |
| Tarjan.SuffixIsComponent | tools/check_layers.py:132-141 | when low[v] is v's index, the stack from v up is a strongly connected component: mutually reachable and maximal |
| Tarjan.PopKeeps | tools/check_layers.py:134-141 | popping that component keeps the invariant |
| Tarjan.StayKeeps | tools/check_layers.py:132 | leaving v on the stack keeps the invariant |
| Tarjan.ReportedAreCycles | tools/check_layers.py:140-146 | at the end a list was reported if and only if it is a component of more than one member met from the nodes |
| Tarjan.SortedCycles | tools/check_layers.py:146 | sorting the report loses and repeats nothing |
| Tarjan.StronglyConnected | tools/check_layers.py:116-146 | for every finite graph the result is the sorted list, without repetition, of exactly the components with more than one member among what the nodes reach |
| Order.SortLexKeeps | tools/check_layers.py:146 | sorting a list of lists keeps its elements and their distinctness |
| Layers.BuildAdjacency | tools/check_layers.py:214-216 | the adjacency dictionary is exactly the include relation |
| Layers.CyclesMet | tools/check_layers.py:217 | starting from the modules and the included modules misses no cycle |
| Layers.ChainDescends | tools/check_layers.py:201 | without a violation no chain of includes ends in a higher layer |
| Layers.CycleInOneLayer | tools/check_layers.py:201-217 | without a violation the modules of a component are all in one layer |
| Layers.CleanCycles | tools/check_layers.py:201-217 | the same for a reported cycle, from an empty list of violating pairs |
| Layers.BuildUses | tools/gen_layer_docs.py:26-37 | uses is exactly the includes between different layers, used-by its converse, and every used layer has an entry |
| Layers.UsesAcyclic | tools/gen_layer_docs.py:32-36 | without a violation the layer graph has no cycle |
| Layers.DiagramFaithful | tools/gen_layer_docs.py:61-65 | without a violation the reduced diagram reaches exactly what the uses reach |
| Allowlist.ReadLineIs | tools/check_layers.py:30 | what the regular expression takes a line for: an entry is the match with the longest first name, a line with text that matches in no way is malformed |
| Allowlist.EntryPlain | tools/check_layers.py:87-101 | the names of an entry have no blank and no number sign in them |
| Allowlist.LineBack | tools/check_layers.py:87-113 | a pair written is the pair read, if and only if both names are so |
| Allowlist.ReadAllowlist | tools/check_layers.py:87-101 | the entries, and exactly the malformed lines in order |
| Allowlist.WriteAllowlist | tools/check_layers.py:104-113 | the comment lines, then a line for each pair |
| Allowlist.WrittenBack | tools/check_layers.py:87-113 | the list written is the list read and no line of it malformed, if and only if every name can stand in it |
| CheckLayers.EdgesAre | tools/check_layers.py:149-192 | the edges are exactly the includes between two modules of the layout in a scanned file |
| CheckLayers.Collect | tools/check_layers.py:149-192 | the misplaced files in order, the modules seen, and those edges |
| CheckLayers.CheckExamples | tools/check_layers.py:61-84 | exactly the examples named for no layer, and exactly the includes above an example's layer |
| CheckLayers.Cycles | tools/check_layers.py:214-217 | the cycles are exactly the components of two or more modules, each inside one layer when there is no violation |
| CheckLayers.Run | tools/check_layers.py:195-262 | the check fails exactly on a misplaced file, an example named for no layer or reaching up, a malformed line, or a list that is not the set of violating pairs; it reports those cycles |
| CheckLayers.WriteThenClean | tools/check_layers.py:195-262 | on a tree without other errors the check passes after the list is written, if and only if every violating module's name can stand in it |
| Reduction.Reachable | tools/gen_layer_docs.py:50-58 | the worklist ends and returns exactly the layers reached through one or more uses |
| Reduction.AnyReaches | tools/gen_layer_docs.py:64 | the test of one use: whether another use already reaches it |
| Reduction.KeptBy | tools/gen_layer_docs.py:64 | the uses of one layer that stay |
| Reduction.Reduced | tools/gen_layer_docs.py:61-65 | the whole reduction, layer by layer |
| Reduction.KeptIsNeeded | tools/gen_layer_docs.py:61-65 | no kept use can be dropped: all other uses together no longer lead there |
| Reduction.ReductionPreservesIff | tools/gen_layer_docs.py:61-65 | for every graph: reachability is preserved if and only if each layer on a cycle uses one layer, and a layer that uses two layers of one cycle also uses one that leads into it from outside |
| Reduction.ReducibleSuffices | tools/gen_layer_docs.py:61-65 | the condition is enough, cycles included |
| Reduction.CycleNeedsOneUse | tools/gen_layer_docs.py:61-65 | its first half is needed |
| Reduction.CycleNeedsEntry | tools/gen_layer_docs.py:61-65 | its second half is needed |
| Reduction.AcyclicIsReducible | tools/gen_layer_docs.py:61-65 | every acyclic graph meets the condition |
| Reduction.CyclicUsesLost | tools/gen_layer_docs.py:61-65 | a concrete cyclic graph whose reduction loses a use |
| ReadmeBlock.WithBlock | tools/gen_layer_docs.py:114-126 | the rewritten text, or a refusal when a start mark has no end mark or there is nothing to put the block after |
| ReadmeBlock.PopBlank | tools/gen_layer_docs.py:124-125 | the blank lines after the heading, and only those, are dropped |
| ReadmeBlock.SplitJoin | tools/gen_layer_docs.py:116-126 | splitting joined lines gives the lines back |
| ReadmeBlock.JoinSplit | tools/gen_layer_docs.py:116-126 | joining split lines gives the text back |
| ReadmeBlock.Placed | tools/gen_layer_docs.py:118-126 | where the block goes does not depend on its content, and no end mark is before it exactly when the text is in order |
| ReadmeBlock.OutsideKept | tools/gen_layer_docs.py:114-126 | nothing outside the block is lost: a first block stands after the first heading, with the lines before and after it kept but for blank ones; a later one replaces exactly what is from the first start mark to the first end mark |
| ReadmeBlock.LastWins | tools/gen_layer_docs.py:114-126 | writing one block and then another is writing the other, if and only if no end mark stands before the block's place |
| ReadmeBlock.SecondRunSame | tools/gen_layer_docs.py:114-126 | a second run leaves the text unchanged, under exactly that condition on the first text |
| ReadmeBlock.StrayEndMark | tools/gen_layer_docs.py:117-126 | lines where the last run does not win: with an end mark above the heading a second run leaves the first block standing |
| ReadmeBlock.StrayText | tools/gen_layer_docs.py:114-126 | and a text that a second run with the same block changes again |
| Commit.Classify | src/dataset/dataset.cpp:216-253 | all compatible exactly when every version since the read one is there, its transaction file too, and its change compatible |
| Commit.FirstStop | src/dataset/dataset.cpp:84-127 | otherwise the answer is that of the first version that stops it: an error when it is gone, a retryable refusal when its transaction file is, else its verdict |
| Commit.BeginKeeps | src/dataset/dataset.cpp:279-307 | starting a call keeps the protocol's invariant |
| Commit.CreateKeeps | src/table/manifest_writer.cpp:174-278 | a create-only put that creates keeps it, whatever reply the writer sees and whether the number was published before or not |
| Commit.NoCreateKeeps | src/table/manifest_writer.cpp:174-278 | a put that finds the version taken, or fails, keeps it (where it goes on from there: `Progress.LostIsRebasing`) |
| Commit.ReadBackKeeps | src/table/manifest_writer.cpp:174-278 | reading back whose manifest took the version keeps it, also when that version is gone; the transaction file of a publish that is not recognised is dropped, or the drop fails |
| Commit.RebaseKeeps | src/dataset/dataset.cpp:326-385 | rebasing onto the latest version, or being refused, keeps it |
| Commit.GiveUpKeeps | src/dataset/dataset.cpp:318-394 | ending on an error keeps it |
| Commit.CleanupKeeps | src/table/dataset_refs.cpp:1610-1913 | removing any versions below one that is there keeps it, and with it the latest version |
| Commit.StepKeeps | src/dataset/dataset.cpp:279-395 | every step of every writer and of every cleanup keeps it |
| Commit.RunInv | src/dataset/dataset.cpp:279-395 | it holds in every state of every run |
| History.TableIsSerial | include/nanolance/dataset_commit.hpp:37-44 | version v as first published holds exactly the changes first published as versions 2 to v, in that order, without a gap |
| History.LatestIsLast | src/table/manifest_reader.cpp:147-161 | the highest version stored is the last one published, whatever was removed and put again below it |
| History.TableGrows | include/nanolance/dataset_commit.hpp:37-44 | over every run the latest table only grows at its end: a change in it stays in it |
| History.StaleIsRemoved | src/dataset/dataset.cpp:279-313 | a put goes to a number published before if and only if the version below it is not the latest, which a writer can see |
| History.FreshStays | include/nanolance/byte_sink.hpp:35-40 | without such a put a stored version is the same at any two times it is stored |
| History.SafeIffNoStalePut | src/table/manifest_writer.cpp:174-278 | over every run: no number is published twice, and every committed change is in the latest version, if and only if no put goes to a number that was published and removed |
| History.RecordIsSteps | src/dataset/dataset.cpp:279-395 | what a call's record counts is the misread manifests and lost replies among the run's steps |
| History.StraysAreSteps | src/table/manifest_writer.cpp:174-278 | a call's manifests outside the line of versions are its puts to numbers published before |
| History.CommittedOnce | include/nanolance/dataset_commit.hpp:37-44 | a change reported committed is in the latest table once, once more for each own manifest misread, less its stale puts; with no stale put exactly once if and only if none was misread, with none misread there at all if and only if no put was stale; none is misread on a local path |
| History.FailedNever | include/nanolance/dataset_commit.hpp:37-44 | a change reported failed was not published if and only if no reply was lost for good and no own manifest misread; never on a local path |
| History.ReadableRecognised | src/table/manifest_writer.cpp:163-170 | while read-backs succeed and its manifests are not removed a call recognises its own |
| History.PublishedOverCompatible | include/nanolance/dataset_commit.hpp:37-44 | a published change is compatible with every change first published between the version it was read at and its own, unless a stale put went to that number |
| History.PutsBounded | src/dataset/dataset.cpp:322-394 | a call publishes at most once more than it may rebase |
| History.UnreadableAppliesTwice | src/table/manifest_writer.cpp:174-278 | a concrete run that applies a change twice: a lost reply, an unreadable read-back and a transaction file that could not be dropped |
| History.LostReplyReportsFailure | src/table/manifest_writer.cpp:174-278 | a concrete run that reports a failure for a published change |
| History.CleanupLosesChange | src/table/dataset_refs.cpp:1971-2015 | a concrete run on a local path, two versions kept: a change reported committed is not in the latest version, and a published number holds another manifest |
| Progress.LostIsRebasing | src/dataset/dataset.cpp:312-325 | a publish that finds its number taken, read back on an object store, is rebasing next, one publish further, with nothing else changed but its own file |
| Progress.LoserCommits | src/dataset/dataset.cpp:315-385 | from every reachable state: with every version since the read one there, its file too, and compatible, those steps, a rebase and a put can be taken, and end committed as the version after the latest, whose table is the old one and the change |
| Progress.LoserRefused | src/dataset/dataset.cpp:216-253 | otherwise the rebase fails for the first version that stops it: with an error when it is gone, as retryable when its transaction cannot be read or its verdict is that, as incompatible when that is its verdict |
| Progress.RecognisedCommits | src/table/manifest_writer.cpp:254-266 | a publish that created its version but saw it taken recognises it and is committed |
| Progress.LosesToOthers | src/dataset/dataset.cpp:326-394 | over every run: a call that used up its attempts lost each of them to a version published after the one it read, on a local path by others |
| Drops.RebaseStuck | src/dataset/dataset.cpp:84-127 | a rebase over a version of the call's own whose transaction file is gone is refused |
| Drops.StepFiles | src/table/manifest_writer.cpp:211-220 | no step of any writer or cleanup lets a call go on that lost the file of a version it published, or drops the file of a publish that is committed or may yet be |
| Drops.DroppedNeverCommits | src/table/manifest_writer.cpp:211-220 | a call that misread its own manifest and dropped its file is never committed, in any run without a stale put |
| Drops.OnceUnlessKept | include/nanolance/dataset_commit.hpp:37-44 | in such a run a committed change is in the table once, and once more for each own manifest misread whose file could not be dropped; so exactly once if and only if there was none |
| Rerun.RerunOnce | include/nanolance/dataset_commit.hpp:64-79 | an operation run until it succeeds has its change in the latest table once over all its calls, once more for each own manifest misread, less stale puts; with none stale exactly once if and only if none was misread, and always on a local path |
| Rerun.ConflictNotLost | include/nanolance/dataset_commit.hpp:73-75 | a call that is run again lost no reply for good: it published only what it misread |
| Rerun.DroppedAppliesTwice | include/nanolance/dataset_commit.hpp:64-79 | a concrete run without a stale put in which an operation is applied twice over two calls: the first misreads its manifest and drops its file, its rebase is refused as retryable, and the rerun publishes the change again |
| Retry.Ceiling | include/nanolance/commit_backoff.hpp:36-38 | the pause's ceiling: doubling from 1 ms to 32 ms locally, from 25 ms to 2000 ms on an object store |
| Retry.TotalCeilingIs | include/nanolance/commit_backoff.hpp:36-42 | the ceilings add up to at most 479 ms over nineteen local pauses |
| Retry.RetryOnConflict | include/nanolance/dataset_commit.hpp:67-79 | at most twenty runs, rerun only on a commit conflict, the retry count one less than the runs, and the pauses bounded |
| Retry.RetryFromReadVersion | include/nanolance/dataset_commit.hpp:83-87 | the first run reads the caller's version and every later one the latest; the runs, reruns and pauses are those of the plain loop |
| Validity.AppendHolds | src/encoding/repdef.cpp:33-53 | appending an entry keeps the bitmap spelling the entries' validity, with no bytes exactly while all are valid |
| Levels.FirstBound | src/encoding/repdef.cpp:437-470 | the definition level that starts a value is one of its layer or of those inside |
| Unravel.OneLevel | src/encoding/repdef.cpp:236-263 | a level of a layer around a list is a masking null struct's, which reads as a null list, or is out of sight |
| Unravel.OneList | src/encoding/repdef.cpp:236-263 | a list's first child starts it and the others continue it; a null or empty list takes one level and no child |
| Unravel.ListPass | src/encoding/repdef.cpp:204-272 | for every value: the pass over the levels cut inside a list layer finds exactly that layer's lists, and leaves exactly the levels cut at it |
| Unravel.OwnEntry | src/encoding/repdef.cpp:147-152 | an entry of an item or struct layer is in sight and as valid as it is |
| Unravel.OuterEntry | src/encoding/repdef.cpp:147-152 | a null struct directly around is in sight as a null, everything else around is not |
| Unravel.ItemPass | src/encoding/repdef.cpp:139-169 | for every value: an item or struct layer reads exactly its entries |
| RepDef.MarksAgree | src/encoding/repdef.cpp:172-201 | the null, empty and masking levels found from the kinds are those of the shape |
| RepDef.CountInside | src/encoding/repdef.cpp:163-168 | a list layer has as many children as the layer inside it has entries, a struct layer as many entries |
| RepDef.PeelLayers | src/encoding/repdef.cpp:134-279 | the levels peeled from the items outward give every layer of the rows |
| UnravelPage.SkipZeros | src/encoding/repdef.cpp:217-231 | the skip, sixteen at a time and then one by one, ends at the first level that does not continue the list |
| UnravelPage.ListLayer | src/encoding/repdef.cpp:203-271 | the in-place pass over the two vectors is the pass over the stream, bitmap included |
| UnravelPage.ItemLayer | src/encoding/repdef.cpp:146-152 | the bitmap of the levels in sight |
| UnravelPage.BuildTable | src/encoding/repdef.cpp:69-97 | the depth at which each definition level is seen; refused exactly for an unknown layer |
| UnravelPage.Check | src/encoding/repdef.cpp:62-127 | refused exactly when the layers, the counts, a level or the first row boundary are inconsistent |
| UnravelPage.UnravelLevels | src/encoding/repdef.cpp:58-279 | for every page: refused exactly when its specification refuses, and otherwise layer by layer the same |
| Columns.CoveredOk | src/encoding/repdef.cpp:343-433 | an entry whose nulls and empties are flagged is a value of the flagged shape |
| Serialize.Serializer.constructor | src/encoding/repdef.cpp:299-322 | nothing met and nothing counted yet |
| Serialize.Serializer.MarkHidden | src/encoding/repdef.cpp:521-533 | the null bits under a null struct are flagged down to the first list or the items |
| Serialize.Serializer.Mark | src/encoding/repdef.cpp:343-433 | pass 1: refused exactly when an offset is missing or decreases; the flags grow by exactly what occurs, and the counts by exactly the levels and slots of the entry |
| Serialize.Serializer.MarkAll | src/encoding/repdef.cpp:427-431 | the same for a run of entries |
| Serialize.NumberLayer | src/encoding/repdef.cpp:443-472 | one layer's kind and its levels |
| Serialize.Serializer.AssignLevels | src/encoding/repdef.cpp:437-488 | the kinds and levels of all layers as the reader numbers them, and the output sized by the counts |
| Serialize.Serializer.Emit | src/encoding/repdef.cpp:343-433 | pass 2: exactly the entry's levels, slot flags and slots are written, in the room counted for them |
| Serialize.Serializer.EmitAll | src/encoding/repdef.cpp:427-431 | the same for a run of entries: the first inherits the level that starts the list |
| Serialize.CutLength | src/encoding/repdef.cpp:343-433 | how many levels a value has depends on nothing but the value |
| Serialize.MarksCount | src/encoding/repdef.cpp:539-554 | every level of an entry is flagged or not |
| Nested.FlagsOf | include/nanolance/repdef.hpp:83-85 | a layer is nullable exactly when one of its entries is null, or hidden under a null struct, and emptyable exactly when one is empty |
| Occurrences.FlagsMet | src/encoding/repdef.cpp:343-425 | by the entries met from the rows: a layer is nullable exactly when one met there, masked or not, has a null bit, emptyable exactly when a list met there is there and holds nothing |
| Nested.SerializeRows | src/encoding/repdef.cpp:574-648 | refused exactly for rows or offsets that are not there; otherwise the levels, slot flags, kinds and slots of the rows |
| Nested.AllFlagsAreSlots | include/nanolance/repdef.hpp:75 | over any rows as many levels are flagged as there are slots, so a flagged level owns the next slot |
| Occurrences.SlotFlagsSeen | include/nanolance/repdef.hpp:84-87 | a level owns a slot exactly when the reader's item pass sees it |
| Parts.CountParts | src/encoding/repdef.cpp:584-615 | pass 1 over parts of the rows, flags and counts merged: refused exactly when one pass is, the same flags and counts, each part placed after those before it |
| Parts.LevelsSplit | src/encoding/repdef.cpp:580-583 | the levels of rows are those of their parts, one after the other |
| Parts.PartsSame | src/encoding/repdef.cpp:580-634 | pass 2: however the steps of the parts are interleaved, every vector ends as one pass over all the rows writes it |
| Interleave.AnySchedule | src/encoding/repdef.cpp:502-510 | writers that fill ranges of their own leave the same vector under every schedule |
| Interleave.EndToEndSame | src/encoding/repdef.cpp:580-583 | placed end to end they leave the concatenation of what they write |
| Nested.SlotsPerItem | include/nanolance/repdef.hpp:84-87 | there are as many value slots as the item layer has entries |
| Nested.TablesAgree | src/encoding/repdef.cpp:66-97 | the table built from the kinds is the depth at which each level of the shape is seen |
| Nested.RowsAccepted | src/encoding/repdef.cpp:62-127 | what the writer writes passes every check of the reader |
| Nested.RoundTrip | include/nanolance/repdef.hpp:69-89 | for every column and every run of its rows: unravelling what was serialized gives exactly the layers of those rows |
| Values.SlotsRun | src/encoding/repdef.cpp:343-425 | the slots are the leaves met from the rows, from left to right, by their index in the column; a null struct without a list inside has the one of its own index |
| Values.EntriesRun | src/encoding/repdef.cpp:343-425 | the entries of every layer are those met at that layer, by place in the column |
| Values.ValuesBack | include/nanolance/repdef.hpp:69-89 | for every column, every run of its rows and all leaf values: the values gathered by the slots, read with the unravelled layers, are the rows' own values, with their nulls, lists and leaves |
| Lossless.LayersTell | include/nanolance/repdef.hpp:34-41 | values whose layers all look the same to a reader are the same, masked places included |
| Lossless.RowsTold | include/nanolance/repdef.hpp:34-41 | rows of one shape with the same layers are the same rows |
| Lossless.KindsTell | include/nanolance/repdef.hpp:19-32 | the layer kinds tell which layers are lists and what occurs in them |
| Lossless.SameLevelsSameRows | include/nanolance/repdef.hpp:69-89 | for any two columns and runs of rows: the same levels, kinds and number of slots mean the same nested rows |
| Fsst.SameLowBytes | include/nanolance/fsst.hpp:125 | the shifted exclusive-or compares exactly the symbol's bytes |
| Fsst.WordProbe | include/nanolance/fsst.hpp:121-129 | the hash-table probe on a word with any bytes past the value takes a symbol exactly when the value starts with it |
| Fsst.WordChoice | include/nanolance/fsst.hpp:121-141 | the whole choice on that word is the choice on the value alone |
| Fsst.StorePair | include/nanolance/fsst.hpp:138-139 | the speculative two-byte store changes those two bytes only |
| Fsst.CompressIntoPadded | include/nanolance/fsst.hpp:112-144 | the output is the greedy form of the value alone, and nothing at or past 2 * size is written |
| Fsst.ChooseTakes | include/nanolance/fsst.hpp:107-111 | each choice stands for a non-empty prefix of what is left of the value |
| Fsst.LongFirst | include/nanolance/fsst.hpp:121-141 | the long symbol in the slot is written whenever it is the value's front; next come symbols of two bytes |
| Fsst.EscapeLast | include/nanolance/fsst.hpp:121-141 | a byte is escaped only when the value's front is no symbol of one or two bytes, nor the long one its bytes hash to |
| Fsst.RoundTrip | include/nanolance/fsst.hpp:28-30 | decoding the greedy form meets no unknown code and no dangling escape, and yields the value |
| WrittenOut.FsstBytes | include/nanolance/fsst.hpp:28-30 | the code 255 escapes the byte after it |
| Lz4.ReadToken | src/encoding/lz4_block.cpp:85-92 | a token's parts lie inside the block it is read from |
| Lz4.RulesOnlyRefuse | src/encoding/lz4_block.cpp:85-98 | the end-of-block rules refuse blocks, they never change what one means |
| Lz4.ReadsSequence | src/encoding/lz4_block.cpp:122-139 | decoding a written literal-and-match sequence appends the literals, then the match |
| Lz4.CopiesAhead | src/encoding/lz4_block.cpp:85-92 | copying a match byte by byte, overlap included, continues data that repeats at that distance |
| Lz4.PutLength | src/encoding/lz4_block.cpp:113-120 | a length's extension bytes |
| Lz4.PutSequence | src/encoding/lz4_block.cpp:122-139 | a sequence's bytes, with or without a match |
| Lz4.ExtendMatch | src/encoding/lz4_block.cpp:143-180 | a match is extended as far as the bytes agree and the block's last five allow |
| Lz4.CompressBlock | src/encoding/lz4_block.cpp:143-180 | decompressing the block under the end-of-block rules gives the data back, for every input |
| Lz4.SizeCheckLosesNothing | src/encoding/lz4_block.cpp:25-40 | the reader's bound on the declared size refuses no block that decodes |
| Lz4.CompressSized | src/encoding/lz4_block.cpp:182-198 | the sized form holds the size and such a block, or is refused as too large |
| WrittenOut.Lz4Bytes | src/encoding/lz4_block.cpp:85-98 | a block of twelve bytes and the seventeen it stands for |
| WrittenOut.Lz4Rules | src/encoding/lz4_block.cpp:96-98 | the end-of-block rules with their numbers |
| BitPack.NoCarries | include/nanolance/bool_bitpack.hpp:19-26 | the multiply is the bitwise or of eight shifted copies: no carries |
| BitPack.Pack8Bits | include/nanolance/bool_bitpack.hpp:22-26 | bit k of the packed byte is the low bit of byte k |
| BitPack.PackLsbFirst | include/nanolance/bool_bitpack.hpp:47-59 | the output holds the low bits in order, zero in the padding, and no byte past it is written |
| BitPack.PackTail | include/nanolance/bool_bitpack.hpp:52-58 | the last byte from fewer than eight values |
| BitPack.UnpackTable | include/nanolance/bool_bitpack.hpp:29-41 | entry b is the eight bits of b as bytes, lowest first |
| BitPack.UnpackEntry | include/nanolance/bool_bitpack.hpp:33-37 | one entry, bit by bit |
| BitPack.UnpackLsbFirst | include/nanolance/bool_bitpack.hpp:75-90 | for every offset and count the output is those bits |
| BitPack.OnlyWantedBytes | include/nanolance/bool_bitpack.hpp:75-90 | the output depends on no byte but those that hold one of the bits |
| BitPack.UnpackOne | include/nanolance/bool_bitpack.hpp:78-81 | one value by the bit form |
| BitPack.UnpackEight | include/nanolance/bool_bitpack.hpp:82-85 | eight values by the table |
| BitPack.PackedOnce | include/nanolance/bool_bitpack.hpp:43-59 | values have one packed form |
| BitPack.RoundTrip | include/nanolance/bool_bitpack.hpp:43-90 | an output is the unpacked run of packed values if and only if it is the low bits of those values |
| ProtoWire.VarintRoundTrip | src/base/proto_wire.hpp:16-22 | a written varint is read back, whatever follows it |
| ProtoWire.VarintLocal | src/base/proto_wire.hpp:42-131 | reading a varint does not depend on what follows it |
| ProtoWire.RecordLocal | src/base/proto_wire.hpp:42-131 | nor does reading a record |
| ProtoWire.SplitRecords | src/base/proto_wire.hpp:42-131 | a message is cut into records whose bytes, put together, are a front of it, and no record can be read after them |
| ProtoWire.SplitOnly | src/base/proto_wire.hpp:42-131 | no other records make up such a front |
| ProtoWire.SplitJoin | src/base/proto_wire.hpp:42-131 | records put together are cut apart into the same records |
| ProtoWire.VarintRecordRead | src/base/proto_wire.hpp:16-26 | a written key and varint are one record of that number and value |
| WireGrammar.VarintIff | src/base/proto_wire.hpp:111-127 | a varint is read exactly where one to ten base-128 digits are written, as their number cut to 64 bits |
| WireGrammar.RecordIff | src/base/proto_wire.hpp:58-109 | a record is read exactly where a key and a varint, eight bytes, a length and so many bytes, or four bytes are written, and it is that one, with its number, wire type and value |
| WireGrammar.FieldAppended | src/base/proto_wire.hpp:58-109 | a field written after whole records is one record more |
| FieldCodec.WithoutKeyFields | generated/lance_minimal.pb.cpp:144-154 | the records that are no key field, byte for byte and in order |
| FieldCodec.ReadKeyFields | generated/lance_minimal.pb.cpp:157-172 | each key field is its last varint, truncated to its type |
| FieldCodec.WireUnknownOf | generated/lance_minimal.pb.cpp:175-190 | the other records followed by one record for each key field that is not zero |
| FieldCodec.ReadField | generated/lance_minimal.pb.cpp:208-230 | a field from the wire, a field that is its own parent made a root |
| FieldCodec.WriteField | generated/lance_minimal.pb.cpp:194-206 | a field to the wire |
| FieldCodec.WrittenReadBack | generated/lance_minimal.pb.cpp:157-190 | written key fields are read back, and the other records with them |
| FieldCodec.RoundKeepsRecords | generated/lance_minimal.pb.cpp:194-230 | for every byte string: after one round the records are the other records in order, then at most one a key field |
| FieldCodec.SecondRoundSame | generated/lance_minimal.pb.cpp:194-230 | a second round changes nothing |
| FieldCodec.FieldRoundTrip | generated/lance_minimal.pb.cpp:194-230 | writing and reading a field gives it back, if and only if it is not its own parent (or is a root) and its unknown bytes are whole records of no key field |
| FieldCodec.OwnParentLost | generated/lance_minimal.pb.cpp:208-230 | a field where it fails: one that is its own parent comes back as a root |
| FieldCodec.BrokenTailLost | generated/lance_minimal.pb.cpp:144-154 | another: half a varint among the unknown bytes is dropped |
| FieldCodec.KeptIff | generated/lance_minimal.pb.cpp:144-154 | the unknown bytes stay as they are, if and only if they are whole records of no key field |
| KeyFields.KeySet | generated/lance_minimal.pb.cpp:134-172 | on bytes, with the numbers 12, 13 and 15: a key field written after the others sets that field of the decoded one and nothing else |
| KeyFields.LaterWins | generated/lance_minimal.pb.cpp:156-172 | a later one wins over an earlier one |
| KeyFields.OtherKept | generated/lance_minimal.pb.cpp:144-154 | a field of any other number, of any wire type, is kept after the others byte for byte |
| KeyFields.OddKeyDropped | generated/lance_minimal.pb.cpp:144-172 | one of those numbers that is no varint changes nothing and is dropped |
| KeyFields.AppendedIff | generated/lance_minimal.pb.cpp:156-172 | that what is written after the others is read after them holds if and only if those are whole records |
| KeyFields.FrontOnly | generated/lance_minimal.pb.cpp:144-172 | what follows the last whole record does not matter |
| KeyFields.WrittenBytes | generated/lance_minimal.pb.cpp:175-190 | the bytes written: the other records, then those of each key that is set |
| KeyFields.FixedThenKey | generated/lance_minimal.pb.cpp:144-172 | a 32-bit field and then the primary key: the one kept, the other set |
| Search.LowerBoundFinds | src/table/frag_reuse.cpp:382-385 | the halving search finds a member of an ascending list at its position |
| Search.LowerBoundFindsAll | src/table/frag_reuse.cpp:382-385 | it finds every element of a list where it stands if and only if the list is ascending |
| Search.UpperBoundFindsRun | src/table/frag_reuse.cpp:387-390 | one before the upper bound of the starts is the run of a position, empty runs or not |
| FragReuse.Resolve | src/table/frag_reuse.cpp:369-394 | an address goes through every version in turn, or is gone, for every version that can be built |
| FragReuse.ResolvesRows | src/table/frag_reuse.cpp:369-394 | resolving addresses is resolving rows while no new fragment holds more rows than 32 bits count |
| FragReuse.NarrowIff | src/table/frag_reuse.cpp:391 | every surviving row keeps its place in its address if and only if no new fragment holds more |
| FragReuse.WideCollides | src/table/frag_reuse.cpp:391 | a version where it fails: two rows of a new fragment of 2^32 + 1 rows are given one address |
| FragReuse.TracedIff | src/table/frag_reuse.cpp:369-385 | every row recorded as rewritten is found where it is recorded, if and only if each old fragment's rows ascend and are inside it |
| FragReuse.RemapCoverage | src/table/frag_reuse.cpp:396-413 | the remapped ids ascending; untouched when there is no version |
| FragReuse.RemapOne | src/table/frag_reuse.cpp:402-409 | a group held whole swaps its old fragments for its new ones, one held in part only loses them |
| FragReuse.EraseAll | src/table/frag_reuse.cpp:403-406 | the erase loop and how many it counts |
| FragReuse.RemapStep | src/table/frag_reuse.cpp:401-410 | a version's groups one after another |
| FragReuse.RemapGroupsIs | src/table/frag_reuse.cpp:396-413 | for every id: covered after a version if and only if covered and not rewritten, or written by a group that was covered whole |
| FragReuse.MoveTarget | src/table/frag_reuse.cpp:386-391 | a surviving row moves into the new fragment whose run holds its index |
| FragReuse.MoveInjective | src/table/frag_reuse.cpp:369-394 | one compaction sends different rows to different places |
| FragReuse.MoveOnto | src/table/frag_reuse.cpp:369-394 | every row of a new fragment is the image of a row of its group |
| FragReuse.ResolvedLands | include/nanolance/frag_reuse.hpp:28-30 | over any number of compactions a resolved row is a row of the last table |
| FragReuse.ResolveInjective | include/nanolance/frag_reuse.hpp:28-30 | over any number of compactions different surviving rows resolve to different rows |
| Contents.MoveKeeps | src/table/frag_reuse.cpp:369-394 | a compaction whose new fragments hold, end to end, what its old ones leave moves every surviving row to where its content is |
| Contents.ResolvedKeeps | include/nanolance/frag_reuse.hpp:28-30 | over any number of compactions a resolved row holds what the row held that was asked for |
| Contents.AddressHolds | src/table/frag_reuse.cpp:369-394 | the same for addresses, while no new fragment holds more rows than 32 bits count |
| FragReuse.CoverageSound | include/nanolance/frag_reuse.hpp:35-38 | every live row of a fragment the remapped coverage claims is where a row of the original coverage is now |
| Contents.CoverageKeeps | include/nanolance/frag_reuse.hpp:35-38 | and that row held the same content |
| FragBuild.CollectKept | src/table/frag_reuse.cpp:220-223 | the surviving offsets of each old fragment |
| FragBuild.BuildRanges | src/table/frag_reuse.cpp:208-215 | the new ranges, end to end, empty fragments dropped |
| FragBuild.AddOldFragments | src/table/frag_reuse.cpp:224-252 | the old fragments of a group are added, or refused, exactly as recorded, in whatever order the rows are |
| FragBuild.BuildGroup | src/table/frag_reuse.cpp:201-261 | a group is accepted exactly when its fragments are listed once, its rows lie in them with the last of each inside, and its counts agree |
| FragBuild.BuildStep | src/table/frag_reuse.cpp:200-264 | a version is accepted exactly when its groups are; what is built records it and can be resolved through, and every rewritten row is found if and only if each old fragment's rows ascend and are inside it |
| FragBuild.AscendingInOrder | src/table/frag_reuse.cpp:220-243 | ascending addresses meet that condition |
| FragBuild.UnorderedAccepted | src/table/frag_reuse.cpp:200-264 | two rows of a fragment recorded in the wrong order are accepted |
| FragBuild.UnorderedLost | src/table/frag_reuse.cpp:369-385 | and then both read as deleted, or one outside the fragment as never moved |
| Rewritten.KeptOfDecoded | src/table/frag_reuse.cpp:215-223 | the rows of a fragment are those of its bitmaps, in the order these are stored |
| Rewritten.DistinctKeysInOrder | src/table/frag_reuse.cpp:215-243 | with the keys all different, in whatever order, an accepted group's rows are in order: only a key that comes twice does harm |
| Roaring.DecodedAscends | src/base/roaring_bitmap.cpp:60-179 | whatever bytes are accepted, the ids read are ascending and fit 32 bits |
| Roaring.RoundTrip | src/base/roaring_bitmap.cpp:181-220 | encoded ids are decoded to the same ids, and decoding stops at their end |
| Roaring.RoundTripIff | src/base/roaring_bitmap.cpp:60-220 | 32-bit ids in any order are read back if and only if they are ascending |
| Roaring.ReadAlike | src/base/roaring_bitmap.cpp:60-220 | ids in any order are refused, or read as so many values and not past their end |
| RoaringRuns.RunsRead | src/base/roaring_bitmap.cpp:117-142 | a container written as runs is read as the values of its runs |
| RoaringRuns.RunFormRead | src/base/roaring_bitmap.cpp:60-179 | a bitmap with the cookie 12347, any of its containers stored by runs, is read as the ids it was cut from, whatever its offsets and what follows |
| WrittenOut.RoaringBytes | src/base/roaring_bitmap.cpp:181-220 | the eighteen bytes of one id |
| WrittenOut.RoaringSizes | src/base/roaring_bitmap.cpp:181-220 | up to 4096 values are listed, more are 8192 bytes of bits |
| Roaring.OffsetsTrue | src/base/roaring_bitmap.cpp:181-220 | each offset in the header is where that container's bytes are |
| Roaring.JoinedBack | src/base/roaring_bitmap.cpp:183-191 | splitting ids by their high bits loses nothing |
| Roaring.FindContainers | src/base/roaring_bitmap.cpp:183-191 | the span loop finds the maximal runs of equal high bits |
| Roaring.Encode | src/base/roaring_bitmap.cpp:181-220 | the loops write exactly that layout, for ids in any order |
| Treemap.RoundTrip64 | src/base/roaring_bitmap.cpp:222-281 | encoded 64-bit ids are decoded to the same ids when every span of equal high bits ascends, whatever the order of the spans |
| Treemap.RoundTrip64Iff | src/base/roaring_bitmap.cpp:222-281 | and only then |
| Treemap.AscendingSpans | src/base/roaring_bitmap.cpp:260-281 | so always for ascending ids |
| Treemap.DecodedOrder | src/base/roaring_bitmap.cpp:222-258 | what is read ascends if and only if every bitmap that holds anything is before the next one; so when the keys of those ascend, and if no key comes twice only then |
| Treemap.Encode64 | src/base/roaring_bitmap.cpp:260-281 | the loop writes exactly that layout, for ids in any order |
| WrittenOut.TreemapBytes | src/base/roaring_bitmap.cpp:260-281 | the bytes of one address |
| IndexMessages.EncodeMessage | generated/lance_minimal.pb.cpp:379-393 | an unchanged message as read, a changed one with its bitmap written anew |
| IndexMessages.ChangedMessage | generated/lance_minimal.pb.cpp:342-393 | a changed message says what it said but for its fragments, which read back as the new ones |
| IndexMessages.DecodeSection | generated/lance_minimal.pb.cpp:454-471 | refused exactly when the section or one of its messages is; otherwise every message in its place |
| IndexMessages.EncodeSection | generated/lance_minimal.pb.cpp:473-483 | the messages in order |
| IndexMessages.SectionRoundTrip | generated/lance_minimal.pb.cpp:454-483 | after changing the fragments of any indices, the others' messages are there byte for byte and in place, and each changed one reads as before but for its fragments |
| IndexWire.LengthRecordRead | src/base/proto_wire.hpp:16-26 | a written key, length and body are one record of that number with that body |
| IndexWire.WireSound | generated/lance_minimal.pb.cpp:342-393 | on the protobuf wire what is written is read back, for every index message and every section: the premise of the results above |
| IndexWire.WireRoundTrip | generated/lance_minimal.pb.cpp:454-483 | so in the section's bytes every unchanged message is there byte for byte, and each changed one keeps all its other records in order |
| Remote.TrimSlashes | wasm/weblance_glue.cpp:280-285 | the slashes at the end, and only those, are dropped |
| Remote.RemoteFor | wasm/weblance_glue.cpp:287-320 | the listing URL, base and path of a directory, or a refusal; which they are: `Directories.ListingUrlIs` |
| Remote.SlashSame | wasm/weblance_glue.cpp:287-320 | one more slash at the end of a directory's URL names the same remote |
| Remote.KeyLaw | wasm/weblance_glue.cpp:287-320 | a listed file's key is dir + "/" + name, if and only if the URL does not end with a slash, or only with the one of "/resolve/" |
| Remote.SlashedKey | wasm/weblance_glue.cpp:287-320 | where it fails: with one more slash a plain directory's keys are still those of the plain one |
| Directories.ListingUrlIs | wasm/weblance_glue.cpp:287-320 | for every repository, revision and path, and every local origin and path: the listing URL, the base and the path are those built from exactly these parts |
| Directories.PartsOf | wasm/weblance_glue.cpp:287-320 | every plain directory there is a listing for has such parts |
| Directories.DifferentListings | wasm/weblance_glue.cpp:304-315 | different plain directories have different listing URLs when the repository's name has no "/tree/" in it |
| Directories.TreeShared | wasm/weblance_glue.cpp:304-305 | in general they do not: a directory of a repository shares its listing URL with another repository |
| Directories.SharedInput | wasm/weblance_glue.cpp:304-305 | two such URLs |
| Directories.OwnListingIff | wasm/weblance_glue.cpp:304-305 | a hub directory's listing URL is no other directory's if and only if "/tree/" stands in it only where the revision begins, or after "/resolve/" |
| Directories.NoneOfDirectoryRefused | wasm/weblance_glue.cpp:118-123 | on a server that has each directory's pages at its listing URL, after a complete walk no file of the directory asked for is refused |
| Listing.ReadPage | wasm/weblance_glue.cpp:360-391 | the loop over a page's lines, sizes read as `strtoull` reads them |
| Listing.PageRoundTrip | wasm/weblance_glue.cpp:75-77 | reading a page gives exactly the entries listed directly under the directory, in order, for paths without tabs and line feeds |
| Listing.DirectIs | wasm/weblance_glue.cpp:372-386 | an entry is directly under a directory exactly when its path is the directory's and one name more |
| Listing.DecimalRead | wasm/weblance_glue.cpp:385 | a size printed in decimal is read back |
| Web.Browser.constructor | wasm/weblance_glue.cpp:112-120 | the caches start empty |
| Web.Browser.RangeRead | wasm/weblance_glue.cpp:171-205 | which requests are made and at which URL: at most eight, seven without a cached URL, only the first at a cached one; none but unanswered ones are repeated at the original URL; the loop's bound never ends it; what the redirect cache then holds, and that no entry is empty or its own key |
| Web.Browser.OpenRemote | wasm/weblance_glue.cpp:244-268 | refused without a request exactly when no size is known and the directory's listing is cached; opened at the recorded size without a request, else at the size a request gave; true sizes stay true |
| Web.Browser.FetchPage | wasm/weblance_glue.cpp:340-351 | the first answer with a status, or the sixth |
| Web.Browser.RecordSizes | wasm/weblance_glue.cpp:386-388 | the sizes of a page's files are recorded |
| Web.Browser.ListRemote | wasm/weblance_glue.cpp:332-394 | the entries of the pages read and how the walk ended: complete, missing, capped or failed; sizes are kept even when it failed |
| Web.Browser.ListCached | wasm/weblance_glue.cpp:397-408 | a cached listing without a request; otherwise the walk, stored unless it failed; true sizes stay true |
| Web.Browser.NewSnapshot | wasm/weblance_glue.cpp:696 | an open forgets the listings and keeps every invariant |
| Web.LaterPageRefused | wasm/weblance_glue.cpp:244-268 | for any plain directory whose second page is not found: a file on that page is refused, though the server has it |
| Web.MissedIsRefused | wasm/weblance_glue.cpp:244-268 | a file named only by pages a walk did not read, and without a size, is refused |
| Web.AliasedListing | wasm/weblance_glue.cpp:386-406 | a directory listed with and without a slash at its end, a file changed between: the first listing keeps the old size, the file opens at the new |
| Pages.WalkOnce | wasm/weblance_glue.cpp:332-394 | the answers fix where a walk ends and why |
| Pages.AlongPage | wasm/weblance_glue.cpp:337-393 | each page is asked for at the URL the page before names, the first at the listing URL |
| Pages.WalkReads | wasm/weblance_glue.cpp:332-394 | a complete walk has read all the server's pages, any other only some |
| Pages.PagesFaithful | wasm/weblance_glue.cpp:332-394 | the entries read are exactly those the server lists directly under the directory on the pages read |
| Sizes.RecordedHas | wasm/weblance_glue.cpp:386-388 | exactly the listed files get a size, the one their last entry gives; no other size changes |
| Sizes.RecordedTrue | wasm/weblance_glue.cpp:386-388 | if the listing and the recorded sizes are true, so are the sizes after it |
| Sizes.ReplayIs | wasm/weblance_glue.cpp:114-115 | over any history of listings and probes a file's size is the one given last |
| Sizes.ListedIsKnown | wasm/weblance_glue.cpp:244-268 | a file of a cached listing opens at its listed size if and only if no later recording of the same file gave another; under a plain directory URL it is dir + "/" + name, and the scheme check lets it pass |
| Sizes.RefusalsTrueIff | wasm/weblance_glue.cpp:118-120 | for a server's pages and a walk that read some of them: every file refused under a plain directory is one the server does not list, if and only if the pages not read name no file that the pages read do not or that had no size before |
| Sizes.CompleteRefusalsTrue | wasm/weblance_glue.cpp:118-120 | after a complete walk no file the server lists is refused |
| Takes.Take.constructor | wasm/weblance_glue.cpp:578 | nothing taken yet |
| Takes.Take.Run | wasm/weblance_glue.cpp:597-618 | the requested rows sorted and unique are asked for once; accepted exactly when as many rows come back, and then positions can be located |
| Takes.Take.FillStarts | wasm/weblance_glue.cpp:609-614 | the starts of the batches, empty ones included, then the total |
| Takes.Take.Locate | wasm/weblance_glue.cpp:640-644 | a sorted position's batch and an offset inside it, holding that row |
| Takes.Take.Find | wasm/weblance_glue.cpp:634-644 | a requested row is found, duplicates and order aside |
| Takes.TakeRows | wasm/weblance_glue.cpp:794-812 | what is handed back is what plain lookup of each requested row gives, in the order asked |
| Csv.CsvEscape | tools/nlance2table.cpp:115-129 | the field appended as it is, or quoted with its quotes doubled |
| Csv.WriteLine | tools/nlance2table.cpp:282-289 | the cells with commas between |
| Csv.FileBack | tools/nlance2table.cpp:278-325 | reading the file by section 2 of RFC 4180 gives the rows back, whatever the cells hold |
| Csv.FileRoundTrip | tools/nlance2table.cpp:278-325 | unchanged if and only if no row is without cells |
| Csv.NoCellsReadAsOne | tools/nlance2table.cpp:278-325 | a file where it fails: a row without cells is read as one empty cell |
| Json.JsonEscapeString | tools/nlance2table.cpp:163-183 | the string quoted and escaped |
| Json.StringRoundTrip | tools/nlance2table.cpp:163-183 | a reader by section 7 of RFC 8259 gets the string back and stops at its end |
| Table.HeaderNames | tools/nlance2table.cpp:132-142 | the dotted names of the leaves |
| Table.HeaderIsLeaves | tools/nlance2table.cpp:132-142 | the header names every leaf once, in order, whatever the values |
| Table.RowCells | tools/nlance2table.cpp:145-159 | the cells of a row, one empty cell a direct child of a null struct |
| Table.RowUnderHeader | tools/nlance2table.cpp:132-159 | each cell stands under its own name if and only if no empty struct is reached and no null struct has a child of more than one column; otherwise there are too few cells |
| Table.NullStructShort | tools/nlance2table.cpp:149-155 | a null struct that prints one cell for two columns |
| Table.EmptyStructShort | tools/nlance2table.cpp:133-140 | an empty struct that prints a name and no cell |
| Md5.PaddedLeast | tools/md5_util.hpp:41 | the padded length is the least multiple of 64 that is at least len + 9 |
| Md5.BytesArePadded | tools/md5_util.hpp:42-53 | the four cases spell the padded message of sections 3.1 and 3.2 of RFC 1321 |
| Md5.ZeroCountIs | tools/md5_util.hpp:41 | that padding has the RFC's number of zero bytes, which is unique |
| Md5.LoadBlock | tools/md5_util.hpp:56-62 | the sixteen words of a block, low-order byte first |
| Md5.CodeWordIs | tools/md5_util.hpp:69-78 | the index formulas are the order section 3.4 of RFC 1321 lists |
| Md5.MixIs | tools/md5_util.hpp:68-79 | the mixing functions are its F, G, H and I |
| Md5.RotlRotates | tools/md5_util.hpp:18 | the shift pair is a rotation for every shift used |
| Md5.StepTurns | tools/md5_util.hpp:80-84 | shifting the registers round is updating them in place by the RFC's rotating roles |
| Md5.RunBlock | tools/md5_util.hpp:63-89 | a block's sixty-four steps and the final additions |
| Md5.Registers | tools/md5_util.hpp:38-90 | the registers after the whole message are the RFC's fold over its blocks |
| Md5.Md5Hex | tools/md5_util.hpp:92-104 | thirty-two digits that stand for the digest's sixteen bytes |
| Md5Suite.EmptyDigest | tools/md5_util.hpp:20-90 | the digest of the empty message is the one in the test suite of RFC 1321 |

## Left out

- Fsst: an encoder built without training takes the general path of a library that is not part of this model; the
  tables of a trained one are described by a predicate read off the header's comments.
- FragBuild.BuildStep: fragment ids are taken to fit 32 bits and row totals 64; a larger id would be cut.
- Search.LowerBound: `std::lower_bound` on a list that is not ascending is what the halving of the common standard
  libraries gives.
- Roaring: the decoder is a function on the rest of the bytes, not a cursor that advances.
- Lz4.CompressBlock: which matches the hash table finds is left open; what is stated is that the block stands for the
  data.
- Contents.ResolvedKeeps: that a compaction copies the rows it keeps, in order, is the premise; the writer of the new
  fragments is not modelled.
- Retry.RetryOnConflict: adds up the ceilings of the pauses; each pause is a random time up to its ceiling.
- Commit: the merge of deletion vectors and the content of a rebased manifest; a change is an identity, and its
  verdict against another is a parameter. The timestamps, the content of a transaction file and the feature-flag
  checks; a transaction written into the manifest itself, which other writers use beside the file. The listing and the
  reads of one rebase are one step, and so are a put and its client's own retries.
- Commit.CleanupKeeps: which versions a cleanup's policy, tags and branches select is left open, and so is which
  cleanup runs when; the data files and transaction files it removes are not modelled.
- FieldCodec: the order in which a metadata map's entries are written, and the message codec beneath.
- IndexMessages: the protobuf codec beneath is a parameter with the premise that what it writes it can read.
  `IndexWire.WireSound` proves it of the wire format with every record but the bitmap kept as it is; that the
  generated codec, which is not part of this model, writes known fields the same way again is not proved.
- Treemap.RoundTrip64Iff: for ids of which no bitmap's container is given more than 65536 in a row, as its header
  counts no more.
- CheckLayers.Run: the layout, the scanned files and their includes are given; paths are not cut into names.
- Allowlist: the file is given as its lines, and the pairs in the order they are written.
- Web.Browser.RangeRead: the body bytes and the times; URLs are taken to be single-byte text.
- Web.Browser.ListRemote: a page's files are recorded after the page's lines are read, not line by line.
- Takes.Take.Run: that the dataset's take returns the rows asked for, in order, is a premise.
- Md5.Registers: the sine table is a constant; that it is the integer part of 2^32 times the sines is not proved, but
  `Md5Suite.EmptyDigest` fixes it, with the start registers, by a digest of the RFC's own. The table of sixty-four
  shifts is written as the four shifts of each round, in turn.
- Table.RowCells: the text of a scalar is given; numbers, decimals and hex are rendered by libraries.
- Json.JsonEscapeString: only strings; objects, numbers and the pairs of surrogate escapes are not read.
- Serialize.Serializer.Mark: structs without a bitmap are visited like others, where the code steps over them, and the
  innermost list's items are visited one by one, where the code loops over them in place.
- Nested.SerializeRows: 16-bit levels; offsets are taken to be non-negative.
- Parts.PartsSame: a part's steps are the writes its pass makes to each vector, in order; that a write is not torn is
  taken from the threads touching different elements.
- The column encodings beyond FSST, LZ4 blocks and bools, and the page layouts.
- Deletion vectors, row ids, references and tags, overlays and the write-ahead log.
- The expression language, index search and full-text search.
- The C and Python interfaces, the command line tools and the benchmarks.
