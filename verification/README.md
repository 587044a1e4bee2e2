# BitKeeper's history algorithms, modelled and proved

BitKeeper keeps the history of a repository in one ChangeSet file: a table of
deltas numbered by serial in time order, and a weave that lists, per delta, the
(rootkey, deltakey) pairs it added. Most of the code that maintains this file is
incremental and claims to agree with something simple. This project states the
simple side and proves the agreement, for every table, every weave and every
run.

Check everything with `dafny verify dfyconfig.toml`.

| file | what it is about |
|---|---|
| `DeltaGraph.dfy`, `WalkRevs.dfy` | the delta graph and the coloured walk that enumerates the difference, symmetric difference, intersection or union of two closures, or its tips, in one downward pass |
| `Gca.dfy` | the common ancestor of two deltas, by a quick pass and from the list of the greatest ones |
| `ChangesetBoundary.dfy` | from selected deltas to the changesets that hold one |
| `Bisect.dfy` | binary search over a graph: scores, choice, and the driving loop |
| `Weave.dfy`, `WeaveIndex.dfy`, `CsetResum.dfy` | the changeset checksum by definition, and the pass that computes many of them by differences, in any order |
| `CommitSum.dfy`, `Commit.dfy` | the checksum of a new commit from its parent's, with an early exit and a three-region merge rule, and its agreement with a later check |
| `KeyOrder.dfy`, `ReceivePatch.dfy`, `Converge.dfy` | the order of deltas, inserting a patch delta by delta, the single renumbering pass, and convergence of repositories |
| `WeaveMarkers.dfy` | end markers of rootkeys when weave entries arrive |
| `Heap.dfy`, `HeapRepack.dfy`, `WeaveRepack.dfy`, `Repack.dfy` | the byte-level data heap and its repacking |
| `Paging.dfy` | demand paging of file data with regions that share pages |
| `AliasExpansion.dfy`, `AliasCover.dfy` | nested aliases: expansion with cycle detection, and the greedy cover |
| `CheckKeys.dfy` | matching a file's keys against the weave with a cursor |
| `BamLog.dfy`, `BamStore.dfy`, `BamClean.dfy`, `BamGaps.dfy` | the BAM store: log, index, collision numbering, cleaning, and when cleaning leaves gaps |
| `Options.dfy` | a value that may be missing |

The main results:

- A commit's checksum equals the sum over the active key of every rootkey, and
  so does every checksum of the resum pass, whatever the order of visits. A file
  whose checksums are right stays so with every commit, and a check reports the
  new changeset exactly when it is a commit of nothing whose random sum is wrong.
- Two repositories that exchange what the other lacks both succeed and end with
  the same table exactly when they agree on the deltas they share; receiving
  succeeds exactly when what is received is compatible.
- The one-pass renumbering equals the composition of all one-step shifts.
- Rootkeys keep exactly one end marker, on their oldest entry, through commits,
  received patches and repacking.
- After a repack every string, symbol and weave entry of a file reads the same,
  and an offset shows the kind of a rootkey exactly when its text is not shared
  with a field or symbol, or it is a component.
- One walk gives the set its flags ask for, or exactly the tips of that set. The
  walk for common ancestors gives the greatest of them, and its first is what
  the quick common ancestor pass returns.
- Paged memory behaves as plain memory in every sequence of reads, writes and
  mappings.
- Every bisection ends, and what it finds has only passing history below it.
- Alias expansion succeeds exactly when neither a cycle nor an illegal name is
  reachable, and the cover's picks are lexicographically best.
- Every run of BAM operations keeps the index equal to the replay of its log and
  every key at the bytes inserted under it. Cleaning keeps the numbers of a hash
  without gaps, whatever is needed, exactly when the hash has at most nine files
  or only its first file has keys.

Hashes, lists and tables that the source updates are `map`, `seq` and `set`
values in classes or loop variables; byte buffers are sequences of bytes. A
rootkey that the source identifies by heap offset is identified by its text,
except in the heap modules, where offsets are the subject.

## Model

| member | source | states |
|---|---|---|
| WalkRevs.Walker.constructor | src/librange.c:454-495 | the flags set on the tips stand for the closures of the tips, or without red tips for every delta, and the mark counter for the deltas with some colours but not all |
| WalkRevs.Walker.MarkDelta | src/librange.c:421-432 | the two conditional updates of the counter keep it equal to the number of deltas with some colours but not all, in two- and three-colour walks |
| WalkRevs.Walker.Next | src/librange.c:506-534 | the next serial returned is the largest below the last one that the flags of the walk ask for; 0 only when none is left; a walk for tips then gives the ancestors of the serial all colours |
| WalkRevs.Walker.Prune | src/librange.c:536-541 | exactly the proper ancestors of the pruned delta take all colours, so they and no others leave the walk |
| WalkRevs.Walker.Done | src/librange.c:543-555 | every colour the walk left behind is gone, so the colour bits that all walks share are clear again |
| WalkRevs.Collect | src/librange.c:434-452 | the list is, newest first, exactly the difference, symmetric difference, intersection or union of the two closures, or exactly the tips of it; without red tips the first closure is every delta |
| WalkRevs.AnswerMeans | src/librange.c:440-446 | for each combination of flags what the colour test wants is the set that the combination stands for |
| WalkRevs.ListIsTips | src/librange.c:528 | pruning at each delta returned leaves exactly the members under no other member |
| WalkRevs.UnderTip | src/librange.c:448-450 | every member of the answer is a tip or an ancestor of one, so every common ancestor lies under a greatest one |
| WalkRevs.StepReach | src/librange.c:521-525 | clearing a delta and handing its colours to its parents keeps, for every other delta, which colours reach it |
| WalkRevs.EvenReach | src/librange.c:410-418 | when no delta has just some colours, all colours reach the same deltas, so the walk may stop |
| DeltaGraph.AncMeans | src/librange.c:497-504 | the closure of a delta is everything that some way down over parents and merge parents leads to |
| Gca.Gca2 | src/slib.c:17095-17117 | the quick pass returns the newest common ancestor, or 0 exactly when there is none |
| Gca.Gca3 | src/slib.c:17127-17160 | the list has exactly the greatest common ancestors, every common ancestor lies under one of them, and the first is the newest common ancestor |
| Gca.SameGca | src/slib.c:17162-17167 | both ways give the same delta, in either order of the two |
| ChangesetBoundary.RegionHasSelected | src/bkd_r2c.c:103-112 | the walk pruned at other marked deltas answers whether the changeset of c (its closure minus the closures of other marked ancestors) holds a selected delta |
| ChangesetBoundary.ColourForward | src/bkd_r2c.c:127-140 | the forward pass lists every boundary, oldest first |
| ChangesetBoundary.BoundaryIsReached | src/bkd_r2c.c:127-140 | if the changeset of c holds a selected delta, then c is selected or one of its parents was coloured |
| ChangesetBoundary.BoundarySet | src/bkd_r2c.c:120-160 | the filtered list is exactly the marked deltas whose changeset holds a selected delta |
| ChangesetBoundary.NothingLeft | src/bkd_r2c.c:145-158 | a full pruned scan without an answer means that the changeset holds nothing selected |
| Bisect.ScoreOf | src/bisect.c:493-500 | the parent's score plus the flagged part of the ancestor difference is the number of candidates under the delta, also when the parent is no candidate |
| Bisect.ComputeScores | src/bisect.c:484-501 | every candidate gets the number of candidates that are its ancestors or itself |
| Bisect.CountIs | src/bisect.c:490-501 | the count behind a score is the number of members of the set |
| Bisect.PickMiddle | src/bisect.c:502-511 | the best balance among the candidates, ties to the newest |
| Bisect.Choose | src/bisect.c:513-559 | the chosen candidate was not skipped; no answer only when all were |
| Bisect.Step | src/bisect.c:457-563 | one call: refused exactly when the tip lies under a passing revision, found, the next delta to try, or no answer; all scores are zero again afterwards |
| Bisect.NoCandidates | src/bisect.c:473-474 | there are no candidates, and the assertion fails, exactly when the failing tip is a passing revision or an ancestor of one |
| Bisect.FlaggedEnough | src/bisect.c:490-501 | when d is scored, the candidates flagged so far include all candidates under d |
| Bisect.CandidatesConvex | src/bisect.c:473-483 | the candidates without the tip contain every delta between two of them |
| Bisect.PassShrinks | src/bisect.c:346-348 | a passing answer makes the candidates strictly fewer and keeps the failing tip outside all passing closures |
| Bisect.FailShrinks | src/bisect.c:358-361 | so does a failing answer |
| Bisect.SkipConsumes | src/bisect.c:355-357 | an untestable answer leaves one fewer untried candidate |
| Bisect.Search | src/bisect.c:326-364 | whatever the script answers the search ends; there is nothing to search exactly when the tip is the start or an ancestor of it; a found revision fails or is the tip assumed to fail, and every proper ancestor of it lies under a passing revision |
| Bisect.FoundIsFirst | src/bisect.c:326-364 | if ancestors of passing revisions pass, the revision found is the first to fail |
| WeaveIndex.BuildIndex | src/checksum.c:563-595 | one reading of the weave gives, per rootkey, its entries in order with their sums, and per serial the files it touches |
| WeaveIndex.TotalIsPlainSum | src/checksum.c:563-586 | for every set of serials, the sum over the newest entry of each indexed rootkey is the checksum by definition |
| Weave.LineBytes | src/checksum.c:569-576 | what a line adds to a checksum is the sum of the bytes of rootkey, space, deltakey and newline |
| Weave.Widths | src/commit.c:758-954 | sums are kept in 16 bits, running sums in 32 |
| CsetResum.BackUp | src/checksum.c:655-657 | backs up to the newest entry not newer than d |
| CsetResum.FindEither | src/checksum.c:658-666 | the first entry active in the serialmap or in the graph, or the end |
| CsetResum.FindMap | src/checksum.c:693-701 | the first entry active in the serialmap, or the end |
| CsetResum.Rescan | src/checksum.c:649-701 | one file re-read: the position of its newest serialmap entry, the running sum moved by exactly the difference mod 2^16, and whether serialmap and graph disagree |
| CsetResum.RereadFile | src/checksum.c:644-701 | a file already re-read for d is left alone; else its memory, the sum and the difference count are those of d |
| CsetResum.RereadAll | src/checksum.c:637-702 | all files that a changed serial touches are re-read |
| CsetResum.MoveTo | src/checksum.c:629-703 | after the downward pass, which stops when the changed bits are used up, everything is settled at d |
| CsetResum.GraphDiff | src/checksum.c:615-626 | adds the closure difference to the bits and counts each serial once |
| CsetResum.SerialmapDiff | src/checksum.c:612-613 | contract of the serialmap difference |
| CsetResum.SettledMeans | src/checksum.c:612-703 | settled at d, the sum is the checksum of d's serialmap and the count is the number of rootkeys on which serialmap and graph disagree |
| CsetResum.Advance | src/checksum.c:609-704 | going from any changeset to any other ends settled at the other |
| CsetResum.Resum | src/checksum.c:597-743 | for every order of visits each sum equals the from-scratch checksum mod 2^16, exactly the visited changesets with another stored sum are reported, each difference count is the number of disagreeing rootkeys, and with fix the stored sums become these |
| CommitSum.Seed | src/commit.c:795-826 | reports a duplicate exactly when a rootkey occurs twice; else the hash, the counter and the sum are those of the commit's keys |
| CommitSum.ColourMerge | src/commit.c:780-794 | parent side and merge side are coloured by their difference, and rstart is the oldest coloured delta |
| CommitSum.NewItemsSum | src/commit.c:797-799 | the new keys are active in the new changeset and hide the older entries of their files |
| CommitSum.EnterChange | src/commit.c:849-907 | what one weave item adds to the running sum is what it adds to the new checksum minus what it adds to the parent's |
| CommitSum.TailAlike | src/commit.c:842-846 | with nothing pending and only common entries left, the rest of the weave adds the same to both checksums |
| CommitSum.ScanItem | src/commit.c:849-907 | one item keeps the hash, the counter of unfinished rootkeys and the sum in step with the definition |
| CommitSum.ScanStep | src/commit.c:830-908 | including closing the merge region, after which the counter has its extra one taken off |
| CommitSum.ScanWeave | src/commit.c:827-909 | the scan stops before the end only with the counter at zero, the merge region closed and common entries left, and its books are those of what it read |
| CommitSum.EarlyExit | src/commit.c:830 | with nothing pending and only entries under the parent left, the running sum already is the difference of the two checksums |
| CommitSum.Leftover | src/commit.c:910-942 | what is still pending is new in the changeset: its root part is added and its key marked |
| CommitSum.MarksExact | src/commit.c:934-940 | a key of the commit is marked exactly when its rootkey has no entry in the weave |
| CommitSum.UpdateChecksum | src/commit.c:758-954 | the stored sum is the parent's stored sum moved mod 2^16 by the difference of the two checksums, so from a right parent sum it is the sum over the active key of every rootkey in the closure of parent, merge and the commit itself; marks are exact; the merge warning is raised exactly when a rootkey was changed on both sides and not merged |
| DeltaGraph.AncNew | src/commit.c:758-779 | the closure of a new changeset is those of its parents and itself |
| Commit.CommitKeys | src/commit.c:758-954 | if all checksums were right they all still are, and the new one is too unless the commit has no keys and no merge and its random sum differs from the parent's; the weave is again one that a commit can start from; the merge warning is raised exactly when a rootkey was changed on both sides and not merged |
| Commit.StaysRight | src/commit.c:758-954 | a commit changes the checksum of no older changeset |
| Commit.WeaveStaysOk | src/commit.c:812-825 | the new weave is newest first, with markers after the entries they mark and on the last entry of a rootkey |
| Commit.Check | src/checksum.c:597-743 | a check in any order reports exactly the changesets whose stored sum is not the sum over their closure, and no disagreement of serialmap and graph where the serialmaps are the closures |
| KeyOrder.KeycmpMeans | src/check.c:1283-1306 | comparing by pointer up to the shorter user field and then from the date on is comparing user, then date and sum, never the path |
| KeyOrder.UserPrefix | src/check.c:1293-1300 | comparing only as far as the shorter user field reaches decides the user fields |
| KeyOrder.EarlierTotal | src/cweave.c:90-126 | of two keys exactly one is earlier, unless they are tied |
| KeyOrder.EarlierMeans | src/cweave.c:90-126 | an earlier key has the smaller date, or with one date the user field that comes first in byte order with its bar, or with one user the date and sum text that comes first |
| KeyOrder.EarlierUser | src/check.c:1293-1300 | with one date the key whose user field is smaller at the first difference is earlier |
| KeyOrder.StrcmpMeans | src/check.c:1297-1305 | the comparison is negative exactly when the first string is a proper prefix of the second or smaller at the first difference |
| KeyOrder.TextIs | src/check.c:1283-1290 | a key is user, bar, path, bar, date and sum |
| KeyOrder.EarlierTransitive | src/cweave.c:90-126 | the order is transitive |
| ReceivePatch.FindPlace | src/cweave.c:203-233 | the insertion point keeps the table in time order; there is none exactly when the table has a tied key |
| ReceivePatch.ShiftSymbols | src/cweave.c:241-246 | symbols at or above the new serial move up by one |
| ReceivePatch.ChangeSetFile.RemapParents | src/cweave.c:235-240 | parents at or above the new serial move up by one in every later delta |
| ReceivePatch.ChangeSetFile.Insert | src/cweave.c:135-271 | a known delta is recorded if its lineage lines up, else rejected; a new one is inserted in order with parents and symbols naming what they named |
| ReceivePatch.RemapIsShift | src/cweave.c:291-304 | for every reference it can meet, the array built in one pass gives the composition of all one-step shifts |
| ReceivePatch.FixMoves | src/cweave.c:297-315 | one local delta of the pass: include/exclude lists and tag parents are renumbered, the rest was already |
| ReceivePatch.ChangeSetFile.Fix | src/cweave.c:273-318 | after the pass all references of all local deltas name the deltas they named before the patch |
| ReceivePatch.Install | src/cweave.c:389-413 | the pairs sent for patch index k go to the serial recorded for it if it is new, and nowhere else |
| ReceivePatch.FinishedMeans | src/cweave.c:323-354 | the finished table is the old one merged with the patch: no delta lost, none invented |
| Converge.LineageMeans | src/cweave.c:151-184 | the lineage test on renumbered serials is equality of the parents by key |
| Converge.Receive | src/cweave.c:135-318 | receiving succeeds exactly when every delta of the patch is compatible with the table, and then table and symbols are the old ones merged with the patch |
| Converge.Unique | src/cweave.c:30-33 | a table in time order is determined by its deltas named by key |
| Converge.MakePatch | src/cset.c:899-985 | exactly the selected deltas are sent, oldest first and named by key; patchmap numbers them from 1 and is 0 for all others |
| Converge.PatchIsOk | src/cset.c:899-985 | a patch with everything the receiver lacks is closed under references for that receiver |
| Converge.OneHistory | src/cweave.c:30-33 | after merging each other's patches two agreeing repositories have the same deltas |
| Converge.Exchange | src/cweave.c:30-33 | when two repositories send each other at least what the other lacks, both succeed and end with the same table exactly when they agree on every delta they share, and the table then has the deltas of both |
| Converge.SameNeedsAgree | src/cweave.c:151-184 | repositories that end with the same table agreed on what they shared |
| Converge.OtherPairs | src/cweave.c:151-184 | a shared changeset with other pairs: both repositories accept each other's patch without an error and stay different |
| WeaveMarkers.Register | src/cweave.c:431-460 | per rootkey of the patch its oldest new delta if the heap knew it, and the marker of the first entry if not; cnt counts the former |
| WeaveMarkers.UpdateMarker | src/dataheap.c:388-439 | one block is rewritten with one marker added or removed |
| WeaveMarkers.ReadItem | src/cweave.c:469-478 | what one weave item does: clear a newer marker, note an older entry, or nothing |
| WeaveMarkers.ClearMarkers | src/cweave.c:462-480 | although the walk stops early, the markers newer than a new first entry are gone, and a rootkey stays noted exactly when no old entry is older |
| WeaveMarkers.Place | src/cweave.c:481-495 | the new blocks are in place, the first entry of each rootkey still noted is marked |
| WeaveMarkers.InstallWeave | src/cweave.c:431-495 | the weave gains exactly the patch's entries and every rootkey again has one marker, on its oldest entry, also with new files, older remote entries and rootkeys that only the heap knows |
| WeaveMarkers.ReadSound | src/check.c:1813-1824 | a weave with exact markers reads newest first, with no entry of a rootkey after its marker |
| WeaveMarkers.ReadyForCommit | src/commit.c:827-830 | such a weave meets all that the commit scan relies on |
| WeaveMarkers.CommitKeeps | src/commit.c:812-825 | a commit with exact marks keeps the markers exact and adds its items on top of the weave as read |
| WeaveMarkers.InsertKeeps | src/cweave.c:234 | making room for a delta keeps the markers exact |
| Heap.DataHeap.AddStr | src/dataheap.c:43-69 | the string is at the returned offset and nothing that was there moves |
| Heap.DataHeap.AddUniqStr | src/dataheap.c:116-183 | a known string is shared, an unknown one appended and remembered |
| Heap.DataHeap.AddUniqRootkey | src/dataheap.c:234-264 | likewise, with a link to the rootkey added before in the four bytes before it |
| Heap.WordOfAll | src/dataheap.c:890-920 | an array of 32-bit numbers written to the heap reads back, mod 2^32 |
| Heap.LowByteFirst | src/sccs.h:1097-1099 | a number is stored with its low byte first |
| Heap.StrIsAt | src/dataheap.c:49-69 | reading up to the zero byte gives the string that is at an offset |
| HeapRepack.SameFields | src/dataheap.c:1118-1153 | both orders of copying have every field exactly once, but for the BAM hash in a ChangeSet file |
| HeapRepack.NotShared | src/dataheap.c:1111-1131 | all strings but the include lists, BAM hashes, random bits and comments are shared |
| HeapRepack.MoveBlock | src/dataheap.c:1118-1132 | the newest deltas up to one swap block have all their fields copied; deltas are left over only when the block is full |
| HeapRepack.MoveRest | src/dataheap.c:1133-1144 | the remaining deltas have each listed field copied |
| HeapRepack.MoveSymbols | src/dataheap.c:1146-1150 | every symbol reads the same name |
| HeapRepack.RepackTable | src/dataheap.c:1111-1156 | every field of every delta and every symbol reads the same string in the new heap, whatever the swap size, and the unique strings gained are exactly the texts of shared fields and symbols |
| WeaveRepack.OldestKeys | src/dataheap.c:1183-1204 | the deltakey of the oldest entry of each rootkey, and the component and BAM rootkeys |
| WeaveRepack.PutEntry | src/dataheap.c:1217-1248 | an entry goes to the tip array exactly when it is the newest of its rootkey, else to the heap, and is followed by a marker exactly when it is the oldest |
| WeaveRepack.BuildWeave | src/dataheap.c:1206-1250 | the temporary numbers lay out every delta's entries in order, with the recorded starts |
| WeaveRepack.AddRootkeys | src/dataheap.c:1258-1282 | every rootkey has an offset; those not yet in the heap get one past its end |
| WeaveRepack.FixUp | src/dataheap.c:1291-1307 | every temporary number becomes the offset it stands for, and the first entry of a rootkey is the one in the tip array |
| WeaveRepack.Rebase | src/dataheap.c:1284-1289 | the recorded starts become offsets in the heap |
| WeaveRepack.ReadBack | src/dataheap.c:1291-1312 | reading the heap from a delta's offset up to the zero word gives back its tokens |
| WeaveRepack.RepackWeave | src/dataheap.c:1176-1315 | every delta reads its old keys in order from the new heap, an entry is followed by a marker of its rootkey exactly when no older delta and no earlier entry has that rootkey, every rootkey has a place of its own with the same text, and the range tests agree with the text for a rootkey exactly when its text was not already a unique string or it is a component |
| WeaveRepack.SameEntries | src/dataheap.c:1214-1250 | what is read out of a block that matches the plan is the old entries in order, each with a marker as planned |
| WeaveRepack.NotedIsOldest | src/dataheap.c:1240-1245 | an entry is planned with a marker exactly when no older delta and no earlier entry of its delta has its rootkey |
| WeaveRepack.ReadLines | src/dataheap.c:1291-1312 | where every marker follows an entry of its rootkey, the entries read are the block without its markers |
| WeaveRepack.RangeTests | src/dataheap.c:500-530 | with the rootkeys written as components, BAM files and others, the offset tests agree with the text tests exactly when the text was not there before or is a component, for rootkeys in the repacked part and after it |
| WeaveRepack.PackedKinds | src/dataheap.c:500-530 | in the repacked part the two bounds cut the rootkeys into components, BAM files and others, whatever their text |
| WeaveRepack.AddedLater | src/dataheap.c:500-530 | a rootkey added after the last repack, or in a heap never repacked, goes by its text |
| Repack.HeapRepack | src/dataheap.c:1023-1350 | the whole repack into a fresh heap: every field and symbol still reads the same after the weave has grown the heap, every delta of the weave reads the same entries with markers on the oldest, and the kind of a rootkey shows in its offset exactly when no shared field or symbol has its text or it is a component |
| Repack.StillKept | src/dataheap.c:1111-1315 | what the table and the symbols point to stays as the heap grows |
| Repack.SharedName | src/dataheap.c:500-530 | a file with a symbol named as a rootkey, for which the offset test gives the wrong kind |
| Paging.Pager.MapBlock | src/dataheap.c:577-595 | frees the pages of a region and puts its bytes in memory, byte-swapped if asked, and no other byte |
| Paging.Pager.constructor | src/dataheap.c:775-800 | with nothing mapped yet, every page is free and the program sees the memory as it is |
| Paging.LoadGuards | src/dataheap.c:646-678 | after a load and the two conditional re-protections every page but the faulting one is protected exactly when a region still to load touches it, and the faulting page is free |
| Paging.LoadSeen | src/dataheap.c:585-593 | loading one region changes no byte the program sees, also on shared pages |
| Paging.Pager.LoadRegion | src/dataheap.c:637-680 | one region of the handler's loop, with the source's assertion that a page shared with the region before is not the one that was hit |
| Paging.Pager.Fault | src/dataheap.c:624-687 | a fault loads exactly the regions touching the page, at least one, and never aborts |
| Paging.Pager.Read | src/dataheap.c:624-687 | every read sees the byte plain memory would have |
| Paging.Pager.Write | src/dataheap.c:624-687 | so does every later read after a write |
| Paging.Pieces | src/dataheap.c:856-864 | the cut has positive pieces that add up, and does not split words |
| Paging.RegionsPages | src/dataheap.c:865-884 | the regions of a range together touch exactly its pages |
| Paging.SortSorts | src/dataheap.c:607-621 | sorted by start, the same regions do not overlap |
| Paging.Pager.DataMap | src/dataheap.c:775-888 | paged or not, the range then shows the file's bytes and everything else what it showed; paged, nothing is read yet and exactly the pieces of the range are added to what is to load |
| Paging.SwapReverses | src/dataheap.c:532-541 | swapping turns each word around and moves no byte to another word |
| AliasExpansion.CleanMeans | src/alias.c:1163-1217 | no forbidden path at the top means that neither a cycle nor an illegal name is reachable |
| AliasExpansion.StrieqMeans | src/alias.c:1176-1188 | names match when they are the same but for the case of letters |
| AliasExpansion.ReservedWords | src/alias.c:1176-1188 | four words are reserved, in any case, and two of them no definition may use |
| AliasExpansion.RespellMeans | src/alias.c:1449-1475 | an alias that spells a reserved word becomes that word, and any other stays |
| AliasExpansion.Expansion.Expand | src/alias.c:1166-1217 | expansion ends, restores the set of aliases being expanded on every exit, succeeds exactly when no path is forbidden, and then adds exactly the rootkeys the alias denotes |
| AliasExpansion.Expansion.ExpandAll | src/alias.c:1208-1212 | the same for the names of a definition |
| AliasExpansion.ExpandOne | src/alias.c:956-997 | the components an alias stands for, in product order, or failure |
| AliasExpansion.Flag | src/alias.c:930-949 | flags are set or cleared for exactly the components some alias of the list stands for |
| AliasExpansion.Tag | src/alias.c:902-954 | the flagged components are those of the added aliases minus those of the subtracted ones, wherever they are in the list; it fails exactly when one of them does not expand |
| AliasCover.Build | src/alias.c:717-777 | needed components with the aliases covering each, components to avoid, and the aliases worth considering, in order |
| AliasCover.Prune | src/alias.c:779-820 | every pick left no choice: a needed component that no alias covers, or the one alias that covers a needed component; every component still needed is covered by a live candidate and leaves a choice |
| AliasCover.PickBest | src/alias.c:825-870 | the first of the cheapest candidates that cover something; those that cover nothing are dropped |
| AliasCover.SomeCandidate | src/alias.c:871-875 | while something is needed there is a candidate, so the assertion holds |
| AliasCover.PriceOrders | src/alias.c:858-869 | with fewer than 1000 components the price orders by fewest extra clones, then most needed covered, then smallest alias |
| AliasCover.PriceSteps | src/alias.c:858-869 | an extra clone costs a million up to the 2000th, a needed component is worth a thousand, and every component costs one |
| AliasCover.ChoiceIs | src/alias.c:793-800 | one noted alias means that no other covers the component; two mean that there is a choice |
| AliasCover.CheapestIsBest | src/alias.c:825-870 | the first cheapest alias is best among all aliases, and better than those before it |
| AliasCover.CoverMissing | src/alias.c:678-900 | ends; every missing component is brought by a picked alias or picked by rootkey, rootkeys only where no alias covers; first come the picks without a choice, as long as there are any, and every later pick was the first of the cheapest aliases that covered something needed and, with fewer than 1000 components, lexicographically best |
| CheckKeys.KeyFind | src/check.c:1664-1703 | finds a key exactly when the file has it, from any cursor |
| CheckKeys.Flags2Mask | src/check.c:1483-1495 | each combination of colours has its own non-zero mask |
| CheckKeys.FileKeys.Visit | src/check.c:1865-1915 | one weave entry keeps the masks, the count of unmarked keys and the missing list in step with what was read |
| CheckKeys.Scan | src/check.c:1757-1916 | at the end unmarked is the number of the file's keys absent from the weave, missing is exactly the weave entries the file lacks, and each key's mask the sides it was seen on |
| CheckKeys.MaskBits | src/check.c:1877 | the mask of a key has a bit exactly when some entry of the key in the weave has it |
| CheckKeys.SideBits | src/check.c:1483-1495 | the four sides have a bit each |
| CheckKeys.StampIs | src/check.c:1656-1662 | the stamp of a key is the first 14 bytes of its date |
| CheckKeys.AnyOrder | src/check.c:1898-1914 | the order in which the weave presents its entries does not matter: not to the number of unmarked keys, the missing entries or the mask of any key |
| BamLog.LineRoundTrip | src/bam.c:782-803 | a log line read back does what it was written for, whatever spaces the key has |
| BamLog.LineFormat | src/bam.c:782-803 | the two forms of a log line |
| BamLog.DamagedLine | src/bam.c:2019-2024 | a line whose last field is not the checksum of what precedes it does nothing |
| BamLog.LoadLogfile | src/bam.c:2005-2035 | loading is the replay of the lines, those with a wrong checksum skipped |
| BamLog.IndexCheck | src/bam.c:2102-2161 | missing, mismatch and count together fail exactly when the index is not the replay of the log |
| BamStore.FindSlot | src/bam.c:375-386 | the first file of the hash with these contents, or the first free number |
| BamStore.Store.Insert | src/bam.c:355-421 | the key looks up the contents, in the file of its own hash with the first number whose file has these contents or is free; all other keys look up what they did, the index stays the replay of the log, and gap-free numbering stays gap-free |
| BamStore.PathFormat | src/bam.c:702-714 | a data file is found under the first two characters of the hash, by hash and number |
| BamStore.DecimalReads | src/bam.c:376 | the digits of a number read back as that number |
| BamStore.PathsApart | src/bam.c:702-714 | two data files never have one path |
| BamStore.Store.Rename | src/bam.c:423-445 | the contents go to the new key, and the index stays the replay of the log |
| BamClean.Sort | src/bam.c:1405-1428 | a key goes exactly when it is not needed or its data is missing; a file stays exactly when a staying key has it |
| BamClean.DropKeys | src/bam.c:1429-1435 | exactly the doomed keys leave the index, and the log says so |
| BamClean.Walk | src/bam.c:1439-1487 | exactly the files not kept are removed, and every rename goes to an earlier listed place that is free by then, each to its own, along an unbroken run of consecutive numbers in the list |
| BamClean.RenameKeys | src/bam.c:1491-1499 | every key follows its file, and the log says so |
| BamClean.RenameStep | src/bam.c:1501-1508 | a rename in list order overwrites no file still needed |
| BamClean.RunRenames | src/bam.c:1501-1508 | every kept file ends at its place with its contents, and nothing else is left |
| BamClean.Clean | src/bam.c:1392-1511 | surviving keys look up the same bytes, every file left has a key, the index stays the replay of the log, the files left are those of a plan over the list, and the numbering of a hash whose files are listed in turn stays gap-free |
| BamClean.NoGaps | src/bam.c:1462-1486 | closing up from the first removed file leaves no gap |
| BamGaps.NineInTurn | src/bam.c:1443-1445 | in the bytewise sorted list the files of a hash follow in turn when there are at most nine |
| BamGaps.TwoIsAway | src/bam.c:1443-1445 | with a tenth file, number 2 is not right after number 1 in the sorted list |
| BamGaps.InTurnMeans | src/bam.c:1443-1445 | in a sorted list without gaps the files of a hash follow in turn exactly when no number is above 9 |
| BamGaps.NoneMovesToOne | src/bam.c:1462-1486 | with a tenth file nothing is ever renamed to number 1 |
| BamGaps.TenFilesGap | src/bam.c:1462-1486 | ten files of which only the first goes: number 2 stays and number 1 is missing |
| BamGaps.LoneFileLeavesGap | src/bam.c:1462-1486 | with ten files, keeping only one other than the first leaves a gap |
| BamGaps.NeverGapsMeans | src/bam.c:1392-1511 | cleaning a gap-free hash leaves no gap, whatever keys are needed, exactly when it has at most nine files or only its first file has keys |

## Left out

- CommitSum.UpdateChecksum: include and exclude lists of the new changeset are outside the incremental rule; after a duplicate rootkey is reported the rest of the scan is not followed; every weave entry is taken to be under the parent or the merge parent, as in a file with a single tip.
- CsetResum.Resum: the `added` counts, the date cutoff for reporting, and the choice of the visiting order are not modelled; any order is allowed instead.
- CsetResum.SerialmapDiff: `symdiff_expand` is modelled by its contract, the symmetric difference of two serialmaps.
- Bisect.Search: the random index among skipped candidates is any valid pick, and the script is an arbitrary function of the revision; the test before the loop that start and tip are related, which accepts both directions, is not part of it.
- Converge.Receive: tags that come with a patch, dangling and changeset flags are not part of the table; a delta is looked up by its whole key, and one that differs from a delta of the table only in its path is a clash, as the order cannot tell them apart.
- Converge.Exchange: choosing what to send is a parameter; the keys that two repositories share are not negotiated.
- WeaveMarkers.InstallWeave: the entries of one delta have distinct rootkeys, and the patch lists its deltas newest first; parsing the diff lines into blocks is not modelled.
- WeaveRepack.RepackWeave: old deltakeys of one rootkey have offsets of their own and equal rootkeys one offset, which the other operations ensure; the blocks read back when the heap is at most 2^32 bytes, as offsets are 32 bits wide.
- Repack.HeapRepack: the header is any string, and rewriting it in place with the final sizes, the padding and the hash of unique strings after the weave, the debugging junk and the older weave format are not laid out.
- WalkRevs.Walker.Next: `walktagrevs`, the same walk over tag parents, is left out.
- Gca.Gca3: writing several greatest common ancestors as one delta with include and exclude lists, and the assertion that there is one, are left out.
- CommitSum.Seed: a duplicate rootkey ends the seeding, where the source reports it and goes on.
- ReceivePatch.ChangeSetFile.Insert: tags that arrive with the delta and its dangling and changeset flags are left out.
- ReceivePatch.Install: the numbered diff blocks of the patch are a list already in position.
- Heap.DataHeap.AddUniqStr: filling the hash of unique strings from the table on first use, and the string that already lies inside the heap buffer, are left out.
- Paging.Pager.DataMap: a read error, `dataunmap`, signals and compression are left out; the new range is on pages that no pending region touches, because every block is allocated on pages of its own.
- AliasCover.CoverMissing: aliases have at most two million components, so that the price fits an int; the final sorting of the result is left out.
- AliasExpansion.ExpandOne: what a well-formed rootkey is, is a parameter.
- CheckKeys.Scan: the report of duplicates across merge sides, poly detection, and collecting the keys from the file's table are left out; keys of one file are distinct and newest first.
- BamStore.Store.Insert: failing copies and file modes are left out; the part of a key before the first dot has no space.
- BamClean.Clean: failing unlinks and renames are left out.
- The older weave format and the conversion between formats, `weave_replace`, and the ascii weave.
- Checksums of ordinary files, the weave of ordinary files, `sccs_renumber`.
- Path conflicts in `check`, repair and goneDB handling.
- Command lines, the bkd protocol, clone, pull and push plumbing, triggers, locks, progress bars.
