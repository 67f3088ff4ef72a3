# A verified model of Git's history and content algorithms

Dafny models of the hardest self-contained algorithms in the Git 2.15.0 sources, with proofs of what they
promise.  Code that updates things in place is modelled by methods with loops over arrays, fields and
sequences, each proved against a specification; what the specification means is proved beside it.

| part | files | what is proved |
|---|---|---|
| blame | `Blame*` | a run over any finite history terminates, keeps every requested line in exactly one entry, with identical text, and balanced reference counts; every line ends at one of the places that it may be passed to, and where no search for moves and copies could have taken its entry further; without `-M` and `-C` at the one that following that line alone from parent to parent leads to; sorting and joining the result keeps it, but for gaps between several ranges |
| cache-tree | `PathNames`, `CacheTree*` | a cached tree kept over any edits with their invalidations updates to the tree built from nothing, whose lines and their order are those of the index, and invalidating touches only the way to the path; writing and reading the index extension are inverse |
| bisection | `Bisect` | the incremental weights are the exhaustive counts, and the commit returned splits the list as evenly as possible |
| patch application | `Apply*` | which texts parse as hunks, what their two images are, where the search lands and with how much context, how the file changes, and that applying a patch in reverse takes it back |
| attributes | `Attr*` | the reused stack of attribute files is the one a fresh start would build; each attribute gets the first assignment met, on any macros; exactly when asking for a macro changes the other answers |
| smaller parts | `Abspath*`, `Archive*`, `BulkCheckin`, `Base85`, `Decimal` | canonical paths, lazily emitted directories, packs that split at a size limit, blocked tar output, base-85 coding |

## How to read it

* Each module opens with the part of the sources it models.  A method named like a C function models that
  function; the loops of a long C function may be methods of their own.
* Linked lists are sequences of their nodes.  Objects with identity (the scoreboard, the index state, images,
  the tar block, the temporary pack) are classes.
* Machinery outside the modelled files is a parameter.  Line diffs, rename and copy detection, tree diffs and
  commit parsing are function values of a `History` with the contract a literal line diff keeps
  (`ValidHunks`); hashes, `lstat`/`readlink`, pattern matching, attribute files, `export-ignore` and object
  names are functions; the deflate library is an arbitrary list of answers, one a call, which may run out; the
  library sort is a stable insertion sort with the comparison of the source.
* C integers are unbounded, except where the source depends on their width: the line hash, the hunk
  counters, the base-85 accumulator, the pack header and the numbers that the index extension reads back.

Where the sources do not do what their comments suggest, the model does what the code does, and the exact
condition is proved: `blame_coalesce` ignores gaps in the final image (`CoalesceExactly`), the conflict check
before a tree is written looks at neighbours only (`VerifyCache`), a cut-off last line can match a longer one
(`MatchMeans`), an empty context line before the note on a missing newline drops out of both images
(`HunkShape`), a queried macro hides what it stands for (`QueryMatters`), splitting a pack also unplugs
(`IndexBulkCheckin`), the list of all bisection candidates keeps one superfluous element
(`BestBisectionSorted`), and a pax record length can be one short (`AppendExtHeader`).  Inputs at which each of
these happens are given, too (`CoalesceGap`, `VerifyMisses`, `CutOffMatches`, `CutLineExample`,
`PresetHidesMacro`, `PlugLost`, `Superfluous`, `CarryAt99`).

## Model

| member | source | states |
|---|---|---|
| BlameEntries.ReverseBlame | git-2.15.0/blame.c:800-810 | reverses a list in front of another one |
| BlameEntries.BlameMerge | git-2.15.0/blame.c:329-367 | the relinking of two sorted lists, run by run, gives their stable merge, with the first list's entries before equal ones |
| BlameEntries.MergeSorted | git-2.15.0/blame.c:329-367 | a merge of sorted lists is sorted |
| BlameEntries.MergeBag | git-2.15.0/blame.c:329-367 | a merge keeps every entry, as often as it was there |
| BlameEntries.BagSum | git-2.15.0/blame.c:329-367 | whatever is summed up over the lines of a list does not depend on the order of its entries |
| BlameHistory.ParentLineText | git-2.15.0/blame.c:922-932 | the parent line that a diff assigns to a line outside its hunks has the same text |
| BlameHistory.ParentLineIs | git-2.15.0/blame.c:922-932 | a line has a parent line if and only if no hunk put it there, and then it is the one that the hunks before it have moved it from |
| BlameHistory.AlnumIs | git-2.15.0/blame.c:979-998 | what counts towards a score is the number of places that hold one of the 62 letters and digits |
| BlameCut.PassBefore | git-2.15.0/blame.c:829-873 | everything before a line goes to the parent, shifted, an entry across the line is cut, and references follow the entries |
| BlameCut.RetainWithin | git-2.15.0/blame.c:881-911 | everything before the end of the differing part stays, an entry across it is cut and its second half takes a reference of its own |
| BlameCut.BlameChunk | git-2.15.0/blame.c:822-912 | one hunk: what lies before it is appended to the parent's list and what lies inside it stays, both in order, with every reference count changed by the change in entries naming that origin |
| BlameCut.CutSum | git-2.15.0/blame.c:829-873 | cutting a list at a line changes nothing about any of its lines |
| BlameCut.HandGood | git-2.15.0/blame.c:853-854 | an entry handed over inside a stretch that both files share still points at its text |
| BlameDiff.BlameHunks | git-2.15.0/blame.c:922-968 | all hunks of a diff and the last call of blame_chunk together send and keep exactly the specified lists |
| BlameDiff.DiffLines | git-2.15.0/blame.c:939-968 | for any sorted, possibly overlapping suspects and any valid hunks the parent gets exactly the lines outside all hunks, at the line they came from, and the target keeps exactly those inside |
| BlameDiff.DiffCover | git-2.15.0/blame.c:939-968 | what is sent and what is kept cover the final lines of the list, none lost and none twice |
| BlameDiff.DiffLists | git-2.15.0/blame.c:939-968 | both resulting lists are sorted and point at identical text in their suspect's file |
| BlameMove.SplitOverlap | git-2.15.0/blame.c:697-738 | the parts of an entry before, in and after a range of its lines, for any range, with their references; no middle part if it would be empty |
| BlameMove.OverlapCuts | git-2.15.0/blame.c:697-738 | the middle part has exactly the lines that are in the entry and in the range, at the parent's line, and there is one if and only if the two overlap |
| BlameMove.CutsCover | git-2.15.0/blame.c:697-738 | the stretches of a split cover exactly the lines of the entry |
| BlameMove.CutsGood | git-2.15.0/blame.c:697-738 | the outer stretches still point at their text |
| BlameMove.BlameEntryScore | git-2.15.0/blame.c:979-998 | the score is one more than the alphanumerics of the lines, and is cached |
| BlameMove.CopySplitIfBetter | git-2.15.0/blame.c:1006-1023 | the later split wins on a score at least as high, and the loser gives its references back |
| BlameMove.HandleSplit | git-2.15.0/blame.c:1040-1056 | one more common stretch is tried: the split is at the last of the best so far |
| BlameMove.FindCopyInBlob | git-2.15.0/blame.c:1083-1112 | the split is at the last of the best scoring stretches that the diff of file and entry has in common |
| BlameMove.LastBestIs | git-2.15.0/blame.c:1006-1023 | the winner of such a search: no stretch scores more, and every later one scores less |
| BlameMove.LastBestConcat | git-2.15.0/blame.c:1287-1300 | searching file by file and keeping the better winner finds the winner over all files |
| BlameMove.MatchesAre | git-2.15.0/blame.c:1067-1112 | the stretches that are tried are exactly the non-empty ones before, between and behind the hunks of the diff |
| BlameMove.StretchesOrdered | git-2.15.0/blame.c:1067-1112 | they are tried in the order of the entry's lines, and do not overlap |
| BlameMove.AddBlameEntry | git-2.15.0/blame.c:650-660 | an entry is queued with a reference of its own |
| BlameMove.DupEntry | git-2.15.0/blame.c:667-676 | an entry takes over a node, and the node's reference goes back |
| BlameMove.SplitBlame | git-2.15.0/blame.c:745-776 | the middle part goes to the blamed, the others to the unblamed, reusing the entry's own node |
| BlameMove.FilterSmall | git-2.15.0/blame.c:1119-1140 | the in-place filter deals a list out into the entries below the score and the others, keeping their order |
| BlameSearch.Settle | git-2.15.0/blame.c:1175-1182 | an entry is dealt out: its best stretch is passed if it scores more than the threshold, and else all of it stays |
| BlameSearch.ChoiceFits | git-2.15.0/blame.c:1083-1112 | the chosen stretch has the text of the entry, comes from a file that was searched, and no other common stretch outscores it |
| BlameSearch.DealOneMeans | git-2.15.0/blame.c:1173-1182 | the line-by-line account of one entry, which loses at least one line of what is to be tested |
| BlameSearch.MovePass | git-2.15.0/blame.c:1168-1184 | one pass over the unblamed: exactly what is passed, what is put aside and what stays, each in order, with all references |
| BlameSearch.FindMoveInParent | git-2.15.0/blame.c:1146-1188 | it terminates; what is passed is appended, names the parent and scores more than the threshold; what is set aside comes in front and scores no more; what stays has no stretch worth passing; no line is lost or doubled, and no line that is not passed moves |
| BlameSearch.SearchMeans | git-2.15.0/blame.c:1167-1187 | what the whole search means, over any files: the contract of find_move_in_parent and find_copy_in_parent as a statement about lists |
| BlameSearch.MatchesConcat | git-2.15.0/blame.c:1287-1300 | the stretches with one file after the other are those with the first files and then those with the others |
| BlameSearch.OfSizeParts | git-2.15.0/blame.c:1119-1140 | filter_small deals a list out: lines, places and references of the two lists are those of the one, and the small ones score no more than the threshold |
| BlameCopy.TryFile | git-2.15.0/blame.c:1287-1300 | every split is at the last of the best stretches over one file more |
| BlameCopy.BestSplits | git-2.15.0/blame.c:1270-1302 | each entry is split at the last of the best stretches over exactly the files tried, in their order |
| BlameCopy.TriedLower | git-2.15.0/blame.c:1270-1286 | the files tried are those of the tree diff but the one already searched for moves, all of the parent |
| BlameCopy.OthersConcat | git-2.15.0/blame.c:1270-1286 | the files are tried in the order of the tree diff |
| BlameCopy.FindCopyInParent | git-2.15.0/blame.c:1222-1322 | as find_move_in_parent, over all the files tried: what is passed names one of them |
| BlameQueue.QueueBlames | git-2.15.0/blame.c:474-490 | a list is merged into an origin's suspects, and its commit is queued exactly if no origin of it had any |
| BlameQueue.QueueKeeps | git-2.15.0/blame.c:474-490 | every origin with suspects has its commit queued or current |
| BlameQueue.SortSorts | git-2.15.0/blame.c:390-405 | the order by origin and line that distribute_blame sorts into |
| BlameQueue.DistributeBlame | git-2.15.0/blame.c:1377-1394 | every origin's list becomes its old list with its group of the collected blames, in order, merged in |
| BlameQueue.DistributedBags | git-2.15.0/blame.c:1377-1394 | every origin gets exactly the entries that name it, as often as they were collected, and its list stays sorted |
| BlameQueue.PassedWeight | git-2.15.0/blame.c:1398-1541 | each line passed to an older commit makes the scoreboard lighter |
| BlameMeaning.BlamedText | git-2.15.0/blame.c:1398-1609 | the line that a line is blamed on, found by following it alone, has the same text |
| BlameMeaning.PlanOf | git-2.15.0/blame.c:1409-1454 | the two searches either find a parent's identical file, or list at most one version per parent, each an origin of that parent; which of the two, and what is listed, is said by BlamePlan.PlanIs |
| BlamePlan.PlanIs | git-2.15.0/blame.c:1416-1454 | said of the list and not of the search: everything goes to an identical file if and only if the search meets one; else the list is the one in which every place is filled by the first pass, of two or of one without whole-file renames, that finds a file for that parent which no earlier parent had by then, and stays empty if no pass finds one |
| BlameTrail.BlamedIs | git-2.15.0/blame.c:1456-1470 | the verdict on a line, step by step: where the run stops, where the identical file leads, else where the first version leads whose diff did not put the line there, and else the line itself |
| BlameMeaning.PlanLists | git-2.15.0/blame.c:1438-1451 | no version listed is the origin's own file, and when whole-file renames are not looked for none is listed twice |
| BlameDiff.DiffSum | git-2.15.0/blame.c:939-968 | one diff splits any statement about lines into one about the parent's lines and one about those kept |
| BlameMeaning.PassAllFate | git-2.15.0/blame.c:1456-1470 | passing blame to one parent after the other blames every line on the first parent that has it |
| BlameMeaning.AfterPassFate | git-2.15.0/blame.c:1398-1470 | without -M and -C one pass_blame leaves the final verdict on every line as it was |
| BlameMeaning.RoundFate | git-2.15.0/blame.c:1571-1604 | one round of the main loop keeps the verdict on every line, final ones included |
| BlameAssign.PassWholeBlame | git-2.15.0/blame.c:1328-1346 | a parent with the identical file gets everything, at the same lines |
| BlameAssign.PassBlameToParent | git-2.15.0/blame.c:939-968 | the lists of target and parent after the diff, with lines, weight and references accounted for |
| BlameAssign.TryParent | git-2.15.0/blame.c:1428-1452 | one parent's version: skipped, given everything, dropped as a duplicate, or remembered |
| BlameAssign.FindScapegoats | git-2.15.0/blame.c:1421-1454 | the two passes of the search come to the plan, which PlanIs pins down |
| BlameAssign.PassToParents | git-2.15.0/blame.c:1456-1470 | the diffs in the order of the parents; the first version listed becomes previous, unless there was one |
| BlameAssign.FirstGoat | git-2.15.0/blame.c:1462-1466 | the version remembered is the first of the list |
| BlameAssign.SearchParents | git-2.15.0/blame.c:1475-1514 | the -M and -C stages come to exactly what the specification makes of the list that the diffs left |
| BlamePass.SearchAllMeans | git-2.15.0/blame.c:1475-1514 | what they mean: only what a searched file may take is passed, with a high enough score; all other lines keep their place, and no line is lost or doubled |
| BlameThorough.SearchThorough | git-2.15.0/blame.c:1475-1514 | nothing worth passing is left behind: every entry that comes out of the searches is one that went in, and has no stretch scoring more than the threshold in common with any file that is searched, by -M the versions listed, by -C all that the tree diffs name but those; or it is what stayed beside a part that some search passed to one of its files, and that holds for that search and all later ones |
| BlameThorough.WholeTested | git-2.15.0/blame.c:1475-1514 | an entry that comes out whole has no stretch worth passing in common with any file that is searched |
| BlameAssign.Finish | git-2.15.0/blame.c:1516-1541 | what was passed reaches the lists of its origins, the small entries rejoin in front of the origin's list, the scapegoats' references go |
| BlameAssign.PassBlame | git-2.15.0/blame.c:1398-1541 | with any options the lists become exactly what the specification says; lines conserved, lists in order, commits queued, references balanced, the scoreboard lighter, and the counter of commits raised exactly if there are diffs |
| BlamePass.AfterBlameMeans | git-2.15.0/blame.c:1398-1541 | what the diffs pass is passed with -M and -C all the same; on top of it every origin gets exactly the entries that the searches passed to it, and the rest keeps its place |
| BlameThorough.PassThorough | git-2.15.0/blame.c:1398-1541 | the same of pass_blame: whatever stays with the origin was compared with all that is searched, since it was an entry of its own |
| BlameThorough.LeftExhausted | git-2.15.0/blame.c:1398-1541 | what stays with an origin after its round rightly ends there: the run stops, or no parent has the whole file and no search could take any of it further |
| BlamePass.NoSearch | git-2.15.0/blame.c:1475-1514 | without -M and -C the diffs are all there is |
| BlameTrail.PassedTrail | git-2.15.0/blame.c:1398-1541 | every line in another origin's list was there before or came there on one of the ways it may take |
| BlameTrail.KeptTrail | git-2.15.0/blame.c:1398-1541 | every line that stays was there before and may end there |
| BlameAssign.PrioQueueGet | git-2.15.0/blame.c:1550-1563 | the newest queued commit |
| BlameAssign.TakeResponsibility | git-2.15.0/blame.c:1586-1603 | what is left with a suspect becomes final, in front of what is final already |
| BlameAssign.BreakDown | git-2.15.0/blame.c:1573-1584 | a boundary commit passes nothing on; the commits marked afterwards are exactly those marked before, a boundary with all that is behind it if it can be read, and a root unless roots are shown |
| BlameAssign.Round | git-2.15.0/blame.c:1571-1604 | one round, with any options, has exactly the specified outcome, keeps the invariant and makes the scoreboard lighter |
| BlameAssign.StepOn | git-2.15.0/blame.c:1571-1604 | a round keeps the stops fixed, every line on one of its ways, and without -M and -C every verdict unchanged |
| BlameTrail.TrailRound | git-2.15.0/blame.c:1571-1604 | one round keeps all suspected lines on their ways and all final ones at their ends |
| BlameTrail.OneEnd | git-2.15.0/blame.c:1398-1609 | without -M and -C the only end of a line is the one found by following it alone |
| BlameTrail.EndText | git-2.15.0/blame.c:1398-1609 | wherever a line may end, with -M and -C too, it has the text of the final line |
| BlameAssign.AssignBlame | git-2.15.0/blame.c:1547-1609 | it terminates; every line is in the final list exactly as often as it was suspected; references balance; each line is at an end of one of its ways, where no search could have taken its entry further, and without -M and -C where following that line alone leads |
| BlameFinal.BlameEntryPrepend | git-2.15.0/blame.c:1852-1864 | a range becomes an entry that points at itself and holds a reference |
| BlameFinal.StartFates | git-2.15.0/blame.c:1852-1864 | each requested line starts with the verdict on that line of the file |
| BlameFinal.BlameRanges | git-2.15.0/blame.c:1547-1609 | a whole run: each requested line is in exactly one final entry, no other line is, the text agrees; with any options each line is at an end of one of its ways from its own place, where no search could have taken its entry further, and without -M and -C it is blamed on what following it alone leads to |
| BlameOutput.SortByLine | git-2.15.0/blame.c:384-411 | the order by final line that the entries are sorted into |
| BlameOutput.BlameCoalesce | git-2.15.0/blame.c:448-466 | neighbours in the same origin become one entry, each join dropping a reference |
| BlameOutput.CoalesceExactly | git-2.15.0/blame.c:453-460 | coalescing says of every line what the list said if and only if no two joined neighbours have a gap between them in the final image |
| BlameOutput.CoalesceMaximal | git-2.15.0/blame.c:448-466 | no two neighbours of the output are contiguous in one origin |
| BlameOutput.OneRange | git-2.15.0/blame.c:384-466 | the entries of any run, sorted, do not overlap; those of a run over one range have no gap |
| BlameOutput.BlameFile | git-2.15.0/builtin/blame.c:930-941 | run, sort and join: the output says what the run found if and only if joined neighbours have no gap, and always for one range |
| BlameOutput.CoalesceGap | git-2.15.0/blame.c:453-454 | a two-commit history and two requested lines for which every run ends with an output that claims, for the root, a line that the root has not |
| PathNames.Between | git-2.15.0/cache-tree.c:276-279 | names between two names with a prefix have it |
| PathNames.SubtreeNameCmp | git-2.15.0/cache-tree.c:35-43 | shorter names first, then bytes |
| CacheTree.AgreesInv | git-2.15.0/cache-tree.c:222-234 | a node that agrees with the index has only agreeing, valid descendants |
| CacheTree.AgreeUnique | git-2.15.0/cache-tree.c:236-425 | only one tree, up to scratch fields, agrees with an index |
| CacheTreeInvalidate.SubtreePos | git-2.15.0/cache-tree.c:45-64 | the binary search finds the position, or where the name would go |
| CacheTreeInvalidate.DoInvalidatePath | git-2.15.0/cache-tree.c:100-144 | the node loses its validity and keeps its id; a subtree of that very name goes; the next subtree on the way to the path stays in its place; every other subtree stays as it is |
| CacheTreeInvalidate.InvalidateElsewhere | git-2.15.0/cache-tree.c:100-144 | a node anywhere in the tree that is neither on the way to the path nor in its place or below stays as it is, with all below it |
| CacheTreeInvalidate.InvalidateOnWay | git-2.15.0/cache-tree.c:100-144 | a node on the way to the path stays, with its id, and is invalid |
| CacheTreeInvalidate.InvalidateGone | git-2.15.0/cache-tree.c:100-144 | whatever is in the place of the path or below it goes |
| CacheTreeInvalidate.InvalidateKeeps | git-2.15.0/cache-tree.c:100-144 | after any edit of a path, invalidating the path restores the invariant for the edited index |
| CacheTreeUpdate.RunIsUnder | git-2.15.0/cache-tree.c:270-280 | in a sorted index the entries of a directory are one run |
| CacheTreeUpdate.CutCut | git-2.15.0/cache-tree.c:276-281 | the view of a directory inside a directory |
| CacheTreeUpdate.FindOrCreate | git-2.15.0/cache-tree.c:66-92 | an existing subtree is found, a missing one is inserted in order |
| CacheTreeUpdate.DiscardUnused | git-2.15.0/cache-tree.c:205-220 | exactly the subtrees not marked as used go |
| CacheTreeUpdate.TreeLines | git-2.15.0/cache-tree.c:318-400 | the lines of the tree object; it fails exactly at a line whose object has the null name or, unless that is allowed, is missing, a submodule's commit excepted |
| CacheTreeUpdate.UpdateOne | git-2.15.0/cache-tree.c:236-425 | on success the node agrees with the entries below its directory and their number is returned, and all objects are there unless a node that was valid before vouched for one that is missing; on failure the invariant still holds; if every object is there it succeeds |
| CacheTreeItems.ItemsAre | git-2.15.0/cache-tree.c:358-411 | the lines of a tree object are exactly those of the entries in the directory itself, with their mode and id, and those of its directories, with mode 040000 and the id of the tree of all that lies in each |
| CacheTreeItems.ItemsOrdered | git-2.15.0/cache-tree.c:318-411 | the lines are in the order of their names, where a directory's name goes on with a slash, and none is twice |
| CacheTreeItems.UnderIs | git-2.15.0/cache-tree.c:276-299 | the view of a directory holds exactly the entries in it, each without the directory's name |
| CacheTreeIndex.EditsKeep | git-2.15.0/cache-tree.c:100-144 | after any run of edits, each with its invalidation, every valid node agrees with the index |
| CacheTreeIndex.ValidBelow | git-2.15.0/cache-tree.c:222-234 | below a valid node everything is valid |
| CacheTreeIndex.VerifyCache | git-2.15.0/cache-tree.c:181-199 | it rejects exactly the conflicts between neighbours |
| CacheTreeIndex.VerifyMisses | git-2.15.0/cache-tree.c:181-199 | an index with a conflict that is not between neighbours, and passes |
| CacheTreeIndex.IndexState.EditPath | git-2.15.0/cache-tree.c:146-150 | an edit with its invalidation keeps the invariant |
| CacheTreeIndex.IndexState.Update | git-2.15.0/cache-tree.c:427-441 | a successful update leaves the whole tree in agreement with the index, and all objects are there if every node that was valid before had its own |
| CacheTreeIndex.IndexState.UpdateIsRebuild | git-2.15.0/cache-tree.c:236-441 | the update of a tree kept over edits is the tree built from nothing for the same index; that can be built only if all objects are there |
| CacheTreeFile.StrtolDec | git-2.15.0/cache-tree.c:449-451 | the numbers written are read back |
| CacheTreeFile.WriteOne | git-2.15.0/cache-tree.c:443-481 | it writes the specified bytes, and dies exactly if the subtrees of a node are not in order |
| CacheTreeFile.WrittenExample | git-2.15.0/cache-tree.c:443-481 | the bytes of a root with two entries over an invalid directory |
| CacheTreeFile.CacheTreeSub | git-2.15.0/cache-tree.c:94-98 | a child is put where its name belongs |
| CacheTreeFile.ReadHead | git-2.15.0/cache-tree.c:488-536 | the numbers and the id of a node, or a malformed buffer |
| CacheTreeFile.ReadOne | git-2.15.0/cache-tree.c:488-569 | it computes the specified parse, malformed buffers and fatal errors included |
| CacheTreeFile.ReadWritten | git-2.15.0/cache-tree.c:443-569 | reading what was written gives the tree back, valid or invalid nodes alike, and leaves exactly what followed it |
| CacheTreeFile.WriteThenRead | git-2.15.0/cache-tree.c:483-576 | the round trip of the extension through writer and reader |
| CacheTreeFile.StoredBare | git-2.15.0/cache-tree.c:443-569 | a fully valid tree loses nothing but its scratch fields |
| Bisect.ReachIsPath | git-2.15.0/bisect.c:37-62 | the reference set is reachability through interesting commits |
| Bisect.ClosedHasReach | git-2.15.0/bisect.c:37-62 | a set closed under interesting parents holds all that its members reach |
| Bisect.CountInterestingParents | git-2.15.0/bisect.c:85-96 | the number of interesting parents |
| Bisect.WeightAlone | git-2.15.0/bisect.c:264-274 | a commit without interesting parents counts itself |
| Bisect.WeightAbove | git-2.15.0/bisect.c:330-344 | a commit with one interesting parent counts what that parent does, and itself if it changes the tree |
| Bisect.Lowest | git-2.15.0/bisect.c:323-334 | while something is unknown, some commit has its one parent known: each pass gets on |
| Bisect.Behind | git-2.15.0/bisect.c:318 | while the counter is behind, a tree-changing commit is unknown |
| Bisect.EnoughKnown | git-2.15.0/bisect.c:318 | when the counter has arrived, no tree-changing commit is unknown, provided no TREESAME merge was tallied |
| Bisect.HalfwayIsOptimal | git-2.15.0/bisect.c:98-117 | a commit at halfway splits as evenly as any |
| Bisect.MoreEven | git-2.15.0/bisect.c:172-179 | the distance compares commits by how much the numbers on their two sides differ, the less the better |
| Bisect.SortSorts | git-2.15.0/bisect.c:189-198 | the order by distance and name is reached without losing a commit |
| Bisect.KeptIsClosed | git-2.15.0/bisect.c:377-392 | filtering and reversing keeps the list closed under interesting parents |
| Bisect.KeptConcat | git-2.15.0/bisect.c:377-392 | the filtered list has the interesting commits, the last one first |
| Bisect.Bisection.CountDistance | git-2.15.0/bisect.c:37-62 | it flags everything reachable that was not flagged and counts the tree-changing commits among it |
| Bisect.Bisection.ClearDistance | git-2.15.0/bisect.c:64-71 | takes the flags off the list |
| Bisect.Bisection.CountMerge | git-2.15.0/bisect.c:301-308 | after it the count is the exhaustive one and all flags are clear |
| Bisect.Bisection.InitWeights | git-2.15.0/bisect.c:257-281 | the markers and weights of the first round, and the counter |
| Bisect.Bisection.CountMerges | git-2.15.0/bisect.c:301-316 | all merges have their exhaustive count, unless one is halfway |
| Bisect.Bisection.KnownParent | git-2.15.0/bisect.c:325-330 | the first interesting parent with a weight |
| Bisect.Bisection.FillPass | git-2.15.0/bisect.c:319-353 | a pass sets only right weights and at least one, or stops at a commit that is halfway |
| Bisect.Bisection.FillBlanks | git-2.15.0/bisect.c:318-354 | the passes terminate with the counter at nr |
| Bisect.Bisection.BestBisection | git-2.15.0/bisect.c:160-182 | the first tree-changing commit of largest distance, or the head of the list |
| Bisect.Bisection.BestBisectionSorted | git-2.15.0/bisect.c:200-236 | the tree-changing commits sorted, and after them one more element exactly if the list has others |
| Bisect.Bisection.RankedByDistance | git-2.15.0/bisect.c:189-198 | sorted, the commits that split more evenly come first, and of those that split alike the one with the lesser name |
| Bisect.Bisection.DoFindBisection | git-2.15.0/bisect.c:251-361 | it terminates; every non-negative weight is the exhaustive count; for the commit returned, with w of nr tree-changing commits on its side, abs(2w - nr) is least among all tree-changing commits of the list, both early exits included, if no merge is TREESAME, and otherwise among those with a weight; what is returned is the list from there on |
| Bisect.MissedAtMost | git-2.15.0/bisect.c:303-315 | in spite of TREESAME merges no more tree-changing commits stay without a weight than there are such merges |
| Bisect.Misled | git-2.15.0/bisect.c:303-315 | a strand of four commits with three TREESAME merges, for which the commit returned is not the best |
| Bisect.Superfluous | git-2.15.0/bisect.c:231-232 | the same list with all commits asked for, where a fifth one comes along with the four tree-changing ones |
| Bisect.Bisection.FindBisection | git-2.15.0/bisect.c:363-406 | the same for the filtered, reversed list, with the number of commits reached |
| ApplyImage.OneLineList | git-2.15.0/apply.c:370-394 | a buffer has one division into lines |
| ApplyImage.HashLine | git-2.15.0/apply.c:289-299 | the 32-bit hash of the bytes that are not white space |
| ApplyImage.Image.PrepareImage | git-2.15.0/apply.c:370-394 | the table divides the buffer into its lines, each with its hash, none patched |
| ApplyImage.Image.RemoveFirstLine | git-2.15.0/apply.c:2762-2768 | the first line goes from buffer and table |
| ApplyImage.Image.RemoveLastLine | git-2.15.0/apply.c:2770-2773 | the last line goes from buffer and table |
| ApplyImage.Image.UpdateImage | git-2.15.0/apply.c:2780-2847 | prefix, postimage and suffix, in the buffer and in a table that again divides it, for growing, shrinking and equal sizes; the new lines are marked unless overlap is allowed |
| ApplyMatch.EqualMatches | git-2.15.0/apply.c:2478-2682 | equal lines, unpatched and at the demanded ends, always match |
| ApplyMatch.MatchMeans | git-2.15.0/apply.c:2495-2552 | a match is equality of lines for complete preimages and those held against the end; else the last line need only be a beginning with the same hash |
| ApplyMatch.CutOffMatches | git-2.15.0/apply.c:2545-2552 | a match where no line is equal |
| ApplyMatch.MatchFragment | git-2.15.0/apply.c:2478-2682 | the bounds, marks, hashes and bytes that decide a match |
| ApplyMatch.FindPos | git-2.15.0/apply.c:2684-2760 | the nearest match to the clamped start, the later one of two as near; -1 only if there is none; the byte offset follows the line |
| ApplyMatch.ZigzagStep | git-2.15.0/apply.c:2711-2752 | no line that is still to be tried is nearer to the start than the one tried now, ties going down, whichever end was reached already |
| ApplyHunk.ParseFragment | git-2.15.0/apply.c:1683-1791 | it accepts exactly if a shortest run of good lines meets both counts and changes something, wrap-around of the counters notwithstanding |
| ApplyHunk.GoodLineIs | git-2.15.0/apply.c:1706-1768 | which lines may stand in a hunk, by their first characters |
| ApplyHunk.LeadIs | git-2.15.0/apply.c:1719-1731 | leading context is all context lines with no change before them |
| ApplyHunk.TrailIs | git-2.15.0/apply.c:1719-1756 | trailing context is all context lines with no change behind them |
| ApplyHunk.BuildImages | git-2.15.0/apply.c:2878-2966 | both images of a hunk, forwards or in reverse, or failure at an unknown line |
| ApplyHunk.ImageLine | git-2.15.0/apply.c:2878-2966 | a context or deleted line of the hunk is in the preimage, a context or added one in the postimage, at the place that the lines before it count up to, with all after its mark but a newline that a note takes off |
| ApplyHunk.HunkShape | git-2.15.0/apply.c:1683-1791 | a parsed hunk's images have oldlines and newlines lines, less the empty context lines cut off by a note; without those they share the first leading and the last trailing lines, which do not overlap |
| ApplyHunk.ReverseSwaps | git-2.15.0/apply.c:2899-2904 | reverse application swaps the images |
| ApplyHunk.CutLineExample | git-2.15.0/apply.c:2907-2916 | a hunk whose preimage has fewer lines than its header says |
| ApplyPatch.UsableShape | git-2.15.0/apply.c:2854-3048 | the shape of the images for fragments as parsed and as reversed |
| ApplyPatch.ReduceContext | git-2.15.0/apply.c:3032-3047 | it drops the first line of context unless there is less of it than at the end, and then the last unless there is no more of it than at the front; both images share the line dropped, and the search starts a line earlier for each line dropped at the front |
| ApplyPatch.ApplyOneFragment | git-2.15.0/apply.c:2854-3106 | on success a match less shared context is replaced; if the whole hunk fits at the ends it must reach, none is given up and it goes to the nearest place; else it goes to the nearest place with the most context, the same at both ends or all where there is less, with which it fits anywhere, and no less than -C demands; on failure nothing changes and it fits nowhere with any context from there up; the reduction loop terminates |
| ApplyPatch.HitIs | git-2.15.0/apply.c:2985-3006 | the ends that the whole hunk must reach: the start if its header says line 0, or line 1 unless -U0 is allowed; the end if it has no trailing context, unless -U0 is allowed |
| ApplyPatch.HeaderPlace | git-2.15.0/apply.c:3008-3022 | a hunk that fits where its header says is put there with all its context |
| ApplyPatch.SearchReduced | git-2.15.0/apply.c:3024-3047 | from the longer end, or both if they are equal, context goes down one line at a time, so that no amount of it is passed over |
| ApplyPatch.NoOverlap | git-2.15.0/apply.c:2843-2845 | unless overlapping is allowed, no later hunk matches a line that a hunk has put in |
| ApplyReverse.ResultIsLineList | git-2.15.0/apply.c:3233-3255 | the result of a context patch is a file's list of lines again |
| ApplyReverse.FlipRestores | git-2.15.0/apply.c:2217-2233 | the edits turned round are a context patch for the result, and give the old file |
| ApplyReverse.FitHits | git-2.15.0/apply.c:2976-3005 | a hunk with its context in place matches at its header's position, at the first look |
| ApplyReverse.WholeRun | git-2.15.0/apply.c:3233-3255 | every hunk of a well-formed patch lands at its header's position |
| ApplyReverse.ApplyFragments | git-2.15.0/apply.c:3233-3255 | hunk after hunk, stopping at a failure unless failures are only recorded; a well-formed patch goes through with its specified result |
| ApplyReverse.ReversePatches | git-2.15.0/apply.c:2217-2233 | positions and counts of every fragment are swapped |
| ApplyReverse.ReverseWellFormed | git-2.15.0/apply.c:2217-2233 | the reversed patch is well formed for the result |
| ApplyReverse.ApplyAndTakeBack | git-2.15.0/apply.c:2854-3106 | the law of reverse application: applied, then reversed and applied to the bytes that resulted, a well-formed patch lands at the swapped positions and restores the original bytes |
| AttrStack.SharedEnds | git-2.15.0/attr.c:930-942 | paths that agree up to a directory have the same directories so far |
| AttrStack.BootstrapAttrStack | git-2.15.0/attr.c:862-897 | the stack for the root, unless there is one |
| AttrStack.PopFrames | git-2.15.0/attr.c:922-942 | it stops at a directory on the way to the path |
| AttrStack.PushFrames | git-2.15.0/attr.c:952-983 | one frame for every further directory |
| AttrStack.PrepareAttrStack | git-2.15.0/attr.c:899-991 | whatever was asked before, the stack is the one a fresh start would build for this path |
| AttrFill.NothingLeft | git-2.15.0/attr.c:1018-1059 | with nothing unknown the walk changes nothing, so stopping early loses nothing |
| AttrFill.WalkIsFirst | git-2.15.0/attr.c:1018-1069 | every attribute keeps its value or gets the first assignment met, true macros being expanded in place; it is assigned at most once |
| AttrFill.AttrCheck.FillOne | git-2.15.0/attr.c:1018-1038 | one rule, with its expansions, terminates on any macros; the counter goes down by the attributes that became known |
| AttrFill.AttrCheck.MacroexpandOne | git-2.15.0/attr.c:1061-1069 | a macro that is true is expanded |
| AttrFill.AttrCheck.Fill | git-2.15.0/attr.c:1040-1059 | the walk over all matching rules, the top frame and later lines first, comes to the walk without a counter |
| AttrFill.AttrCheck.DetermineMacros | git-2.15.0/attr.c:1076-1091 | the first definition of every macro on the way down |
| AttrFill.AttrCheck.Preset | git-2.15.0/attr.c:1119-1129 | queried macros are unset; the count says whether there are others |
| AttrFill.FindDirectory | git-2.15.0/attr.c:1105-1117 | the directory part and the offset of the base name |
| AttrFill.AttrCheck.GitCheckAttr | git-2.15.0/attr.c:1098-1154 | each queried attribute gets the first assignment met for this path, or is unset, whatever was asked before |
| AttrOrder.RulesOfPath | git-2.15.0/attr.c:947-983 | the rules asked for a path are exactly those of the built-in, system, home, top and info files, matched from the top, and of the file of every directory on the way, matched from that directory |
| AttrOrder.StackShape | git-2.15.0/attr.c:862-983 | the files in their order, from the bottom: built-in, system, home, top, the directories on the way from the outermost one, info |
| AttrOrder.OrderAt | git-2.15.0/attr.c:1040-1059 | a line of a file is asked after all lines of the files above it on the stack, and after the later lines of its own file |
| AttrOrder.LineAt | git-2.15.0/attr.c:1018-1035 | of a line, the last assignment comes first |
| AttrOrder.MacroIs | git-2.15.0/attr.c:1076-1091 | a macro's definition is the one met first |
| AttrOrder.ScriptOne | git-2.15.0/attr.c:1040-1059 | a rule that matches asks for its assignments, one that does not, or a definition, for none |
| AttrOrder.ScriptConcat | git-2.15.0/attr.c:1040-1059 | what rules ask for comes rule after rule |
| AttrPreset.PresetMatters | git-2.15.0/attr.c:1121-1133 | for any definitions, unsetting some attributes beforehand makes no difference to the answer for another one, whatever the rules, if and only if that one cannot be reached from them along definitions |
| AttrPreset.QueryMatters | git-2.15.0/attr.c:1099-1163 | among all attribute files with the same definitions, what else is asked for makes no difference to the answer for an attribute that is no macro if and only if it cannot be reached from a macro of the query |
| AttrPreset.PresetAtAll | git-2.15.0/attr.c:1121-1133 | all answers are the same with and without presetting, whatever the rules, if and only if no macro is asked for |
| AttrPreset.Realized | git-2.15.0/attr.c:1099-1137 | any definitions and any assignments are those of some attribute files |
| AttrPreset.PresetHidesMacro | git-2.15.0/attr.c:1121-1133 | attribute files, a path and two queries for which the same attribute is false or unset |
| Abspath.StripLastComponent | git-2.15.0/abspath.c:15-28 | of any path, the part before the last component and the slashes in front of it; the root stays |
| Abspath.StrippedJoin | git-2.15.0/abspath.c:15-28 | stripping a resolved path leaves its parent |
| Abspath.GetNextComponent | git-2.15.0/abspath.c:31-49 | the next name and the rest |
| Abspath.GetRootPart | git-2.15.0/abspath.c:52-62 | the root of an absolute path and the rest |
| Abspath.ResolvesToReal | git-2.15.0/abspath.c:111-190 | what resolves has no empty, dot or dot-dot component and no link on the way |
| Abspath.RealPathIsReal | git-2.15.0/abspath.c:81-203 | the result is real, and resolves to itself |
| AbspathLaws.PathLaw | git-2.15.0/abspath.c:111-190 | of paths as texts: a dot is as if it was not there, a dot-dot leads to the parent, the name of what is missing may only end the path, and a path through a link resolves as the path with the text of the link in its place, or from the root if that text is absolute, one link more having been followed |
| AbspathLaws.RelativePath | git-2.15.0/abspath.c:90-109 | a relative path resolves as the one from the working directory; the empty path, and one from nowhere, fail |
| AbspathLaws.FewerLinks | git-2.15.0/abspath.c:138-151 | having followed fewer links never changes what a path resolves to |
| AbspathLaws.LinkLimit | git-2.15.0/abspath.c:66-69 | of a chain of links exactly 33 are followed |
| Abspath.StrbufRealpath | git-2.15.0/abspath.c:81-203 | it terminates, computes exactly the specified real path or fails where that is undefined, with up to 33 links; from a canonical working directory the result is a fixed point |
| Archive.ListedOnce | git-2.15.0/archive.c:124-236 | no path is written twice |
| Archive.ParentsListed | git-2.15.0/archive.c:183-199 | every directory comes before its contents and after its parents |
| ArchiveListing.ListingIs | git-2.15.0/archive.c:124-236 | a path is written if and only if it is a leaf that the walk comes to and that is not ignored, or a directory on the way to any leaf that the walk comes to |
| ArchiveListing.TrimmedIs | git-2.15.0/archive.c:245-250 | the entry for a prefix that ends in slashes is the prefix with one of them |
| Archive.Archiver.WriteArchiveEntry | git-2.15.0/archive.c:124-165 | the path written, unless a leaf is ignored |
| Archive.Archiver.WriteDirectory | git-2.15.0/archive.c:183-199 | all pending directories, the outermost first |
| Archive.Archiver.QueueOrWriteArchiveEntry | git-2.15.0/archive.c:201-236 | after the popping loop the pending directories are a chain of ancestors; a directory joins them, a leaf is written after them |
| Archive.Archiver.ReadTree | git-2.15.0/tree.c:62-128 | the walk writes the listing: a directory exactly if a leaf is reached below it, an ignored one too |
| Archive.Archiver.WriteArchiveEntries | git-2.15.0/archive.c:238-290 | the prefix and the listing of the tree |
| BulkCheckin.NextEnd | git-2.15.0/bulk-checkin.c:121-131 | what was hashed before ends where a read ends, so no byte is hashed twice or left out |
| BulkCheckin.PackHeaderIs | git-2.15.0/pack-write.c:178-188 | the header spells PACK, version 2 and the number of objects |
| BulkCheckin.MoreFed | git-2.15.0/bulk-checkin.c:113-145 | one call of the compressor: what it was fed and what waits for it is still the beginning of the file, and what it gave is behind the header |
| BulkCheckin.AddedOne | git-2.15.0/bulk-checkin.c:243-255 | a new entry keeps the index right and the names distinct |
| BulkCheckin.Checkin.FinishBulkCheckin | git-2.15.0/bulk-checkin.c:24-61 | the finished pack has the right count, contents and index, its objects are in the repository, and everything is cleared, plugged included |
| BulkCheckin.Checkin.AlreadyWritten | git-2.15.0/bulk-checkin.c:63-78 | known in the repository or in this pack |
| BulkCheckin.Checkin.StreamToPack | git-2.15.0/bulk-checkin.c:95-170 | the compressor is fed exactly the file, and the body is the header and all that the compressor gave; the hash takes in exactly what it had not; it gives up exactly if the pack has an object and what was compressed so far goes over the limit, at the first buffer that does; else the pack has all of it; it dies only for a short file, a failing compressor, or one that does not finish |
| BulkCheckin.Checkin.StreamWithRetry | git-2.15.0/bulk-checkin.c:207-235 | whatever the compressor does: a second try, never a third, exactly if the first went over the limit of a pack with objects; the hash has the header and every byte once; after a retry the old pack is in the repository and the new one holds only this file |
| BulkCheckin.Checkin.DeflateToPack | git-2.15.0/bulk-checkin.c:188-256 | the pack is split, and the plug lost, exactly if it has objects and the compressed file goes over the limit; the name is the hash of header and file; the compressor is fed exactly the file, and its output behind the header is what joins the pack; a known object leaves the pack as it was |
| BulkCheckin.Checkin.IndexBulkCheckin | git-2.15.0/bulk-checkin.c:258-267 | the object is known afterwards, no object that was known is lost, and a plugged check-in stays plugged, with nothing finished, exactly if the compressed file does not go over the limit |
| BulkCheckin.PlugLost | git-2.15.0/bulk-checkin.c:24-61 | two one-byte files under one plug: whatever the compressor and the hash do, the plug is gone after the second |
| BulkCheckin.Checkin.Unplug | git-2.15.0/bulk-checkin.c:274-279 | what waits in the pack becomes part of the repository |
| ArchiveTar.Tar.WriteIfNeeded | git-2.15.0/archive-tar.c:41-47 | a full block is written |
| ArchiveTar.Tar.DoWriteBlocked | git-2.15.0/archive-tar.c:53-76 | what was written and what waits is what was handed over; every write is a whole block |
| ArchiveTar.Tar.FinishRecord | git-2.15.0/archive-tar.c:78-87 | zeros up to a whole record |
| ArchiveTar.PaddedIs | git-2.15.0/archive-tar.c:78-93 | less than 512 bytes are added, all zero, to a multiple of 512 |
| ArchiveTar.Tar.WriteBlocked | git-2.15.0/archive-tar.c:89-93 | the data, padded |
| ArchiveTar.Tar.StreamBlocked | git-2.15.0/archive-tar.c:114-135 | pieces of any size come to the same as the whole |
| ArchiveTar.Tar.WriteTrailer | git-2.15.0/archive-tar.c:99-108 | whole blocks that end in at least 1024 zero bytes |
| ArchiveTar.Tar.WriteAll | git-2.15.0/archive-tar.c:41-135 | any sequence of items, padded, and the trailer |
| ArchiveTar.EachByItself | git-2.15.0/archive-tar.c:78-93 | each item is padded by itself |
| ArchiveTar.AppendExtHeader | git-2.15.0/archive-tar.c:143-157 | the number in front of a record is its length if and only if adding digits does not carry, and one short otherwise |
| ArchiveTar.ExtRecordExample | git-2.15.0/archive-tar.c:143-157 | the text of two records |
| ArchiveTar.CarryAt99 | git-2.15.0/archive-tar.c:149-151 | a path of 91 bytes, for which the number 100 stands in front of a record of 101 bytes |
| Base85.DecodeEncode | git-2.15.0/base85.c:40-102 | decoding takes back encoding, for every length |
| Base85.EncodeDecode | git-2.15.0/base85.c:40-102 | encoding takes back decoding of whole groups |
| Base85.AlphabetIs | git-2.15.0/base85.c:15-26 | the 85 characters in their order |
| Base85.Places | git-2.15.0/base85.c:79-102 | of four bytes and of five characters the first counts most |
| Base85.EncodedConcat | git-2.15.0/base85.c:79-102 | whole groups are coded one after the other |
| Base85.OkIsAcceptable | git-2.15.0/base85.c:40-77 | decoding succeeds exactly if every group has five characters of the alphabet and a value below 2^32 |
| Base85.Checks | git-2.15.0/base85.c:61-63 | the two comparisons together say that the value fits, before anything wraps around |
| Base85.Coder.Prep | git-2.15.0/base85.c:29-38 | the table is filled once, and right |
| Base85.Coder.DecodeGroup | git-2.15.0/base85.c:46-64 | a group is refused exactly if it is not acceptable; else its value |
| Base85.Coder.EmitBytes | git-2.15.0/base85.c:67-72 | the rotations bring out the bytes, the highest first |
| Base85.Coder.Decode85 | git-2.15.0/base85.c:40-77 | the status, and exactly the bytes of the groups before the first bad one |
| Base85.Coder.Encode85 | git-2.15.0/base85.c:79-102 | the groups of the data, the last one filled up with zeros |

## Left out

- BlameAssign.AssignBlame: where each line ends is stated for runs in which no commit that the run comes to turns uninteresting on the way; conservation, text, references and termination are for all runs in forward direction.  With `-M` or `-C` a line has several possible ends, since its way depends on the lines around it; each round as a whole is stated exactly by BlameAssign.Round.
- BlameMove.SplitOverlap: the range must not end so far before the entry that the final line where the entry's rest begins would be negative.
- BlameQueue.SortSorts: origins are ordered by their numbers, where the source orders them by their addresses.
- BlameAssign.PrioQueueGet: any commit of the newest date may come first.
- BlameMove.BlameEntryScore: no wrap-around of the score.
- Reverse blame, `--first-parent`, ignoring white space in diffs, the callback for guilty entries, freeing of origins and file buffers, and the order of origins on a commit's chain.
- CacheTreeUpdate.UpdateOne: no entries marked for removal or intent-to-add, no unmerged stages, no repair mode, and no failure to write an object; nodes are values, so the sharing of a node between two trees is not modelled.
- CacheTreeFile.ReadOne: the numbers end inside the buffer, as in everything that was written.
- The text of tree objects: a tree's name is a function of the list of its lines.
- Bisect.Bisection.DoFindBisection: with a TREESAME merge on the list the counter runs ahead; then the choice is stated among the commits with a weight, with a bound on those without, but not which of them the passes reach in time; the `dist=` decorations, skipped commits and the reading of refs are left out.
- ApplyMatch.MatchFragment: neither white-space fixing nor ignoring white space; so no preimage extends beyond the end of the file.
- ApplyHunk.ParseFragment: the numbers of the header are given, and neither recounting nor the checks on created and deleted files, which look at counts that are zero by then, are modelled; the width of `int` line lengths is not either.
- ApplyHunk.BuildImages: no `--no-add`, no `--inaccurate-eof`, and no count of new blank lines at the end.
- ApplyPatch.ApplyOneFragment: a hunk with a cut empty context line is stated only where the options let no context be given up; where they do, the source drops lines that the two images need not share, even from an image that has none left.
- ApplyReverse.ApplyFragments: the same hunks are left out of a whole patch.
- Binary patches, three-way merge, file names, modes and the working tree.
- AttrFill.AttrCheck.GitCheckAttr: attributes are numbers below a fixed bound; parsing of attribute files, `git_all_attrs` and locking are left out.
- Abspath.StrbufRealpath: every error is the same `None`; Windows paths are left out.
- Archive.Archiver.ReadTree: writing an entry never fails, the walk is over the entries a pathspec selects, and submodules are not entered.
- BulkCheckin.Checkin.DeflateToPack: seeking and truncating never fail, checksums are left out, and nobody else changes the repository meanwhile.
- ArchiveTar.Tar.Write: writing never fails; tar headers are data like any other.
- The mapping between objects in memory and their addresses; everything in the PHP application of the repository, which is forms over SQL.
