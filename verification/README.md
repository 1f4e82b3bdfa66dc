# Algorithms of the Git core library

This project models ten self-contained algorithms of Git's core library and proves what
they promise. `dafny verify dfyconfig.toml` checks all of it.

| Part | Files | What is proved, in short |
|---|---|---|
| crit-bit tree | `CritBit*.dfy` | a set of fixed-length keys on a heap of nodes that are leaf and branch at once; lookup, insert and ordered prefix iteration |
| fuzzy line matching | `Fuzzy*.dfy`, `Fingerprints.dfy` | the cached matcher matches the most certain line first, as if nothing were cached, and never crosses |
| blame | `Blame*.dfy` | on any history, with ignored commits, moves and copies, every pending line is assigned exactly once, to an origin that has the line, that blame can reach, and whose scapegoats differ there |
| bisection | `Bisect.dfy` | weights are reachability counts; the commit returned is the best of those weighed, or as good but for 1 in 2048, and it is known exactly when all are |
| cache-tree | `Cache*.dfy` | a valid node is what a build from scratch gives, over any run; written trees read back as the index; the file format round-trips |
| add --patch | `Patch*.dfy` | split, merge and reassemble; exactly when the patch applies, and that it then performs exactly the chosen changes |
| apply | `Apply*.dfy` | the nearest match, where a hunk may be, the line table, exactly when the lines replaced are the hunk's, where the lines of a patched file came from, and a patch followed by its reverse |
| bundles | `BundleWalk.dfy` | the creation-token walk ends and leaves no gap; retrying reaches the least fixpoint |
| attributes | `Attr*.dfy` | the reused stack is the fresh one; macros end; stopping early loses nothing; where every value comes from |
| base 85, Bloom filters | `Base85.dfy`, `Bloom*.dfy` | exact overflow test and round trip; no false negative, also after an upgrade; the values of Git's own tests |

The object store, diff, downloads and pattern matching are
parameters, constrained only by what the algorithm needs of them. Where the source may stop
for a reason outside the model (an object may be missing, a download fails) the model chooses
freely, so the results hold for every outcome.

Some promises turn out to need a condition. Each is stated with the condition, and a member
gives an input on which it fails without it. (Guessing for an ignored merge can leave the lines
of a commit unsorted before the next parent is looked at. That needs no condition: they stay
grouped by hunk for every parent, which is all that the walk along a diff uses,
`BlameOrder.PassAmong`.)

* Bisection counts TREESAME merges towards the number of tree-changing commits
  (bisect.c:347). With as many of them as there are tree-changing commits on single strands,
  those never get a weight, and a worse commit is returned (`Bisect.SkippedStrand`). For a
  list with children before parents every commit is weighed exactly when that is not so
  (`Bisect.Bisection.DoFind`).
* `merge_hunks` sees that two chosen neighbours overlap exactly when some line of the first one
  before the second is in the new text (`PatchReassemble.MergeTest`), and the patch that
  `reassemble_patch` makes applies, with exactly the chosen changes, if and only if it sees all
  of them (`PatchResult.Reassemble`). Only a hunk that begins with a deletion can break this
  (`PatchReassemble.MissedBegins`): split, with both parts chosen, such a hunk can give a
  patch that does not apply, though it applies as one hunk (`PatchFile.LeadingDeletion`).
* What `match_fragment` finds in a file are the lines of the preimage, and its quick hash check
  changes nothing, exactly for preimages that end with a complete line or must match at the end
  (`ApplyHash.HashCheckExact`). For every other preimage some file has a longer line that only
  the hash tells apart (`ApplyHash.CheckMatters`), and some file one that not even the hash does
  (`ApplyHash.CheckPasses`).
* So the lines a hunk replaces are its preimage in every file exactly if the preimage ends with a
  complete line, or the hunk must match at the end and has no context to give up
  (`ApplyFragment.PreimageReplaced`). Otherwise a newline can be lost: a hunk that asks for a last
  line `a` turns the file `a`, `b` into `n`, `ab` (`ApplyPatch.GluedLines`).

After a cache-tree update, "invalid exactly when it holds an intent-to-add entry" is true of
every node except those below a sparse directory, which are kept as they were
(`CacheState.StaleUnderLeaf` runs into one).

## Model

| member | source | states |
|---|---|---|
| `CritBits.DirectionIsBit` | cbtree.c:22-24 | the branch taken by the carry trick is the value of the critical bit of the key |
| `CritBits.OtherBitsIsTopDifference` | cbtree.c:55-59 | the smeared mask selects the most significant bit in which two bytes differ, and they agree above it |
| `CritBits.BitOrdersKeys` | cbtree.c:99-109 | two keys that first differ in a critical bit are in byte order by that bit |
| `CritBitTrie.BestMatchDecides` | cbtree.c:15-27 | if any stored key starts with the key asked for, the best match does |
| `CritBitTrie.InsertOrdered` | cbtree.c:68-88 | inserting keeps the trie invariant: critical positions increase down each path, leaves agree before them and have the bit of their side |
| `CritBitTrie.InsertLeaves` | cbtree.c:68-88 | inserting adds exactly the new node to the stored ones |
| `CritBitTrie.TopForSound` | cbtree.c:118-130 | the subtree where cb_each starts has exactly the leaves with the prefix |
| `CritBitTrie.LeavesAscending` | cbtree.c:99-109 | left to right the leaves are in ascending byte order |
| `CritBitTrie.HeightBound` | cbtree.c:99-109 | no path is longer than eight times the key length |
| `CritBitTree.FirstDifference` | cbtree.c:47-61 | finds no difference exactly for equal keys, otherwise the first differing bit and which key has it |
| `CritBitTree.Rewire` | cbtree.c:67-87 | redirecting the one pointer where the descent stopped turns the heap form of the trie into that of the trie with the node inserted |
| `CritBitTree.CbTree.BestMatchIn` | cbtree.c:15-27 | walks the heap to the best match of the trie it represents |
| `CritBitTree.CbTree.Lookup` | cbtree.c:92-97 | finds a node exactly when a stored key starts with the one asked for; for full-length keys exactly when it is stored |
| `CritBitTree.CbTree.Insert` | cbtree.c:29-90 | reports the existing node and changes nothing exactly when the key was stored; otherwise the stored set grows by the node; the invariant is kept |
| `CritBitTree.CbTree.FindSlot` | cbtree.c:67-84 | stops at the pointer the insertion must redirect, and knows the subtree below it |
| `CritBitTree.CbTree.Redirect` | cbtree.c:63-87 | the two writes fill the node in and hook it to that pointer, nothing else changes |
| `CritBitTree.CbTree.Descend` | cbtree.c:99-109 | shows the leaves in order up to the first break, to a depth of at most the height |
| `CritBitTree.CbTree.FindTop` | cbtree.c:118-130 | walks the heap to the best match of the prefix, and finds the subtree the trie's definition gives |
| `CritBitTree.CbTree.Each` | cbtree.c:111-136 | shows exactly the stored keys with the prefix, ascending, up to the first break, recursing at most 8 klen deep |
| `FuzzySpec.WindowsOverlap` | blame.c:551-558 | two lines whose windows share a line of A are at most the B distance apart, in integer arithmetic |
| `FuzzySpec.WindowBefore` | blame.c:961-965 | a line beyond that distance has its whole window before the chosen match |
| `FuzzySpec.WindowAfter` | blame.c:961-965 | and on the other side its whole window after it |
| `FuzzySpec.MatchInOrder` | blame.c:764-913 | matched lines never cross and stay in the current range of A |
| `FuzzySpec.MatchConsumes` | blame.c:481-499 | matching only takes byte pairs out of fingerprints of lines in its range |
| `FuzzySpec.TopTwoSurvives` | blame.c:815-846 | a best and second-best match stay so when other scores fall and other lines are dropped |
| `FuzzyMatch.ScanLine` | blame.c:661-697 | scanning with the similarity cache gives the best two matches of the current fingerprints |
| `FuzzyMatch.FindBest` | blame.c:635-730 | leaves the row of a line equal to what computing it anew would give |
| `FuzzyMatch.Survey` | blame.c:784-802 | brings all rows up to date and picks a line than which none is more certain, the first such; none exactly if no line scores |
| `FuzzyMatch.FirstHalfRight` | blame.c:826-890 | after invalidation every cached value kept is right for the first half with the subtracted fingerprints |
| `FuzzyMatch.SecondHalfRight` | blame.c:826-912 | and for the second half after all that the first half consumed |
| `FuzzyMatch.Invalidate` | blame.c:818-877 | exactly the similarities and matches that the chosen pair can contradict are discarded |
| `FuzzyMatch.Recurse` | blame.c:764-913 | the cached, in-place matcher gives the results and fingerprints of the matching without any cache, which matches the most certain line first each time |
| `FuzzyMatch.FindMatchingLines` | blame.c:924-1001 | no result exactly when A has no lines; otherwise the matching that takes the most certain line first, in order |
| `FuzzyPivot.FindsPivot` | blame.c:784-802 | of the line picked twice its best score less the second best is greatest, and greater than for lines before it |
| `FuzzyPivot.MatchIsMatching` | blame.c:764-913 | the matching takes the most certain line first, consumes its byte pairs, then matches before and after it; nothing is matched exactly if no line scores |
| `FuzzyPivot.OneMatching` | blame.c:764-913 | there is only one such matching |
| `FuzzyPivot.ScoreIs` | blame.c:661-688 | lines at most 10 away score the byte pairs they share times 1000 less the distance, others nothing |
| `FuzzyPivot.ClosestIs` | blame.c:551-558 | a line is compared around the line at its relative place, taken at the middle |
| `FuzzyPivot.NearerWins` | blame.c:676-688 | of equally similar lines the nearer one scores higher |
| `Fingerprints.PairsCount` | blame.c:408-447 | each pair of bytes that is not all whitespace is counted as often as it occurs |
| `Fingerprints.GetFingerprint` | blame.c:408-447 | the counts are those of the byte pairs of the line with whitespace at both ends |
| `Fingerprints.Similarity` | blame.c:462-477 | the size of the intersection of the two multisets of pairs |
| `Fingerprints.Subtract` | blame.c:481-499 | the multiset difference |
| `BlameEntries.Merge` | blame.c:1075-1113 | the stable merge by suspect line |
| `BlameEntries.MergedSorted` | blame.c:1075-1113 | merging sorted lists gives a sorted list |
| `BlameEntries.MergedLines` | blame.c:1075-1113 | and keeps every line |
| `BlameEntries.Coalesce` | blame.c:1185-1206 | the same lines in the same order, and no two neighbours left that could be joined |
| `BlameChunk.CutLines` | blame.c:1808-1834 | cutting a list at a line separates its lines there, if the entries that begin before it come first |
| `BlameChunk.BackParted` | blame.c:1845-1849 | and what is left can be cut wherever the list could |
| `BlameChunk.CutNumbers` | blame.c:1864-1891 | cutting any list keeps every final line |
| `BlameChunk.PassSame` | blame.c:1808-1849 | entries before the chunk go to the parent with the offset, split where they reach into it |
| `BlameChunk.KeepDifferent` | blame.c:1855-1906 | entries in the chunk stay, split where they reach beyond it |
| `BlameIgnore.IgnoreEntry` | blame.c:1735-1784 | an entry is carved into runs so that each line goes to its guessed line or stays unblamable |
| `BlameIgnore.KeepOrGuess` | blame.c:1864-1906 | all lines of a chunk are routed by their guesses, the rest is untouched |
| `BlameHunks.PassTrue` | blame.c:1801-1976 | if the target has the lines claimed, the parent has those passed and the target those kept, for any exact diff |
| `BlameHunks.PassExactly` | blame.c:1801-1976 | passed are exactly the lines in stretches the diff calls equal, kept exactly those in hunks |
| `BlameHunks.PassUnblamable` | blame.c:1770-1775 | lines that stay with an ignored commit are marked |
| `BlameOrder.InHunksGrouped` | blame.c:2472-2486 | when every entry of a sorted list lies in a hunk, its lines are grouped by hunk |
| `BlameOrder.HunkChanged` | blame.c:1801-1976 | a line inside a hunk does not come from the parent |
| `BlameOrder.OnlyHunksChange` | blame.c:1801-1976 | and only those do not |
| `BlameOrder.GroupedReady` | blame.c:1806-1891 | lines grouped by hunk can be cut at every hunk, sorted or not |
| `BlameOrder.PassAmong` | blame.c:1864-1906 | what stays of grouped lines is among them in the same order |
| `BlameOrder.AmongGrouped` | blame.c:2488-2506 | and so grouped by the hunks of every other diff they were grouped by |
| `BlamePass.PassChunk` | blame.c:1801-1910 | one hunk: entries before it pass with the offset, those inside stay or are routed by their guesses, those after it are left |
| `BlamePass.ChunkNumbers` | blame.c:1801-1910 | so no line is lost, whatever the order of the list |
| `BlamePass.ChunkLines` | blame.c:1801-1910 | and in a list that can be cut there the lines before, inside and after are those of the diff |
| `BlamePass.PassToParent` | blame.c:1940-1976 | fails exactly on hunks that do not fit together; otherwise passed and kept have every line and, if the list can be cut at the hunks, are the lines the diff says; a sorted list gives sorted lists, the kept entries each inside a hunk |
| `BlameMove.SplitExact` | blame.c:1507-1554 | the parts before, inside and after a stretch have exactly the lines of the entry, those inside at their place in the parent; there is an inside exactly when they overlap |
| `BlameMove.SplitIfBetter` | blame.c:2014-2033 | the one with the greater score |
| `BlameMove.FindCopy` | blame.c:2049-2121 | of all stretches that a diff calls equal, one of greatest score |
| `BlameMove.OffersGood` | blame.c:2092-2121 | for any exact diff what is offered are lines of the final image that the parent has, out of the middle of the entry |
| `BlameMove.BestSplit` | blame.c:2279-2311 | the best over all candidate files |
| `BlameMove.SplitBlame` | blame.c:1561-1592 | the inside is blamed, the parts around it are not |
| `BlameMove.FilterSmall` | blame.c:2128-2148 | sets aside exactly the entries that score too little, and loses none |
| `BlameMove.FindIn` | blame.c:2155-2332 | ends; every line is blamed on a candidate that has it, set aside or left, none twice; no entry left has a stretch in a candidate that scores enough |
| `BlameMove.MovesAndCopies` | blame.c:2508-2550 | the same for all moves and then all copies; an entry left scores too little itself or has no stretch that the search made last would take |
| `BlameMove.SortSuspectsSorts` | blame.c:1128-1143 | the sort by suspect and line loses nothing |
| `BlameGuess.ScanParent` | blame.c:1663-1684 | the most similar line of the parent above the threshold, then the nearest, then the later one; -1 exactly when none is similar enough |
| `BlameGuess.OneBest` | blame.c:1663-1684 | there is only one such line |
| `BlameGuess.GuessLines` | blame.c:1692-1723 | the fuzzy match of each line or else the best line of the parent, from what matching left of the fingerprints |
| `BlameGuess.GuessedAre` | blame.c:1692-1723 | each guess is the match when the most certain line is matched first, or else the most similar line of the parent above the threshold, the nearest of those, or else none |
| `BlameGuess.GuessAll` | blame.c:1858-1862 | the same for the hunks of a diff in turn, each on the fingerprints the one before left |
| `BlameGuess.GuessesSound` | blame.c:1692-1723 | such guesses are lines of the parent, which is what the scoreboard asks of them |
| `BlameBoard.MergeOk` | blame.c:1214-1230 | merging a sorted true list into an origin's suspects keeps them sorted and true and adds its lines |
| `BlameBoard.Scoreboard.constructor` | builtin/blame.c:1162-1172 | starts with exactly the lines of the ranges pending, each once |
| `BlameBoard.Scoreboard.QueueBlames` | blame.c:1214-1230 | adds the lines to the origin and keeps every commit with suspects queued |
| `BlameBoard.Scoreboard.PassOne` | blame.c:1940-1976 | final lines stay covered exactly once and true, the weight falls by the lines passed; plainly, those left are exactly those in hunks; by guesses, they are among those before, in order and marked |
| `BlameBoard.Scoreboard.PassWhole` | blame.c:2338-2356 | with equal blobs every line goes to the parent |
| `BlameBoard.Scoreboard.FindScapegoats` | blame.c:2421-2468 | finds an identical blob, or for every scapegoat that has the file an origin with the same blob as its own |
| `BlameBoard.Scoreboard.PassPlainly` | blame.c:2470-2486 | afterwards every entry lies inside a hunk of the diff from every scapegoat |
| `BlameBoard.Scoreboard.PassGuessing` | blame.c:2488-2506 | guessing for any number of parents keeps the lines grouped by the hunks of all of them and true, and marks those that stay |
| `BlameBoard.Scoreboard.DistributeBlame` | blame.c:2387-2403 | every collected line goes to its origin, each origin getting sorted lists |
| `BlameBoard.Scoreboard.PassCopies` | blame.c:2508-2566 | moves and copies keep coverage and truth, and leave only lines that were there |
| `BlameBoard.Scoreboard.PassBlame` | blame.c:2412-2578 | keeps coverage; lines left differ from the file of that name in every scapegoat, and are marked if the commit is ignored |
| `BlameBoard.Scoreboard.TakeResponsibility` | blame.c:2622-2638 | the remaining lines move to the result, none twice |
| `BlameBoard.Scoreboard.Visit` | blame.c:2609-2622 | a commit that is neither uninteresting nor too old passes its lines on, and any other keeps all of them and makes commits before it uninteresting; a commit that is not barred keeps only lines it is guilty of |
| `BlameBoard.Scoreboard.Stop` | blame.c:2614-2618 | where blame stops the commit is uninteresting from the start, too old or marked by an earlier stop, or it is a root |
| `BlameBoard.Scoreboard.AssignBlame` | blame.c:2580-2646 | on any acyclic history the loop ends with every pending final line assigned exactly once, to an origin whose blob has it there (or anywhere, if guessed); that commit is reached along scapegoats past none uninteresting from the start or too old; unless it is one of those or was marked where blame stopped, the line differs from the file of that name in every scapegoat; besides them only roots become uninteresting |
| `Bisect.Bisection.CountDistance` | bisect.c:45-70 | counts exactly the tree-changing interesting commits newly reached |
| `Bisect.Bisection.CountOthers` | bisect.c:61-66 | the same for all parents but the first |
| `Bisect.Bisection.ClearDistance` | bisect.c:72-79 | clears every mark of a count |
| `Bisect.Bisection.Initialize` | bisect.c:288-315 | roots and single strands start right, merges are marked, and the counter is the number of known tree-changing commits |
| `Bisect.Bisection.CountMerges` | bisect.c:333-348 | every merge gets its reachability weight; the counter also counts TREESAME merges |
| `Bisect.Bisection.FillOne` | bisect.c:369-382 | the weight of a commit on a strand, from its parent's, is right |
| `Bisect.Bisection.FillPass` | bisect.c:353-389 | a pass fills in at least one more commit, all of them if parents come first, and keeps all weights right |
| `Bisect.Bisection.FillIn` | bisect.c:352-390 | the loop ends, on a halfway commit or when the counter reaches the total |
| `Bisect.Bisection.Best` | bisect.c:187-209 | no tree-changing commit has a greater distance from both ends |
| `Bisect.Bisection.BestSorted` | bisect.c:227-263 | a permutation of the tree-changing commits by falling distance, ties by id; the head when there is none |
| `Bisect.NearlyBest` | bisect.c:110-140 | halfway is within nr / 2048 of the best division |
| `Bisect.Bisection.DoFind` | bisect.c:281-398 | every non-negative weight is the number of tree-changing commits reachable; the result is the best of those weighed, or no division is better than it by more than 1 in 2048; at most as many are unweighed as there are TREESAME merges; with parents first all are weighed exactly when strands are none or outnumber TREESAME merges |
| `Bisect.Bisection.Find` | bisect.c:400-451 | the totals are right; an early result maximises min(w, nr - w) over all tree-changing commits up to nr / 2048, and any other result maximises min(w, nr - w) over roots and merges, and over all tree-changing commits when strands are filled in |
| `Bisect.SkippedStrand` | bisect.c:347-352 | with three TREESAME merges and a strand of three, a root that splits one to four is returned though another commit splits three to two |
| `CacheIndex.GroupIsBelow` | cache-tree.c:316-330 | in a sorted index the entries of a directory are one contiguous group |
| `CacheTree.SubtreePos` | cache-tree.c:60-79 | the index of the name in length-first order, or exactly where it belongs |
| `CacheTree.FindOrCreate` | cache-tree.c:81-106 | the node of that name, new only when there was none, and the order is kept |
| `CacheTree.Invalidate` | cache-tree.c:114-158 | all nodes along the path become invalid, a node of the path's own name goes and nothing else changes; after a change of that path every node that still claims to be valid is right for the new index |
| `CacheTree.ValidIsUpdated` | cache-tree.c:310-311 | a right valid node is what an update would leave |
| `CacheTree.OthersKept` | cache-tree.c:114-158 | invalidating a path leaves every node alone that is not on the way to it |
| `CacheTree.WayInvalid` | cache-tree.c:114-158 | and makes those on the way invalid |
| `CacheRead.ItemsRead` | cache-tree.c:374-474 | the lines of a tree object lead to exactly the entries not intended to be added, in index order, with mode and id; a sparse directory is one line; no subdirectory is empty |
| `CacheRead.RootReads` | cache-tree.c:374-474 | the tree of the whole index reads back as the index |
| `CacheRead.SameIdSameFiles` | cache-tree.c:374-474 | if ids are unique, indexes of files with the same tree id hold the same files |
| `CacheUpdate.DiscardUnused` | cache-tree.c:220-235 | keeps exactly the used nodes, in order |
| `CacheUpdate.UpdateSub` | cache-tree.c:344-370 | the subdirectory found or made is brought up to date with its whole group; none becomes invalid by a failure |
| `CacheUpdate.UpdateSubs` | cache-tree.c:318-370 | all subdirectories of the directory are brought up to date, each once |
| `CacheUpdate.WriteTree` | cache-tree.c:374-474 | the tree content, count and intent-to-add flag are those of a build from scratch; from it exactly the entries not intended to be added are reached |
| `CacheUpdate.UpdateOne` | cache-tree.c:267-503 | success: every node has the count and tree id of its directory and is invalid exactly when it holds an intent-to-add entry, and nodes below sparse directories are as they were; the tree written reads back as the entries of the directory; failure: no node that claims to be valid is wrong; it succeeds if no object is missing |
| `CacheState.ChangeIsLocal` | read-cache.c:629-640 | changing the entry of one path shows only in the directories above it |
| `CacheState.IndexState.Change` | cache-tree.c:160-164 | a change followed by invalidation keeps every valid node right |
| `CacheState.IndexState.Update` | cache-tree.c:505-532 | keeps every valid node right; succeeds if no object is missing; after success the root has the tree id of the whole index, and that tree reads back as the index |
| `CacheState.StaleUnderLeaf` | cache-tree.c:298-307 | add d/x/f, update, remove it, make d a sparse directory, update, with all objects there: both updates succeed and the node of d/x is still there and invalid, with no intent-to-add entry |
| `CacheTreeFile.DecimalNotation` | cache-tree.c:547 | counts are printed in decimal |
| `CacheTreeFile.SmallFile` | cache-tree.c:539-561 | the bytes of a small file: path, NUL, counts, newline, id unless invalid, subtrees |
| `CacheTreeFile.StrtolReads` | cache-tree.c:602-607 | strtol reads back a printed int up to a non-digit |
| `CacheTreeFile.WriteOne` | cache-tree.c:534-572 | succeeds exactly for trees sorted at every level, and writes their serial form |
| `CacheTreeFile.ReadHeader` | cache-tree.c:592-622 | on a written header gives its counts and id and stops right after it; always stays in the buffer |
| `CacheTreeFile.ReadOne` | cache-tree.c:581-664 | on any bytes ends, stays in the buffer and gives sorted nodes; on written bytes gives the tree back and takes exactly those |
| `CacheTreeFile.Read` | cache-tree.c:666-678 | the same for the root, which must have an empty name |
| `CacheTreeFile.ReadWritten` | cache-tree.c:534-678 | reading undoes writing for every sorted tree with NUL-free names |
| `PatchScript.CountSplittable` | add-patch.c:601-604 | counting where groups end gives the number of groups that start |
| `PatchSplit.SplitLine` | add-patch.c:960-1062 | a round of the loop keeps the counts of the part being filled right, also in a hunk that begins with a change, and none of its BUG checks can fire |
| `PatchSplit.SplitHunk` | add-patch.c:924-1081 | exactly splittable_into parts, one group each, whose offsets and counts are those of their own text and which share exactly the context between groups |
| `PatchReassemble.MergeTest` | add-patch.c:782-790 | the test on line numbers says "overlaps" exactly when the hunks do and a line before the second one is in the new text |
| `PatchReassemble.MergeHunks` | add-patch.c:760-886 | merges exactly the chosen run whose overlaps can be seen, with the header of its text |
| `PatchReassemble.PartsMerge` | add-patch.c:760-886 | merging all parts of a hunk gives its header and text back if a line before the second part is in the new text, and otherwise merges nothing |
| `PatchReassemble.PartsFit` | add-patch.c:938-951 | the hunk list stays a division of all changes when a hunk makes way for its parts |
| `PatchReassemble.OverlapSeen` | add-patch.c:786-790 | overlap is seen exactly when a line before the second hunk is in the new text |
| `PatchReassemble.MissedBegins` | add-patch.c:786-790 | an overlap is missed only after a hunk that begins with a deletion and overlaps nothing before it |
| `PatchResult.Emit` | add-patch.c:694-697 | a hunk with the shifted offset applies at exactly its line on both sides and performs its changes |
| `PatchResult.SkipBalance` | add-patch.c:901-903 | leaving a hunk out shifts later lines by what it would have changed |
| `PatchResult.Reassemble` | add-patch.c:888-922 | for every choice, forward and reverse: if all overlaps of chosen neighbours can be seen, the hunks are disjoint, sit at exactly their line numbers, and applying them performs exactly the chosen groups; otherwise the patch does not apply |
| `PatchFile.SplitKeepsGoal` | add-patch.c:924-1081 | splitting alone does not change which lines the patch is to change |
| `PatchFile.ChosenUsed` | add-patch.c:784-786 | the lines chosen are those of the hunks marked for use |
| `PatchFile.FileDiff.Split` | add-patch.c:924-1081 | over any run of splits and choices the hunks stay right and what is chosen stays the same |
| `PatchFile.FileDiff.Patch` | add-patch.c:888-922 | the patch for the current choices does exactly what was chosen if and only if all overlaps of chosen neighbours can be seen, and otherwise does not apply |
| `PatchFile.LeadingDeletion` | add-patch.c:786-790 | a whole run: a hunk that begins with a deletion applies as one hunk, and split with both parts chosen gives a patch that does not apply |
| `ApplyLines.HashLine` | apply.c:303-313 | the 32-bit hash of the line |
| `ApplyLines.HashNonSpace` | apply.c:303-313 | the hash does not depend on whitespace |
| `ApplyLines.FuzzyMatchLines` | apply.c:2386-2416 | decides equality of lines with line endings dropped and whitespace runs collapsed |
| `ApplyLines.NormalHash` | apply.c:2545-2552 | lines that match but for whitespace have equal hashes |
| `ApplyImage.SameLines` | apply.c:329-351 | a buffer has only one division into lines |
| `ApplyImage.PrefixLines` | apply.c:2562-2567 | complete lines that begin a buffer are its first lines |
| `ApplyImage.Image.Prepare` | apply.c:329-351 | the line table divides the buffer into its lines |
| `ApplyImage.Image.RemoveFirstLine` | apply.c:353-359 | buffer and table lose the first line together |
| `ApplyImage.Image.RemoveLastLine` | apply.c:361-366 | buffer and table lose the last line together |
| `ApplyImage.Image.Update` | apply.c:2794-2859 | the lines of the preimage give way to those of the postimage, marked as patched, and table and buffer stay in step |
| `ApplyFind.QuickCheck` | apply.c:2545-2552 | yes exactly when no line was patched and all hashes agree |
| `ApplyFind.HashCheckHarmless` | apply.c:2545-2552 | for a preimage that ends with a complete line or must match at the end, the answer with the hash check, the answer without it and equality of lines are the same |
| `ApplyHash.Collide` | apply.c:303-313 | every line is the beginning of a longer one with the same hash |
| `ApplyHash.CheckMatters` | apply.c:2545-2567 | for any other preimage some file has a longer line that only the hash check tells apart |
| `ApplyHash.CheckPasses` | apply.c:2545-2567 | and some file one that passes the hash check too |
| `ApplyHash.HashCheckExact` | apply.c:2545-2567 | over all files, the check is redundant, and what is found are the lines, exactly for preimages that end with a complete line or must match at the end |
| `ApplyFind.LineByLine` | apply.c:2418-2443 | yes exactly when every pair of lines is equal but for whitespace |
| `ApplyFind.MatchFragment` | apply.c:2483-2595 | the decision at one line, from the byte buffers |
| `ApplyFind.FindPos` | apply.c:2701-2787 | the match nearest the clamped start, the later one on a tie, and -1 exactly when no line matches |
| `ApplyFind.OnePos` | apply.c:2701-2787 | there is only one such answer |
| `ApplyFragment.ParseFragment` | apply.c:1695-1777 | succeeds exactly when the lines the header counts are there and change something; leading and trailing context are counted right |
| `ApplyFragment.LeadingIs` | apply.c:1715-1746 | leading context is the lines before the first change |
| `ApplyFragment.TrailingIs` | apply.c:1715-1746 | trailing context is the lines after the last change |
| `ApplyFragment.ContextFits` | apply.c:1713-1752 | leading and trailing context never overlap |
| `ApplyFragment.BuildImages` | apply.c:2886-2982 | the two images are the old and new lines of the hunk, swapped in reverse, without the newlines that notes take away |
| `ApplyFragment.FindReducing` | apply.c:3022-3057 | the first search that finds the hunk in the sequence: ends given up first, then context from the longer side, down to the required amount; the place is anchored as stated below |
| `ApplyFragment.PlaceAnchored` | apply.c:3009-3057 | without context to give up a hunk for line 0 or 1 is at the start and one without trailing context at the end, with the exceptions for zero context and overlaps; with context to give up it is there if its lines are; context is given up only if all of it is nowhere |
| `ApplyFragment.OutcomeContext` | apply.c:3033-3056 | context is given up only beyond the required amount, and only on the longer side |
| `ApplyFragment.ThereFirst` | apply.c:3022-3030 | a hunk that is where its header says is found there with all its context |
| `ApplyFragment.SteadyReplaces` | apply.c:3016-3057 | if the preimage ends with a complete line, or the hunk is only tried at the end, the lines found are the preimage |
| `ApplyFragment.UnsteadyReplaces` | apply.c:3016-3057 | otherwise some file has other lines there |
| `ApplyFragment.PreimageReplaced` | apply.c:3016-3057 | in every file the lines replaced are the preimage exactly for such hunks |
| `ApplyFragment.ApplyOneFragment` | apply.c:2866-3114 | success exactly when a search finds the hunk, at a place anchored as its header says; then as many lines as its preimage has, less context given up, on no line of an earlier hunk and equal to the preimage under that condition, give way to the postimage; on failure nothing changes and the last search has no match anywhere |
| `ApplyPatch.ReverseIsFlipped` | apply.c:2216-2233 | swapping the positions of a hunk is taking it from the edit read backwards |
| `ApplyRun.SwapIn` | apply.c:2794-2859 | a stretch of lines no hunk made can be taken out of the file as the first file had it |
| `ApplyRun.HunkApplied` | apply.c:3242-3264 | a found hunk of complete lines takes such a stretch, which is its preimage |
| `ApplyPatch.ApplyFragments` | apply.c:3242-3264 | each hunk is applied where it is found in what those before it left, or rejected; it fails exactly at the first rejected one unless rejects are wanted; hunks of complete lines, wherever found, replace disjoint stretches of the first file, one each, by their postimages; a patch that fits its file turns the old lines into the new ones |
| `ApplyPatch.ApplyAndReverse` | apply.c:2216-2233 | applying a patch and then the reversed patch gives the original buffer back |
| `ApplyPatch.GluedLines` | apply.c:3016-3030 | the context line `a` without newline is found at a first line `a`, whose newline is lost |
| `BundleWalk.Fetch.AttemptAll` | bundle-uri.c:766-779 | one bundle is unbundled, or none can be |
| `BundleWalk.Fetch.UnbundleAll` | bundle-uri.c:781-796 | ends with the least closed set of objects, whatever the order, and a bundle is flagged exactly when its needs are met |
| `BundleWalk.Fetch.Download` | bundle-uri.c:575-597 | a failed download flags the bundle and looks deeper; a list among the downloads may add objects and store a token, and stops the walk if it succeeds |
| `BundleWalk.Fetch.Try` | bundle-uri.c:599-628 | the walk turns to newer bundles only after one was unbundled, and everything deeper that was visited is flagged |
| `BundleWalk.Fetch.FetchByToken` | bundle-uri.c:501-647 | ends for every pattern of outcomes; success leaves every visited bundle unbundled or failed to download, nothing new but their objects and those of lists among the downloads, and a stored token above the previous one that is the largest unbundled; it succeeds without a visit exactly if no bundle is newer than the token stored, and fails only at the end of the list, at a bundle not newer, or at a download that is no bundle |
| `AttrFill.FillOne` | attr.c:1069-1086 | ends for cyclic macros, keeps rem the number of unknown values, and gives the values of a full scan |
| `AttrFill.MacroExpandOne` | attr.c:1109-1117 | the same for one macro |
| `AttrFill.FullStack` | attr.c:1088-1107 | once no value is unknown, the rest of the scan changes nothing |
| `AttrFill.Fill` | attr.c:1088-1107 | stopping at rem = 0 gives the values of a full scan of the stack |
| `AttrSource.ScanSourced` | attr.c:1069-1117 | every value comes from a matching line or a macro set to true, all that those mention have a value, and of the lines that set an attribute no macro mentions the last of the highest frame wins |
| `AttrSource.MacrosLast` | attr.c:1124-1139 | a macro is defined by the last definition of the highest frame |
| `AttrFill.DetermineMacros` | attr.c:1124-1139 | for each attribute the definition nearest the top |
| `AttrStack.FramesSplit` | attr.c:1008-1034 | the frames of a path are those of any directory on it followed by the rest |
| `AttrStack.FramesDeeper` | attr.c:1008-1034 | frames are those of the directories on the way, nearer ones higher |
| `AttrStack.Kept` | attr.c:979-998 | what is kept of the old stack is the beginning of the new one |
| `AttrStack.Check.Prepare` | attr.c:949-1042 | after any history of queries the stack is the one built from nothing |
| `AttrStack.Collect` | attr.c:1146-1173 | the values are those of a full scan of the stack built from nothing, whatever was asked before, with their sources and precedence |
| `BloomHash.Murmur3` | bloom.c:110-222 | the loop computes the hash of its version |
| `BloomHash.VersionsAgree` | bloom.c:110-222 | both versions agree on data without high bits |
| `BloomDiffer.ScrambleInjective` | bloom.c:150-152 | scrambling a word loses nothing |
| `BloomDiffer.FinishInjective` | bloom.c:157-162 | nor does the final mix |
| `BloomDiffer.TailDecides` | bloom.c:110-222 | after blocks without high bits the hashes agree exactly when the last one to three bytes give the same word |
| `BloomDiffer.VersionsDiffer` | bloom.c:110-222 | for data whose whole blocks have no high bits, the hashes differ exactly when one of the last bytes has one, whatever the seed |
| `BloomKnown.KnownText` | t/t0095-bloom.sh:7-21 | the hash of the empty string and of a text of whole blocks |
| `BloomKnown.KnownBytes` | t/t0095-bloom.sh:31-37 | the hash of seven high bytes |
| `BloomKnown.KnownKeys` | t/t0095-bloom.sh:39-47 | the first keys of the empty string |
| `BloomKnown.KnownBits` | t/t4216-log-bloom.sh:538-548 | the bits of a path of two high bytes in both versions |
| `BloomKnown.KnownFilter` | t/t4216-log-bloom.sh:610-620 | the filters of that path, 52 a9 in version 1 and c0 1f in version 2 |
| `BloomHash.FillKey` | bloom.c:224-244 | hash0 + i hash1 in 32 bits |
| `BloomFilter.AddKey` | bloom.c:251-264 | sets exactly the bits of the key |
| `BloomFilter.Contains` | bloom.c:524-542 | 1 exactly when every bit of the key is set, -1 exactly for no filter |
| `BloomFilter.AddLeading` | bloom.c:465-480 | adds the path and exactly its leading directories |
| `BloomFilter.Build` | bloom.c:449-515 | the filter has exactly the bits of the changed paths and their directories, has them all, or is the truncated one that answers yes to everything |
| `BloomUpgrade.PathsSevenBit` | bloom.c:308-342 | in a tree without high bits every path is in seven bits |
| `BloomUpgrade.HighExact` | bloom.c:308-342 | if all trees are there, a tree has high bits exactly if some path in it has |
| `BloomUpgrade.Trees.HasHighBit` | bloom.c:308-342 | whether some name below has a high bit or some object is missing; the flags left behind stay right |
| `BloomUpgrade.Trees.Upgrade` | bloom.c:356-370 | allowed exactly when neither the tree nor the first parent's has high bits |
| `BloomUpgrade.UpgradedHasKeys` | bloom.c:356-370 | a filter that may be relabelled with another version, either way, gives the same answer for the keys of both versions of every changed path and leading directory |
| `Base85.Alphabet` | base85.c:16-27 | the alphabet has 85 different characters |
| `Base85.SpelledLetters` | base85.c:16-27 | its digits and letters |
| `Base85.SpelledMarks` | base85.c:16-27 | its marks |
| `Base85.PrepBase85` | base85.c:29-38 | the table holds one more than the place of each character and 0 for all others |
| `Base85.OverflowTest` | base85.c:60-63 | the test fires exactly when the five-digit value does not fit 32 bits |
| `Base85.DecodeGroup` | base85.c:46-64 | accepts exactly five alphabet characters whose value is below 2^32; nothing wraps before the test |
| `Base85.Encode` | base85.c:79-102 | each group of five characters stands for four bytes, zeros after the end |
| `Base85.Decode` | base85.c:40-77 | fails exactly when a group is not acceptable, and otherwise gives every byte of the groups, of the last one as many as asked for |
| `Base85.RoundTrip` | base85.c:40-102 | decoding undoes encoding for every length |

## Left out

- Linked lists of blame entries and the cache-tree are values here (`seq` and a datatype, reassigned by methods): update in place, aliasing, reference counts and freeing are not modelled.
- The arrays certainties, result, second_best_result and similarities of the fuzzy matcher are one array of rows.
- The crit-bit node's byte is a full integer; its truncation to 32 bits for keys of 4 GiB is not modelled.
- Blame: textconv, progress, the order of the commit queue, and how diff and rename detection work. Which files are looked at for copies is a parameter.
- Bisection: skipped commits and merge bases; first-parent mode is covered through the parents given. Commits stand for their object ids in the order of ties.
- Cache-tree: repair mode, entries marked for removal, prime_cache_tree and cache_tree_verify. Entries are at stage 0 and no path is both a file and a directory, which verify_cache checks among neighbours only.
- `CacheTreeFile.ReadHeader`: the buffer ends where the model's does, while strtol in the source relies on bytes after it; an allocation for a count near the largest int is not modelled.
- add --patch: edited hunks, the mode-change pseudo-hunk, colours and prompts, and diffs without context (GIT_DIFF_OPTS) in which a hunk has lines on one side only and is not the whole file. Positions are line numbers of the whole edit script, where the source has byte offsets into a buffer of hunks with header lines between them.
- apply: whitespace fixing, --inaccurate-eof, --no-add, binary patches, empty context lines without their blank, and rewriting context after a whitespace-insensitive match.
- `ApplyImage.Image.AddLine`: puts the text into the buffer at once, where the source fills the buffer of an image after its table.
- Bundles: what a bundle list among the downloads does is left open, references, and sorting the list by token. The walk is started on a list whose first bundle is not flagged, as every caller does; with it flagged the first round would not move.
- Attributes: parsing attribute files, pattern matching, and locking of the attribute dictionary. Paths are normalised.
- Bloom filters: loading filters from the commit-graph and merging options into settings.
- Everything else in the repository: user interface, references, transport, archives, configuration and the file system.
