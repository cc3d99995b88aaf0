# Verified lists, spoolers, word counters and shell pieces

A Dafny model of the C programs of this repository whose correctness is not
obvious from reading one function: two in-place list sorts, a bounded-buffer
spooler under two locking schemes, four word counters that must print the same
report, the HTTP server's work queue, the shell's tokenizer and a counter whose
limit is tested outside its lock.

`dafny verify dfyconfig.toml` checks everything.

## How it is organised

| file | what it is about |
|---|---|
| `Orders.dfy` | strict weak orders, stability, insertion sort as the reference, uniqueness of the stable sorted permutation |
| `NaturalRuns.dfy`, `Unique.dfy` | what `list_sort` and `list_unique` compute, as functions on sequences, and their cost |
| `PintosList.dfy` | the sentinel list of `list.c`: every method rewrites `prev` and `next` in place |
| `Blocks.dfy`, `UtList.dfy` | the bottom-up merge sort of `utlist.h`, on sequences and on singly linked, doubly linked and circular nodes |
| `WorkQueue.dfy` | `wq.c`: the queue object and its protocol |
| `Ring.dfy` | the spooler's ring buffer, as a value and as an object |
| `Spooler.dfy`, `SpoolerProgress.dfy` | producers, consumers and main as a step relation, for one and for two condition variables; safety, then progress |
| `Options.dfy` | a value that may be absent |
| `CType.dfy`, `Words.dfy`, `WordText.dfy`, `WordPrint.dfy` | characters, lists of words with counts, reading words from a stream, printing a list and scanning it back |
| `Placing.dfy` | the insertion sort of `word_count.c` on sequences, and when it is stable |
| `WordCountList.dfy`, `WordListPintos.dfy` | the two linked implementations of a word list |
| `WordReport.dfy`, `WordPrograms.dfy` | what the four programs are to print, and the programs from files to printed text |
| `Tokenizer.dfy`, `Counter.dfy` | the shell's tokenizer and the shared counter |

Each imperative method is proved against a function on sequences; what the
source promises is then proved about that function. Ghost parameters (chains,
positions) say where a C pointer points.

An `Order` compares elements through a key, as `less` and `cmp` do through
`list_entry`. `Orders.InsertionSort` is the independent reference for every
sort: it repeats `list_insert_ordered` on an empty list.

The spooler's steps are critical sections. The shutdown flag and its broadcast
are set without the lock, so a consumer that has tested the buffer but does not
sleep yet is a state of its own (`Committed`), in which main may still step.
`pthread_cond_signal` wakes any nonempty choice of the waiters (IEEE Std
1003.1-2017); spurious wake-ups are steps too.

## What turned out false, and when exactly it holds

- Shutdown does not always reach every consumer. With two condition variables a
  run without spurious wake-ups that cannot go on has everybody done if and only
  if the broadcast did not fall between a consumer's test and its wait; with one
  condition variable, if and only if that did not happen to the only consumer,
  because a second consumer's last signal repairs it. `LostBroadcastHappens`
  exhibits such a run.
- The unchecked insertion appends to the queue if and only if the ring is not
  full; on a full ring it makes the new item the oldest one.
- `fwords` prints what the other three programs print if and only if no word
  occurs 100000000 times or more in any one file: a longer count overflows the
  `%8d` of the scan and its last digits are read as a word. Such files exist
  (`FwordsFailsSomewhere`).
- `wordcount_sort` of `word_count.c` is stable if and only if every node that
  ties with an earlier one is below all the other earlier ones
  (`Placing.PlaceSortStable`): two ties after an element that is not above them
  come out turned round (`Placing.PlaceSortUnstable`, `WordCountList.UnstableExample`).
  The programs agree all the same, because `less_count` leaves no two different
  entries tied.
- The shared counter may pass its limit by up to one for each other thread; the
  possible final values are exactly those.

## Model

| member | source | states |
|---|---|---|
| Orders.InsertSorted | Lists,_Threads,_and_Processes/list.c:449-466 | ordered insertion into a sorted list leaves it sorted, for every strict weak order |
| Orders.InsertClass | Lists,_Threads,_and_Processes/list.c:462-465 | the new element comes after all that are equivalent to it and no equivalent elements change places |
| Orders.InsertionSortCorrect | Lists,_Threads,_and_Processes/list.c:452-466 | inserting a list's elements in turn into an empty list yields a sorted, stable permutation |
| Orders.StableSortUnique | Lists,_Threads,_and_Processes/list.c:408-410 | a list has at most one stable sorted permutation, so any two stable sorts agree node for node |
| Orders.StableIsPermutation | Lists,_Threads,_and_Processes/list.c:408-410 | stability alone, said class by class, already implies having the same elements the same number of times |
| Orders.MergeSorted | Lists,_Threads,_and_Processes/list.c:381-406 | merging two sorted ranges gives a sorted range |
| Orders.MergeClass | Lists,_Threads,_and_Processes/list.c:398-405 | merging is stable: of equivalent elements, all of the left range come before all of the right, each in its old order |
| NaturalRuns.FirstPairSorted | Lists,_Threads,_and_Processes/list.c:364-379 | the two ranges find_end_of_run delimits are sorted, as inplace_merge requires |
| NaturalRuns.PassClass | Lists,_Threads,_and_Processes/list.c:427-442 | a whole pass keeps equivalent elements in order |
| NaturalRuns.LastPassSorts | Lists,_Threads,_and_Processes/list.c:444-446 | when a pass counts at most one output run the list is sorted, so the loop may stop and the final assertion holds |
| NaturalRuns.RunsAreDescents | Lists,_Threads,_and_Processes/list.c:359-379 | there is exactly one run more than there are elements less than the one before them, so the runs found are maximal |
| NaturalRuns.OutputsHalveRuns | Lists,_Threads,_and_Processes/list.c:428-442 | the run counter of a pass is exactly half the number of maximal runs it was given, rounded up |
| NaturalRuns.PassHalvesRuns | Lists,_Threads,_and_Processes/list.c:421-444 | a pass leaves at most half of the maximal runs, rounded up |
| NaturalRuns.PassesBound | Lists,_Threads,_and_Processes/list.c:408-444 | list_sort makes at most max(1, ceil(log2 r)) passes over a list of r maximal runs |
| NaturalRuns.CeilLog2Least | Lists,_Threads,_and_Processes/list.c:408-410 | the logarithm used in the bounds is the least k with 2^k >= n |
| NaturalRuns.NaturalSortCorrect | Lists,_Threads,_and_Processes/list.c:411-447 | the repeated passes end in a sorted, stable permutation |
| NaturalRuns.NaturalSortIsInsertionSort | Lists,_Threads,_and_Processes/list.c:411-466 | the natural merge sort refines repeated ordered insertion, element for element |
| Unique.UniqueGroups | Lists,_Threads,_and_Processes/list.c:468-493 | the input falls into groups: each head is kept, all that follows it in its group is equivalent to it and dropped, and neighbouring heads are not equivalent |
| Unique.UniqueConserves | Lists,_Threads,_and_Processes/list.c:484-492 | kept and dropped elements together are exactly the input |
| Unique.UniqueStrict | Lists,_Threads,_and_Processes/list.c:468-471 | a sorted input becomes strictly increasing |
| PintosList.List.constructor | Lists,_Threads,_and_Processes/list.c:66-75 | list_init: a well-formed list without elements |
| PintosList.List.Insert | Lists,_Threads,_and_Processes/list.c:172-185 | list_insert puts the element just before the given node, sentinels and all other links as they were |
| PintosList.List.PushBack | Lists,_Threads,_and_Processes/list.c:221-227 | list_push_back appends |
| PintosList.List.Remove | Lists,_Threads,_and_Processes/list.c:229-262 | list_remove takes out that node and returns the one that followed |
| PintosList.Splice | Lists,_Threads,_and_Processes/list.c:187-211 | list_splice within a list, forwards or backwards: the range moves as it is, everything else stays in order, prev and next stay mutually inverse |
| PintosList.SpliceAcross | Lists,_Threads,_and_Processes/list.c:187-211 | list_splice between two disjoint lists: both stay well formed and exactly the range changes lists |
| PintosList.FindEndOfRun | Lists,_Threads,_and_Processes/list.c:359-379 | returns the end of the maximal nondecreasing run, with the exact number of comparisons |
| PintosList.InplaceMerge | Lists,_Threads,_and_Processes/list.c:381-406 | the two ranges become their merge by splicing single nodes, nothing outside them moves, with fewer comparisons than nodes |
| PintosList.MergePair | Lists,_Threads,_and_Processes/list.c:430-441 | one inner iteration merges the first two runs of what is left and leaves the rest |
| PintosList.SortPass | Lists,_Threads,_and_Processes/list.c:427-442 | one pass leaves the pairwise merged runs and counts them, with at most 2(n-1) comparisons |
| PintosList.Sort | Lists,_Threads,_and_Processes/list.c:408-447 | list_sort terminates with a well-formed list of the same nodes in which no element is less than an earlier one, stable, equal to repeated ordered insertion, within max(1, ceil(log2 r)) passes and 2(n-1) comparisons a pass |
| PintosList.IsSorted | Lists,_Threads,_and_Processes/list.c:346-357 | is_sorted compares neighbours only, yet answers whether all pairs are in order |
| PintosList.InsertOrdered | Lists,_Threads,_and_Processes/list.c:449-466 | list_insert_ordered places the node just before the first it is below |
| PintosList.Reverse | Lists,_Threads,_and_Processes/list.c:331-344 | list_reverse: same nodes and sentinels, opposite order, links mutually inverse |
| PintosList.ListUnique | Lists,_Threads,_and_Processes/list.c:468-493 | list_unique keeps the kept nodes and appends the dropped ones, in order, to a disjoint list if one is given |
| Blocks.PassDoublesBlocks | HTTP_Server/utlist.h:217-277 | a pass over sorted blocks of w leaves sorted blocks of 2w |
| Blocks.BlockPassClass | HTTP_Server/utlist.h:232-271 | a pass keeps equivalent elements in order, also across the cut-off last block |
| Blocks.BlockSortCorrect | HTTP_Server/utlist.h:215-283 | all passes together give a sorted, stable permutation |
| Blocks.BlockSortIsNaturalSort | HTTP_Server/utlist.h:208-286 | the two merge sorts of the repository agree with each other and with repeated insertion |
| Blocks.BlockPassesExact | HTTP_Server/utlist.h:278-281 | doubling blocks takes exactly ceil(log2 n) passes, one for a list of one element |
| UtList.Comparison.OrderStrictWeak | HTTP_Server/utlist.h:246 | a cmp that is a total preorder gives a strict weak order by cmp > 0 |
| UtList.Comparison.SortedMeans | HTTP_Server/utlist.h:249 | sorted means ascending: cmp of an element and a later one is at most 0 |
| UtList.Append | HTTP_Server/utlist.h:257-269 | linking a node behind the tail keeps what is built linked, backwards too where the list has prev, and does not disturb the old links that p and q have still to walk |
| UtList.MergeBlocks | HTTP_Server/utlist.h:233-270 | the inner loop appends the merge of the two blocks while their links are being overwritten, and steps past both, with fewer comparisons than nodes linked |
| UtList.MergePass | HTTP_Server/utlist.h:218-272 | for each kind of list, one pass builds exactly the pairwise merged blocks, counts the merges, and makes at most as many comparisons as there are nodes less merges |
| UtList.SortIteration | HTTP_Server/utlist.h:216-282 | from a list of which only next is right, a pass leaves a proper one: the tail's next is null or the head, and unless the list is singly linked every prev is rebuilt and head's prev is the tail |
| UtList.Sort | HTTP_Server/utlist.h:128-388 | LL_SORT2, DL_SORT2 and CDL_SORT2, whatever prev held before, leave the same nodes in stable order with cmp of any node and a later one at most 0, linked and terminated as their kind of list is (LL_SORT2 without writing any prev), after exactly max(1, ceil(log2 n)) passes with at most n - 1 comparisons each |
| UtList.DlAppend | HTTP_Server/utlist.h:599-611 | DL_APPEND2 appends, to an empty list as well |
| UtList.DlDelete | HTTP_Server/utlist.h:632-648 | DL_DELETE2 takes out one node: the only, the first, an inner or the last |
| WorkQueue.Queue.constructor | HTTP_Server/wq.c:6-11 | an empty queue |
| WorkQueue.Queue.Push | HTTP_Server/wq.c:31-40 | a push appends the socket and keeps size equal to the number of linked nodes |
| WorkQueue.Queue.TryPop | HTTP_Server/wq.c:15-28 | a pop takes the first socket, and waits exactly when there is none |
| WorkQueue.PopDelivers | HTTP_Server/wq.c:15-28 | what TryPop does is what the protocol's pop does, whichever worker makes it |
| WorkQueue.EveryRunIsFifo | HTTP_Server/wq.c:13-40 | in every step of any run of pushes and pops by any number of workers: a pop hands the next socket in push order to the worker that makes it, nothing else is handed out, pushed = popped followed by the queue, and a worker waits only if the queue is empty |
| Ring.NewRingEmpty | Spooler/spooler_shared.c:24-30 | a new ring stands for the empty queue |
| Ring.InsertAppends | Spooler/spooler_shared.c:53-63 | inserting into a ring that is not full appends to the queue, moves no item in the array, and keeps write_index = read_index + size - capacity modulo size |
| Ring.InsertAppendsIff | Spooler/spooler_shared.c:47-63 | unchecked insertion appends if and only if the ring is not full; on a full ring it replaces the oldest item |
| Ring.RemoveTakesFirst | Spooler/spooler_shared.c:71-78 | removal takes the oldest item, and NULL if and only if there is none; the other items do not move in the array |
| Ring.RingIsQueue | Spooler/spooler_unsafe.c:27-43 | any sequence of checked insertions and removals has the results of a plain bounded queue |
| Ring.Spool.constructor | Spooler/spooler_shared.c:24-30 | spool_init_shared sets up a valid empty ring |
| Ring.Spool.InsertUnchecked | Spooler/spooler_shared.c:53-63 | the object does what the value does; valid and appended when there is room; nothing at size 0 |
| Ring.Spool.RemoveUnchecked | Spooler/spooler_shared.c:71-78 | the object does what the value does and stays valid |
| Ring.Spool.InsertUnsafe | Spooler/spooler_unsafe.c:27-31 | appends when there is room and otherwise changes nothing |
| Ring.Spool.RemoveUnsafe | Spooler/spooler_unsafe.c:39-43 | removes the oldest item or reports that there is none |
| Spooler.StepRing | Spooler/spooler_two_cv.c:39-66 | every step meets the precondition of the unchecked insertion, so inserted = removed + buffer after it |
| Spooler.StepSafe | Spooler/spooler_one_cv.c:37-74 | every step of either scheme, spurious wake-ups included, keeps the ring valid, the histories matched, the lock with one holder, and consumers finishing only after shutdown |
| Spooler.EveryRunIsFifo | Spooler/main.c:60-103 | in every state of every run what was inserted is what was removed followed by the buffer, and each producer's strings leave in its own order |
| Spooler.EveryStepDelivers | Spooler/spooler_two_cv.c:56-66 | in every step of every run: a removal from a buffer that is not empty hands the oldest string to the consumer that makes it, an insertion adds the next string of the producer that makes it, and no other step hands out or adds anything |
| Spooler.NullOnlyAfterShutdown | Spooler/spooler_two_cv.c:50-66 | a removal returns NULL if and only if the buffer is empty, and then shutdown is set and all producers are done |
| Spooler.FinalConserves | Spooler/consumer.c:29-40 | when all threads have finished, every string of every producer was removed exactly once and nothing else was |
| SpoolerProgress.StepConsumersEnough | Spooler/spooler_two_cv.c:45-61 | consumers wait only while the awake ones are enough for every item |
| SpoolerProgress.StepProducersEnough | Spooler/spooler_two_cv.c:41-64 | producers wait only while the awake ones with strings left are enough for every free slot |
| SpoolerProgress.StepRank | Spooler/producer.c:30-39 | every step that is not a spurious wake-up lowers a rank of work left, then idle steps possible |
| SpoolerProgress.TwoCvTotalCorrectness | Spooler/spooler_two_cv.c:39-66 | every run has an explicit bound, and one that cannot go on has everybody done if and only if the broadcast missed no consumer between test and wait |
| SpoolerProgress.TwoCvNoDeadlock | Spooler/main.c:92-102 | no other stuck state exists, spurious wake-ups or not |
| SpoolerProgress.OneCvAtMostOneWaits | Spooler/spooler_one_cv.c:47-74 | in every reachable state at most one thread waits on con_cv |
| SpoolerProgress.OneCvNoDeadlock | Spooler/spooler_one_cv.c:37-74 | nobody is stuck while a producer is unfinished; a stuck run is finished if and only if the broadcast was not lost on the only consumer |
| SpoolerProgress.LostBroadcastHappens | Spooler/spooler_one_cv.c:37-40 | a run under either scheme in which the broadcast is lost and the last consumer sleeps for ever |
| SpoolerProgress.OneCvUnbounded | Spooler/spooler_one_cv.c:64-74 | with one condition variable there are runs of every length without spurious wake-ups in which two consumers wake each other and nothing is inserted |
| SpoolerProgress.SpuriousUnbounded | Spooler/spooler_two_cv.c:56-66 | with spurious wake-ups there are runs of every length under either scheme in which nothing is inserted |
| Words.LessCountStrictTotal | Lists,_Threads,_and_Processes/word_helpers.c:92-95 | less_count is a strict total order on entries |
| Words.StrLessIsDictionary | Lists,_Threads,_and_Processes/word_helpers.c:97-99 | strcmp below 0 is dictionary order: at the first difference the one word ends or has the smaller character |
| Words.SortedInOrder | Lists,_Threads,_and_Processes/word_helpers.c:92-95 | on distinct words, sorted by less_count means fewer occurrences first and dictionary order among words with equally many |
| Words.TotalSortUnique | Lists,_Threads,_and_Processes/word_count.c:75-105 | under a strict total order there is one sorted permutation, stable or not |
| Words.FindFirst | Lists,_Threads,_and_Processes/word_count.c:40-47 | find_word stops at the first entry with the word, or at the end if there is none |
| Words.AddFrontCounts | Lists,_Threads,_and_Processes/word_count.c:49-66 | add_word adds one to that word and to no other, and keeps words distinct and counts positive |
| Words.AddBackCounts | Lists,_Threads,_and_Processes/word_count_l.c:49-65 | add_word_with_count adds the count to that word and to no other, and keeps words distinct and counts positive |
| Words.AddedWhere | Lists,_Threads,_and_Processes/word_count.c:49-66 | the first entry for a word is counted up where it is; failing one, a new entry goes to the front of the one list, to the back of the other |
| Words.ListingOfTotals | Lists,_Threads,_and_Processes/word_count_l.c:82-85 | two lists that agree on every word's count are sorted into the same list, however they were built |
| Words.SortedIsListing | Lists,_Threads,_and_Processes/word_count.c:93-105 | whatever sorts a list by less_count arrives at the same list |
| WordText.WordsOfArePlaces | Lists,_Threads,_and_Processes/word_helpers.c:36-90 | a word of two letters or more is counted once for each place where it is spelt, each letter as itself or as the capital 32 below it, with no letter on either side; nothing else is counted |
| WordText.LowerIsSpelt | Lists,_Threads,_and_Processes/word_helpers.c:57 | the lower-cased run spells the letters of the text position by position |
| WordText.WordsOfNumber | Lists,_Threads,_and_Processes/word_helpers.c:78-90 | as many words are counted as there are positions where a run of two letters or more begins |
| WordText.WordsOfLower | Lists,_Threads,_and_Processes/word_helpers.c:56-57 | every word counted is lower-case and has at least two letters |
| WordText.Put | Lists,_Threads,_and_Processes/word_helpers.c:57-69 | a character goes behind those in the buffer, which is doubled when full, so that there is always room for one more |
| WordText.Accumulate | Lists,_Threads,_and_Processes/word_helpers.c:49-75 | the growing buffer collects exactly the letters of the run, capitals as the small letters 32 above them, up to the first character that is not a letter, and its terminator always fits |
| WordText.GetWord | Lists,_Threads,_and_Processes/word_helpers.c:36-76 | get_word returns the next run, and length 0 exactly at the end of the stream |
| Placing.PlaceSorted | Lists,_Threads,_and_Processes/word_count.c:75-91 | the place wordcount_insert_ordered finds keeps a sorted list sorted, although ties fall on either side |
| Placing.PlaceSortCorrect | Lists,_Threads,_and_Processes/word_count.c:93-105 | the sort gives a sorted permutation for every strict weak order |
| Placing.TieIsHead | Lists,_Threads,_and_Processes/word_count.c:83-90 | the search passes over an element that ties with the new one only if it heads the list |
| Placing.PlaceSortStable | Lists,_Threads,_and_Processes/word_count.c:75-105 | the sort of distinct nodes is stable if and only if every element that ties with an earlier one is below all the other earlier ones |
| Placing.PlaceSortUnstable | Lists,_Threads,_and_Processes/word_count.c:79-90 | two ties after an element that is not above them are turned round, whether it ties with them or is below them |
| WordCountList.UnstableExample | Lists,_Threads,_and_Processes/word_count.c:93-105 | three concrete entries of a word list, compared by count alone, come out unstably sorted |
| WordCountList.InsertOrdered | Lists,_Threads,_and_Processes/word_count.c:75-91 | the node is linked in at that place and no other link changes |
| WordCountList.SortChain | Lists,_Threads,_and_Processes/word_count.c:93-105 | the loop relinks the same nodes into exactly the order that placing them one by one gives, ties included |
| WordCountList.WordList.FindWord | Lists,_Threads,_and_Processes/word_count.c:40-47 | returns the first node with the word, or null |
| WordCountList.WordList.AddWord | Lists,_Threads,_and_Processes/word_count.c:49-66 | counts the word, a new one at the front |
| WordCountList.WordList.CountWords | Lists,_Threads,_and_Processes/word_helpers.c:78-90 | adds every word of the stream in turn |
| WordCountList.KeysPlaceSort | Lists,_Threads,_and_Processes/word_count.c:93-105 | sorting nodes and sorting the entries they hold is the same |
| WordCountList.WordList.Sort | Lists,_Threads,_and_Processes/word_count.c:93-105 | the same nodes with the same contents, in exactly the order that placing their entries one by one gives, for any less |
| WordListPintos.WordList.FindWord | Lists,_Threads,_and_Processes/word_count_l.c:38-47 | returns the first element whose word matches, or NULL |
| WordListPintos.WordList.AddWordWithCount | Lists,_Threads,_and_Processes/word_count_l.c:49-65 | adds the count, a new word at the back; with count 1 the locked add_word of the threaded list |
| WordListPintos.WordList.CountWords | Lists,_Threads,_and_Processes/word_helpers.c:78-90 | adds every word of the stream in turn |
| WordListPintos.WordList.Sort | Lists,_Threads,_and_Processes/word_count_l.c:76-85 | list_sort through the embedding structure keeps the entries and leaves none less than an earlier one |
| WordPrint.DecLength | Lists,_Threads,_and_Processes/word_count_l.c:72 | a number fits k columns if and only if it is below 10^k |
| WordPrint.DecIsDecimal | Lists,_Threads,_and_Processes/word_count_l.c:72 | the digits printed are those of the number, one for each power of ten, without a leading zero |
| WordPrint.PrintedText | Lists,_Threads,_and_Processes/word_count.c:68-73 | a text is printed for a list if and only if it consists of one line for each entry in order: blanks that fill eight columns together with sign and numeral, numeral, tab, word, newline |
| WordPrint.PrintedShort | Lists,_Threads,_and_Processes/word_count_l.c:72 | a count of at most eight digits takes exactly the first eight characters of its line, blanks and then digits |
| WordPrint.PrintedLong | Lists,_Threads,_and_Processes/word_count_l.c:72 | a longer count takes as many characters as it has digits, without blanks |
| WordPrint.ScanShort | Lists,_Threads,_and_Processes/fwords.c:44 | a line whose count is below 100000000 is scanned back to its count and word |
| WordPrint.ScanNegative | Lists,_Threads,_and_Processes/fwords.c:44 | so is a line whose count is negative and above -10000000, the sign taking a column |
| WordPrint.ScanLong | Lists,_Threads,_and_Processes/fwords.c:44 | a longer count is cut after eight digits and its remaining digits are taken for the word |
| WordPrint.MergeMiscounts | Lists,_Threads,_and_Processes/fwords.c:40-52 | with a count that is too long merging stops early and some word of digits gains a count, though nothing counted before is lost |
| WordPrint.PrintMergeRoundTrip | Lists,_Threads,_and_Processes/fwords.c:40-52 | printing a list and merging the text adds every count to the accumulator if and only if every count is below 100000000 |
| WordReport.ReportUnique | Lists,_Threads,_and_Processes/words.c:59-62 | files have one report: the text, laid out line by line, of every word once with its number of occurrences, fewer occurrences first and in dictionary order among equals; programs that print a report agree |
| WordReport.AddAllFrontCounts | Lists,_Threads,_and_Processes/word_helpers.c:78-90 | adding a stream of words raises each word's count by its number of occurrences in the stream |
| WordReport.FileSum | Lists,_Threads,_and_Processes/word_helpers.c:78-90 | counting a file raises the sum of all counts by its number of alphabetic runs of two letters or more, in either kind of list |
| WordReport.StepBalanced | Lists,_Threads,_and_Processes/word_count_p.c:55-68 | one locked add_word by any thread keeps counted plus waiting words equal to the files |
| WordReport.ThreadsCount | Lists,_Threads,_and_Processes/pwords.c:58-85 | in every interleaving of any number of threads that balance holds at any moment, the run is over after exactly as many steps as words, and then the list counts the files |
| WordReport.ScheduleIndependence | Lists,_Threads,_and_Processes/pwords.c:58-85 | any two complete schedules end with the same sorted list |
| WordReport.MergedRight | Lists,_Threads,_and_Processes/fwords.c:68-100 | merging all children's texts counts the files when no count is too long |
| WordReport.FwordsReports | Lists,_Threads,_and_Processes/fwords.c:94-104 | the printed text is the report if and only if no word occurs 100000000 times or more in any one file |
| WordReport.TimesCount | Lists,_Threads,_and_Processes/word_helpers.c:36-90 | a text of n copies of one word counts it n times |
| WordReport.FwordsFails | Lists,_Threads,_and_Processes/fwords.c:40-52 | on such a text with n of 100000000 or more, whatever sorts the merged list, the printed text is not the report |
| WordReport.FwordsFailsSomewhere | Lists,_Threads,_and_Processes/fwords.c:94-104 | such files exist |
| WordPrograms.FprintWords | Lists,_Threads,_and_Processes/word_count.c:68-73 | prints one line for each entry, in order, in the layout described, whatever the list holds |
| WordPrograms.FprintWordsPintos | Lists,_Threads,_and_Processes/word_count_l.c:67-74 | prints one line for each entry, in order, in the layout described, whatever the list holds |
| WordPrograms.MergeCounts | Lists,_Threads,_and_Processes/fwords.c:40-52 | adds entries until a scan does not match both fields, and tells whether that was at the end of the stream |
| WordPrograms.RunWords | Lists,_Threads,_and_Processes/words.c:38-63 | words prints the report of its files |
| WordPrograms.RunLwords | Lists,_Threads,_and_Processes/words.c:38-63 | lwords (the same main on the Pintos list) prints the report of its files |
| WordPrograms.RunThreads | Lists,_Threads,_and_Processes/pwords.c:40-44 | threads taking turns in any order on one linked list terminate with the list counting the files |
| WordPrograms.RunPwords | Lists,_Threads,_and_Processes/pwords.c:49-87 | pwords prints the report of its files under every schedule |
| WordPrograms.RunFwords | Lists,_Threads,_and_Processes/fwords.c:57-106 | fwords prints the report of its files if and only if no word occurs 100000000 times or more in any one of them |
| Tokenizer.TokenizeLine | Shell/tokenizer.c:25-90 | the loop over its 4096-character buffer never writes outside it and computes the functional tokenizer, aborting where it does |
| Tokenizer.Tokenize | Shell/tokenizer.c:20-91 | a NULL line gives NULL, any other line the outcome of the loop |
| Tokenizer.TokenizeExactly | Shell/tokenizer.c:82 | tokenize aborts if and only if some word of the line has 4095 characters or more, and otherwise returns the words of the line |
| Tokenizer.WordsConcat | Shell/tokenizer.c:41-88 | the words of a + blank + b are those of a and those of b, when a closes its quotes and does not end in a dangling backslash |
| Tokenizer.TokenizeConcat | Shell/tokenizer.c:41-90 | the same for tokenize, which aborts if and only if it aborts on a or on b |
| Tokenizer.LastBackslash | Shell/tokenizer.c:48-51 | a backslash at the very end of a line is ignored |
| Tokenizer.Between | Shell/tokenizer.c:43-60 | between two letters exactly the six blanks of the C locale part words, quotes and a backslash disappear, and any other character joins |
| Tokenizer.EscapeSpells | Shell/tokenizer.c:48-51 | a backslash before every character writes any word, wherever it stands in a line |
| Tokenizer.QuoteSpells | Shell/tokenizer.c:61-81 | so do quotes of either kind around it, with a backslash before that quote and backslashes only |
| Tokenizer.PlainSpells | Shell/tokenizer.c:58-60 | characters other than quotes, backslashes and white space stand for themselves |
| Tokenizer.SpellsConcat | Shell/tokenizer.c:41-83 | spellings written one after another spell one word |
| Tokenizer.SpellingsTokenize | Shell/tokenizer.c:20-91 | nonempty words, each written in any such way and joined by blanks, are tokenized back if and only if each has at most 4094 characters, and otherwise tokenize aborts |
| Tokenizer.PartsRoundTrip | Shell/tokenizer.c:20-91 | words written partly bare, partly escaped and partly in quotes of either kind are tokenized back if and only if each has at most 4094 characters |
| Tokenizer.EscapedRoundTrip | Shell/tokenizer.c:20-91 | tokenize is a left inverse of escaping |
| Counter.StepKeepsInv | Shell/threads.c:36-43 | every step keeps: thread counts sum to the counter, counter plus threads past the test is at most limit + threads - 1, nobody leaves early |
| Counter.OwnCounts | Shell/threads.c:41-42 | each thread's count is the number of locked increments that thread made itself |
| Counter.CountsAndOvershoot | Shell/threads.c:33-47 | so in every interleaving, and at the end the counter is between limit and limit + threads - 1; the number of steps follows from the state and is bounded, so every run ends |
| Counter.FinalValues | Shell/threads.c:33-47 | the values the counter can end with are exactly those |

## Left out

- The Visual Studio variants of the utlist.h macros: the same algorithms with compiler workarounds.
- list_min, list_max, list_size, the accessors of list.c, tokens_get_token, len_words and less_word: easy members.
- UtList.Sort: sorts nodes whose payload does not change; the DECLTYPE casts of the macros are not modelled.
- UtList.DlDelete: the deleted node's own stale links are not described.
- PintosList.Sort: the ASSERT calls of is_sorted inside inplace_merge are not counted as comparisons.
- The spin-lock and unchecked spooler front ends, and liveness of the spinning spooler: they need scheduler fairness.
- SpoolerProgress.OneCvNoDeadlock: says that some thread can step, not that every run ends; OneCvUnbounded shows that it need not, and an end needs fairness.
- SpoolerProgress.TwoCvTotalCorrectness: bounds runs without spurious wake-ups; with them no bound exists, as SpuriousUnbounded shows.
- Spooler.EveryRunIsFifo: threads are a step relation with one step for each critical section; reads of shutdown outside the lock are taken as atomic, and thread creation and joining as the conditions under which main may step.
- WorkQueue.Queue.TryPop: one pass of the waiting loop; the waiting itself is in the step relation.
- WordPrograms.RunPwords: a turn is one iteration of count_words, which is sound because a thread reads only its own stream and add_word holds the lock; thread creation failures are not modelled.
- WordPrograms.RunFwords: fork, pipes, exit codes and file descriptors (including the closing of a descriptor computed as fd+1) are not modelled; each child's text reaches the parent whole. With standard input the program counts directly, as RunLwords does on one file.
- WordPrograms.RunWords: files are given as their text; errors of fopen are not modelled.
- Tokenizer.Tokenize: a line holds no null character, as a C string.
- Counter.StepKeepsInv: the unlocked read of global_count is taken as atomic.
- Memory: malloc and realloc failure, free, and use after free are not modelled.
- Integers are mathematical: overflow of counts, sizes and the block size of the sorts is not modelled.
- Characters are those of the C locale; other locales are not modelled.
- The HTTP server, its request parsing, shell.c and the test programs.
