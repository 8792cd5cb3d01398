# Verified models of the ad search service and its test bench

The repository holds an advertising search service of two nodes (`code/alimama`) and a bench that
loads and measures it (`testbench`). This project models the parts whose correctness is not evident
from one function body, and proves what they promise, for all inputs, runs and interleavings.

**Sharded top-N search.** Both nodes read one data file. A node keeps the rows whose keyword modulo
2 is its number, sorts them by keyword and indexes the runs of equal keywords. For a request it
scans the runs of the requested keywords, keeps the best offer of every adgroup, sorts, and cuts to
topn + 1 entries. Node 0 sends the odd keywords to node 1 and merges the two lists, again removing
duplicate adgroups, which may occur on both nodes. Every ad shown pays what keeps its score at its
successor's. The reference is `Ranking.Ranked`: from all offers pick the one that comes before all
others, drop its adgroup, repeat; `Ranking.RankingMeans` says in plain terms what that is, and
`PrintedFile.AnswersForAds` goes from the text of a data file to the answer. The main results: the
deployed pair answers every request (ids and bills) like one server that holds all rows
(`TwoNodes.ShardedLikeWhole`); that remains so for any number of concurrent searches in every order
of events, with node 0's own answer exactly for those whose remote call fails
(`Handshake.ConcurrentAnswersExact`, `Handshake.AnswerSeenLikeWhole`), and every such run comes to
an end in which every search has its answer (`Handshake.RunBounded`, `Handshake.AllSettled`); and no
ad pays above its bid (`TwoNodes.BillsWithinBids`).

**Reading CSV.** The line reader slides a window over a three-block buffer whose third block a
worker thread fills ahead. Its reference is `LineSplit.Lines`, which splits a text without any
buffer; `LineReading.ReadAll` shows that they agree for every input and block length, up to the
first line that is too long. The worker is modelled step by step in `Prefetch`, together with the
window positions that decide when the caller waits for it, and with reads that fail. Columns are
found, trimmed and unescaped in place (`CsvColumns`), and numbers are read with exact overflow tests
(`CsvNumbers`, `CsvFloats`).

**Queue and rate search.** The bounded queue between benchmark threads is modelled in every
interleaving (`ConcurrentQueue`), and the coarse-to-fine search for the highest sustained request
rate over an abstract oracle (`MaxQps`).

The modules follow the source: objects whose methods update fields are classes (`SearchServiceImpl`,
`LineReader`, `AsynchronousReader`), buffers that are edited in place are arrays, loops are loops.
Threads are state machines: one step is what a thread does without letting another in.

## What the code does not keep

- The documentation calls keywords unsigned 64-bit numbers (`Readme.md:56`), but the field is
  signed. Rows with an odd keyword from 2^63 on get the remainder -1, and neither node loads them.
  `Shards.ShardsPartition` gives the exact condition under which nothing is lost,
  `Shards.UnsignedKeyword` says which documented keywords violate it, and `Shards.LostRow` is such
  a row.
- The same documentation line puts the status column before the price; the code and the sample rows
  have the price first. The model follows the code.
- `ConcurrentQueue::Close` sets its flag and notifies without the mutex. "Nothing enters or leaves
  after Close" is therefore false (`ConcurrentQueue.LatePush`): an item can still move if and only
  if a thread holds the mutex and has already read the flag, and then one item at most
  (`ConcurrentQueue.LateMoveIff`). "Close wakes every blocked consumer" is false as well
  (`ConcurrentQueue.MissedClose`): a Close can leave a thread blocked if and only if at the call
  that thread holds the mutex, has found the queue empty (a producer: full) and does not sleep yet,
  which is true of one thread at most (`ConcurrentQueue.CloseMissesConsumerIff`,
  `ConcurrentQueue.CloseMissesProducerIff`).
- `TestMaxQps` is accurate not only if the baseline passes: `MaxQps.ReportedExactly` gives the
  condition under which it is, and what it reports otherwise. When no coarse rate fails, a success
  threshold of 0 makes it return an empty fine summary instead of the coarse one
  (`MaxQps.ReportedWithoutFailure`).

## Model

| member | source | states |
|---|---|---|
| Ranking.RankedIsRanking | code/alimama/alimama_search_service.cc:221-252 | The naive answer is sorted by score, price and id, and holds exactly one offer of every adgroup, the best one |
| Ranking.RankingMeans | code/alimama/alimama_search_service.cc:221-252 | A list is a ranking if and only if scores fall, at equal score prices rise, at equal price ids fall, no adgroup occurs twice, and each entry is its adgroup's highest score and, at that, lowest price |
| Ranking.RankingUnique | code/alimama/alimama_search_service.cc:239-252 | There is only one such list, so any correct sort of any correct deduplication gives it |
| Ranking.RankInShard | code/alimama/alimama_search_service.cc:253-255 | An offer among the first j + 1 overall is among the first j + 1 of its shard |
| Ranking.SubRanking | code/alimama/alimama_search_service.cc:309-328 | The ranking of some of the offers that include the overall first n starts with these n |
| Ranking.CutsSuffice | code/alimama/alimama_search_service.cc:253-255 | Cutting each shard to topn + 1 entries loses nothing that the cut overall ranking needs |
| Ranking.MergeOfCutsExact | code/alimama/alimama_search_service.cc:186-329 | Distributed top-N is exact for all offers on two shards and every topn, also when an adgroup is on both |
| SearchResults.InsertResult | code/alimama/alimama_search_service.cc:295-307 | One insertion keeps the best offer of every adgroup seen, the bijection between ids and slots, and score = rate * price; whether it overwrites |
| SearchResults.MergeResult | code/alimama/alimama_search_service.cc:276-329 | The merge holds the best offer of every adgroup of both lists; of lists in order it is in order and the overwrite branch never fires |
| SearchResults.HeadInOrder | code/alimama/alimama_search_service.cc:309-318 | The earlier head never improves on an entry already there and extends the results in order |
| SearchResults.TakeHead | code/alimama/alimama_search_service.cc:309-318 | Taking a head that the other does not come before keeps the merge invariant |
| SearchResults.Reordered | code/alimama/alimama_search_service.cc:239-252 | Any rearrangement of a deduplicated, well scored list is still both |
| Sorting.StdSort | code/alimama/alimama_search_service.cc:73-75 | A rearrangement in which nothing comes before an earlier element, for every strict weak order |
| Billing.AnswerOfCut | code/alimama/alimama_search_service.cc:350-362 | Ids and bills, and whether the last ad pays its own bid, depend only on the first topn + 1 entries |
| Billing.BillByRate | code/alimama/alimama_search_service.cc:351-354 | The bill computed with the stored rate is determined by the two offers alone |
| Billing.SecondPrice | code/alimama/alimama_search_service.cc:348-354 | 0 <= bill <= own price, and bill * rate is the successor's score to within half a rate, an exact half rounded up |
| Billing.BillIsFair | code/alimama/alimama_search_service.cc:348-354 | The same in terms of offers only |
| RowParser.WrapStep | code/alimama/utils.h:112-115 | Wrapping after each digit is the same as wrapping the whole number once, for every field width |
| RowParser.WrapLoses | code/alimama/utils.h:110-135 | Wrapping loses a multiple of the number of values of the field |
| RowParser.NumberField | code/alimama/utils.h:111-117 | The digit loop gives the decimal value modulo the field width and stops behind the following tabs |
| RowParser.FlagsField | code/alimama/utils.h:147-160 | The time-slot loop sets the bits and stops where the recursive reading of the flags does |
| RowParser.TimingsAndVector | code/alimama/utils.h:147-191 | Mask and both decimals of any text after the status, also when the line ends early |
| RowParser.ParserRawData | code/alimama/utils.h:107-193 | True if and only if the keyword is this node's and the status is not 0; then all fields are those of the line |
| RowPrinting.FlagsOfPrinted | code/alimama/utils.h:147-160 | Reading printed flags, with any text without 0 and 1 between them, consumes exactly them and sets bit k if and only if flag k is 1 |
| RowPrinting.PrintedRowRestored | code/alimama/utils.h:107-193 | Parsing a printed well-formed row, with any number of tabs between its columns, restores every field; it is on offer if and only if its status is not 0 |
| PrintedFile.TimelyPrinted | code/alimama/alimama_search_service.cc:211-212 | A row passes the hour filter if and only if its ad lists the hour as 1 |
| PrintedFile.KeyPrinted | code/alimama/alimama_search_service.cc:89-93 | A row is found under exactly the unsigned keyword of its ad |
| PrintedFile.KeepsPrinted | code/alimama/utils.h:119-142 | A node keeps an ad if and only if it is on offer and its keyword modulo the number of nodes is the node's id, except for odd keywords from 2^63 on |
| PrintedFile.RecalledOfPrinted | code/alimama/alimama_search_service.cc:196-235 | From the text of a data file, a request recalls exactly the offers of the ads that are on offer, have a requested keyword and may be shown at the hour |
| PrintedFile.UnroutablePrinted | code/alimama/utils.h:111-142 | The ads that neither node loads are those on offer with an odd keyword from 2^63 on |
| PrintedFile.AnswersForAds | code/alimama/alimama_search_service.cc:331-364 | From the text of a data file to the answer: two nodes and one server rank and bill exactly the best offers of the matching ads |
| Shards.TwoNodesHold | code/alimama/utils.h:119-142 | What one server would load is what node 0 loads, node 1 loads, and what gets lost |
| Shards.ShardsPartition | code/alimama/utils.h:119-142 | The nodes' rows partition the rows on offer, with multiplicity, if and only if no line on offer has a negative odd keyword |
| Shards.LoadedAreMine | code/alimama/alimama_search_service.cc:124-130 | Every loaded row has a keyword of the node that loaded it |
| Shards.UnsignedKeyword | code/alimama/utils.h:111-120 | Of the unsigned 64-bit keywords, exactly the odd ones from 2^63 on are loaded by no node |
| Shards.LostRow | code/alimama/utils.h:111-120 | A row on offer that a single server loads and neither node does |
| KeywordIndex.LookupIsScan | code/alimama/alimama_search_service.cc:202-209 | Position i is in the interval of k if and only if row i has keyword k |
| KeywordIndex.IntervalsPartition | code/alimama/alimama_search_service.cc:86-93 | Every position lies in exactly one interval |
| KeywordIndex.CloseRun | code/alimama/alimama_search_service.cc:87-93 | Closing a run extends the index of the rows before it to those up to its end |
| Recall.ScanOfRun | code/alimama/alimama_search_service.cc:204-213 | Scanning the run of one more keyword recalls exactly what the keyword adds to a full scan |
| Recall.RecallUnion | code/alimama/alimama_search_service.cc:196-235 | What is recalled from rows dealt to two nodes is the union of what each recalls |
| SearchService.KeyOnNode | code/alimama/alimama_search_service.cc:200-201 | The unsigned test on request keywords agrees with the signed test at loading, also for negative keywords |
| SearchService.SearchServiceImpl.LoadCsvData | code/alimama/alimama_search_service.cc:111-134 | The array holds the rows kept of the file, in file order |
| SearchService.SearchServiceImpl.SortRows | code/alimama/alimama_search_service.cc:73-75 | The used part is rearranged in order of keyword; the unused part is unchanged |
| SearchService.SearchServiceImpl.BuildIndex | code/alimama/alimama_search_service.cc:85-93 | The index agrees with a full scan; an empty load leaves only the interval (0, -1) |
| SearchService.SearchServiceImpl.Init | code/alimama/alimama_search_service.cc:59-109 | After loading, the rows are those of the file's shard, grouped and indexed |
| SearchService.SearchServiceImpl.ScanRun | code/alimama/alimama_search_service.cc:207-234 | Scanning a run adds exactly the offers of its timely rows to the deduplicated results |
| SearchService.SearchServiceImpl.NoRowHere | code/alimama/alimama_search_service.cc:200-203 | A keyword that is skipped has no row on this node |
| SearchService.SearchServiceImpl.SearchTopNByKeyword | code/alimama/alimama_search_service.cc:186-258 | The results are the ranking of a full scan, cut to min(length, topn + 1) entries, whatever the order and repetition of keywords |
| SearchService.SearchServiceImpl.InternalSearch | code/alimama/alimama_search_service.cc:260-274 | The reply, read back by the client, is that ranking, of that length |
| SearchService.SearchServiceImpl.Search | code/alimama/alimama_search_service.cc:331-364 | The response is the billed ranking of the node's own cut list together with whatever arrived |
| SearchService.BillResults | code/alimama/alimama_search_service.cc:350-354 | The billing loop gives each of the first topn entries its bill and changes nothing else of them |
| SearchService.ReplyReceived | code/alimama/search_service_client.h:96-101 | Sending results column by column and reading them back restores all but the bills |
| SearchService.SortedIsRanked | code/alimama/alimama_search_service.cc:239-252 | Sorting the deduplicated results gives the naive answer itself |
| TwoNodes.NewRequest | code/alimama/search_service_client.h:67-81 | Node 1 is asked for the odd keywords in order, with the same context, hour and topn |
| TwoNodes.OddRowsOnly | code/alimama/search_service_client.h:68-76 | Node 1 recalls for its part of the request what it would for all of it; nothing if it is not asked |
| TwoNodes.ExactAnswer | code/alimama/alimama_search_service.cc:342-363 | Billing the merge of the cut lists is billing the ranking of all offers |
| TwoNodes.Search | code/alimama/alimama_search_service.cc:331-364 | With the reply, the answer for both nodes' rows; without it, that for node 0's rows alone |
| TwoNodes.Deploy | code/alimama/alimama_search_service.cc:59-109 | From one file, two valid nodes that hold its two shards |
| TwoNodes.SearchAlone | code/alimama/alimama_search_service.cc:331-364 | One server with nothing to merge answers with the billed naive ranking |
| TwoNodes.ShardedLikeWhole | code/alimama/alimama_search_service.cc:331-364 | Two nodes and one server, loaded from the same file, give the same ids and bills to every request |
| TwoNodes.BillsWithinBids | code/alimama/alimama_search_service.cc:348-354 | For all data and requests the first min(length, topn) ads are shown in order, no bill exceeds the bid, and each is the fair second price; the last ad of all pays its own bid |
| Handshake.StepKeepsInv | code/alimama/search_service_client.h:44-102 | Every step of the searches, the network and the background thread keeps the invariant of all records |
| Handshake.RunInv | code/alimama/search_service_client.h:44-102 | The invariant holds throughout every run |
| Handshake.WaitSeesReply | code/alimama/utils.h:251-278 | A record is finished or cancelled at most once and never both; a returned wait sees the full reply to its own request, or nothing |
| Handshake.BackgroundGoesOn | code/alimama/search_service_client.h:49-61 | The background thread always has a next step while a call is completed or being handled |
| Handshake.NobodyForgotten | code/alimama/utils.h:251-278 | A blocked wait has its call under way, and if its flag is set a notification is pending |
| Handshake.StepWorks | code/alimama/search_service_client.h:44-102 | Every step of any thread but a spurious wakeup brings the searches closer to their end |
| Handshake.RunBounded | code/alimama/search_service_client.h:44-102 | A run has no more steps than the searches' work to begin with, plus two for each spurious wakeup |
| Handshake.AllSettled | code/alimama/utils.h:251-278 | When only spurious wakeups are left, every wait has returned and every record was finished or cancelled exactly once |
| Handshake.SeenResults | code/alimama/search_service_client.h:91-102 | What a returned wait has seen is node 1's cut ranking in order and well scored, or nothing if the call failed |
| Handshake.AnswerSeen | code/alimama/alimama_search_service.cc:340-363 | Node 0's merging, billing and filling with what such a wait has seen give that answer |
| Handshake.AnswerSeenLikeWhole | code/alimama/alimama_search_service.cc:331-364 | In every such run over the two shards of one file, the answer is that of one server with the whole file, unless the search's own call failed |
| Handshake.NodeOneExists | code/alimama/alimama_search_service.cc:260-274 | For any rows of node 1 there are replies, well scored and with the cut ranking, to all requests |
| Handshake.ConcurrentAnswersExact | code/alimama/alimama_search_service.cc:331-364 | In every run each search answers for both nodes' rows, or for node 0's alone if its own call failed |
| LineSplit.LinesOfJoined | testbench/src/csv.h:444-467 | Splitting undoes joining with "\n" or "\r\n", with or without an unterminated last line |
| LineSplit.RawLinesOfJoined | testbench/src/csv.h:444-467 | The raw lines of a joined text are its lines, each with its "\r" if there is one |
| LineSplit.BomDropped | testbench/src/csv.h:328-331 | A byte order mark is dropped if there is one, and nothing else |
| LineReading.ReadWritten | testbench/src/csv.h:321-472 | Lines that were written with "\n" or "\r\n", with or without a byte order mark and an unterminated last line, come back, up to the first of block_len or more characters |
| LineReading.ByteSource.Read | testbench/src/csv.h:171-179 | Fewer bytes than asked only at the end; the bytes read move from the source into the buffer |
| LineReading.AsynchronousReader.WorkerRead | testbench/src/csv.h:203-215 | One round of the worker: the read, the handed-over count, and exit after no bytes |
| LineReading.AsynchronousReader.StartRead | testbench/src/csv.h:221-227 | Whether or not the worker runs at once, no byte is lost and only the requested block changes |
| LineReading.AsynchronousReader.FinishRead | testbench/src/csv.h:229-237 | Returns the next block of the source; called only when the worker has read or is there to read |
| LineReading.LineReader.constructor | testbench/src/csv.h:321-337 | The rest to be returned is the whole input without a byte order mark |
| LineReading.LineReader.ReadFirstBlocks | testbench/src/csv.h:324-331 | The window is the start of the input without a byte order mark, cut short only at the end of the input |
| LineReading.LineReader.SlideWindow | testbench/src/csv.h:432-442 | Moving the window and refilling it changes nothing of what is still to be returned |
| LineReading.LineReader.Refill | testbench/src/csv.h:436-441 | The block read ahead is appended to the window exactly, and the next is requested |
| LineReading.BlockTaken | testbench/src/csv.h:438-439 | After the copy the window continues with the block read ahead |
| LineReading.LineEndFound | testbench/src/csv.h:444-447 | The scan of the window finds the first line of the whole rest if the window reaches its end |
| LineReading.LineTerminated | testbench/src/csv.h:456-467 | The C string at the start of the line is the line without one trailing "\r" |
| LineReading.LineReader.CutLine | testbench/src/csv.h:456-470 | Ends the line in place, consumes it and its newline, and never writes into the third block |
| LineReading.LineReader.NextLine | testbench/src/csv.h:423-472 | Returns the first line of the rest and keeps what follows; throws if and only if it has block_len or more characters; none only at the end |
| LineReading.ReadAll | testbench/src/csv.h:423-472 | Repeated next_line gives the lines of the simple splitter, for every input and block length, up to the first line that is too long |
| Prefetch.WindowKept | testbench/src/csv.h:423-472 | Every step keeps the window within the first two blocks, and after a read of nothing no line begins in the second |
| Prefetch.ReachKept | testbench/src/csv.h:432-442 | Every step keeps the window's end where the bytes handed over end |
| Prefetch.SyncReadIs | testbench/src/csv.h:267-286 | The k-th synchronous read returns the k-th block of the input |
| Prefetch.StepKeepsInv | testbench/src/csv.h:189-265 | Every step of the caller and the worker keeps the protocol's invariant, also when a read fails |
| Prefetch.RunInv | testbench/src/csv.h:189-265 | The invariant holds in every interleaving |
| Prefetch.PrefetchRefinesSync | testbench/src/csv.h:189-286 | The k-th finish_read returns what the k-th synchronous read would, the k-th block of the input; the window reaches over all of it; the third block is never written while copied; the copy is exact; after a read of nothing next_line never waits again |
| Prefetch.NoDeadlock | testbench/src/csv.h:229-248 | A waiting caller is never left with an exited or sleeping worker and nothing to wake it; the exception of a failed read is thrown to it |
| Prefetch.WaitEnds | testbench/src/csv.h:229-237 | In every run a wait lasts at most block_len + 5 steps, and two more for each spurious wakeup |
| CsvColumns.CollapseDoubled | testbench/src/csv.h:743-749 | Collapsing pairs of quotes undoes doubling every quote |
| CsvColumns.InsideDoubled | testbench/src/csv.h:724-732 | The scan from inside a quoted field comes out right behind its closing quote |
| CsvColumns.CookCell | testbench/src/csv.h:654-755 | Trimming and unescaping a field written quoted or plain, with characters to be trimmed around it, gives it back |
| CsvColumns.OutsideCell | testbench/src/csv.h:719-735 | The scan from the start of such a field ends where the field does |
| CsvColumns.ColumnsOfRow | testbench/src/csv.h:804-822 | The columns of a written row, from any position on, are its remaining fields; a wrong number of columns is an error |
| CsvColumns.RowRestored | testbench/src/csv.h:654-822 | Fields written quoted (section 2 of RFC 4180) or plain, padded, and joined, come back from splitting, trimming and unescaping; one column too few or too many is the right error |
| CsvColumns.OpenRowThrows | testbench/src/csv.h:726-729 | A quote that stays open is an error when its column is reached |
| CsvColumns.FindNextColumnEnd | testbench/src/csv.h:719-735 | Finds the separator or end outside of quotes, or that a quote stays open |
| CsvColumns.Trim | testbench/src/csv.h:655-662 | Everything dropped at either end is a trim character, what is left begins and ends with none, and the only write is the new end |
| CsvColumns.Compact | testbench/src/csv.h:742-750 | In-place unescaping never overtakes its read position and leaves the collapsed text |
| CsvColumns.UnescapeColumn | testbench/src/csv.h:737-754 | The column's text becomes its unescaped text; nothing outside the column changes |
| CsvColumns.ChopNextColumn | testbench/src/csv.h:787-802 | Cuts at the column end and says where the next column starts, if any; one write at most |
| CsvColumns.CookColumn | testbench/src/csv.h:813-817 | Trimming and unescaping leave a C string with the column's meaning, within the column |
| CsvColumns.ParseColumn | testbench/src/csv.h:807-818 | One column is cut and cooked; later and earlier columns are untouched |
| CsvColumns.ParseLine | testbench/src/csv.h:804-822 | The row points to the texts of the columns in the given order, or the right error is thrown: too few, too many, quote not closed |
| CsvColumns.ParseWrittenRow | testbench/src/csv.h:804-822 | Parsing a written row where it stands leaves, in any column order, pointers to C strings that are the original fields |
| Decimals.ValueGrows | testbench/src/csv.h:894-905 | More digits never make the number smaller, so stopping at the first overflow is right |
| Decimals.FractionMeans | testbench/src/csv.h:980-988 | The digits after the point are the number they spell divided by ten to their number |
| Decimals.ValueOfDigits | code/alimama/utils.h:112-115 | Reading the decimal numeral of n gives n |
| CsvNumbers.StopsAt | testbench/src/csv.h:897-900 | Where the overflow test fires, the longest fitting prefix ends and the whole number does not fit |
| CsvNumbers.ParseUnsignedInteger | testbench/src/csv.h:891-906 | Value, overflow by policy, or no_digit, for every width, without wrap-around on the way |
| CsvNumbers.ParseNegativeInteger | testbench/src/csv.h:926-942 | The same downwards, with division that truncates towards zero |
| CsvNumbers.ParseSignedInteger | testbench/src/csv.h:924-946 | The same with an optional sign |
| CsvNumbers.ExactIffFits | testbench/src/csv.h:757-784 | On digits the result is the mathematical value if it fits the type, and otherwise what the policy says: an error, the limit, or the longest prefix that fits |
| CsvNumbers.SignedExactIffFits | testbench/src/csv.h:924-946 | The same behind a minus, a plus or no sign |
| CsvNumbers.StrayCharacter | testbench/src/csv.h:902-903 | A character that is no digit, behind digits that fit, is no_digit |
| CsvFloats.PowSquare | testbench/src/csv.h:1007-1009 | Squaring the base halves the exponent |
| CsvFloats.MultiplyPower | testbench/src/csv.h:1006-1015 | The squaring loop ends and multiplies by exactly base^e |
| CsvFloats.ScaleInverse | testbench/src/csv.h:999-1004 | Scaling by 10^e and by its negative undo each other |
| CsvFloats.ScaleIsPowerOfTen | testbench/src/csv.h:997-1016 | The scale of exponent 0 is 1, and that of e + 1 is ten times that of e, for positive and negative e |
| CsvFloats.ExponentPrinted | testbench/src/csv.h:993-995 | Any exponent of digits with an optional sign is its value, clamped to the range of int |
| CsvFloats.StrayCharacterThrows | testbench/src/csv.h:1017-1020 | A character out of place behind a literal is no_digit |
| CsvFloats.MantissaPart | testbench/src/csv.h:966-989 | Sign, digits and decimals are read as integer + fraction |
| CsvFloats.FinishFloat | testbench/src/csv.h:991-1020 | The exponent, clamped to int, scales the number; any other rest is no_digit |
| CsvFloats.ParseFloat | testbench/src/csv.h:964-1024 | The result is sign * (integer + fraction) * 10^exponent, or no_digit |
| CsvFloats.LiteralRead | testbench/src/csv.h:964-1024 | Every decimal literal, with or without sign, fraction and exponent (itself with or without sign), is read as sign * (integer + fraction) * 10^exponent |
| ConcurrentQueue.CountUpdate | testbench/src/concurent_queue.h:27-67 | How one thread's move changes the number of threads on their way to help |
| ConcurrentQueue.StepKeepsInv | testbench/src/concurent_queue.h:27-74 | Every step of every thread keeps mutual exclusion, order and capacity, and before Close: beside a blocked consumer, items do not outnumber woken consumers plus pending notifications; beside a blocked producer, free slots do not outnumber woken producers |
| ConcurrentQueue.RunInv | testbench/src/concurent_queue.h:27-74 | All of that in every run: popped then queued is pushed, the capacity is kept, nobody pops from an empty queue, and no wakeup is lost before Close |
| ConcurrentQueue.RunServes | testbench/src/concurent_queue.h:27-74 | In every run each thread is where its last call can have taken it, in Push with the argument of that call |
| ConcurrentQueue.PushesArgument | testbench/src/concurent_queue.h:27-41 | What Push puts into the queue is its argument, however long it was blocked |
| ConcurrentQueue.TryPopNeverBlocks | testbench/src/concurent_queue.h:48-56 | A thread in TryPop never goes to sleep |
| ConcurrentQueue.BlocksOnlyThen | testbench/src/concurent_queue.h:29-60 | A producer about to block has found the queue full, a consumer has found it empty; an unbounded queue blocks no producer |
| ConcurrentQueue.NobodyForgotten | testbench/src/concurent_queue.h:29-66 | Before Close no consumer sleeps beside an item, and no producer beside a free slot, without a thread on its way |
| ConcurrentQueue.AfterClose | testbench/src/concurent_queue.h:36-73 | After Close, items moved plus items due to move stay the same in every run |
| ConcurrentQueue.DueMoves | testbench/src/concurent_queue.h:36-66 | A thread that has passed the test can always make its move |
| ConcurrentQueue.LateMoveIff | testbench/src/concurent_queue.h:36-73 | After Close an item can still move if and only if a thread holds the mutex and has passed the test, and never more than one |
| ConcurrentQueue.LatePush | testbench/src/concurent_queue.h:36-73 | A run in which an item enters after Close |
| ConcurrentQueue.MissedClose | testbench/src/concurent_queue.h:60-73 | A run in which a consumer stays blocked after Close has notified everyone |
| ConcurrentQueue.NobodySetsOutLater | testbench/src/concurent_queue.h:29-61 | In no run does a thread set out to sleep once the flag is set |
| ConcurrentQueue.BlockedConsumer | testbench/src/concurent_queue.h:60-73 | In every run, a consumer blocked after the notification was about to sleep, with the mutex, at the notification |
| ConcurrentQueue.BlockedProducer | testbench/src/concurent_queue.h:29-73 | The same for producers |
| ConcurrentQueue.CloseMissesConsumerIff | testbench/src/concurent_queue.h:60-73 | A Close can leave a consumer blocked if and only if, at the call, it holds the mutex between its test and its sleep |
| ConcurrentQueue.CloseMissesProducerIff | testbench/src/concurent_queue.h:29-73 | The same for producers |
| MaxQps.DoBatchBench | testbench/src/test_search_service.h:96-120 | The loop's limits, last passing rate and runs are those of trying the rates one after the other |
| MaxQps.TestMaxQps | testbench/src/test_search_service.h:92-137 | The reported rate and the number of runs are those of the coarse and the fine pass |
| MaxQps.PassMeans | testbench/src/test_search_service.h:98-118 | For any oracle: which rates a pass tries, which of them pass, where it ends and what it reports |
| MaxQps.PassFinds | testbench/src/test_search_service.h:98-118 | A pass ends right above the last rate that passes if a grid rate fails, and else past its maximum |
| MaxQps.PassOnGrid | testbench/src/test_search_service.h:98-118 | The last passing rate lies on the grid of the pass |
| MaxQps.ReportedAccurate | testbench/src/test_search_service.h:122-136 | If the baseline passes and a coarse rate fails, reported <= threshold < reported + fine step |
| MaxQps.ReportedExactly | testbench/src/test_search_service.h:122-136 | If a coarse rate fails, the report is accurate if and only if the baseline or the first fine rate passes; else nothing is reported |
| MaxQps.ReportedWithoutFailure | testbench/src/test_search_service.h:122-136 | If no coarse rate fails, the report is the largest coarse rate up to the upper limit, provided that the success threshold is positive; with a threshold of 0 nothing is reported |
| MaxQps.PassLength | testbench/src/test_search_service.h:98-118 | The runs of a pass, but one, fit into its range in whole steps |
| MaxQps.PassWidth | testbench/src/test_search_service.h:111-115 | A pass ends within one step of its maximum |
| MaxQps.ProbesBounded | testbench/src/test_search_service.h:92-137 | For every oracle the runs are at most the ranges divided by their steps plus two |

## Left out

- gRPC, etcd, sockets, environment variables, logging, clocks and sleeping: input and output only. The completion queue delivers every started call once, and its `ok` flag holds.
- The formula of the click-through rate: an abstract positive function of row and context. Its cosine plus a small constant is positive for the non-negative vectors of the data file.
- Floating-point rounding, NaN and infinities: scores, vectors and CSV floats are exact reals, and `std::round` is rounding of non-negative reals.
- The choice among equal rows made by `std::sort`: any choice is allowed, and the answers do not depend on it. The sort itself is an insertion sort behind the contract of `std::sort`.
- SearchService.SearchServiceImpl.Search: requires a match and a positive topn, because the source then indexes the entry before the first; the conversion of topn to `int` is not modelled.
- Hours from 32 on: the shift in the hour test is undefined there, so requests have an hour below 32.
- Numbers of nodes other than 1 and 2: the client asks one other node, so larger deployments do not exist.
- SearchService.SearchServiceImpl.Init: requires fewer rows than `total_data_num`, since the source has no check of its own; opening the file cannot fail.
- RowParser.ParserRawData: characters above 127 are read as positive codes, and overflow of the signed keyword is modelled as wrap-around, as compilers do; what a rejected line leaves in the unused row is not stated, because the next line overwrites it.
- Handshake.WaitSeesReply: records are never freed, and reading a flag without the mutex is an atomic glance. The source deletes a record after its wait, while the notification may still be under way.
- Handshake, Prefetch and ConcurrentQueue are state machines over values: the objects with their mutexes are not classes, as interleavings cannot be expressed by method contracts.
- ConcurrentQueue.NobodyForgotten: holds before Close only, as its converse after Close is false. `Empty` and the returned statuses are left out.
- LineReading.AsynchronousReader.StartRead: the worker runs at once or when its result is waited for, as a method cannot be interleaved; all schedules are in Prefetch, over the same window positions.
- LineReading.AsynchronousReader.WorkerRead: the byte source does not throw here; failed reads and their exceptions are in Prefetch.
- Prefetch: lines may end anywhere in the window, which allows more runs than any one text does; the first block and the copy of the second over it are in LineReading only.
- LineReading.LineReader.constructor: the block length is a parameter of at least 2; file names, opening of files and the other byte sources are left out.
- The rest of the CSV library (header matching, comments, `no_quote_escape`, single characters, error messages): easy members.
- CsvFloats.ParseFloat: excludes exponents of -2^31 and below, whose negation is undefined in the source.
- MaxQps.ReportedWithoutFailure: requires the baseline not to exceed the upper limit; otherwise no run is made at all (MaxQps.ProbesBounded).
- MaxQps.TestMaxQps: settings are whole numbers and a run is an oracle; the case that no client can be created, the summaries and the pauses are left out.
- Comparators, readers of test cases, the token bucket, the JSON settings and the percentiles of the benchmark.
