# rustinel-view: a model of the viewer's engine

rustinel-view reads the alerts and events of an endpoint sensor into Redis and shows them as a timeline. Its engine,
`internal/store`, writes records, keeps a decoded snapshot in memory, answers timeline queries over it, folds bursts,
counts rows into buckets, evaluates a small query language and draws the process tree around a PID. The timeline page
(`app.js`) keeps only the rows near the viewport in the document. This project models that logic in Dafny 4 and
states what it keeps, for all inputs, all states and all interleavings.

`dafny verify dfyconfig.toml` checks the whole project. Each module models one component:

| module | component |
|---|---|
| Bytes, Decimal | white space, ASCII lower case, `itoaq`, integer parsing |
| Glob | the `*` matcher |
| QueryAst, QueryLexer, QueryParser | syntax trees and their meaning, lexer, recursive-descent parser |
| QueryGrammar, QueryRoundTrip | the grammar the parser accepts, printing and parsing again |
| Records | alerts, events, rows |
| CollapseKey, CollapseSpec, CollapseOrder, Collapse, CollapseUnique, CollapseFields | burst keys, the segments that bursts stand for, the one-pass fold, what fixes its output, which two records fold |
| Timeline, TimelineFields, Paging, Density, DensityCounts | one page, which rows are shown, following the cursor, buckets, what they count |
| Scores, Store, StoreRecords, Batch | float64 scores in the sorted set, single writes, records read back, pipelined writes |
| Snapshot, SnapshotStore, SnapshotWritten, SnapshotRuns, SnapshotStale | the cache under interleaving: steps, the data, what has been written, runs, when a snapshot is stale |
| LineageIndex, LineageBits, LineageProfile, ProfileFields, LineageNode, LineageBfs, Lineage, LineageFields | PID index, the packed key, what the rows of a PID say, record by record, tree nodes, capped search, the stitched tree, what the texts of records put where |
| RowWindow, LiveRows, VirtualList | pixel arithmetic and the picture of a window, what patching makes of the live elements, the list |

Conventions. A string holds one byte per character. Times are integers, nanoseconds since 1970; a time that may be
missing is an `Option`. Code that changes state is a method or a class, proved against a function or predicate on
values; the theorems are about those.

## Where the code and its comments differ

The code is modelled as it is. In these places the project gives an input that breaks the comment and the exact
condition under which it holds.

- `CollapseRows` and `flushExpired` call their output time-ordered (`internal/store/collapse.go:27`, `:90-93`). It is
  exactly when no burst leaves before an older one that stays (`Collapse.CollapseRows`); the rows of
  `CollapseUnique.OvertakingExample` come out as file, alert, DNS and in no other order.
- `TimelineDensity` takes the first row as the earliest (`internal/store/query.go:302-340`). An index can be negative, a
  run-time panic: for a query exactly when there is a span and the first row selected lies a whole bucket before the
  first row shown (`Density.PanicExactly`). That needs folding and an overtaking burst (`Density.PanicNeedsOvertaking`),
  and the same three rows do it (`Density.FoldedRowsPanic`).
- Page cursors exclude the whole instant of the last row. Pages add up to the result exactly when no tie straddles a
  page boundary (`Paging.PagesComplete`), with garbage dropped exactly when all they skip is garbage
  (`Paging.PagesCompleteKept`); `Paging.TieExample` loses a row. A full page that ends at or before 1970 is returned for
  ever (`Paging.StuckForEver`, `Paging.StuckExample`).
- Writers invalidate before they write, so that "reads never observe stale data" (`internal/store/store.go:48-50`). A
  rebuild that scans before a write and publishes after the invalidation leaves a stale snapshot
  (`SnapshotRuns.StaleExample`). With no write under way, a snapshot is stale exactly when a write was under way between
  the scan and the publication of its rebuild (`SnapshotStale.SnapshotTells`), and a read that no write overlapped
  returns old data exactly when its rows come from such a rebuild (`SnapshotStale.ReadTells`). At startup no rebuild
  overlaps a write (`cmd/rustinel-view/main.go:89-112`).
- Alerts keep finer times than events, and the sorted set orders by float64 scores. Two alerts come back in time order
  exactly when the first written is not the later one or their scores differ (`Store.TwoAlertsSorted`), so two alerts a
  nanosecond apart can come back reversed (`Store.ReversedExample`); the timeline is in time order exactly when rows of
  one score are (`Store.RowsSorted`).
- A page has 500 rows by default and at most 5000 (`TimelineFields.LimitMeans`), not 200 and 1000 (`internal/store/types.go:207`);
  these apply exactly for limits from 1 to 1000 (`TimelineFields.LimitDiffers`). An event without a name for its id has
  its category in capitals for an action (`internal/store/types.go:149-150`) exactly if it is of one of the four
  categories; of any other it has none (`ProfileFields.OtherActions`).
- Edges of the process graph are told apart by a packed 64-bit key (`internal/store/lineage.go:121`). The child lists
  are complete exactly when no two edges share a key; PIDs below 2^32 never do (`LineageIndex.BuildIndex`,
  `LineageIndex.SmallPidsTell`); `LineageIndex.CollisionExample` loses a child.
- `ChildrenTruncated` is to record how many children were left out (`internal/store/lineage.go:19-22`). At the depth
  limit it counts all children, also those in the tree; it is the number left out exactly below the limit, or where all
  children are left out (`LineageBfs.CountsLeftOut`). So a view that holds every process can be called truncated
  (`Lineage.SpiralExample`, `Lineage.TruncatedExample`).
- Image, command line, process name and user of a node are to come from the event with the longest command line
  (`internal/store/lineage.go:251-255`). The command line does. The others do exactly when the last event with an image
  (without such an event, the first alert with one) has the same image, and the first rows that offer a name and a user
  offer the same ones (`LineageProfile.FromOneRow`, `LineageProfile.FromOneEvent`); in `LineageProfile.MixedExample` the
  image comes from another event.
- `itoaq` prints every 64-bit integer but the least (`Decimal.ItoaqDenotes`).
- Alerts and events are numbered apart (`Store.FirstNumbers`), but the page looks rows up by number alone. An arriving
  detail is drawn where the state says exactly when no other detail is live and no earlier row has that number
  (`VirtualList.VirtualList.DetailArrives`, `VirtualList.IdLeadsBack`); it is not in
  `VirtualList.WrongNumberExample` and `VirtualList.TwoAnswersExample`. Drawing the list again repairs it exactly when
  the open detail leaves the window or no other detail stays (`VirtualList.VirtualList.Render`), closing the detail
  always (`VirtualList.VirtualList.CloseDetail`).

## Model

| member | source | states |
|---|---|---|
| Decimal.WriteDigits | internal/store/qlang_schema.go:373-383 | the digit loop stays inside the 20-byte buffer and leaves the decimal numeral at its end |
| Decimal.Itoaq | internal/store/qlang_schema.go:368-389 | no index leaves the buffer; the text is the sign and numeral of every 64-bit integer, and a lone minus sign for the least, whose negation wraps round |
| Decimal.ItoaRoundTrip | internal/store/qlang_schema.go:366-389 | parsing the decimal numeral of a 64-bit integer returns the integer |
| Decimal.ItoaqDenotes | internal/store/qlang_schema.go:368-389 | the printed text parses back to the integer exactly when it is not the least one |
| Decimal.NineteenDigits | internal/store/qlang_schema.go:373-375 | a non-negative 64-bit integer has at most 19 digits, so 20 bytes hold it and a sign |
| Decimal.NegationWraps | internal/store/qlang_schema.go:375-378 | 64-bit negation is exact except on the least integer, which it leaves as it is |
| Decimal.ParseNumeral | internal/store/qlang_schema.go:366-389 | a sign and digits are parsed to the number they denote, or to the nearest 64-bit bound |
| Decimal.ParseOther | internal/store/qlang_schema.go:366-389 | any other text is an error of syntax, unless its first digits alone are too many for 64 bits |
| Bytes.TrimMeans | internal/store/qlang_parse.go:46 | ASCII blanks around a text are removed, and a text without them stays whole |
| Bytes.WideSpaces | internal/store/qlang_parse.go:46 | of the characters beyond ASCII exactly the white space of Unicode is removed |
| Bytes.FoldMeans | internal/store/qlang_eval.go:71 | texts are equal under folding exactly when they differ in the case of ASCII letters only |
| Glob.WildcardMatch | internal/store/qlang_eval.go:103-129 | the greedy leftmost matcher accepts a text exactly when the declarative glob relation holds, for any number of stars |
| Glob.LeftmostSuffices | internal/store/qlang_eval.go:115-122 | taking the leftmost occurrence of a middle part never loses a match |
| Glob.StarIsAfterStar | internal/store/qlang_eval.go:103-129 | matching after a star is finding the split parts in order, the last one at the end |
| Glob.FirstPart | internal/store/qlang_eval.go:108-114 | a pattern with a star matches exactly when its first part is a prefix and the rest is found after it |
| Glob.Index | internal/store/qlang_eval.go:117 | the leftmost place where a part occurs, or none |
| QueryAst.EvalQuery | internal/store/qlang_eval.go:10-37 | the short-circuiting evaluator computes the logical meaning of every tree on every row |
| QueryAst.EvalField | internal/store/qlang_eval.go:63-98 | the dispatch on operators computes equality, glob match or integer comparison; text that is no number satisfies no comparison |
| QueryAst.EvalBare | internal/store/qlang_eval.go:134-152 | free text matches exactly when it is empty or some field contains it, whatever the order of the fields |
| QueryAst.PidComparison | internal/store/qlang_schema.go:61-90 | a comparison term on the pid of an alert holds exactly as the integer comparison, if the pid is neither 0 nor the least integer and the text is a number |
| QueryAst.PresenceTest | internal/store/qlang_eval.go:39-58 | `field:*` means that the row has the field, its negation that it has not |
| QueryAst.PlainTerm | internal/store/qlang_eval.go:44-72 | a plain term: the row has the field, with that text but for case |
| QueryAst.NumberTerm | internal/store/qlang_eval.go:81-100 | a comparison: field and value are numbers and compare as the sign says, sign by sign |
| QueryAst.PrintedTerm | internal/store/qlang_eval.go:81-100 | printed numbers compare as the numbers they print, with blanks around the field or not |
| QueryAst.StarTerm | internal/store/qlang_eval.go:73-76 | a term with a star is a glob match, and the case of either side does not count |
| QueryAst.StarsMean | internal/store/qlang_eval.go:73-76 | a star behind, in front, or on both sides of a text: the field starts with it, ends with it, or has it in it, but for case |
| QueryAst.BareMeans | internal/store/qlang_eval.go:134-152 | free text: some field has it in it, but for case |
| QueryLexer.Tokenize | internal/store/qlang_parse.go:80-129 | the loop returns the tokens of the functional lexer with their byte positions |
| QueryLexer.NextToken | internal/store/qlang_parse.go:89-126 | one turn of the switch reads exactly the first token of the rest |
| QueryLexer.ReadQuoted | internal/store/qlang_parse.go:99-115 | a quoted string is read with its escapes; a missing closing quote is forgiven |
| QueryLexer.ReadWord | internal/store/qlang_parse.go:116-126 | a word ends at the first blank, tab, parenthesis, colon or quote |
| QueryLexer.LexRender | internal/store/qlang_parse.go:80-129 | lexing written tokens gives the same tokens back |
| QueryLexer.LexWords | internal/store/qlang_parse.go:116-126 | every word token is a word: not empty, no delimiter, no white space in front |
| QueryLexer.QuotedEscape | internal/store/qlang_parse.go:103-114 | reading an escaped text gives the text |
| QueryLexer.WhiteSpace | internal/store/qlang_parse.go:84-88 | which bytes between tokens are skipped, and no others |
| QueryLexer.WordToken | internal/store/qlang_parse.go:116-126 | a word of any bytes but the six delimiters is one token |
| QueryLexer.StringToken | internal/store/qlang_parse.go:99-115 | a quoted string is its text, with a closing quote or without |
| QueryLexer.QuotedBackslash | internal/store/qlang_parse.go:103-110 | a backslash stands for the byte after it, whatever that is, and at the end for itself |
| QueryLexer.Places | internal/store/qlang_parse.go:80-129 | every token is where its position says, and positions grow |
| QueryParser.Parser.Advance | internal/store/qlang_parse.go:145-151 | gives the current token and moves on unless at the end |
| QueryParser.Parser.DoOr | internal/store/qlang_parse.go:154-173 | the OR loop on the moving position agrees with the functional parser in result, error and position |
| QueryParser.Parser.DoAnd | internal/store/qlang_parse.go:184-207 | so does the AND loop, with its three ways to stop |
| QueryParser.Parser.DoUnary | internal/store/qlang_parse.go:218-229 | so does the NOT case |
| QueryParser.Parser.DoPrimary | internal/store/qlang_parse.go:232-283 | so do groups, fields, words and strings, with the error cases; the mutual recursion ends on all inputs |
| QueryParser.Parser.DoField | internal/store/qlang_parse.go:247-274 | so does `name:value`, with the comparison signs only on unquoted values |
| QueryParser.Parser.FindOp | internal/store/qlang_parse.go:262-268 | the loop finds the first of `>=`, `<=`, `>`, `<` that is in front |
| QueryParser.ParseQuery | internal/store/qlang_parse.go:45-59 | the whole: blank text is no query, left-over tokens are an error |
| QueryParser.OperatorWords | internal/store/qlang_parse.go:160 | which words are operators, letter by letter in any case; a quoted word never is |
| QueryParser.ErrorsAreTrue | internal/store/qlang_parse.go:232-283 | every error says something true of the token at its position: no operand, no closing parenthesis after an open one, no value after a colon, no number after a sign |
| QueryGrammar.MergeAndMeans | internal/store/qlang_parse.go:209-215 | extending a conjunction means the conjunction |
| QueryGrammar.MergeOrMeans | internal/store/qlang_parse.go:175-181 | extending a disjunction means the disjunction |
| QueryGrammar.FlattenMeans | internal/store/qlang_parse.go:154-229 | the flattened tree evaluates on every row like the left-associated binary tree |
| QueryGrammar.ParserIsGrammar | internal/store/qlang_parse.go:154-284 | the parser returns e for a token list exactly when a derivation of the grammar (AND tighter than OR, AND may be left out) yields these tokens and flattens to e |
| QueryGrammar.ParserMeansTree | internal/store/qlang_parse.go:154-284 | whatever derivation the tokens have, the parse result means what it means on every row |
| QueryGrammar.ImplicitAndIsAnd | internal/store/qlang_parse.go:183-207 | writing out the implicit ANDs gives the same parse result |
| QueryGrammar.CompleteOr | internal/store/qlang_parse.go:154-207 | a derivation in front of a closing parenthesis or the end is parsed to its flattened form |
| QueryGrammar.SoundOr | internal/store/qlang_parse.go:154-207 | what the OR level accepts has a derivation |
| QueryRoundTrip.PrintParse | internal/store/qlang_parse.go:45-284 | for every tree in normal form, printing with quotes, escapes and parentheses, then lexing and parsing, returns the tree |
| QueryRoundTrip.ParserOutputsNormal | internal/store/qlang_parse.go:231-284 | every parse result is in normal form: chains of two or more whose first child is of another kind, star flag true to the text, names and comparison values that are words, a field named NOT only under NOT |
| QueryRoundTrip.ParsePrintParse | internal/store/qlang_parse.go:45-284 | so printing a parsed query and parsing it again returns it |
| QueryRoundTrip.SplitOpMeans | internal/store/qlang_parse.go:262-268 | sign and rest make up the value, and there is no sign exactly when neither < nor > is in front |
| QueryRoundTrip.PlainField | internal/store/qlang_parse.go:257-274 | a word without a sign and a quoted text are the same term: that text, with wildcards if it has stars |
| QueryRoundTrip.SignField | internal/store/qlang_parse.go:257-274 | a word with a sign compares with the rest, and is an error if there is no rest |
| QueryRoundTrip.TypedField | internal/store/qlang_parse.go:45-284 | a query typed as name:value is that term |
| QueryRoundTrip.BlankQuery | internal/store/qlang_parse.go:46-49 | a blank text asks for everything, and blanks around a query do not count |
| CollapseKey.KeyInjective | internal/store/collapse.go:167-216 | keys are equal exactly when all key fields are, if no field holds the separator |
| CollapseKey.KeyFixesKind | internal/store/collapse.go:148-216 | whatever the fields hold, rows of one non-empty key are of one kind and category and have one window |
| CollapseKey.AlertKey | internal/store/collapse.go:175-180 | two alerts have one key exactly when rule and PID agree |
| CollapseKey.EmptyKey | internal/store/collapse.go:43-48 | the key is empty exactly for the rows that never fold |
| CollapseFields.NeverFolds | internal/store/collapse.go:172-216 | which rows never fold: the fields whose absence makes the key empty, by category |
| CollapseFields.DnsKey | internal/store/collapse.go:184-189 | Dns events have one key exactly when name and type agree |
| CollapseFields.NetworkKey | internal/store/collapse.go:190-197 | Network events have one key exactly when both addresses, both ports and the protocol agree |
| CollapseFields.FileKey | internal/store/collapse.go:198-205 | File events have one key exactly when image, process, action and directory agree |
| CollapseFields.ProcessKey | internal/store/collapse.go:206-212 | Process events have one key exactly when image, command line and action agree |
| CollapseFields.ParentDirMeans | internal/store/collapse.go:218-231 | the directory does not depend on blanks around the path |
| CollapseSpec.SegmentsCorrect | internal/store/collapse.go:50-72 | the segments of a key lose no row, keep the order, and are cut exactly where a gap is wider than the window |
| CollapseSpec.FoldedExtend | internal/store/collapse.go:50-57 | a row within the window changes the summary of its key's last segment and nothing else |
| CollapseSpec.FoldedNew | internal/store/collapse.go:59-72 | any other row adds exactly itself to what is to be shown |
| CollapseSpec.CountsAddUp | internal/store/collapse.go:50-57 | the counts of all summaries add up to the number of rows |
| CollapseFields.PairFolds | internal/store/collapse.go:36-72 | two rows become one exactly when they have one key and the second comes within 10 s (alerts), 5 s (Dns, Network) or 2 s (File, Process); what the one shows |
| CollapseFields.BurstMeans | internal/store/collapse.go:124-136 | a burst shows its first row with count, span, last time and the numbers of at most 50 rows after the first |
| CollapseFields.PortsApart | internal/store/collapse.go:190-197 | connections of one client to two ports of one server stay apart, to one port they fold |
| CollapseOrder.HeldFlush | internal/store/collapse.go:59-72 | which bursts are open after a row that joins none; its own key has none left, so the re-open branch is never taken |
| CollapseOrder.HeldExtend | internal/store/collapse.go:50-57 | a row that joins a burst opens and closes nothing |
| Collapse.FinalizeIsSummary | internal/store/collapse.go:124-136 | a pending burst becomes the summary of its segment: count, span, last time, the first 50 follow-on ids |
| Collapse.GrowIsWith | internal/store/collapse.go:50-56 | counting a row in is extending the segment |
| Collapse.FlushExpired | internal/store/collapse.go:94-118 | whatever the order of the map, exactly the expired bursts leave, as rows in time order of their heads |
| Collapse.JoinsIffExtends | internal/store/collapse.go:50 | the map lookup says exactly whether the row extends its key's last segment |
| Collapse.PassFlush | internal/store/collapse.go:59-72 | a row that joins no burst keeps the invariant of the pass, and no burst of its key is left open |
| Collapse.TakeRow | internal/store/collapse.go:40-72 | one turn of the loop keeps the invariant of the pass: the rows so far are out, in order of emission, or in an open burst |
| Collapse.FoldRows | internal/store/collapse.go:37-77 | for any keying that fixes the window: the output is flush after flush, each in time order of its heads, with the rows of no key in between; as a multiset it is the per-key segmentation; it is in time order exactly when no burst overtakes an older one |
| Collapse.CollapseRows | internal/store/collapse.go:32-78 | the same for the real key, over any time-ordered input |
| Collapse.BurstCountsAddUp | internal/store/collapse.go:50-57 | burst counts over the output add up to the number of input rows |
| CollapseUnique.FlushUnique | internal/store/collapse.go:94-118 | bursts whose heads have distinct times leave in one order only, whatever the order of the map |
| CollapseUnique.OutputTimes | internal/store/collapse.go:32-78 | two runs on the same rows give the same times at the same places |
| CollapseUnique.OutputUnique | internal/store/collapse.go:32-78 | rows at distinct times have one output |
| CollapseUnique.ShownFirst | internal/store/collapse.go:59-72 | a burst that expires while an older one is open is shown before it, and the output is not in time order |
| CollapseUnique.OvertakingExample | internal/store/collapse.go:26-28 | time-ordered input that can come out in one order only, which is not time order: an alert, a file event a second later, a DNS event at four seconds |
| Timeline.DropGarbage | internal/store/garbage.go:22-30 | compacting over its own backing array equals the pure filter; nothing behind the new end is touched |
| Timeline.SearchTime | internal/store/query.go:109-117 | the binary search finds the first row at, or after, a time |
| Timeline.RowsBetween | internal/store/query.go:106-123 | the two searches return exactly the rows a linear filter on the inclusive window would |
| Timeline.PageSlice | internal/store/query.go:47-55 | reading on from the cursor inside the window is the filter by window, cursor and row |
| Timeline.ReadPage | internal/store/query.go:56-74 | the loop copies the first matching rows and says whether the page is full |
| Timeline.Present | internal/store/query.go:80-94 | garbage is dropped, then bursts are folded, on a private buffer |
| Timeline.TimelinePage | internal/store/query.go:28-100 | a page is the declarative page, with cursor and flag, and the shared snapshot array is unchanged |
| Timeline.MatchingRows | internal/store/query.go:173-202 | the whole result is the declarative one, and the shared snapshot array is unchanged |
| Timeline.PageLimit | internal/store/query.go:29-35 | 500 for a limit that is not positive, at most 5000, else the limit asked for |
| TimelineFields.Selects | internal/store/query.go:104-123 | a query selects the rows inside its window, of the kinds asked for, that meet its filters: as often as they are there, in time order |
| TimelineFields.OneKind | internal/store/query.go:104-123 | with one toggle set no row of the other kind is shown, and every matching row of this kind |
| TimelineFields.StartMeans | internal/store/query.go:47-55 | a page starts after the cursor, if there is one |
| TimelineFields.PageMeans | internal/store/query.go:56-79 | it holds the first rows up to the limit, says that there is more exactly when it is full, and gives the time of its last row |
| TimelineFields.LimitMeans | internal/store/query.go:29-35 | 500 by default, 5000 at most |
| TimelineFields.LimitDiffers | internal/store/types.go:207 | the documented limits, 200 and 1000, are right exactly for limits from 1 to 1000 |
| TimelineFields.KeepMeans | internal/store/garbage.go:32-59 | dropping garbage keeps every alert, every Dns event that is no noise query, and every other event with a text in one of seven fields |
| Paging.WalkComplete | internal/store/query.go:49-78 | following "strictly after the last time" loses nothing exactly when no tie straddles a page boundary |
| Paging.PagesComplete | internal/store/query.go:28-100 | the concatenated pages are the whole result exactly then |
| Paging.PagesNoDuplicates | internal/store/query.go:28-100 | with ties the pages are still an in-order, duplicate-free subsequence |
| Paging.PagesFollowCursor | internal/store/query.go:49-79 | the walk is what successive requests return, it ends, and all but the last page say there is more |
| Paging.NextPage | internal/store/query.go:76-79 | what the next request sees is what is left later than the page, and is shorter |
| Paging.StuckForEver | internal/store/query.go:48-54 | otherwise a full page ends at or before 1970 and the same page comes for ever |
| Paging.DistinctTimesComplete | internal/store/query.go:28-100 | strictly increasing positive times are enough |
| Paging.PagesCompleteKept | internal/store/query.go:85-87 | with garbage dropped, the pages are the whole result exactly when every row they skip is garbage |
| Paging.WalkKept | internal/store/query.go:85-87 | following the cursor keeps all that is to be kept, in number as in content, exactly when it skips only garbage |
| Paging.BurstsAddUpOverPages | internal/store/query.go:88-94 | burst counts over all pages add up to the number of rows the pages hold, ties or not; that is the number the query selects exactly when the pages skip none of them |
| Paging.TieExample | internal/store/query.go:48-54 | two rows at one instant, one row a page: the second is lost |
| Paging.StuckExample | internal/store/query.go:48-54 | one row at 1970, one row a page: the page is full and the next page is the same |
| Density.TimelineDensity | internal/store/query.go:286-351 | what the query shows is counted, and the shared snapshot array is unchanged |
| Density.CountRows | internal/store/query.go:298-350 | nothing for no rows, one bucket for one instant, else the tallies of all buckets and their true maximum, or a panic exactly when an index is negative |
| Density.FillBuckets | internal/store/query.go:328-344 | the loop fills every bucket with its tally and keeps the maximum |
| Density.PanicIff | internal/store/query.go:330-340 | it answers exactly when no row comes a bucket or more before the first |
| Density.SortedNeverPanics | internal/store/query.go:302-340 | rows in time order never panic |
| Density.PanicNeedsOvertaking | internal/store/query.go:286-340 | a query over time-ordered rows panics only if it folds bursts and one of them overtakes an older one |
| Density.PanicExactly | internal/store/query.go:286-340 | a query over time-ordered rows panics exactly when there is a span and the first row selected lies a bucket width or more before the first row shown |
| CollapseSpec.FoldedStart | internal/store/collapse.go:124-136 | the earliest row shown has the time of the earliest row, so folding hides no start |
| Density.FoldedRowsPanic | internal/store/query.go:302-340 | the folding query over the three rows of `CollapseUnique.OvertakingExample` panics for every number of buckets from three |
| Density.IndexMonotone | internal/store/query.go:331-334 | indices grow with time |
| Density.BucketsAddUp | internal/store/query.go:328-344 | alert and event counts over the buckets are the alert and event counts of the rows |
| Density.ChartAddsUp | internal/store/query.go:345-350 | the same of the chart that is returned |
| DensityCounts.IndexMeans | internal/store/query.go:331-334 | which times each bucket covers |
| DensityCounts.WidthMeans | internal/store/query.go:323-327 | the width is the span divided by the number of buckets, rounded down, at least one nanosecond |
| DensityCounts.ChartMeans | internal/store/query.go:328-350 | every bucket holds the numbers of alerts and of events of its times; the maximum is the largest sum; the totals are the numbers of alerts and of events |
| DensityCounts.InstantMeans | internal/store/query.go:304-321 | rows of one instant make one bucket with the numbers of alerts and of events |
| Density.ClampedNearEnd | internal/store/query.go:331-334 | a clamped row lies within fewer nanoseconds of the end than there are buckets |
| Density.ServerMeetsClient | internal/server/static/app.js:903-913 | with a span of at least the square of the bucket count, the server's bucket is the client's or the next |
| Scores.ScoreMonotone | internal/store/batch.go:112-115 | rounding to float64, to nearest and ties to even (section 4.3.1 of IEEE 754-2019), never reverses two times |
| Scores.ScoreClose | internal/store/batch.go:112-115 | up to the year 2116 a score is within 256 ns of its time |
| Scores.MicrosecondsApart | internal/ingest/event/event.go:80-86 | microsecond times keep their strict order as scores |
| Scores.SetOrderIsTimeOrder | internal/store/query.go:125-137 | rows in the order of (score, member) are time-ordered exactly when rows that share a score are in order |
| Scores.MicrosecondsSorted | internal/store/query.go:129-158 | rows of one score are in order if all their times are microseconds |
| Scores.NanosecondsTie | internal/store/batch.go:112-115 | two times a nanosecond apart with one score |
| Scores.KeyInjective | internal/store/batch.go:110-123 | a member key names one kind and one id |
| Scores.InsertInOrder | internal/store/batch.go:112-115 | adding a member keeps the order of the set |
| Scores.ScoreIsNearest | internal/store/batch.go:112-115 | a score is the nearest multiple of the float64 step, of two equally near the even one |
| Scores.StepsDouble | internal/store/batch.go:112-115 | the float64 step doubles with every bit beyond 53 |
| Scores.LexMeans | internal/store/batch.go:112-115 | members of one score are ordered byte by byte |
| Scores.KindsInOrder | internal/store/store.go:100-105 | of one score alerts come before events, and ids are compared as texts |
| Store.Store.constructor | internal/store/store.go:45-46 | no data, no snapshot |
| Store.Store.Invalidate | internal/store/store.go:48-50 | the snapshot is gone |
| Store.Store.AddAlert | internal/store/store.go:89-107 | takes the next alert id, stores body and timeline entry, and leaves no snapshot |
| Store.Store.AddEvent | internal/store/store.go:109-128 | the same for events |
| Store.Store.MaterializedRows | internal/store/store.go:55-70 | returns the decoded timeline and caches it, if a cached snapshot was current |
| Store.AddAllStores | internal/store/store.go:89-128 | after any sequence of single writes: ids of each kind are distinct and run from 1 without gaps, every record is on the timeline once, in score order, with its body |
| Store.FirstNumbers | internal/store/store.go:89-128 | the first alert and the first event both have number 1 |
| Store.TwoAlertsSorted | internal/store/store.go:89-107 | two alerts written one after the other are read back in time order exactly when the first is not the later one or their scores differ |
| Store.ReversedExample | internal/store/store.go:89-107 | two alerts a nanosecond apart that a store reads back in the wrong order |
| Store.RowsSorted | internal/store/store.go:39-42 | the decoded timeline is time-ordered exactly when rows of one score are in order, and always if the records carry microsecond times |
| StoreRecords.StoredWhole | internal/store/store.go:89-128 | every record is stored whole, field by field, under its serial member, and no other body is touched |
| StoreRecords.ReadBack | internal/store/store.go:89-128 | what is read back is what was there and what was written, each record once, whole but for its id |
| StoreRecords.ReadAll | internal/store/store.go:89-128 | from the empty store: exactly the records written |
| Batch.Batch.constructor | internal/store/batch.go:33-37 | an empty batch on a store |
| Batch.Batch.AddAlert | internal/store/batch.go:39-46 | the record is added and waits, or is flushed with the others at 500; what was flushed is stored as by serial writing, and its records have their serial ids |
| Batch.Batch.AddEvent | internal/store/batch.go:48-55 | the same for events |
| Batch.Batch.Enqueue | internal/store/batch.go:40-46 | append, and flush at 500 |
| Batch.Batch.Close | internal/store/batch.go:57-63 | bodies, scores, counters, and the ids written into the records, are those of writing all records one at a time; every record is stored whole, and is read back once |
| Batch.Batch.Flush | internal/store/batch.go:65-137 | the pending records are stored as by serial writing, every record given so far has the id serial writing gives, and the snapshot is gone |
| Batch.Batch.SendPending | internal/store/batch.go:83-134 | ids are reserved and written into the records, and the data are as after adding them one by one |
| Batch.Batch.ReserveIds | internal/store/batch.go:83-99 | both counters grow by the number of records of their kind; the ranges start right after them |
| Batch.Batch.CountKinds | internal/store/batch.go:74-81 | counts alerts and events |
| Batch.Batch.WriteIds | internal/store/batch.go:101-130 | ids are written into the records, and the pipeline holds body and timeline entry of each, in order |
| Batch.FlushIsSerial | internal/store/batch.go:65-137 | one flush of any mixed rows equals adding them one by one |
| Batch.IdsAreSerial | internal/store/batch.go:103-118 | the id of the i-th record is the one serial writing hands out |
| Batch.SerialMemberId | internal/store/batch.go:103-118 | a record is stored under the id it is given |
| Batch.PipePrefix | internal/store/batch.go:101-130 | every prefix of the pipeline has done what that many single writes do |
| Snapshot.StepKeeps | internal/store/store.go:50-70 | every step of readers and writers, in any interleaving, keeps the invariant on lock, data, log and readers |
| SnapshotRuns.RunSafe | internal/store/store.go:50-128 | at every point of every run: at most one rebuild; a body for every timeline member; every returned or published snapshot is the exact timeline at its scan; a snapshot, published or returned to a reader, is current exactly when nothing was put on the timeline since |
| SnapshotStore.FilledStep | internal/store/batch.go:83-134 | every step, in any interleaving, keeps this: each id handed out is on the timeline or still to be put there; the timeline is in order, holds no member twice, and has the scores of the bodies |
| SnapshotRuns.QuietRun | internal/store/batch.go:83-134 | whenever no write is under way, the ids of each kind run from 1 without gaps and the timeline holds every record once, with its score, in order |
| SnapshotWritten.StepBalanced | internal/store/batch.go:83-134 | every step keeps the balance: what can be read and what writes still owe are the records of all writes begun |
| SnapshotWritten.QuietReads | internal/store/batch.go:83-134 | whenever no write is under way, the timeline reads as exactly the records written so far, each once and whole but for its id |
| SnapshotWritten.WrittenGrows | internal/store/batch.go:83-134 | the records written grow by those of a write as it begins, and by nothing else |
| SnapshotRuns.ScanSeesNow | internal/store/query.go:129-142 | a scan takes the current timeline |
| SnapshotRuns.ReadsAreCurrent | internal/store/store.go:48-70 | in runs where no rebuild overlaps a write, a read that no write overlaps returns the current data |
| SnapshotRuns.SnapshotStays | internal/store/store.go:48-50 | only the start of a write takes a snapshot away |
| SnapshotRuns.StaleExample | internal/store/store.go:68-90 | a run from the start that ends, with no write under way, with a stale snapshot |
| SnapshotStale.RebuildOf | internal/store/store.go:55-70 | every snapshot comes from one rebuild: a scan, a publication by the same reader, and no write begun since |
| SnapshotStale.StaleIff | internal/store/store.go:48-70 | with no write under way, a snapshot is stale exactly when a write was under way between scan and publication of its rebuild |
| SnapshotStale.SnapshotTells | internal/store/store.go:48-70 | so in every run a snapshot has a rebuild that tells whether it is stale |
| SnapshotStale.ReadTells | internal/store/store.go:55-70 | a finished read that no write overlapped returns old data exactly when the rebuild its rows come from overlapped a write |
| Snapshot.ItemsArePipe | internal/store/batch.go:101-130 | the steps of a write are the commands of the pipeline, in order |
| LineageIndex.PackInjective | internal/store/lineage.go:121 | the packed edge key is injective for PIDs below 2^32 |
| LineageIndex.PackCollides | internal/store/lineage.go:121 | beyond that it is not |
| LineageIndex.CollisionExample | internal/store/lineage.go:121 | two rows with starts whose keys are equal: the keys do not tell the starts apart, and a child list misses one |
| LineageIndex.BuildIndex | internal/store/lineage.go:107-127 | `byPID` lists the rows of every positive PID; child lists have no duplicates and hold only observed starts, and all of them exactly when the packed keys tell all starts apart |
| LineageIndex.IndexRow | internal/store/lineage.go:111-127 | one turn of the pass keeps that |
| LineageIndex.CompleteIff | internal/store/lineage.go:109-125 | a child list misses a start exactly when two starts share a key |
| LineageIndex.SmallPidsTell | internal/store/lineage.go:121 | rows whose PIDs are below 2^32 share no key |
| LineageIndex.PlacesPartition | internal/store/lineage.go:111-116 | a row is in the list of its own PID only, once, in order |
| LineageBits.PackBits | internal/store/lineage.go:121 | the key is the parent shifted left by 32 bits, or-ed with the PID, bit by bit, for all integers |
| LineageFields.EdgeMeans | internal/store/lineage.go:111-127 | there is a start of c by p exactly when a record about c names p: an alert by its numbers, an event by texts that read as them |
| LineageFields.EventEdge | internal/store/lineage.go:399-433 | an event with both numbers printed in its fields is that start, is in the list of its process, and says nothing else |
| LineageFields.SilentEvent | internal/store/lineage.go:399-433 | an event without a number gives no start |
| LineageFields.PlacesMean | internal/store/lineage.go:111-116 | the list of a process holds the places of the records about it, in order |
| LineageFields.OwnMeans | internal/store/lineage.go:111-132 | a process is known exactly when a record is about it |
| LineageFields.ParentMeans | internal/store/lineage.go:231-249 | the latest parent, in terms of record fields |
| LineageFields.ParentAbove | internal/store/lineage.go:134-149 | the process directly above the origin is that parent; there is none exactly without one, or if it is the process itself |
| LineageFields.StartedBelow | internal/store/lineage.go:95-214 | a record that says that p started c puts c one level below p in the view of p, unless c is above p, the view is full, or numbers of more than 32 bits are about |
| LineageFields.EventExample | internal/store/lineage.go:95-214 | one event: the child hangs below its parent, whichever of the two is looked at |
| LineageNode.MostRecentParentPid | internal/store/lineage.go:231-249 | returns the parent named by the latest row |
| LineageNode.LatestIsLatest | internal/store/lineage.go:227-230 | 0 exactly when no row names a parent, otherwise named by a row than which none is later, the first of that time |
| LineageNode.PlacesAreRows | internal/store/lineage.go:116 | the indexed places are the rows of the PID |
| LineageNode.LinNode.constructor | internal/store/lineage.go:257-261 | a blank node |
| LineageNode.LinNode.Touch | internal/store/lineage.go:266-278 | adds the times and the parent of one more row, and changes nothing else |
| LineageNode.LinNode.Apply | internal/store/lineage.go:284-343 | adds what one more row says, by kind of row |
| LineageNode.LinNode.ApplyAlert | internal/store/lineage.go:286-313 | adds an alert: names, command line, count, entry, severity |
| LineageNode.LinNode.IdentifyByAlert | internal/store/lineage.go:291-299 | an alert gives image, process name and user where none is known |
| LineageNode.LinNode.ApplyEvent | internal/store/lineage.go:314-342 | adds an event: image, name, command line, user, count and entry of its category |
| LineageNode.LinNode.ShowLine | internal/store/lineage.go:300-302 | a command line replaces a shorter one |
| LineageNode.BuildLinNode | internal/store/lineage.go:256-282 | a new node that shows all rows of its PID |
| LineageProfile.ProfileTimes | internal/store/lineage.go:268-273 | first and last time are bounds that rows reach |
| LineageProfile.ProfileLine | internal/store/lineage.go:300-327 | the command line is the first of the longest |
| LineageProfile.ProfileParent | internal/store/lineage.go:274-278 | the parent is the first other process that a row names |
| LineageProfile.ProfileNames | internal/store/lineage.go:294-330 | process name and user are the first that any row offers |
| LineageProfile.ProfileImage | internal/store/lineage.go:291-321 | the image is that of the last event with one; without such an event, of the first alert with one |
| LineageProfile.ProfileSeverity | internal/store/lineage.go:311-313 | the severity is the first of the highest rank among all alerts |
| LineageProfile.ProfileRecords | internal/store/lineage.go:303-342 | every alert and every event is shown once, in order, in its category, and the counts are the lengths of the lists |
| ProfileFields.AlertShown | internal/store/lineage.go:303-310 | every alert is shown at its place among the alerts, field by field |
| ProfileFields.EventShownAt | internal/store/lineage.go:331-342 | every event is shown at its place in its category, field by field |
| ProfileFields.SeverityMeans | internal/store/lineage.go:345-360 | the severity is critical if an alert says so in any case, else high, medium, low or info, else none |
| ProfileFields.BaseNameMeans | internal/store/lineage.go:362-370 | a process name is what follows the last slash of the image, slashes at the end aside |
| ProfileFields.ConnectionSummary | internal/store/lineage.go:384-387 | a connection shows both ends, an arrow and the protocol in capitals |
| ProfileFields.OtherSummaries | internal/store/lineage.go:375-397 | what events of the other categories show |
| ProfileFields.ActionTexts | internal/store/types.go:151-188 | the actions of the known event ids |
| ProfileFields.OtherActions | internal/store/types.go:151-194 | an id without a name shows the category in capitals, an unknown category nothing |
| ProfileFields.OneEventShows | internal/store/lineage.go:256-343 | the node of a process with one event |
| ProfileFields.OneAlertShows | internal/store/lineage.go:256-343 | the node of a process with one alert |
| LineageProfile.FromOneRow | internal/store/lineage.go:251-255 | the command line is that of the first row with the longest; image, name and user are those of that row exactly when the last event image (without one, the first alert image) and the first name and user offered are the same |
| LineageProfile.FromOneEvent | internal/store/lineage.go:251-255 | if that row is an event with an image: exactly when the last image is the same and the first name, by then, and the first user offered are the same; the node has a name in any case |
| LineageProfile.MixedExample | internal/store/lineage.go:251-255 | image and command line can come from two events |
| LineageBfs.StartKeeps | internal/store/lineage.go:156-162 | the invariant of the search holds at its start |
| LineageBfs.PopKeeps | internal/store/lineage.go:164-166 | taking the next head keeps it; heads come in order of depth |
| LineageBfs.OfferKeeps | internal/store/lineage.go:175-189 | offering one child keeps it, whether the child is placed, dropped or known |
| LineageBfs.TurnEnds | internal/store/lineage.go:172-190 | a head that has looked at all its children is finished |
| LineageBfs.DropAllKeeps | internal/store/lineage.go:167-171 | so is a head at the depth limit |
| LineageBfs.DepthIsDistance | internal/store/lineage.go:151-190 | the depth of every placed PID is its shortest distance from the origin in the graph without the ancestors, at most 8, also when the node cap was reached |
| LineageBfs.BelowCapComplete | internal/store/lineage.go:173-183 | below 300 nodes every PID within distance 8 is in the tree |
| LineageBfs.UntruncatedComplete | internal/store/lineage.go:167-182 | if the tree is not called truncated, every reachable PID is in it |
| LineageBfs.TruncatedIff | internal/store/lineage.go:167-182 | it is called truncated exactly when a node at depth 8 has a child, or a placed node has a child neither in the tree nor above it |
| LineageBfs.DroppedNothing | internal/store/lineage.go:167-182 | a node below the depth limit counts its children that are neither in the tree nor above it, a node at the limit all its children; so none exactly when there are none of these |
| LineageBfs.CountsLeftOut | internal/store/lineage.go:167-182 | the count is the number of children left out exactly below the depth limit or where all children are left out |
| LineageBfs.NodeCount | internal/store/lineage.go:156-192 | the count is parents plus placed PIDs, at most 300 unless the parents alone exceed it |
| LineageBfs.WalkIsRowWalk | internal/store/lineage.go:107-127 | walks over complete child lists are walks over the starts that the rows name |
| Lineage.WalkUp | internal/store/lineage.go:134-149 | the parent walk ends on any data, cyclic or not, with the maximal duplicate-free chain of latest parents |
| Lineage.MaximalUnique | internal/store/lineage.go:138-148 | there is one such chain |
| Lineage.SortAscending | internal/store/lineage.go:172-174 | children are taken in PID order, none lost |
| Lineage.PlaceChild | internal/store/lineage.go:184-188 | a new node, appended to its head; nodes and search state still agree |
| Lineage.DropChild | internal/store/lineage.go:179-183 | the head counts the child it loses |
| Lineage.OfferChild | internal/store/lineage.go:175-189 | one child on the heap does what the step on values does |
| Lineage.Expand | internal/store/lineage.go:172-190 | one turn of the search keeps its invariant and the agreement of tree and state |
| Lineage.DropChildren | internal/store/lineage.go:167-171 | a turn at the depth limit counts all children |
| Lineage.Descend | internal/store/lineage.go:151-190 | the search on the heap ends in a finished search state that the nodes mirror; all new nodes are fresh |
| Lineage.KidsBelow | internal/store/lineage.go:200-206 | children are in the tree, one level below |
| Lineage.OneParent | internal/store/lineage.go:200-206 | every PID but the root is the child of exactly one PID, once; the root of none |
| Lineage.WholeCount | internal/store/lineage.go:156-192 | the node count is the number of PIDs of the stitched tree |
| Lineage.LevelBound | internal/store/lineage.go:216-219 | levels run from 0, at the root only, to parents plus 8 |
| Lineage.AssignLinDepth | internal/store/lineage.go:220-225 | the recursion ends; exactly the nodes it reaches get their level |
| Lineage.AllReached | internal/store/lineage.go:216-225 | it reaches every node of the stitched tree |
| Lineage.Stitch | internal/store/lineage.go:201-206 | every parent gets the next one, the last one the origin, as its only child |
| Lineage.JoinUp | internal/store/lineage.go:195-206 | the parents and the searched tree become one tree with its marks |
| Lineage.NumberTree | internal/store/lineage.go:208-212 | every node gets its level as depth |
| Lineage.Assemble | internal/store/lineage.go:195-212 | both together |
| Lineage.BuildLineage | internal/store/lineage.go:95-214 | the whole view: all nodes new, one tree, each node with its rows, marks, depth and dropped count; parents from the top, flags and node count |
| Lineage.DepthInRows | internal/store/lineage.go:151-225 | a process below the origin is drawn as many levels below it as the shortest walk of observed starts is long |
| Lineage.SpiralExample | internal/store/lineage.go:167-171 | a search that placed every process there is, and yet is called truncated and counts a dropped child |
| Lineage.TruncatedExample | internal/store/lineage.go:95-214 | the view of that data: all nine processes, and the truncation flag |
| Lineage.NothingMissing | internal/store/lineage.go:167-182 | the two cases in which no reachable process is missing |
| RowWindow.PixelInverse | internal/server/static/app.js:250-263 | a pixel leads to a row exactly when it lies in the row or its open detail |
| RowWindow.TopLeadsBack | internal/server/static/app.js:1207-1213 | the top of a row leads back to the row |
| RowWindow.PixelMonotone | internal/server/static/app.js:250-263 | lower pixels lead to later rows |
| RowWindow.WindowCovers | internal/server/static/app.js:404-412 | every row with a pixel in the viewport, its detail included, is in the drawn window |
| RowWindow.JumpShows | internal/server/static/app.js:1253-1260 | scrolling to the top of a row draws it |
| RowWindow.WindowExactly | internal/server/static/app.js:404-412 | the window holds exactly the rows with a pixel in the viewport or the 1200 pixels above and below it |
| RowWindow.TopsMean | internal/server/static/app.js:1207-1213 | rows are 28 pixels high, and an open detail is between its row and the next |
| RowWindow.SpacersMean | internal/server/static/app.js:577-587 | each spacer is as high as the part of the list it stands for |
| RowWindow.WindowInList | internal/server/static/app.js:408-412 | the window ends inside the list unless the scroll position lies behind it |
| RowWindow.SpacersFill | internal/server/static/app.js:577-587 | top spacer, live rows, detail and bottom spacer add up to the full list exactly when the window does not lie behind the list |
| RowWindow.PictureJoin | internal/server/static/app.js:472-480 | rebuilding two adjacent windows is rebuilding both at once |
| LiveRows.FrontOfPicture | internal/server/static/app.js:499-513 | removing at the front takes the first row and its detail |
| LiveRows.BackOfPicture | internal/server/static/app.js:515-529 | removing at the back takes the last row and its detail |
| LiveRows.PictureTells | internal/server/static/app.js:535-538 | where the detail sits can be read off the live rows |
| LiveRows.FoundRow | internal/server/static/app.js:561-575 | the row counted off from the window start is the row looked for |
| LiveRows.InsertDetail | internal/server/static/app.js:554-558 | putting the detail after its row gives the full rebuild with the detail |
| LiveRows.FrontRows | internal/server/static/app.js:499-513 | removing at the front takes the first row, whatever details there are |
| LiveRows.BackRows | internal/server/static/app.js:515-529 | removing at the back takes the last row, whatever details there are |
| LiveRows.PatchedPicture | internal/server/static/app.js:446-481 | from any window to any other, a full rebuild becomes a full rebuild; a detail stays with its row or leaves with it |
| LiveRows.PatchedRows | internal/server/static/app.js:446-481 | with details anywhere, the rows of the new window are drawn if those of the old one were |
| LiveRows.PlaceOfRow | internal/server/static/app.js:563-575 | with details anywhere, every row of the window is found where it is drawn |
| LiveRows.SyncedRight | internal/server/static/app.js:540-559 | placing the detail makes the list right exactly when the open detail is out of the window or no other detail is live |
| LiveRows.ArrivedRight | internal/server/static/app.js:680-696 | a detail put after its row is the full rebuild exactly when no other detail is live |
| VirtualList.IdLeadsBack | internal/server/static/app.js:729-734 | a row's number leads back to it exactly when no earlier row has it |
| VirtualList.SameNumberExample | internal/server/static/app.js:729-734 | an alert row and an event row with one number: looking the number up misses the second |
| VirtualList.WrongNumberExample | internal/server/static/app.js:680-696 | the detail of the second, drawn below it, is then taken for the detail of the first |
| VirtualList.TwoAnswersExample | internal/server/static/app.js:680-696 | two answers that arrive one after the other leave the list wrong, also when it is drawn again |
| VirtualList.VirtualList.ClearLiveRows | internal/server/static/app.js:379-386 | nothing is left between the spacers |
| VirtualList.VirtualList.RemoveFrontRow | internal/server/static/app.js:499-513 | leading strays, the first row and its detail are gone |
| VirtualList.VirtualList.RemoveBackRow | internal/server/static/app.js:515-529 | trailing strays and the last row are gone |
| VirtualList.VirtualList.BuildRows | internal/server/static/app.js:460-480 | new elements for a range of rows |
| VirtualList.VirtualList.PatchWindow | internal/server/static/app.js:446-481 | from any live elements and any old window to any new one: what is trimmed, kept and built, as a function of both windows (see `LiveRows.PatchedPicture`, `LiveRows.PatchedRows`) |
| VirtualList.VirtualList.FindLiveRowAt | internal/server/static/app.js:563-575 | the live row with that many rows before it |
| VirtualList.VirtualList.SyncDetailRow | internal/server/static/app.js:540-559 | on any live elements: all details go if the open one is out of the window, else a missing detail is put after its row and all others stay (see `LiveRows.SyncedRight`) |
| VirtualList.VirtualList.UpdateSpacers | internal/server/static/app.js:577-587 | the spacers stand for the rows outside the window, and for a detail outside it |
| VirtualList.VirtualList.Render | internal/server/static/app.js:390-426 | from any list whose rows are drawn, or blank, to the window of any scroll position: its rows and spacers are drawn, or the marker of an empty result; right afterwards exactly when the open detail is out of the window or no other detail has stayed, always if it was right or blank before |
| VirtualList.VirtualList.Fills | internal/server/static/app.js:577-587 | a list drawn right fills the full list height exactly when the window does not lie behind the list |
| VirtualList.VirtualList.Ingest | internal/server/static/app.js:316-328 | rows are appended, an empty result sets its marker, and a window drawn right stays right |
| VirtualList.VirtualList.Reset | internal/server/static/app.js:337-354 | new filters empty the list and close the detail |
| VirtualList.VirtualList.CloseDetail | internal/server/static/app.js:774-784 | no detail is left, wherever there were any: every list with its rows drawn becomes right |
| VirtualList.VirtualList.DetailArrives | internal/server/static/app.js:680-696 | one detail more, right after its row; the list is then right exactly when no other detail was live and the number leads back to the row |

## Left out

- HTTP handlers, templates, CSS and the rest of `app.js` (tooltips, columns, completion, modals, fetches): user interface and plumbing.
- Redis, the network, JSON and write errors: the store is a map of bodies, a scored set and two counters, and decoding gives the body back. Only runs without errors are modelled.
- `FlushAll` beside other writes: it is called once, before ingest. A `Store` starts empty.
- Log and alert parsing (`internal/ingest`): only the fact that event times have microseconds is used, as a condition.
- Time arithmetic saturates or wraps at 64 bits in Go; the model subtracts unbounded integers. Times in range of 64-bit nanoseconds within 292 years of each other behave alike.
- The zero `time.Time` as a mark for "no time": the model uses `Option`, so a record that carries the zero time itself is not modelled.
- Unicode case folding: lower and upper case are ASCII, and text is bytes.
- `rowMatches` and the field table `QSchema`: per-row filters are an arbitrary predicate, field extraction an arbitrary map from field names to texts, except the two integer extractors.
- `path.Dir` in the file key: the directory part is an arbitrary function of the path.
- `TimelineCount`, `TopFieldValues`, `GetAlert`, `GetEvent`, meta data and export: easy once the rows are known.
- `BuildMillis` of a lineage view: wall clock. The fields of a node that come from rows are kept in one record inside the node.
- `sort.Slice`, `sort.Ints` and `sort.Search` are the model's own insertion sorts and binary search.
- The Redis sorted set is a sequence kept in (score, member) order; replies of a pipeline are not modelled.
- Row elements carry no selection or focus marks; scroll positions and heights are whole pixels, and the browser's clamping of the scroll position is not modelled.
- The printer of queries is this project's own; the program has none. It stands for "a text that parses to this tree".
- QueryParser.ParseQuery: the words of error messages are left out; error kinds and positions are kept.
- VirtualList.VirtualList.DetailArrives: an answer whose row has left the document changes the state but draws nothing, as in the code; the height of that detail stays unmeasured until it is opened again.
- SnapshotRuns.ReadsAreCurrent: needs runs in which no rebuild overlaps a write, because without that it is false (SnapshotRuns.StaleExample); SnapshotStale.ReadTells has the exact condition.
