# Verified models of godzilla-community components

This project models, in Dafny, seven components of the repository and proves what they are for.

- **Usage patterns** (`DocoptPattern`, `DocoptTransform`, `DocoptNodes`, `DocoptMatch`, `DocoptParser`,
  `DocoptTexts`): the pattern trees of the vendored docopt, their expansion into a disjunction of leaf lists, as values
  and over node and list objects changed in place, the matcher of argument vectors, the recursive-descent parser, and
  how the tree of a text is made of those of its parts.
- **Timestamp formatter** (`DtfNumerals`, `DtfCalendar`, `DtfText`): digit counting and writing, calendar fields
  against section 4.16, "Seconds Since the Epoch", of IEEE Std 1003.1-2017, Base Definitions, the text written into
  the caller's buffer, its order, and format detection.
- **Journal join** (`StableSort`, `JournalMatch`, `JournalJoin`, `JournalOptimal`, `JournalTimings`): nearest matching
  of depth, order input and order rows, the order-id index, and exactly when matching by time pairs as many inputs as
  any one-to-one pairing could.
- **Brace tracker and bracket finders** (`CpplintNesting`, `CpplintScopes`, `CpplintPaths`, `CpplintTracker`,
  `CpplintBrackets`): the stack of open blocks with preprocessor checkpoints, as pure steps and as objects updated in
  place, what a line, a block's lifetime and a well-nested text leave on it, and the forward and backward multi-line
  bracket scans.
- **Delisting monitor** (`DelistingMonitor`): collection of announcements and the saved state around each push, over
  runs that may die at any step.
- **Binance order tracking and symbols** (`BinanceOrders`, `BinanceReports`, `BinanceSymbols`): registration,
  user-data reports and symbol conversion.

How the models are built: a loop or an in-place update of the source is a method or a class, proved equal to a
specification function; what the source promises is then proved about that function for all inputs or all runs.
The matchers of the join return the index of the row they choose, where the source returns the row. A flag word of
the formatter is the set of its bits. Exceptions are `Result` or `Failed` values. `dafny verify dfyconfig.toml` checks
the whole project.

Facts of the code worth knowing, each proved below:

- The digit counter is one short exactly on [10^16, 10^17), and there the written number loses its top digit.
- An ellipsis with nothing to repeat (at the start, or after an opening bracket, a bar or another ellipsis) is read as
  a command named `...`. A parsed tree is one of the documented grammar exactly if the text has no such ellipsis; and
  printing what any text parsed to gives a text of the same tree.
- Matching orders by time alone pairs as many inputs as possible, at every timing of the rows, exactly if inputs that
  share an order agree (in symbol and client id) with the same orders. A blank symbol between two different ones breaks
  this; mixed blanks alone do not.
- Matching depths by time alone needs more: under a bound, exactly that no two inputs share a depth of which one may
  take another; only where the bound excludes no earlier depth is the condition the one for orders.
- A monitor run loses a code exactly if it saves, without a webhook, a code that was neither queued nor pushed; later
  runs without `--all` never send it.
- A code is pushed again after a push whose reply is lost, after a death between push and save, and when `--all` finds
  a code already pushed, and only then.
- A pending-cancel report ends order tracking, so a later fill of that order is not reported.

Where documentation and code differ the models follow the code: `transform` is documented as an "almost" equivalent
expansion, and the meaning kept here is the one with its two quirks (an optional part counts as present, a repeated
part as present twice); the monitor's documentation names a timed-out request as the one cause of a repeated push,
and a death between push and save is another.

## Model

| member | source | states |
|---|---|---|
| DocoptTransform.RewriteIsLighter | core/deps/fmt-5.3.0/support/docopt.py:79-96 | every turn of the worklist makes the sum over groups of the products of weights strictly smaller, also when OneOrMore duplicates nested groups, so the expansion ends on every tree |
| DocoptTransform.ExpandKeepsMeaning | core/deps/fmt-5.3.0/support/docopt.py:79-96 | from any worklist, the bag of leaf bags of the result is that of the groups it started with |
| DocoptTransform.TransformKeepsMeaning | core/deps/fmt-5.3.0/support/docopt.py:72-96 | the result is one Either of Required leaf lists and has the same bag of leaf bags as the input tree: combinations for Required and Optional, union for Either, children twice for OneOrMore |
| DocoptTransform.Requeue | core/deps/fmt-5.3.0/support/docopt.py:83-93 | the leftmost branch of a group leaves it and its replacements go to the end of the queue in order |
| DocoptTransform.Transform | core/deps/fmt-5.3.0/support/docopt.py:72-96 | the loop over the worklist returns the expansion, cases in first-in first-out order |
| DocoptNodes.RequeueNodes | core/deps/fmt-5.3.0/support/docopt.py:83-93 | over list objects: the branch is removed from its group in place, its replacements are new lists at the end of the queue, and the tree's own lists are not touched |
| DocoptNodes.TransformNodes | core/deps/fmt-5.3.0/support/docopt.py:72-96 | over node and list objects: a new tree whose value is the expansion; no object that existed before, so no part of the input tree, is modified |
| DocoptTransform.RepeatsInSomeCase | core/deps/fmt-5.3.0/support/docopt.py:57-69 | a leaf counts more than once in some expanded case exactly when the meaning of the tree repeats it |
| DocoptTransform.FixRepeatingArguments | core/deps/fmt-5.3.0/support/docopt.py:57-69 | the leaves marked to accumulate are exactly those the tree's meaning repeats |
| DocoptMatch.Match | core/deps/fmt-5.3.0/support/docopt.py:112-279 | a failed match, however deep it failed, hands back the arguments and the log it was given; no match leaves more than it got |
| DocoptMatch.MatchConserves | core/deps/fmt-5.3.0/support/docopt.py:112-279 | what is left is a subsequence of what was given, what is left and what was logged make up what was given, and each kind of argument is taken from the front |
| DocoptMatch.EitherIsBest | core/deps/fmt-5.3.0/support/docopt.py:268-279 | an Either matches iff some alternative does, returns one alternative's outcome, no matching alternative leaves fewer arguments, and the first of the best wins |
| DocoptMatch.RepetitionIsExhausted | core/deps/fmt-5.3.0/support/docopt.py:246-265 | where a OneOrMore stops, one more round would fail or change nothing |
| DocoptMatch.RepetitionInRounds | core/deps/fmt-5.3.0/support/docopt.py:246-265 | a OneOrMore matches iff its first round does, and then goes on as a OneOrMore on what that left, as long as rounds match and take something |
| DocoptMatch.MatchIsSound | core/deps/fmt-5.3.0/support/docopt.py:112-279 | the terminals consumed by a successful match form a word of the pattern's language, defined without the matcher |
| DocoptMatch.FlatMatchesExactly | core/deps/fmt-5.3.0/support/docopt.py:112-229 | a list of terminals matches exactly if there are enough options of each name and enough positionals, and each command stands, among the positional terminals, where the argument of its name stands among the positionals |
| DocoptMatch.CasesMatchExactly | core/deps/fmt-5.3.0/support/docopt.py:112-279 | an expanded pattern matches exactly if some case of it is so served |
| DocoptMatch.RequiredInParts | core/deps/fmt-5.3.0/support/docopt.py:219-229 | a Required of two lists is the first and then the second on what that left, or fails with nothing taken |
| DocoptMatch.OptionalInParts | core/deps/fmt-5.3.0/support/docopt.py:232-238 | an Optional of two lists is the first and then the second on what that left; an options shortcut is an Optional |
| DocoptMatch.OptionalOfOne | core/deps/fmt-5.3.0/support/docopt.py:232-238 | an Optional of one child takes what the child takes where it matches and nothing where it does not |
| DocoptMatch.OptionalTakesAll | core/deps/fmt-5.3.0/support/docopt.py:232-238 | where all children can be had in order, an Optional takes them all, as a Required would |
| DocoptMatch.OptionalIsGreedy | core/deps/fmt-5.3.0/support/docopt.py:232-238 | an Optional that takes nothing has no child that could have taken anything |
| DocoptMatch.FlatOptionalByCount | core/deps/fmt-5.3.0/support/docopt.py:112-238 | of each kind of argument an optional list of terminals without commands takes as many as there are terminals and arguments for, from the front |
| DocoptMatch.FlatOptionalExactly | core/deps/fmt-5.3.0/support/docopt.py:112-238 | with commands as well, what is left of each kind is what its terminals, one after the other, cannot take |
| DocoptMatch.RunMatch | core/deps/fmt-5.3.0/support/docopt.py:112-130 | dispatch and the leaf case return the specified outcome |
| DocoptMatch.RunRequired | core/deps/fmt-5.3.0/support/docopt.py:219-229 | the loop returns the outcome of a Required: all children in order, or the original arguments at the first failure |
| DocoptMatch.RunOptional | core/deps/fmt-5.3.0/support/docopt.py:232-238 | the loop returns the outcome of an Optional: every child takes what it can, and it always matches |
| DocoptMatch.RunOneOrMore | core/deps/fmt-5.3.0/support/docopt.py:246-265 | the loop with its last-left test ends and returns the outcome of a OneOrMore |
| DocoptMatch.RunEither | core/deps/fmt-5.3.0/support/docopt.py:268-279 | collecting outcomes and taking the minimum returns the outcome of an Either |
| DocoptParser.Tokens.Move | core/deps/fmt-5.3.0/support/docopt.py:294-295 | takes the first token off, or nothing when there is none |
| DocoptParser.ParseExpr | core/deps/fmt-5.3.0/support/docopt.py:377-387 | value or error and tokens left are those of the grammar's expr |
| DocoptParser.ParseSeq | core/deps/fmt-5.3.0/support/docopt.py:390-399 | value or error and tokens left are those of the grammar's seq |
| DocoptParser.ParseAtom | core/deps/fmt-5.3.0/support/docopt.py:402-425 | value or error and tokens left are those of the grammar's atom |
| DocoptParser.ParsePattern | core/deps/fmt-5.3.0/support/docopt.py:369-374 | the whole input or an error, with no token left on success |
| DocoptParser.ParseUndoesCanonicalPrint | core/deps/fmt-5.3.0/support/docopt.py:369-425 | printing any tree of the documented grammar (arguments, commands, groups, choices, repetitions) and parsing it returns that tree with no token left |
| DocoptParser.ParseUndoesPrint | core/deps/fmt-5.3.0/support/docopt.py:369-425 | the same for every tree the parser can return, stray ellipses included |
| DocoptParser.ParserImage | core/deps/fmt-5.3.0/support/docopt.py:369-425 | a tree is the parse of some text exactly if it is a tree of the grammar in which, besides, a command named by an ellipsis may stand first or after a repetition |
| DocoptParser.ReprintParsesBack | core/deps/fmt-5.3.0/support/docopt.py:369-425 | printing what any accepted text parsed to and parsing again gives the same tree |
| DocoptParser.CanonicalIffStrayFree | core/deps/fmt-5.3.0/support/docopt.py:369-425 | an accepted text gives a tree of the documented grammar exactly if no ellipsis stands at its start or right after an opening bracket, a bar or an ellipsis |
| DocoptParser.LoneEllipsisIsACommand | core/deps/fmt-5.3.0/support/docopt.py:390-425 | the text that is one ellipsis is accepted as a command of that name |
| DocoptParser.ParsesIffNested | core/deps/fmt-5.3.0/support/docopt.py:369-425 | for every token list, parsing succeeds exactly when round and square brackets nest and all close; nothing else is ever rejected |
| DocoptParser.ErrorIsFirstFault | core/deps/fmt-5.3.0/support/docopt.py:369-415 | the error of a rejected text is its first bracket fault: the innermost open bracket met by another closing one or by the end, or a closing bracket with none open |
| DocoptTexts.AlternativesParse | core/deps/fmt-5.3.0/support/docopt.py:377-387 | texts between bars parse to one choice of what they contribute: of an alternative of several items what it parses to in round brackets, of one item that item, of an empty one nothing; one item left is no choice |
| DocoptTexts.BracketsChangeNothing | core/deps/fmt-5.3.0/support/docopt.py:382-386 | round brackets around any alternative of several items do not change the tree |
| DocoptTexts.EmptyAlternativeVanishes | core/deps/fmt-5.3.0/support/docopt.py:382-386 | an empty alternative beside two others does not change the tree |
| DocoptTexts.BracketedIsOne | core/deps/fmt-5.3.0/support/docopt.py:407-415 | a bracketed text is one item: Required or Optional of what the text parses to alone |
| DocoptTexts.SequencesParse | core/deps/fmt-5.3.0/support/docopt.py:390-399 | one text after another parses to the items of the first followed by those of the second |
| DocoptTexts.EllipsisRepeats | core/deps/fmt-5.3.0/support/docopt.py:395-398 | an ellipsis after a bracketed text makes it a repetition |
| DtfNumerals.NumChars | core/extensions/common/src/dtf.cpp:58-67 | the decimal length of every 64-bit number, except 16 on [10^16, 10^17) |
| DtfNumerals.DigitsValue | core/extensions/common/src/dtf.cpp:69-94 | n written digits denote the number modulo 10^n |
| DtfNumerals.Utoa | core/extensions/common/src/dtf.cpp:69-94 | exactly the n bytes at the pointer become the last n digits; over 20 nothing is written |
| DtfNumerals.TimestampToChars | core/extensions/common/src/dtf.cpp:98-109 | the buffer starts with digits that denote the whole seconds, milli-, micro- or nanoseconds of the timestamp (modulo 10^16 for 17-digit counts), the rest is untouched |
| DtfNumerals.NumberTextDenotes | core/extensions/common/src/dtf.cpp:98-109 | the text denotes the number iff it is outside [10^16, 10^17), then without a leading zero; inside it is the number modulo 10^16 |
| DtfCalendar.PosixOrders | core/extensions/common/src/dtf.cpp:144-202 | the section 4.16 formula orders valid dates as the calendar does and no two valid dates share a value |
| DtfCalendar.CivilUnique | core/extensions/common/src/dtf.cpp:144-202 | a valid date whose formula value is ss is the date of ss |
| DtfCalendar.YearRange | core/extensions/common/src/dtf.cpp:180-189 | every date a 64-bit nanosecond count reaches lies in 1970..2554 |
| DtfCalendar.YearLoop | core/extensions/common/src/dtf.cpp:180-189 | subtracting whole years leaves the year and the day within it that the formula's leap terms say |
| DtfCalendar.MonthAndDay | core/extensions/common/src/dtf.cpp:191-202 | the leap-day shift and the scan of the common-year table give the month and day of the year day |
| DtfCalendar.CivilFields | core/extensions/common/src/dtf.cpp:171-202 | the computed fields are the one valid date whose formula value is ss, in 1970..2554 |
| DtfText.TextHasFixedLength | core/extensions/common/src/dtf.cpp:204-247 | for given flags every text has one length, below the 32-byte buffer |
| DtfText.PutFraction | core/extensions/common/src/dtf.cpp:232-245 | skipping over pre-filled zeros and writing the counted digits gives the zero-padded fraction |
| DtfText.TimestampToDtChars | core/extensions/common/src/dtf.cpp:144-248 | what is written reads back: at the places of the layout, digits that denote day, month, year, hour, minute, second and fraction of the one valid date whose formula value is the second, with the style's separators between; then zeros up to 32 bytes, nothing changed beyond, and the length returned |
| DtfText.TextReadsBack | core/extensions/common/src/dtf.cpp:144-248 | the same of the text, for both layouts, every style and resolution |
| DtfText.TextOrder | core/extensions/common/src/dtf.cpp:126-248 | year-first texts of one flag word compare, and coincide, exactly as the timestamps cut to the resolution |
| DtfText.DtStrFlags | core/extensions/common/src/dtf.cpp:267-279 | on a buffer that starts with the text written for any timestamp with one layout, one separator style and one resolution, and given its length, exactly those three flags |
| DtfText.FlagsRoundTrip | core/extensions/common/src/dtf.cpp:144-279 | the three characters and the length of any written text, whatever follows it, tell the layout, separator style and resolution it was written with |
| StableSort.SortIsStable | scripts/benchmark/analysis/summarize_latency_journal.py:340-341 | sorting orders rows by time and keeps rows of equal time in their order, none lost or added |
| JournalJoin.JobIsByTime | scripts/benchmark/analysis/summarize_latency_journal.py:340-341 | each stream of the join holds the given rows by time, a missing time counting as 0 |
| JournalMatch.Best | scripts/benchmark/analysis/summarize_latency_journal.py:354-373 | the scan's choice is unused and eligible, nothing eligible has a smaller delay, and the first of equals wins; no choice means nothing was eligible |
| JournalMatch.MatchDepthByPriceSide | scripts/benchmark/analysis/summarize_latency_journal.py:344-373 | chooses the nearest earlier unused depth of the side's price and adds exactly it to the used set |
| JournalMatch.MatchDepthByTime | scripts/benchmark/analysis/summarize_latency_journal.py:376-400 | chooses the nearest earlier unused depth within the bound and adds exactly it to the used set |
| JournalMatch.BuildOrderIdIndex | scripts/benchmark/analysis/summarize_latency_journal.py:413-421 | for every non-empty id the index lists the unused orders with it in order, and nothing else |
| JournalMatch.PositionsExactly | scripts/benchmark/analysis/summarize_latency_journal.py:413-421 | what the index lists for an id are exactly the positions of unused orders with it, each once, in increasing order |
| JournalMatch.IndexIsScan | scripts/benchmark/analysis/summarize_latency_journal.py:424-446 | choosing through the index built at the start equals a full scan of the currently unused orders, whatever has been used since |
| JournalMatch.MatchOrderById | scripts/benchmark/analysis/summarize_latency_journal.py:424-446 | chooses by the index what the full scan would and adds exactly it to the used set |
| JournalMatch.MatchOrderByTime | scripts/benchmark/analysis/summarize_latency_journal.py:449-478 | chooses the earliest later unused compatible order within the bound and adds exactly it to the used set |
| JournalJoin.MatchDepth | scripts/benchmark/analysis/summarize_latency_journal.py:403-410 | price and side first, time second, with the method that applied |
| JournalJoin.MatchOrder | scripts/benchmark/analysis/summarize_latency_journal.py:481-488 | order id first, time second, with the method that applied |
| JournalJoin.JoinJournal | scripts/benchmark/analysis/summarize_latency_journal.py:491-543 | one row per sorted input with its matches and latencies, and the counts of those rows |
| JournalJoin.RowIsCausal | scripts/benchmark/analysis/summarize_latency_journal.py:507-543 | with all times present depth time is at most input time, input time at most order time, and the total is the sum of the two stages |
| JournalJoin.LatenciesMeasure | scripts/benchmark/analysis/summarize_latency_journal.py:512-518 | from the times of the rows alone, missing or not: depth time plus the first latency is the input time, input time plus the second the order time, depth time plus the total the order time, or the input time where there is no order time; and each cell is empty exactly where one of its ends is missing |
| JournalJoin.DepthIsJustified | scripts/benchmark/analysis/summarize_latency_journal.py:344-410 | a depth whose bid (for a buyer) or ask (for a seller) is within the tolerance of the price comes first, then one within the time bound; of the unused ones that qualify the latest is taken, the first of those; no depth means that none qualified |
| JournalJoin.OrderIsJustified | scripts/benchmark/analysis/summarize_latency_journal.py:424-488 | an order of the same id comes first, then a later one within the bound whose ids and symbol do not differ; of the unused ones that qualify the soonest is taken, the first of those; no order means that none qualified |
| JournalJoin.UsedAtMostOnce | scripts/benchmark/analysis/summarize_latency_journal.py:495-509 | no depth and no order is matched with two inputs |
| JournalJoin.UsedByEarlierRows | scripts/benchmark/analysis/summarize_latency_journal.py:495-509 | what is used before an input is exactly what the rows of earlier inputs hold |
| JournalJoin.CountsBalance | scripts/benchmark/analysis/summarize_latency_journal.py:499-511 | each family of counts adds up to the inputs and its matches to the size of the used set |
| JournalJoin.CountsAreMultiplicities | scripts/benchmark/analysis/summarize_latency_journal.py:499-511 | each of the six counts is the number of rows matched by its method |
| StableSort.SortFinds | scripts/benchmark/analysis/summarize_latency_journal.py:340-341 | two rows whose times no other row has are each found once in the sorted list, the earlier first, and every other place holds another row |
| JournalOptimal.PickIsNearest | scripts/benchmark/analysis/summarize_latency_journal.py:376-400 | on either side the row an input gets by time is unused, fits and has least delay; if it gets none, nothing unused fits |
| JournalOptimal.GreedyIsMaximum | scripts/benchmark/analysis/summarize_latency_journal.py:491-511 | on either side, from any input on, no one-to-one pairing of the remaining inputs with unused rows is larger than what the join still matches, if an earlier input's choice can always be exchanged |
| JournalOptimal.OrdersExchange | scripts/benchmark/analysis/summarize_latency_journal.py:449-478 | a later input that fits the earlier of two orders of an earlier input also fits the later of them |
| JournalOptimal.DepthsExchange | scripts/benchmark/analysis/summarize_latency_journal.py:376-400 | where the bound excludes no earlier depth, a later input that fits one depth of an earlier input fits the others |
| JournalTimings.OrderSideIsMaximum | scripts/benchmark/analysis/summarize_latency_journal.py:491-511 | without order ids, and where inputs that share an order agree with the same orders, the join matches as many inputs as any one-to-one pairing within the bound, at any times, missing ones included |
| JournalTimings.OrderSideExact | scripts/benchmark/analysis/summarize_latency_journal.py:449-511 | for given rows that holds at every timing exactly if inputs that share an order agree with the same orders |
| JournalTimings.RivalOrdersLose | scripts/benchmark/analysis/summarize_latency_journal.py:469-472 | for any rows against the condition, times at which the join matches one input and two could be paired |
| JournalTimings.DepthSideExact | scripts/benchmark/analysis/summarize_latency_journal.py:376-410 | without order sides, the depth side matches most at every timing exactly if no two inputs share a depth of which one may take another |
| JournalTimings.UnboundedDepthSideExact | scripts/benchmark/analysis/summarize_latency_journal.py:376-410 | where the bound excludes no earlier depth, exactly if inputs that share a depth agree with the same depths |
| JournalTimings.ChainedDepthsLose | scripts/benchmark/analysis/summarize_latency_journal.py:389-397 | for any rows with such a shared depth, times at which taking the nearest depth loses a pair |
| JournalTimings.MixedBlanksLoseAPair | scripts/benchmark/analysis/summarize_latency_journal.py:469-472 | inputs for X and Y, an order without a symbol and one for X can lose a pair |
| JournalTimings.TwoDepthsLoseAPair | scripts/benchmark/analysis/summarize_latency_journal.py:389-397 | two inputs and two depths of one symbol can lose a pair under any bound |
| CpplintNesting.BracesUnwind | core/deps/SQLiteCpp-2.3.0/cpplint.py:2053-2087 | marks whose braces close in order give back the stack they started from, whatever semicolons and parentheses lie between |
| CpplintNesting.HeadUnwinds | core/deps/SQLiteCpp-2.3.0/cpplint.py:2053-2087 | a class or namespace head is gone after its closed body, or after a semicolon or parenthesis that comes before any brace |
| CpplintScopes.DeclaredExactly | core/deps/SQLiteCpp-2.3.0/cpplint.py:1946-2051 | before the braces of a line the innermost block has counted its parentheses and, if nothing is declared, taken its access keyword; then comes a block for each namespace head, in order and by name, and a class block with the default or given access exactly if the head stands outside parentheses |
| CpplintScopes.CountedBlock | core/deps/SQLiteCpp-2.3.0/cpplint.py:1946-1965 | counting parentheses changes nothing else of a block but its assembly state, which enters on a first open parenthesis of an assembly line and ends when all are closed |
| CpplintScopes.NamespaceLine | core/deps/SQLiteCpp-2.3.0/cpplint.py:1967-1987 | a line of braced namespace heads leaves one named block each above the stack if its other braces close among themselves, and the stack alone if they close the namespaces too |
| CpplintScopes.BlockHistory | core/deps/SQLiteCpp-2.3.0/cpplint.py:1946-2051 | through any lines that do not take a block off, its open parentheses are the sum of the parentheses of the lines that found it innermost, its kind stays, and a class's access is the last keyword met in it outside inner blocks |
| CpplintScopes.NothingToClose | core/deps/SQLiteCpp-2.3.0/cpplint.py:2071-2086 | with nothing open, closing braces, semicolons and parentheses do nothing |
| CpplintPaths.ItemsLeave | core/deps/SQLiteCpp-2.3.0/cpplint.py:1941-2087 | complete namespaces, classes, blocks, forward declarations and calls over two lines, nested to any depth, leave the stack as it was, but for the last access keyword of a class at its own level |
| CpplintPaths.StackIsPath | core/deps/SQLiteCpp-2.3.0/cpplint.py:1941-2087 | at any place of a well-nested text the stack is the path of the scopes around it, each with its name and its access at that place |
| CpplintNesting.UpdateSimulates | core/deps/SQLiteCpp-2.3.0/cpplint.py:1876-1930 | one update keeps the stack of the kept text: it takes the line iff the line is outside every alternative |
| CpplintNesting.RunKeepsText | core/deps/SQLiteCpp-2.3.0/cpplint.py:1876-2087 | through any lines, balanced or not, the kept stack is the fold of the kept lines |
| CpplintNesting.OutsideAlternatives | core/deps/SQLiteCpp-2.3.0/cpplint.py:1876-2087 | whenever no alternative is open the tracker's stack is that of the text without alternatives |
| CpplintNesting.BalancedRun | core/deps/SQLiteCpp-2.3.0/cpplint.py:1876-2087 | directive-balanced lines, from any state, leave the checkpoints as they were and the stack of the text without alternatives |
| CpplintNesting.KeepOfGroup | core/deps/SQLiteCpp-2.3.0/cpplint.py:1886-1892 | of a group, what is kept is the #if line, the first branch cleared in the same way and the #endif line |
| CpplintTracker.DeepCopy | core/deps/SQLiteCpp-2.3.0/cpplint.py:1900 | the copy holds the same blocks by value in new, distinct objects |
| CpplintTracker.NestingState.UpdatePreprocessor | core/deps/SQLiteCpp-2.3.0/cpplint.py:1876-1930 | over shared, mutable blocks the checkpoint step is the step on values, and current and saved stacks never share a block |
| CpplintTracker.NestingState.UpdateRest | core/deps/SQLiteCpp-2.3.0/cpplint.py:1941-2087 | changing blocks in place is the step on values and leaves every checkpoint as saved |
| CpplintTracker.NestingState.Update | core/deps/SQLiteCpp-2.3.0/cpplint.py:1932-2087 | a whole update is the step on values |
| CpplintTracker.TrackLines | core/deps/SQLiteCpp-2.3.0/cpplint.py:1932-2087 | after all updates of a balanced file the block objects hold the stack of its text without alternatives, and the checkpoints are restored |
| CpplintBrackets.FindEndOfExpressionInLine | core/deps/SQLiteCpp-2.3.0/cpplint.py:1234-1255 | one past the first closing bracket that brings the depth to zero, or the depth at the end of the line |
| CpplintBrackets.CloseExpression | core/deps/SQLiteCpp-2.3.0/cpplint.py:1258-1301 | for each of the four kinds of brackets, one past the partner of the bracket in the flattened text, or nothing exactly when it has none; nothing for any other character |
| CpplintBrackets.FindStartOfExpressionInLine | core/deps/SQLiteCpp-2.3.0/cpplint.py:1304-1328 | the last opening bracket that brings the depth to zero, or the depth at the beginning of the line |
| CpplintBrackets.ReverseCloseExpression | core/deps/SQLiteCpp-2.3.0/cpplint.py:1331-1373 | for each of the four kinds, the partner of the bracket in the flattened text, or nothing exactly when it has none; nothing for any other character |
| CpplintBrackets.ReverseUndoesClose | core/deps/SQLiteCpp-2.3.0/cpplint.py:1258-1373 | searching back from the bracket before a found end returns to the line and position of the opening bracket |
| CpplintBrackets.CloseUndoesReverse | core/deps/SQLiteCpp-2.3.0/cpplint.py:1258-1373 | closing the bracket a backward search found returns one past where that search began |
| DelistingMonitor.FirstHitsAreFirst | strategies/binance_delisting_monitor/binance_delisting_monitor.py:328-353 | the announcement kept for a code is that of its first hit |
| DelistingMonitor.CollectedOnce | strategies/binance_delisting_monitor/binance_delisting_monitor.py:328-356 | the collected list is newest first and holds every code that hits exactly once |
| DelistingMonitor.Collect | strategies/binance_delisting_monitor/binance_delisting_monitor.py:316-356 | the loop over pages returns the first hits, sorted |
| DelistingMonitor.PagesInOrder | strategies/binance_delisting_monitor/binance_delisting_monitor.py:328-353 | the hits are those of the pages one after the other |
| DelistingMonitor.RunEffect | strategies/binance_delisting_monitor/binance_delisting_monitor.py:433-485 | the seen and queued codes and the pushes after a run, from those before it, its hits, its options and how far it gets |
| DelistingMonitor.QueueHolds | strategies/binance_delisting_monitor/binance_delisting_monitor.py:440-443 | a queued code stands for the last announcement queued with it, and the others stay as they were |
| DelistingMonitor.RecordHolds | strategies/binance_delisting_monitor/binance_delisting_monitor.py:445-447 | a code first seen is recorded with the title of its first announcement |
| DelistingMonitor.Monitor.RunOnce | strategies/binance_delisting_monitor/binance_delisting_monitor.py:419-485 | state file and pushes after the run; no exit code if it died, 1 if its push was not answered for, 0 otherwise |
| DelistingMonitor.RunLosesNothing | strategies/binance_delisting_monitor/binance_delisting_monitor.py:433-485 | a run leaves a code seen but neither pending nor pushed exactly if it saves, without a webhook, a hit that was neither before |
| DelistingMonitor.RunsLoseNothing | strategies/binance_delisting_monitor/binance_delisting_monitor.py:433-485 | over any webhook or dry runs, dying anywhere, every code in the saved seen is pending or was pushed |
| DelistingMonitor.RunsLoseExactly | strategies/binance_delisting_monitor/binance_delisting_monitor.py:433-485 | over any runs without --all, something is lost at the end exactly if one of the runs lost it: nothing makes up for it |
| DelistingMonitor.CompletedRunSettles | strategies/binance_delisting_monitor/binance_delisting_monitor.py:470-485 | a completed run with a webhook leaves nothing pending and everything seen pushed |
| DelistingMonitor.PendingUntilPushed | strategies/binance_delisting_monitor/binance_delisting_monitor.py:470-483 | a queued code stays queued through any run until a completed push that contains it |
| DelistingMonitor.RunStaysOrderly | strategies/binance_delisting_monitor/binance_delisting_monitor.py:433-485 | a run keeps pushed codes out of the queue and pushes disjoint exactly if its push, if any, is answered for and --all queues nothing pushed before |
| DelistingMonitor.PushedAtMostOnce | strategies/binance_delisting_monitor/binance_delisting_monitor.py:433-485 | over any runs that are careful in this sense, no code is in two pushes |
| DelistingMonitor.PushedTwiceExactly | strategies/binance_delisting_monitor/binance_delisting_monitor.py:433-485 | over any runs followed by one that delivers, no code is in two pushes exactly if every run was careful |
| DelistingMonitor.NeverResent | strategies/binance_delisting_monitor/binance_delisting_monitor.py:437-446 | a code seen and not queued is never pushed by runs without --all, whatever becomes of them |
| DelistingMonitor.UnansweredPushRepeats | strategies/binance_delisting_monitor/binance_delisting_monitor.py:476-483 | after any push with a lost reply or a death before the save, the next push that gets through contains all of it, and it was not empty |
| DelistingMonitor.FirstPushRepeats | strategies/binance_delisting_monitor/binance_delisting_monitor.py:476-483 | so it happens to a first run and an idle second one |
| DelistingMonitor.RunWithoutWebhookLoses | strategies/binance_delisting_monitor/binance_delisting_monitor.py:438-449 | a first run without a webhook loses any code it finds |
| BinanceOrders.Trader.InsertOrder | core/extensions/binance/src/trader_binance.cpp:94-105 | registers the order under its id unless the id is registered already |
| BinanceOrders.Trader.OnOrderUpdate | core/extensions/binance/src/trader_binance.cpp:363-413 | reports a tracked order and forgets it unless its status is active; other updates change nothing |
| BinanceOrders.RunIsSound | core/extensions/binance/src/trader_binance.cpp:94-478 | over any interleaving of distinct inserts and updates, tracked ids are those inserted without a closing report, reports go to the inserting source, keep its figures with traded plus left equal to volume and tell one update of the stream that names the order by its client id, with the status that renders the exchange's, and only the last report of an order closes it |
| BinanceReports.TrackedByOwner | core/extensions/binance/src/trader_binance.cpp:94-105 | at every point of any run an order is tracked exactly if some insert of its id has met no closing update since, and by the record of the first such insert |
| BinanceReports.ReportsAreDue | core/extensions/binance/src/trader_binance.cpp:363-413 | over any events, repeated ids included, the reports are one for each update without error that finds such an insert, in the order of the updates and nothing else |
| BinanceReports.ReportsOfAnOrder | core/extensions/binance/src/trader_binance.cpp:94-478 | with distinct ids the reports of an inserted order are its updates after the insert, each once and in order, up to and including the first that is not active |
| BinanceOrders.TrackingContinues | core/extensions/binance/src/trader_binance.cpp:397-409 | tracking goes on exactly for new and partially filled orders, so pending cancels and unknown statuses end it |
| BinanceOrders.LateUpdateIsDropped | core/extensions/binance/src/trader_binance.cpp:374-411 | after a report that is not active, any later update of the order changes and reports nothing |
| BinanceSymbols.ToBinanceSymbol | core/extensions/binance/include/type_convert_binance.h:111-122 | splitting, upper-casing and joining is upper case without underscores |
| BinanceSymbols.FromBinanceSymbol | core/extensions/binance/include/type_convert_binance.h:124-142 | an underscore before the first listed quote coin the symbol ends with, in lower case; otherwise unchanged |
| BinanceSymbols.UnlistedUnchanged | core/extensions/binance/include/type_convert_binance.h:124-142 | a symbol that ends in none of the five coins is not changed at all |
| BinanceSymbols.ExchangeRoundTrip | core/extensions/binance/include/type_convert_binance.h:111-142 | every upper-case symbol without underscore survives the way to the local form and back |
| BinanceSymbols.LocalRoundTrip | core/extensions/binance/include/type_convert_binance.h:111-142 | every lower-case base without underscore, joined to btc, usdt, bnb, busd or eth, survives the way to the exchange and back |

## Left out

- Long and short option parsing, defaults sections and the tokenising regular expressions of docopt: tokens come classified; Option leaves occur in transform and match only.
- DocoptMatch.Match: the log holds every consumption; merging repeated names into one accumulated value, which the code does in the shared collected objects, is not modelled.
- DocoptTransform.FixRepeatingArguments: gives the leaves whose values change, not the list, split string or zero they change to.
- Clocks, the string wrappers and time-zone offsets of the formatter; `Utoa` writes as a loop what the source writes as a fall-through switch.
- Conversion of journal cells to numbers, percentiles and CSV output: times are integers, prices exact reals, and the columns copied from input rows are not in the joined row.
- JournalTimings.OrderSideIsMaximum: says nothing where inputs carry order ids, because the id stage ignores the time bound that pairings obey.
- JournalTimings.OrderSideExact: the condition is shown necessary for bounds of at least 2; under 2 it suffices, but what is necessary depends on the order of rows of equal time.
- JournalTimings.DepthSideExact: for inputs without a side, which the price stage skips, and for bounds of at least 1; under 1 the condition suffices.
- `transform` on objects: fix_identities, which shares equal terminals, comes before it and is not modelled; DocoptNodes allows trees that share nodes.
- CpplintPaths.StackIsPath: texts lay out one opener, access keyword, forward declaration or half of a call on a line, without directives; lines that hold several are described by CpplintScopes.DeclaredExactly, NamespaceLine and the braces they close.
- Regular expressions of cpplint: lines come with their directive, parenthesis balance, declarations, access keyword and marks already recognised; error messages, indentation checks and the is_derived and last_line fields are left out.
- Announcement text, HTTP details, JSON output and the out file of the monitor: a failure in them is a run that dies before its push. A state file is either absent or well formed.
- DelistingMonitor.Monitor.RunOnce: pushes are recorded as sets of codes; the recorded first-seen time is left out.
- REST calls and their callbacks in the trader, which publish without consulting the tracked orders; average price, fees and profit of a report; data races on the order map.
- BinanceOrders.RunIsSound: ids are distinct, as the engine hands them out; quantities are exact numbers.
- Triangular arbitrage, the benchmark scripts other than the join, and the engine bindings: not part of this model.
