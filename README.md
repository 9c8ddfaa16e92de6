# Homework data structures, modelled and verified in Dafny

This project models the data-structure core of four small Java programs and
proves what they promise:

- **N-gram text model** (`hw5`). `NGramController` slides an N-token window over
  text split on spaces. It strips each context key and target with `stripWord`
  and adds the target to the predictor stored under the key. `predictNext`
  looks up the stripped trailing context of a sentence and falls back to random
  keys. `CountPredictor` is a word→count map with a lazily rebuilt cumulative
  view. `ListPredictor` is a list that keeps duplicates.
- **Twenty questions** (`hw4`). `QuestionTree` is a binary tree of `Q:`/`A:`
  texts with a cursor. It is read from a file in preorder, one line per node,
  and written back by `toString`. `nextQuestion` walks it and `addQuestion`
  learns a new item.
- **DNA short-tandem-repeat matcher** (`hw1`). `DNAFileParser` turns a CSV
  database into an STR header and `Person` records. `DNAMatcher.match` counts
  the non-overlapping occurrences of each STR in a sample and returns the
  people who share the most STR counts with it, as a `MatchResult`.
- **List routines and a dulcimer** (`hw3`, `hw2`). `getCounts`/`getCountsV2`
  count digits into an array. `addRemove` and `addNums` update a list in place.
  A `DulcimerString` is a ring buffer of sound values tuned by the note's
  offset from middle C. A `Dulcimer` strikes and samples its strings.

Files:

| file | module | models |
|---|---|---|
| `Wrappers.dfy` | `Wrappers` | `Option` (Java `null`) and `Result` (an exception) |
| `JavaText.dfy` | `JavaText` | the `String`/`Character`/`Integer`/`Random` operations the programs call, ASCII only |
| `NGramCount.dfy` | `NGramCount` | `CountPredictor` and its cumulative view |
| `NGramList.dfy` | `NGramList` | `ListPredictor` |
| `NGramModel.dfy` | `NGramModel` | `NGramController` and `stripWord` |
| `QuestionTree.dfy` | `QuestionTrees` | `QuestionTree` and `QuestionNode` |
| `DnaRecords.dfy` | `DnaRecords` | `Person`, `MatchResult`, `ResultType` |
| `DnaMatcher.dfy` | `DnaMatching` | `DNAMatcher` |
| `DnaFileParser.dfy` | `DnaFiles` | `DNAFileParser` |
| `ListRoutines.dfy` | `ListRoutines` | `getCounts`, `getCountsV2`, `addRemove`, `addNums` |
| `Dulcimers.dfy` | `Dulcimers` | `DulcimerString`, `Dulcimer` |

Objects whose fields the Java code updates in place are Dafny classes:

- `CountPredictor`, `ListPredictor` and `NGramController`;
- `QuestionTree` (root and cursor), `DNAMatcher` and `DNAFileParser`;
- the `List<Integer>` of the list routines;
- `DulcimerString` and `Dulcimer`.

Their loops are `while`/`for` loops proved against specification functions:

- `Feed` against `FeedTable`, `StripWord` against `Strip`;
- `Match` against `MatchOf`, `ParseDNA` against `ParseData`;
- `GetCounts` against `Frequencies`, `OffsetFromMiddleC` against `Offset`.

Lemmas then state the properties of those functions.

Randomness is a parameter:

- `NextInt(draw, bound)` stands for `Random.nextInt(bound)` on a given draw,
  and every value in range is reachable.
- `DrawWeight` stands for `nextInt(total) + 1`.
- The values of `nextDouble()` are passed in as reals.

Three behaviours of the N-gram code are easy to misread; the model follows
the code in each:

- `feed` and `predictNext` apply `stripWord` to the joined context key as one
  string (NGramController.java:44 and :86). Only the ends of the key are
  trimmed, so punctuation between the key's words survives.
- `CountPredictor.predict` returns the entry with the largest cumulative weight
  not above the drawn weight (CountPredictor.java:67-71). Its Javadoc
  (CountPredictor.java:50-51) calls this fitness proportionate selection, but a
  word is not chosen with probability count/total (see Findings).
- `predictNext` on an empty table throws from `nextInt(0)`
  (NGramController.java:101); the model reports this as `EmptyModel`. A table
  whose predictors are all empty makes the fallback loop run forever (see
  Findings).

## Model

| member | source | states |
|---|---|---|
| JavaText.ToLower | hw5/src/NGramController.java:130 | the lower-cased string has the same length, and each character is its ASCII lower case |
| JavaText.ToUpper | hw1/src/DNAFileParser.java:55 | the upper-cased string has the same length, and each character is its ASCII upper case |
| JavaText.FindFrom | hw1/src/DNAMatcher.java:83 | the match found is the leftmost occurrence of the separator at or after the start, and none means there is no occurrence |
| JavaText.DropTrailingEmpty | hw5/src/NGramController.java:41 | `split` drops exactly the trailing empty pieces: the result is a prefix, its last piece is non-empty, and every dropped piece is empty |
| JavaText.SpaceFrom | hw2/src/Dulcimer.java:18 | the first whitespace character at or after the start is found, and none means there is none |
| JavaText.SolidFrom | hw2/src/Dulcimer.java:18 | a run of `\s+` ends at the first non-space character |
| JavaText.ParseInt | hw1/src/DNAFileParser.java:66 | `Integer.parseInt` yields only values in the 32-bit range; anything else is a NumberFormatException |
| JavaText.NextInt | hw3/src/Main.java:59 | `random.nextInt(bound)` lies in [0, bound) |
| JavaText.NextIntCovers | hw5/src/ListPredictor.java:39 | every value in [0, bound) is produced by some draw |
| JavaText.NextIntIsRemainder | hw5/src/ListPredictor.java:39 | the draw is a whole multiple of the bound plus the value drawn |
| NGramCount.AddWord | hw5/src/CountPredictor.java:81-89 | a blank word changes nothing; any other word is added to the keys, its count goes up by exactly one (new words start at 1), and every other count is unchanged |
| NGramCount.Total | hw5/src/CountPredictor.java:63 | the total of a well-formed map is at least its number of words |
| NGramCount.AddWordTotal | hw5/src/CountPredictor.java:85-86 | `add` raises the total by one exactly when the word is not blank |
| NGramCount.SumOfIsTotal | hw5/src/CountPredictor.java:42-43 | summing the counts in any order that lists every word once gives the total |
| NGramCount.CumulativeShape | hw5/src/CountPredictor.java:40-46 | the rebuilt view lists each word once with the previous running sum plus its count; the sums strictly increase and the last one is the total |
| NGramCount.BestAtMostSpec | hw5/src/CountPredictor.java:67-71 | the filter/max finds nothing exactly when every cumulative weight exceeds the draw; otherwise it finds the largest weight within the draw |
| NGramCount.SelectAsWrittenPicks | hw5/src/CountPredictor.java:67-71 | as written, entry i is returned exactly for the weights from its own running sum up to just below the next running sum |
| NGramCount.SelectAsWrittenNull | hw5/src/CountPredictor.java:67-71 | as written, a non-empty predictor returns null exactly when the weight is below the first running sum |
| NGramCount.SelectAsWrittenAtTotal | hw5/src/CountPredictor.java:65-71 | the largest weight, the total, always yields the last word |
| NGramCount.SelectCovering | hw5/src/CountPredictor.java:50-53 | the fitness-proportionate rule finds nothing exactly when every cumulative weight is below the draw |
| NGramCount.SelectCoveringPicks | hw5/src/CountPredictor.java:50-53 | corrected rule: every weight in [1, total] yields a word, and word i is chosen for exactly its count-many weights |
| NGramCount.NullOnNonEmptyAsWritten | hw5/src/CountPredictor.java:67-71 | a predictor holding "cat" twice returns null for weight 1 |
| NGramCount.SkewAsWritten | hw5/src/CountPredictor.java:27-30 | on the documentation's own example, "text" (count 1) wins two weights and "word" (count 2) one |
| NGramCount.DrawWeight | hw5/src/CountPredictor.java:65 | the drawn weight lies in [1, total] |
| NGramCount.DrawWeightIsNextInt | hw5/src/CountPredictor.java:65 | the weight is `nextInt(total) + 1` for the same draw |
| NGramCount.EveryWeightDrawn | hw5/src/CountPredictor.java:65 | every weight in [1, total] is drawn by some draw |
| NGramCount.CountPredictor.constructor | hw5/src/CountPredictor.java:20-22 | a new predictor has no counts and a null cache |
| NGramCount.CountPredictor.Add | hw5/src/CountPredictor.java:81-89 | the counts become `AddWord` of the old counts; the cache is cleared unless the word is blank |
| NGramCount.CountPredictor.GenerateWeights | hw5/src/CountPredictor.java:34-47 | a present cache is kept; a null one is rebuilt as a cumulative view of the counts; the counts are unchanged |
| NGramCount.CountPredictor.TotalCounts | hw5/src/CountPredictor.java:63 | the reduce returns the sum of all counts |
| NGramCount.CountPredictor.Predict | hw5/src/CountPredictor.java:56-72 | an empty map gives null; otherwise the result is the as-written selection for the drawn weight on the rebuilt view; a word returned is stored; the counts never change |
| NGramList.Multiplicities | hw5/src/ListPredictor.java:19 | the list seen as a word→count map counts each word as often as the list holds it |
| NGramList.AddAgrees | hw5/src/ListPredictor.java:49-54 | `add` on the list and `add` on the count map agree on every word's multiplicity |
| NGramList.ReplayAgrees | hw5/src/ListPredictor.java:49-54 | any sequence of additions keeps the list and count variants in agreement |
| NGramList.ListPredictor.constructor | hw5/src/ListPredictor.java:24-26 | a new predictor has an empty list |
| NGramList.ListPredictor.Add | hw5/src/ListPredictor.java:49-54 | a blank word is ignored; any other is appended, keeping duplicates and the earlier order |
| NGramList.ListPredictor.Predict | hw5/src/ListPredictor.java:34-40 | null exactly when the list is empty; otherwise the element at index `nextInt(size)`; the list is unchanged |
| NGramList.ListPredictor.EveryElementReachable | hw5/src/ListPredictor.java:39 | every element of a non-empty list is returned for some draw |
| NGramModel.StripShape | hw5/src/NGramController.java:123-131 | `stripWord` returns a lower-case string that is empty or starts and ends with a letter |
| NGramModel.StripEmptyIff | hw5/src/NGramController.java:123-131 | the result is empty exactly when the word has no letter |
| NGramModel.StripIsLetterSpan | hw5/src/NGramController.java:123-131 | only the outer ends are stripped: the result is the lower-cased span from the first letter to the last |
| NGramModel.StripIdempotent | hw5/src/NGramController.java:123-131 | stripping twice changes nothing |
| NGramModel.StripWord | hw5/src/NGramController.java:123-131 | the two trimming loops and `toLowerCase` compute `Strip` |
| NGramModel.Windows | hw5/src/NGramController.java:43 | feed visits one window per i = 0..L−N |
| NGramModel.WindowsAt | hw5/src/NGramController.java:43-45 | window i is the stripped join of tokens i..i+N−2 with the stripped token i+N−1 |
| NGramModel.WindowOf | hw5/src/NGramController.java:44-45 | the loop body's two `stripWord` calls compute window i |
| NGramModel.FeedTableStep | hw5/src/NGramController.java:46-52 | one more window applies that window's update to the table fed so far |
| NGramModel.FeedTableCounts | hw5/src/NGramController.java:39-54 | feeding keeps every key and adds exactly the windows' keys; each count rises by the number of windows pairing it with its key, and blank targets are never counted |
| NGramModel.FeedTableGrows | hw5/src/NGramController.java:46-52 | feeding never removes a key nor lowers a count |
| NGramModel.NGramController.constructor | hw5/src/NGramController.java:27-32 | a model of order N ≥ 2 starts with an empty table |
| NGramModel.NGramController.AddToKey | hw5/src/NGramController.java:46-52 | an unseen key gets a fresh predictor and a seen one keeps its own; the target is added to it and no other key changes |
| NGramModel.NGramController.AddEmpty | hw5/src/NGramController.java:49-51 | an unseen key is mapped to a new empty predictor |
| NGramModel.NGramController.AddToPredictor | hw5/src/NGramController.java:47 | only the key's predictor changes, by `AddWord` |
| NGramModel.NGramController.FeedWindow | hw5/src/NGramController.java:44-52 | one window's update of the table |
| NGramModel.NGramController.Feed | hw5/src/NGramController.java:39-54 | the new table is `FeedTable` of the old one over the windows of `s.split(" ")` |
| NGramModel.NGramController.PredictAt | hw5/src/NGramController.java:90-91 | the key's predictor predicts as `Predict` states; the table is unchanged |
| NGramModel.NGramController.Retry | hw5/src/NGramController.java:101-102 | one iteration asks the predictor of `keys[nextInt(size)]`, builds its view and yields exactly that predictor's attempt; earlier failed retries stay failed |
| NGramModel.NGramController.Fallback | hw5/src/NGramController.java:96-104 | an empty table throws (EmptyModel); otherwise the answer is the sentence plus the word of the first retry whose predictor yields one, with every earlier retry yielding null, and running out of draws means every retry yielded null; the word is stored under some key |
| NGramModel.NGramController.AllEmptyRunsOut | hw5/src/NGramController.java:99-103 | when every stored predictor is empty, the fallback over a non-empty table yields no word for any draws |
| NGramModel.NGramController.PredictNext | hw5/src/NGramController.java:78-105 | when the context key's predictor yields a word, that word is appended; when the key is absent or its predictor yields null, the outcome is the fallback loop's over the key array; an empty table throws; the table never changes |
| NGramModel.BlankTargetTable | hw5/src/NGramController.java:39-54 | feeding "a 1" with N = 2 stores key "a" with an empty predictor, since the target strips to "" and `add` ignores it |
| NGramModel.UnknownContext | hw5/src/NGramController.java:80-86 | the context key of "b" for N = 2 is "b" |
| NGramModel.FedBlankTarget | hw5/src/NGramController.java:27-54 | a model of order 2 fed "a 1" holds exactly the key "a" with no words |
| NGramModel.HangsAfterBlankTarget | hw5/src/NGramController.java:97-103 | `predictNext("b")` on that model never finds a word, whatever the draws: the loop does not end |
| NGramModel.LiveKeys | hw5/src/NGramController.java:98 | the keys whose predictors hold a word, in key-array order |
| NGramModel.CoveringPicksStored | hw5/src/CountPredictor.java:50-51 | on a predictor holding a word, the fitness-proportionate selection yields one of its words for every weight in [1, total] |
| NGramModel.IntendedFallbackDecides | hw5/src/NGramController.java:70-77 | corrected fallback: it reports an empty model exactly when no predictor holds a word, never runs out of draws, and otherwise appends a word stored under some key |
| NGramModel.ContextKeyOf | hw5/src/NGramController.java:80-86 | the lookup key is the last N−1 tokens of the stripped sentence rejoined and stripped, or the stripped sentence |
| NGramModel.ListKeys | hw5/src/NGramController.java:98 | `keySet().toArray()` lists each key exactly once |
| NGramModel.Create | hw5/src/NGramController.java:27-32 | N ≤ 1 is an IllegalArgumentException; otherwise an empty model with `getN() == N` |
| QuestionTrees.AtReplaced | hw4/src/QuestionTree.java:109-120 | after a replacement the cursor path leads to the new node |
| QuestionTrees.AtUntouched | hw4/src/QuestionTree.java:109-120 | paths off the cursor's line lead where they led before |
| QuestionTrees.AncestorsKeepText | hw4/src/QuestionTree.java:109-120 | the cursor's ancestors keep their texts |
| QuestionTrees.PrefixedAppend | hw4/src/QuestionTree.java:242-247 | the newline-prefixed dump of two line lists is the concatenation of their dumps |
| QuestionTrees.DumpIsPrefixedPreorder | hw4/src/QuestionTree.java:242-247 | the static `toString(node)` is a newline before each text, in preorder |
| QuestionTrees.PrefixedIsJoin | hw4/src/QuestionTree.java:232-234 | dropping the leading newline gives the lines joined by newlines |
| QuestionTrees.LineEnd | hw4/src/QuestionTree.java:52 | `nextLine` stops at the first newline |
| QuestionTrees.ScanFirstLine | hw4/src/QuestionTree.java:48-52 | a scan returns a complete first line first |
| QuestionTrees.ScanLastLine | hw4/src/QuestionTree.java:48-52 | a last line without a terminator is still returned |
| QuestionTrees.ScanJoin | hw4/src/QuestionTree.java:47-62 | scanning newline-joined one-line texts gives them back when the last one is not empty |
| QuestionTrees.Read | hw4/src/QuestionTree.java:47-62 | `read` always yields a node and consumes a suffix of the lines, at least one line when there is any |
| QuestionTrees.ReadQuestion | hw4/src/QuestionTree.java:55-61 | a "Q:" line is followed by its two subtrees, read in turn |
| QuestionTrees.ReadAnswer | hw4/src/QuestionTree.java:52-53 | any other line is a leaf |
| QuestionTrees.ReadPreorder | hw4/src/QuestionTree.java:47-62 | reading the preorder texts of a well-formed tree rebuilds it and consumes exactly its lines |
| QuestionTrees.SerialiseIsJoinedPreorder | hw4/src/QuestionTree.java:141-143 | `toString` lists the node texts in preorder, newline-separated, with no leading newline |
| QuestionTrees.ReadSerialised | hw4/src/QuestionTree.java:30-62 | saving a well-formed tree of one-line texts and reading it back rebuilds the same tree |
| QuestionTrees.LearnedShape | hw4/src/QuestionTree.java:109-120 | the learned node asks the question, has the new answer on the corrAns side and a copy of the old text on the other |
| QuestionTrees.ReplaceWellFormed | hw4/src/QuestionTree.java:109-120 | replacing a node by a well-formed subtree keeps the tree well formed |
| QuestionTrees.LearnKeepsWellFormed | hw4/src/QuestionTree.java:109-120 | learning at a guess keeps the tree readable |
| QuestionTrees.AnswerIsNoQuestion | hw4/src/QuestionTree.java:12-13 | an "A:" text is never read as a question |
| QuestionTrees.QuestionTree.constructor | hw4/src/QuestionTree.java:30-39 | the tree is the default "A:cat" or the tree read from the file, with the cursor at the root |
| QuestionTrees.QuestionTree.RestartGame | hw4/src/QuestionTree.java:67-69 | the cursor returns to the root and the tree is untouched |
| QuestionTrees.QuestionTree.GetCurrentText | hw4/src/QuestionTree.java:85-87 | exactly the two-character prefix is dropped; a shorter text throws |
| QuestionTrees.QuestionTree.NextQuestion | hw4/src/QuestionTree.java:94-100 | "yes"/"y" in any case moves to the left child and anything else to the right one |
| QuestionTrees.QuestionTree.AddQuestion | hw4/src/QuestionTree.java:109-120 | only the subtree at the cursor is replaced, by the learned node; the cursor stays |
| QuestionTrees.QuestionTree.ToString | hw4/src/QuestionTree.java:141-143 | the text is the preorder texts joined by newlines |
| QuestionTrees.AtExtend | hw4/src/QuestionTree.java:94-100 | one more step of the path goes to the chosen child |
| QuestionTrees.AddQuestionEffect | hw4/src/QuestionTree.java:109-120 | after addQuestion the cursor node is the learned question with the new answer on the corrAns side; every other node is as before and ancestors keep their texts |
| QuestionTrees.QuestionTree.IsGuess | hw4/src/QuestionTree.java:76-78 | `isGuess` is the test that the current text starts with "A:": it holds exactly when the text is "A:" followed by what `getCurrentText` returns, and a guess is never read as a question |
| QuestionTrees.DefaultIsGuess | hw4/src/QuestionTree.java:21-31 | a default tree is the single guess "A:cat", so `isGuess` holds at the root |
| DnaMatching.SplitRawCounts | hw1/src/DNAMatcher.java:83 | splitting yields one more piece than there are non-overlapping occurrences |
| DnaMatching.DollarUnseen | hw1/src/DNAMatcher.java:82-83 | the appended "$" adds no occurrence of an STR without "$" |
| DnaMatching.LastPieceKept | hw1/src/DNAMatcher.java:82-83 | the piece after the last occurrence ends in "$", so `split` drops no trailing piece |
| DnaMatching.NumSubstringsCounts | hw1/src/DNAMatcher.java:77-84 | `numSubstrings` is the number of non-overlapping, left-to-right occurrences of the STR |
| DnaMatching.OccurrencesFit | hw1/src/DNAMatcher.java:77-84 | the occurrences fit in the sample without overlapping |
| DnaMatching.Agreement | hw1/src/DNAMatcher.java:36-41 | a person's score lies between 0 and the number of STRs |
| DnaMatching.AgreementFull | hw1/src/DNAMatcher.java:36-41 | the score is the number of STRs exactly when every count agrees |
| DnaMatching.BestIsMaximum | hw1/src/DNAMatcher.java:45-55 | the best score is at least 0, bounds every score, and when positive is some person's score |
| DnaMatching.BestAttained | hw1/src/DNAMatcher.java:48-55 | a score that bounds all scores and is attained is the best one |
| DnaMatching.WinnersAre | hw1/src/DNAMatcher.java:49-53 | the people collected are exactly those with the benchmark score, and there are some exactly when someone has it |
| DnaMatching.NoMatchIff | hw1/src/DNAMatcher.java:58-67 | NO_MATCH exactly when nobody shares a single STR count, and exactly when the people are null; its count is 0 |
| DnaMatching.MatchIsBest | hw1/src/DNAMatcher.java:58-64 | otherwise the people are exactly those with the highest score ≥ 1, non-empty; EXACT_MATCH iff that score is the number of STRs, and then they share every count |
| DnaMatching.DNAMatcher.constructor | hw1/src/DNAMatcher.java:14-17 | the matcher holds the given STRs and people |
| DnaMatching.DNAMatcher.Match | hw1/src/DNAMatcher.java:25-68 | `match` returns `MatchOf`: the best-scoring people, typed exact or close, or NO_MATCH |
| DnaMatching.DNAMatcher.ScoreAll | hw1/src/DNAMatcher.java:27-43 | each person's score is their agreement with the sample's STR counts, between 0 and the number of STRs |
| DnaMatching.DNAMatcher.CountRepeats | hw1/src/DNAMatcher.java:27-31 | `repeatCounts[i]` is `numSubstrings` of the sample for STR i |
| DnaMatching.DNAMatcher.Select | hw1/src/DNAMatcher.java:45-55 | the benchmark loop stops one below the best score with exactly the people who have it, or finds nobody and the best score is 0 |
| DnaMatching.DNAMatcher.InCommon | hw1/src/DNAMatcher.java:36-41 | the inner loop counts the agreeing STRs |
| DnaMatching.DNAMatcher.Collect | hw1/src/DNAMatcher.java:49-53 | the people whose score is the benchmark, in order; some exactly when someone has it |
| DnaFiles.NonBlankCounts | hw1/src/DNAFileParser.java:84-96 | each non-blank line is kept as often as it occurs, and blank lines are dropped |
| DnaFiles.RowsAreSplitLines | hw1/src/DNAFileParser.java:84-96 | there is one row per non-blank line, that line split on commas |
| DnaFiles.ReadDataFromCSV | hw1/src/DNAFileParser.java:78-101 | the loop returns the rows, or fails when there are none |
| DnaFiles.Header | hw1/src/DNAFileParser.java:48-56 | the STRs are the header cells after the first, upper-cased, in order, one fewer than the header |
| DnaFiles.ParseCounts | hw1/src/DNAFileParser.java:64-67 | every count cell parses exactly when the row succeeds, giving their values in order; otherwise the first bad cell is named |
| DnaFiles.ParsePeople | hw1/src/DNAFileParser.java:59-69 | one person per row in row order, or the first failing row's exception |
| DnaFiles.ParsedData | hw1/src/DNAFileParser.java:46-70 | a successful parse has the upper-cased header STRs and one person per later row, named by its first cell and holding its other cells as integers |
| DnaFiles.ParseFailsIff | hw1/src/DNAFileParser.java:46-70 | parsing fails exactly when there is no row, some row is empty, or some count cell is not an integer |
| DnaFiles.FirstFailingRow | hw1/src/DNAFileParser.java:60-69 | the first failing row's exception is the one that escapes |
| DnaFiles.DNAFileParser.Empty | hw1/src/DNAFileParser.java:15-16 | an unfilled parser has no STRs and no people |
| DnaFiles.DNAFileParser.Open | hw1/src/DNAFileParser.java:18-21 | the constructor reads and parses the file: the parser holds the parsed STRs and people, or the first exception escapes |
| DnaFiles.DNAFileParser.ParseDNA | hw1/src/DNAFileParser.java:46-70 | `repeats` and `people` become the parsed header and people, or the exception is reported |
| DnaFiles.DNAFileParser.ParseHeader | hw1/src/DNAFileParser.java:48-56 | the header loop computes `Header` |
| DnaFiles.DNAFileParser.ParseRows | hw1/src/DNAFileParser.java:59-69 | the row loop computes `ParsePeople` |
| DnaFiles.DNAFileParser.ParsePerson | hw1/src/DNAFileParser.java:61-68 | one row's loop computes `ParseRow` |
| ListRoutines.Frequencies | hw3/src/Main.java:63-75 | the frequency array has 10 cells, and cell d counts the occurrences of d |
| ListRoutines.CountsSumToSize | hw3/src/Main.java:71-73 | the counts add up to the size of the list |
| ListRoutines.GetCounts | hw3/src/Main.java:69-75 | the indexed loop returns a new array equal to `Frequencies` |
| ListRoutines.GetCountsV2 | hw3/src/Main.java:84-91 | the iterator loop returns the same array, and the list is not modified |
| ListRoutines.AddRemove | hw3/src/Main.java:99-112 | the size is kept; only the head changes, to the last digit drawn; the result array equals the list afterwards |
| ListRoutines.AddNums | hw3/src/Main.java:56-61 | the list ends with exactly max(n, 0) elements, each a drawn digit in 0..9 |
| Dulcimers.IndexOfFinds | hw2/src/DulcimerString.java:74 | `indexOf` gives the first position holding the name, and −1 exactly for a name not in the scale |
| Dulcimers.CountedIffIn | hw2/src/DulcimerString.java:76 | a note holds a mark exactly when its count of that mark is positive |
| Dulcimers.RemoveFirstCounts | hw2/src/DulcimerString.java:76-83 | `replaceFirst` removes one mark of its kind and no other character |
| Dulcimers.NotesDistinct | hw2/src/DulcimerString.java:11 | the twelve note names are distinct |
| Dulcimers.ScaleOffsets | hw2/src/DulcimerString.java:71-89 | the i-th note of the scale, unmarked, has offset i + 1 |
| Dulcimers.BareIgnoresMarks | hw2/src/DulcimerString.java:74 | the scale lookup ignores octave marks |
| Dulcimers.OctaveShift | hw2/src/DulcimerString.java:76-83 | each '+' raises the offset by 12 and each '-' lowers it by 12 |
| Dulcimers.UnknownNote | hw2/src/DulcimerString.java:74-88 | an unknown note name has offset 0 plus its octave shifts |
| Dulcimers.SampleOf | hw2/src/DulcimerString.java:43-54 | with two or more values: the old front is returned and the length is kept, the rest moving forward; with fewer: 0.0 and an empty queue |
| Dulcimers.SamplesReplay | hw2/src/DulcimerString.java:43-54 | successive samples play the queue back in order |
| Dulcimers.Noise | hw2/src/DulcimerString.java:59-64 | the noise has one value per draw, each in [−0.5, 0.5) |
| Dulcimers.StruckStringPlaysNoise | hw2/src/DulcimerString.java:43-64 | after a strike the string plays the noise back value by value |
| Dulcimers.Silence | hw2/src/DulcimerString.java:34 | a new queue holds only zeros |
| Dulcimers.DulcimerString.constructor | hw2/src/DulcimerString.java:23-35 | the note is kept unchanged (`getNote`) and the queue is silent, as long as the note's offset makes it |
| Dulcimers.DulcimerString.Sample | hw2/src/DulcimerString.java:43-54 | `sample` returns and leaves what `SampleOf` states |
| Dulcimers.DulcimerString.Strike | hw2/src/DulcimerString.java:59-64 | the queue keeps its length and every value is replaced by noise |
| Dulcimers.DulcimerString.OffsetFromMiddleC | hw2/src/DulcimerString.java:71-89 | the loops compute `Offset`: scale index − 3 + 12·#'+' − 12·#'-' + 4 |
| Dulcimers.Dulcimer.constructor | hw2/src/Dulcimer.java:16-21 | one new silent string per whitespace-separated token, in order |
| Dulcimers.Dulcimer.StringsFor | hw2/src/Dulcimer.java:18-20 | the loop creates one distinct string per token |
| Dulcimers.Dulcimer.Hammer | hw2/src/Dulcimer.java:27-31 | a valid index strikes that string only; any other index changes nothing; the number of strings is kept |
| Dulcimers.Dulcimer.Play | hw2/src/Dulcimer.java:36-42 | every string is sampled exactly once, and the mix is the sum of their samples; the number of strings is kept |

## Left out

- `NGramPredictor` interface: Dafny traits are not used. `CountPredictor` and
  `ListPredictor` are two classes with the same `Add`/`Predict` signatures. The
  controller is built over `CountPredictor`, which the `predictor` constant
  selects in the source. `AddAgrees`/`ReplayAgrees` relate the two.
- NGramModel.NGramController.Fallback: the source loops until some predictor
  yields a word, possibly forever. The model takes a finite sequence of retry
  draws and returns `OutOfDraws` when they run out. Its contract then states
  that every retry yielded null; it does not say whether more draws would end
  the loop.
- `java.util.Random`, `nextDouble` and `System.currentTimeMillis`: draws are
  parameters. The statistical distribution of draws is not modelled, only
  which values are reachable.
- Dulcimers.DulcimerString.constructor: the floating-point sample-length
  formula (`Math.pow`, `Math.round`) is the `lengthOf` parameter. A negative
  length, for which `nCopies` throws, is not modelled.
- Dulcimers.DulcimerString.Sample: sound values are exact reals, not IEEE
  doubles. The warning printed on a short queue is left out.
- Dulcimers.Dulcimer.Play: `StdAudio.play` is not called. The mixed value is
  returned instead.
- NGramCount.CountPredictor.Predict: the Java `Integer` counts and their total
  are unbounded here, so a 32-bit overflow is not modelled.
- HashMap and HashSet iteration order: the model picks some order.
  - `generateWeights` enumerates the words in any order.
  - `match` collects the winners in the order of `people`, not in the order of
    the `sums` map.
  - Parallel streams are modelled by their sequential results.
- Text is ASCII only: `Character.isLetter`, `isWhitespace`, `toLowerCase`,
  `toUpperCase` and `Integer.parseInt` ignore non-ASCII characters.
- DnaMatching.NumSubstringsCounts: the STR is treated as a literal, not as a
  regular expression. The proof that `numSubstrings` counts occurrences also
  assumes the STR holds no "$".
- DnaMatching.DNAMatcher.Match: it requires each person to have at least as
  many counts as there are STRs. Otherwise the source throws
  ArrayIndexOutOfBoundsException, and that exception is not modelled.
- ListRoutines.GetCounts: requires every value to be a digit. Otherwise the
  source throws ArrayIndexOutOfBoundsException, and that exception is not
  modelled. The same holds for GetCountsV2.
- Null dereferences are preconditions, not modelled NullPointerExceptions:
  - `isGuess`/`getCurrentText`/`nextQuestion` at a null cursor or a null text;
  - a null list or string argument.
- Aliasing: arrays are values.
  - `Person.getDnaRepeats` and `MatchResult.getPeople` hand out the stored
    array itself in the source, so a caller could change a record through it.
  - `DNAFileParser.getRepeats`/`getPeople` likewise.
  - The Java getters are the datatype fields and class fields.
- `QuestionNode` objects: they are a value tree addressed by a path from the
  root, and `read` is a function over the remaining lines. The source never
  shares a node, so the reachable tree determines behaviour. The in-place
  `setText`/`setLeft`/`setRight` steps are not modelled one by one.
- The `Scanner` recognises only "\n" as a line terminator here, not "\r\n" or
  "\r".
- File I/O: `feedFile`, `QuestionTree.save` and opening files are not
  modelled. A file is its sequence of lines or its text. A file that cannot be
  opened is a `None` argument (QuestionTree) or is left out (DNAFileParser).
- Drivers and UI are not modelled: the `main` methods, the Swing and terminal
  front ends, the function-timing evaluator and the dulcimer's drawing loop.

## Findings

| source | as written | input that shows it | evidently intended | confidence | as-written member | corrected member |
|---|---|---|---|---|---|---|
| hw5/src/CountPredictor.java:67-71 | keeps the entries whose cumulative weight is at most the drawn weight and returns the largest, so a word wins the weights from its own running sum up to the next one, and weights below the first running sum give null | one word "cat" added twice: cumulative view [("cat", 2)], weight 1 gives null; documentation example ("text" 1, "word" 2, "example" 1): "text" wins weights 1 and 2, "word" only 3 | fitness-proportionate selection (the method's own documentation): the first entry whose cumulative weight reaches the drawn weight, so each word wins exactly its count of the weights in [1, total] | not executed | NGramCount.NullOnNonEmptyAsWritten | NGramCount.SelectCoveringPicks |
| hw5/src/NGramController.java:97-103 | the fallback loop draws among all keys until a predictor yields a word; a key whose only targets were blank holds an empty predictor, because `add` ignores blank words (CountPredictor.java:82-84), and an empty predictor always yields null | `new NGramController(2)`, `feed("a 1")`, then `predictNext("b")`: "b" is unknown, the only key "a" has no words, and the loop never ends | the Javadoc (NGramController.java:70-77) promises a random guess from the words the model knows: draw only among predictors that hold a word, and report a model without words instead of looping | not executed | NGramModel.HangsAfterBlankTarget | NGramModel.IntendedFallbackDecides |

The controller keeps the selection and the fallback as written, since that is
what the program does. `SelectCovering` is the corrected rule, and
`SelectCoveringPicks` proves it has the intended distribution.
`IntendedFallback` is the corrected fallback, and `IntendedFallbackDecides`
proves that it always decides in one draw.
