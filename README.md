# Vograbulary word games: ultraghost and russian dolls

This project models the game logic of Vograbulary in Dafny.

**Ultraghost.** A puzzle is three letters. A player solves it with a word that starts with the first letter, contains the second and ends with the third. Another player may answer with a response:
- a shorter word;
- a word of the same length that comes earlier in the dictionary;
- a word found after the owner skipped.

Each outcome is a `WordResult` with a score and a label.

**Russian dolls.** A two-word clue is solved by inserting one target word into the other.

The model covers these parts of the source:
- `WordResult` (module `WordResults`), with the labels built from the scores.
- The ultraghost `Puzzle` (module `Ultraghost`):
  - the match rule, the result of a solution and a response, and the ranking of two words;
  - a class with the puzzle's mutable fields;
  - `findNextBetter` as a loop proved against a reference search function.
- The desktop `UltraghostController` (module `UltraghostControl`):
  - the two-state next/solution cycle and the search task over the word list in batches;
  - the shortest-match search, with its own case-sensitive match rule;
  - reading the word list.
- The core `Match` (module `Matches`):
  - the in-place shuffle of the student array;
  - the rotation of puzzle owners;
  - the hyperghost rule that carries letters and the previous word over to the next puzzle;
  - deciding the winner.
- The core `Controller` (module `TurnController`):
  - students;
  - the score and search timer tasks, scheduled on a scheduler that is modelled as a map from task to interval;
  - start, restart, completion, solve and cancel.
- The russian `Puzzle` (module `Russian`):
  - Java's `split("\\s+")`;
  - the in-place loop that moves starred words to the front of the word array;
  - the targets and the combination;
  - the score delay and the total carried from the previous puzzle.

Java library behaviour the code relies on is written out in `JavaText`:
- `toUpperCase` (ASCII letters only);
- `indexOf(char, from)`;
- `compareTo`;
- `Integer.toString`;
- the regex classes `\s` and `\W`.

Students are modelled by a small class, `Students.Student`, defined here. It holds:
- the score and the score count;
- the search batches run, against a fixed budget;
- the puzzle being solved;
- whether a response was requested.

Calls into code that is not part of this model become parameters:
- the random generator's choices and the generated letters;
- the core puzzle's score, `isCompleted` and `isValidSolution`;
- the lines of the word-list reader.

Where the names or the tests promise more than the code does, the model follows the code:
- The ultraghost `Puzzle` constructor does not reject letters shorter than three. Within `Ultraghost`, the model only requires three letters on the paths where the code reaches `isMatch`, which indexes them. `Matches.Match` asks more of the puzzles it holds; see `Matches.Match.SetPuzzle` under Left out.
- `Match.createPuzzle` names the results `SKIP_NOT_IMPROVED` and `IMPROVED_SKIP_TOO_SOON`. The `WordResult` enum (vograbulary/src/com/github/donkirkby/vograbulary/ultraghost/WordResult.java:3-23) does not declare them. The model adds both as constructors outside the enum (`InEnum` is false for them). `Ultraghost.Puzzle.Result` always ensures `InEnum`, so these two cases of `Matches.EndsRun` never apply to the puzzles a match holds. After a double skip, whose result is `SKIPPED`, the as-written rule therefore keeps the letters.
- `Match` calls `setPreviousWord`, `setPaused` and `isPaused` on the puzzle. The ultraghost `Puzzle.java` under vograbulary/src lacks them, so the calls at core/src/com/github/donkirkby/vograbulary/ultraghost/Match.java:76 and :81-83 have no definition here. The model gives `Ultraghost.Puzzle` those two fields with plain setters.
- The russian tests (vograbulary-test/src/com/github/donkirkby/vograbulary/russian/PuzzleTest.java) call several things that core/src/com/github/donkirkby/vograbulary/russian/Puzzle.java does not have or does not do:
  - `isTargetSet` and `clearTargets`;
  - an exception from `getCombination` when no target is set;
  - no score added by `setSolved(false)`.

  The model follows the code on the first two. On the third it follows neither: the code adds the score either way (core/src/com/github/donkirkby/vograbulary/russian/Puzzle.java:81-84), and `Russian.Puzzle.SetSolved` adds nothing, as its line under Left out says.

## Model

| member | source | states |
|---|---|---|
| JavaText.UpperIdempotent | vograbulary/src/com/github/donkirkby/vograbulary/ultraghost/Puzzle.java:170 | upper-casing twice is upper-casing once |
| JavaText.IndexOfFirst | vograbulary/src/com/github/donkirkby/vograbulary/ultraghost/Puzzle.java:177 | indexOf(c, from) is -1 exactly when c is absent from `from` on; otherwise it is the first position of c at or after `from` |
| JavaText.CompareToAntisymmetric | vograbulary/src/com/github/donkirkby/vograbulary/ultraghost/Puzzle.java:189 | compareTo with the arguments swapped is negated |
| JavaText.CompareToZero | vograbulary/src/com/github/donkirkby/vograbulary/ultraghost/Puzzle.java:189 | compareTo is 0 exactly for equal strings |
| JavaText.Digits | vograbulary/src/com/github/donkirkby/vograbulary/ultraghost/WordResult.java:41 | the decimal form of a natural is a non-empty string of digits |
| JavaText.DigitsRoundTrip | vograbulary/src/com/github/donkirkby/vograbulary/ultraghost/WordResult.java:41 | reading the digits of Integer.toString back gives the number |
| JavaText.IntToString | vograbulary/src/com/github/donkirkby/vograbulary/ultraghost/WordResult.java:41 | Integer.toString is non-empty and starts with '-' exactly for negatives |
| JavaText.RemoveNonWord | core/src/com/github/donkirkby/vograbulary/russian/Puzzle.java:33 | replaceAll("\\W*", "") keeps only word characters and never lengthens |
| WordResults.WordResult.Score | vograbulary/src/com/github/donkirkby/vograbulary/ultraghost/WordResult.java:5-22 | scores lie between -1 and 3; only WORD_FOUND is negative |
| WordResults.WordResult.Label | vograbulary/src/com/github/donkirkby/vograbulary/ultraghost/WordResult.java:52-54 | the label starts with the base name, and is the base name alone exactly when the score is zero |
| WordResults.AddScore | vograbulary/src/com/github/donkirkby/vograbulary/ultraghost/WordResult.java:38-43 | the name is always kept as a prefix; the label is the bare name exactly when the score is 0, and otherwise the name followed by the score suffix |
| WordResults.ScoreSuffixShape | vograbulary/src/com/github/donkirkby/vograbulary/ultraghost/WordResult.java:38-43 | a non-zero score is shown as " (+n)" or " (-n)", with n the score's magnitude |
| WordResults.ScoreTable | vograbulary/src/com/github/donkirkby/vograbulary/ultraghost/WordResult.java:5-22 | the score of every constant; every improvement failure scores 3 and every improved-skip failure scores 1 |
| WordResults.PairedOutcomes | vograbulary/src/com/github/donkirkby/vograbulary/ultraghost/WordResult.java:17-22 | each improvement failure has an improved-skip twin with the same base name, labelled (+3) and (+1) |
| WordResults.ScoredLabelExamples | vograbulary/src/com/github/donkirkby/vograbulary/ultraghost/WordResult.java:28-36 | names from the constant name: "shorter (+1)", "longer (+3)" |
| WordResults.ChallengeLabelExamples | vograbulary/src/com/github/donkirkby/vograbulary/ultraghost/WordResult.java:28-36 | names from the constant name: "later (+3)", "not improved (+3)" |
| WordResults.CheckLabelExamples | vograbulary/src/com/github/donkirkby/vograbulary/ultraghost/WordResult.java:45-49 | an explicit name gets the score suffix ("not a word (+3)"); zero-score names have none |
| WordResults.NegativeLabelExample | vograbulary/src/com/github/donkirkby/vograbulary/ultraghost/WordResult.java:38-43 | a negative score shows without '+': "word found (-1)" |
| Students.Student.AddScore | core/src/com/github/donkirkby/vograbulary/ultraghost/Controller.java:152 | the score grows by the points and the score count by one |
| Students.Student.RunSearchBatch | core/src/com/github/donkirkby/vograbulary/ultraghost/Controller.java:94 | one more batch is run; finished once the budget is reached |
| Students.Student.StartSolving | core/src/com/github/donkirkby/vograbulary/ultraghost/Controller.java:130 | the student now works on the given puzzle |
| Students.Student.PrepareResponse | core/src/com/github/donkirkby/vograbulary/ultraghost/Controller.java:196 | the student is asked for a response |
| Ultraghost.PositionalMatchIff | vograbulary/src/com/github/donkirkby/vograbulary/ultraghost/Puzzle.java:171-178 | a match ends with the third letter, starts with the first and has the second strictly inside |
| Ultraghost.IsMatch | vograbulary/src/com/github/donkirkby/vograbulary/ultraghost/Puzzle.java:169-179 | a matching word has at least three characters, and its upper-cased form starts with the first letter and ends with the third |
| Ultraghost.IsMatchPositional | vograbulary/src/com/github/donkirkby/vograbulary/ultraghost/Puzzle.java:169-179 | isMatch is the positional rule on the upper-cased word |
| Ultraghost.ShortWordsNeverMatch | vograbulary/src/com/github/donkirkby/vograbulary/ultraghost/Puzzle.java:177-178 | a word of one or two characters never matches |
| Ultraghost.IsMatchIgnoresCase | vograbulary/src/com/github/donkirkby/vograbulary/ultraghost/Puzzle.java:170 | isMatch gives the same answer for a word and its upper-cased form |
| Ultraghost.ChallengeWord | vograbulary/src/com/github/donkirkby/vograbulary/ultraghost/Puzzle.java:185-196 | the comparison gives a scored enum constant, and NOT_IMPROVED exactly when both words are equal |
| Ultraghost.CheckSolution | vograbulary/src/com/github/donkirkby/vograbulary/ultraghost/Puzzle.java:136-149 | defined for any letters while the solution is blank or unlisted; the result is SKIPPED, NOT_A_WORD, NOT_A_MATCH, TOO_SHORT or VALID, and VALID exactly when the solution is non-blank, listed upper-cased, a match and long enough |
| Ultraghost.CheckResponse | vograbulary/src/com/github/donkirkby/vograbulary/ultraghost/Puzzle.java:102-128 | defined for any letters while the response is blank; the result is an enum constant, and WORD_FOUND exactly when the solution is blank and the response is non-blank, a match, listed and long enough |
| Ultraghost.FirstBetter | vograbulary/src/com/github/donkirkby/vograbulary/ultraghost/Puzzle.java:210-219 | a word found is one of the listed words and qualifies |
| Ultraghost.ChallengeWordCases | vograbulary/src/com/github/donkirkby/vograbulary/ultraghost/Puzzle.java:185-196 | each of longer, later, shorter, not improved and earlier holds exactly under its length and dictionary-order condition |
| Ultraghost.ChallengeWordSelf | vograbulary/src/com/github/donkirkby/vograbulary/ultraghost/Puzzle.java:193-194 | a word challenged by itself is not improved |
| Ultraghost.ChallengeWordRanks | vograbulary/src/com/github/donkirkby/vograbulary/ultraghost/Puzzle.java:185-196 | shorter or earlier exactly when the challenge ranks better (shorter, or as long and earlier); longer or later exactly when the solution ranks better; not improved exactly when neither does |
| Ultraghost.GetResult | vograbulary/src/com/github/donkirkby/vograbulary/ultraghost/Puzzle.java:88-96 | defined for any letters until the check it runs reaches `isMatch`; the result is UNKNOWN exactly when no solution is set, and is always an enum constant |
| Ultraghost.ShortLettersResults | vograbulary/src/com/github/donkirkby/vograbulary/ultraghost/Puzzle.java:88-106 | with fewer than three letters the result is UNKNOWN without a solution, SKIPPED or NOT_A_WORD for a blank or unlisted solution, and SKIPPED or NOT_IMPROVED against a blank response |
| Ultraghost.ResponseResultFamily | vograbulary/src/com/github/donkirkby/vograbulary/ultraghost/Puzzle.java:102-128 | with a response set, the result is SKIPPED, an improved-skip failure or WORD_FOUND exactly when the solution was skipped |
| Ultraghost.CheckOrderDiffers | vograbulary/src/com/github/donkirkby/vograbulary/ultraghost/Puzzle.java:109-118 | a solution that is neither a word nor a match is reported NOT_A_WORD, while such a response is reported as not a match; the solution's check tests the word list first and the response's check tests the match first |
| Ultraghost.ImprovedIff | vograbulary/src/com/github/donkirkby/vograbulary/ultraghost/Puzzle.java:222-227 | isImproved exactly when the response is a matching listed word, long enough, and either the solution was skipped or the response ranks better |
| Ultraghost.RankedResultFromChallenge | vograbulary/src/com/github/donkirkby/vograbulary/ultraghost/Puzzle.java:124-127 | a ranked result comes only from two non-blank words and equals challengeWord on their upper-cased forms |
| Ultraghost.ImprovesIff | vograbulary/src/com/github/donkirkby/vograbulary/ultraghost/Puzzle.java:208-215 | the stand-in puzzle accepts a word exactly when it matches, has at least four letters and beats the best word so far |
| Ultraghost.FirstBetterIsFirst | vograbulary/src/com/github/donkirkby/vograbulary/ultraghost/Puzzle.java:210-219 | the search gives None exactly when no word qualifies; otherwise it gives the word at the first qualifying position |
| Ultraghost.Puzzle.Create | vograbulary/src/com/github/donkirkby/vograbulary/ultraghost/Puzzle.java:15-25 | null letters and a null owner are rejected in that order; otherwise the new puzzle has the given fields, no solution, response, hint or previous word, is not paused and has the default minimum length 4 |
| Ultraghost.Puzzle.Result | vograbulary/src/com/github/donkirkby/vograbulary/ultraghost/Puzzle.java:88-96 | defined for any letters until `isMatch` is reached; the puzzle's result is an enum constant, and UNKNOWN exactly when no solution is set |
| Ultraghost.Puzzle.BestSoFarWord | vograbulary/src/com/github/donkirkby/vograbulary/ultraghost/Puzzle.java:204-207 | when the puzzle is improved the word to beat is its upper-cased, non-empty response; otherwise it is the upper-cased solution, when set |
| Ultraghost.Puzzle.SetSolution | vograbulary/src/com/github/donkirkby/vograbulary/ultraghost/Puzzle.java:57-59 | the solution is replaced |
| Ultraghost.Puzzle.SetResponse | vograbulary/src/com/github/donkirkby/vograbulary/ultraghost/Puzzle.java:70-72 | the response is replaced |
| Ultraghost.Puzzle.SetHint | vograbulary/src/com/github/donkirkby/vograbulary/ultraghost/Puzzle.java:80-82 | the hint is replaced |
| Ultraghost.Puzzle.SetMinimumWordLength | vograbulary/src/com/github/donkirkby/vograbulary/ultraghost/Puzzle.java:233-235 | the minimum length is replaced |
| Ultraghost.Puzzle.SetPreviousWord | core/src/com/github/donkirkby/vograbulary/ultraghost/Match.java:81 | the previous word is replaced |
| Ultraghost.Puzzle.SetPaused | core/src/com/github/donkirkby/vograbulary/ultraghost/Match.java:83 | the paused flag is replaced |
| Ultraghost.Puzzle.FindNextBetter | vograbulary/src/com/github/donkirkby/vograbulary/ultraghost/Puzzle.java:203-220 | the result is the reference search over the word list from the best word so far (the improved response, otherwise the solution, upper-cased) |
| Ultraghost.Puzzle.SearchBetter | vograbulary/src/com/github/donkirkby/vograbulary/ultraghost/Puzzle.java:208-219 | the loop over the list, offering each long-enough word as the response of a stand-in puzzle, returns the first word that improves on the best so far, as the reference search does |
| UltraghostControl.Matches | vograbulary/src/com/github/donkirkby/vograbulary/UltraghostController.java:65-78 | a match needs a puzzle, at least three characters, the puzzle's first letter first and its third letter last |
| UltraghostControl.CheckWordStep | vograbulary/src/com/github/donkirkby/vograbulary/UltraghostController.java:161-169 | the best solution either stays or becomes this matching word, and changes exactly when the word matches and there is no best or it is strictly shorter; it never grows longer |
| UltraghostControl.ScanAppend | vograbulary/src/com/github/donkirkby/vograbulary/UltraghostController.java:171-186 | scanning two batches one after the other is scanning their concatenation, so the batched search equals one pass |
| UltraghostControl.ScanNeverLonger | vograbulary/src/com/github/donkirkby/vograbulary/UltraghostController.java:161-169 | the best solution never grows longer than it was, and it is either unchanged or a matching word of the list |
| UltraghostControl.ScanFinal | vograbulary/src/com/github/donkirkby/vograbulary/UltraghostController.java:59-63 | from no solution, a full scan finds none exactly when no word matches; otherwise it finds the earliest match of the shortest matching length |
| UltraghostControl.FilterLines | vograbulary/src/com/github/donkirkby/vograbulary/UltraghostController.java:114-119 | every kept line is longer than three characters and upper case |
| UltraghostControl.FilterLinesAppend | vograbulary/src/com/github/donkirkby/vograbulary/UltraghostController.java:114-119 | filtering works line by line: the filter of a concatenation is the concatenation of the filters |
| UltraghostControl.FilterLinesMembers | vograbulary/src/com/github/donkirkby/vograbulary/UltraghostController.java:114-119 | a word is kept exactly when it is the upper-cased form of some line longer than three characters |
| UltraghostControl.SearchTask.Cancel | vograbulary/src/com/github/donkirkby/vograbulary/UltraghostController.java:48 | the task is cancelled |
| UltraghostControl.SearchTask.Run | vograbulary/src/com/github/donkirkby/vograbulary/UltraghostController.java:174-185 | one run checks the next batch of at most searchBatchSize words from the task's index and stops at the list's end; the best solution is the scan of exactly those words; the task cancels itself once the index reaches the end |
| UltraghostControl.UltraghostController.GetState | vograbulary/src/com/github/donkirkby/vograbulary/UltraghostController.java:28-30 | PUZZLE exactly while a puzzle is shown |
| UltraghostControl.UltraghostController.SetSearchBatchSize | vograbulary/src/com/github/donkirkby/vograbulary/UltraghostController.java:139-141 | the batch size is replaced |
| UltraghostControl.UltraghostController.CheckWord | vograbulary/src/com/github/donkirkby/vograbulary/UltraghostController.java:161-169 | a matching word replaces the best solution when there is none or it is strictly shorter |
| UltraghostControl.UltraghostController.CheckAllWords | vograbulary/src/com/github/donkirkby/vograbulary/UltraghostController.java:59-63 | the best solution becomes the scan of the whole word list |
| UltraghostControl.UltraghostController.ReadWordList | vograbulary/src/com/github/donkirkby/vograbulary/UltraghostController.java:110-129 | the filtered, upper-cased lines are appended to the word list |
| UltraghostControl.UltraghostController.CreateSearchTask | vograbulary/src/com/github/donkirkby/vograbulary/UltraghostController.java:149-159 | fails if a task already exists, then if there is no puzzle; otherwise a fresh task at index 0 is recorded |
| UltraghostControl.UltraghostController.Next | vograbulary/src/com/github/donkirkby/vograbulary/UltraghostController.java:32-57 | the state always flips. Without a puzzle, the generated letters are shown for the current player, the player index rotates, the best solution is cleared and a fresh search task is scheduled. With a puzzle, the running task is cancelled and dropped, the puzzle is cleared and the best solution, or "None", is shown |
| Matches.Swap | core/src/com/github/donkirkby/vograbulary/ultraghost/Match.java:32-34 | the two entries are exchanged and every other entry stays |
| Matches.SwapPermutes | core/src/com/github/donkirkby/vograbulary/ultraghost/Match.java:32-34 | a swap is a permutation |
| Matches.Shuffled | core/src/com/github/donkirkby/vograbulary/ultraghost/Match.java:30-35 | the shuffle keeps the number of students |
| Matches.ShuffledIsPermutation | core/src/com/github/donkirkby/vograbulary/ultraghost/Match.java:30-35 | the shuffle of any number of steps is a permutation of the students |
| Matches.ShuffledFirst | core/src/com/github/donkirkby/vograbulary/ultraghost/Match.java:31-34 | after the shuffle the first student is the one at the first random choice |
| Matches.NextOwnerIndex | core/src/com/github/donkirkby/vograbulary/ultraghost/Match.java:50 | the next owner index is a valid index: one more than the last, wrapping to 0 after the last student and starting at 0 before the first puzzle |
| Matches.OwnersRotate | core/src/com/github/donkirkby/vograbulary/ultraghost/Match.java:36-50 | in a fresh match the k-th puzzle (from 1) goes to the student at index (k-1) mod n of the shuffled order, so owners rotate through every student starting from the first |
| Matches.EndsRunOfPuzzle | core/src/com/github/donkirkby/vograbulary/ultraghost/Match.java:53-58 | a puzzle's result ends a run only as IMPROVED_SKIP_NOT_A_WORD or IMPROVED_SKIP_TOO_SHORT; the two names missing from the enum never arise |
| Matches.CarriedWordIsNotBetter | core/src/com/github/donkirkby/vograbulary/ultraghost/Match.java:64-74 | after a ranked result (longer, later, shorter, earlier) the word carried to the next puzzle is never the better-ranked of the two, so the next player must beat the worse word |
| Matches.ScanWinner | core/src/com/github/donkirkby/vograbulary/ultraghost/Match.java:104-123 | while still scanning, the leader is one of the students seen and holds the best score, which no student seen exceeds |
| Matches.WinnerAsWritten | core/src/com/github/donkirkby/vograbulary/ultraghost/Match.java:104-125 | a winner under the as-written rule reaches the match score and no student scores higher |
| Matches.WinnerFixed | core/src/com/github/donkirkby/vograbulary/ultraghost/Match.java:104-125 | a winner under the corrected rule reaches the match score and no student scores higher |
| Matches.ScanWinnerLeads | core/src/com/github/donkirkby/vograbulary/ultraghost/Match.java:116-122 | with even counts and every score above Integer.MIN_VALUE, the loop's leader is the first student holding the highest score so far |
| Matches.WinnerAsWrittenIsFirstMaximum | core/src/com/github/donkirkby/vograbulary/ultraghost/Match.java:104-125 | a winner under the as-written rule reaches the match score, no student scores higher, and every student before it scores lower |
| Matches.ScanWinnerCounts | core/src/com/github/donkirkby/vograbulary/ultraghost/Match.java:109-119 | getWinner's loop gives up exactly when some score count differs from the first student's; otherwise it has a leader among the students seen |
| Matches.UnevenCountsHaveNoWinner | core/src/com/github/donkirkby/vograbulary/ultraghost/Match.java:113-115 | uneven score counts mean no winner |
| Matches.TwoStudentWinner | core/src/com/github/donkirkby/vograbulary/ultraghost/Match.java:104-125 | with two students, one wins exactly when its score is strictly higher and reaches the match score |
| Matches.WinnerAsWrittenMisjudgesTies | core/src/com/github/donkirkby/vograbulary/ultraghost/Match.java:116-124 | the tie flag as written misjudges two score lists that the corrected rule decides right |
| Matches.ScanWinnerFixedLeader | core/src/com/github/donkirkby/vograbulary/ultraghost/Match.java:116-122 | with the corrected flag, the loop keeps the first highest score so far and flags a tie exactly when another student shares it |
| Matches.WinnerFixedIsUniqueMaximum | core/src/com/github/donkirkby/vograbulary/ultraghost/Match.java:104-125 | under the corrected rule, with even counts, a student wins exactly when its score reaches the match score and is higher than every other |
| Matches.UnevenStaysUneven | core/src/com/github/donkirkby/vograbulary/ultraghost/Match.java:113-115 | once the counts are found uneven, no later student changes that |
| Matches.Match.constructor | core/src/com/github/donkirkby/vograbulary/ultraghost/Match.java:10-21 | not hyperghost; the student index is Integer.MIN_VALUE; there is no puzzle; the minimum length is 4 |
| Matches.Match.ShuffleStudents | core/src/com/github/donkirkby/vograbulary/ultraghost/Match.java:30-35 | the array is shuffled in place into the reference shuffle of the random choices |
| Matches.Match.CheckStudentOrder | core/src/com/github/donkirkby/vograbulary/ultraghost/Match.java:28-38 | the first call shuffles the students and sets the index to the last student; later calls change nothing; the students are always a permutation |
| Matches.Match.CreatePuzzle | core/src/com/github/donkirkby/vograbulary/ultraghost/Match.java:48-85 | the owner index advances modulo the student count. A fresh start applies with no puzzle, outside hyperghost, or after a run-ending result; it takes the new letters and no previous word. Otherwise the letters stay and the carried word becomes the previous word. The new puzzle takes the match's minimum length and stays paused if the old one was |
| Matches.Match.SetPuzzle | core/src/com/github/donkirkby/vograbulary/ultraghost/Match.java:100-102 | the puzzle is replaced, for a puzzle of three letters or more |
| Matches.Match.SetMinimumWordLength | core/src/com/github/donkirkby/vograbulary/ultraghost/Match.java:131-133 | the minimum length is replaced |
| Matches.Match.SetHyperghost | core/src/com/github/donkirkby/vograbulary/ultraghost/Match.java:139-141 | the hyperghost flag is replaced |
| Matches.Match.GetWinner | core/src/com/github/donkirkby/vograbulary/ultraghost/Match.java:104-125 | the loop as written returns the student chosen by the as-written rule (the tie flag overwritten by each student who does not lead), or null |
| TurnController.Scheduler.ScheduleRepeating | core/src/com/github/donkirkby/vograbulary/ultraghost/Controller.java:134-136 | the task is scheduled at its interval |
| TurnController.Scheduler.Cancel | core/src/com/github/donkirkby/vograbulary/ultraghost/Controller.java:100 | the task is no longer scheduled; cancelling null changes nothing |
| TurnController.Without | core/src/com/github/donkirkby/vograbulary/ultraghost/Controller.java:148-151 | a cancelled task is absent, every other scheduled task keeps its interval, no task is added, and cancelling null changes nothing |
| TurnController.Remaining | core/src/com/github/donkirkby/vograbulary/ultraghost/Controller.java:91-98 | the students left are exactly those of the list that did not finish |
| TurnController.RemainingAppend | core/src/com/github/donkirkby/vograbulary/ultraghost/Controller.java:91-98 | removal through the iterator works student by student |
| TurnController.RemainingDistinct | core/src/com/github/donkirkby/vograbulary/ultraghost/Controller.java:91-98 | removing finished students keeps the list free of duplicates |
| TurnController.SearchTask.Run | core/src/com/github/donkirkby/vograbulary/ultraghost/Controller.java:90-102 | every searching student runs one batch; those that finish are removed; the task cancels itself once none is left |
| TurnController.SearchTask.RunBatches | core/src/com/github/donkirkby/vograbulary/ultraghost/Controller.java:91-98 | each student in the list runs exactly one more batch, and the result is the list without the students whose batch finished their search, in the original order |
| TurnController.HintText | core/src/com/github/donkirkby/vograbulary/ultraghost/Controller.java:153-154 | "Perfect!" exactly when no better word exists, otherwise "hint: " followed by the word |
| TurnController.Controller.AddStudent | core/src/com/github/donkirkby/vograbulary/ultraghost/Controller.java:43-48 | a student not yet listed is appended, so the list stays duplicate-free, and the screen's match is cleared |
| TurnController.Controller.ClearStudents | core/src/com/github/donkirkby/vograbulary/ultraghost/Controller.java:50-54 | no students, no match, focus on the next button |
| TurnController.Controller.GetMatch | core/src/com/github/donkirkby/vograbulary/ultraghost/Controller.java:168-183 | the screen's match, or a fresh match made from a copy of the students, with match score 300 and the preferred minimum length, stored on the screen |
| TurnController.Controller.Restart | core/src/com/github/donkirkby/vograbulary/ultraghost/Controller.java:125-138 | every student solves the current puzzle and nothing else about the students changes. The search task's students are distinct. Without timer tasks, fresh score and search tasks are scheduled at 100 and 10 ms, the search task over all students. Otherwise nothing is rescheduled |
| TurnController.Controller.Completed | core/src/com/github/donkirkby/vograbulary/ultraghost/Controller.java:146-156 | both tasks are cancelled and dropped; the owner gains the puzzle's score; the hint is the text for the next better word; focus goes to the next button |
| TurnController.Controller.Changed | core/src/com/github/donkirkby/vograbulary/ultraghost/Controller.java:159-164 | focus goes to the response when one is entered and the puzzle is not completed |
| TurnController.Controller.Solve | core/src/com/github/donkirkby/vograbulary/ultraghost/Controller.java:185-202 | nothing happens for a completed puzzle; an invalid solution moves focus to the solution; otherwise every student but the owner is asked for a response and the search task is cancelled |
| TurnController.Controller.CancelMatch | core/src/com/github/donkirkby/vograbulary/ultraghost/Controller.java:204-206 | the search task is cancelled |
| TurnController.Controller.Start | core/src/com/github/donkirkby/vograbulary/ultraghost/Controller.java:120-123 | the screen's match, or a fresh one with a permutation of the students, match score 300, not hyperghost and the preferred minimum length, makes a fresh puzzle over the controller's word list. Its owner is the student at the new owner index: the first student for a fresh match, the next in rotation otherwise. Its letters and previous word follow the hyperghost carry-over rule, and it stays paused if the old one was. Every student then solves it, and the timer tasks are scheduled as in restart |
| Russian.FirstSpace | core/src/com/github/donkirkby/vograbulary/russian/Puzzle.java:28 | the first whitespace position: none before it, whitespace at it |
| Russian.SkipSpaces | core/src/com/github/donkirkby/vograbulary/russian/Puzzle.java:28 | a suffix without leading whitespace, after a whitespace-only prefix |
| Russian.PiecesShape | core/src/com/github/donkirkby/vograbulary/russian/Puzzle.java:28 | the whitespace-separated pieces of a clue hold no whitespace; only the first and last can be empty; the first is non-empty when the clue starts with a non-space |
| Russian.DropTrailingEmpty | core/src/com/github/donkirkby/vograbulary/russian/Puzzle.java:28 | a prefix that ends in a non-empty string, after which only empty strings were dropped |
| Russian.Split | core/src/com/github/donkirkby/vograbulary/russian/Puzzle.java:28 | no word of split("\\s+") holds whitespace |
| Russian.SplitEmptyWords | core/src/com/github/donkirkby/vograbulary/russian/Puzzle.java:28-31 | only the first word can be empty, and only for an empty clue or one with leading whitespace |
| Russian.SplitEmptyWordIff | core/src/com/github/donkirkby/vograbulary/russian/Puzzle.java:28-31 | some word is empty (charAt(0) fails) exactly when the clue is empty, or starts with whitespace and holds something else |
| Russian.SplitAllSpaces | core/src/com/github/donkirkby/vograbulary/russian/Puzzle.java:28 | a clue of whitespace alone splits into no words |
| Russian.SplitJoin | core/src/com/github/donkirkby/vograbulary/russian/Puzzle.java:28 | splitting non-empty words joined by single spaces gives the words back |
| Russian.StarredTargets | core/src/com/github/donkirkby/vograbulary/russian/Puzzle.java:29-35 | no more targets than words, each made only of word characters |
| Russian.StarredTargetsFromLater | core/src/com/github/donkirkby/vograbulary/russian/Puzzle.java:29-35 | the t-th stripped target comes from a starred word at position t or later, so the loop only ever overwrites a slot with a later word |
| Russian.Compacted | core/src/com/github/donkirkby/vograbulary/russian/Puzzle.java:29-35 | the array after the loop keeps its length |
| Russian.CompactedSlots | core/src/com/github/donkirkby/vograbulary/russian/Puzzle.java:29-35 | each slot of the array after the loop holds its own word or the stripped form of a starred word at that position or later, so the loop never moves a word backwards past its own slot |
| Russian.Targets | core/src/com/github/donkirkby/vograbulary/russian/Puzzle.java:36-39 | two targets, as long as the first two slots of the array after the loop, and with no lower-case letter |
| Russian.StarredTargetsAppend | core/src/com/github/donkirkby/vograbulary/russian/Puzzle.java:29-35 | starred words are collected word by word |
| Russian.TargetsWithoutStars | core/src/com/github/donkirkby/vograbulary/russian/Puzzle.java:29-39 | with no starred word the targets are the first two words, upper-cased |
| Russian.TargetsWithStars | core/src/com/github/donkirkby/vograbulary/russian/Puzzle.java:29-39 | with two starred words or more, the targets are the first two of them, stripped and upper-cased, and hold only word characters |
| Russian.TargetsWithOneStar | core/src/com/github/donkirkby/vograbulary/russian/Puzzle.java:29-39 | with exactly one starred word, it comes first and the clue's second word, untouched, second |
| Russian.StrippedStarredWord | core/src/com/github/donkirkby/vograbulary/russian/Puzzle.java:33 | a starred word loses its star and surrounding punctuation and keeps its letters |
| Russian.TwoWordSplit | vograbulary-test/src/com/github/donkirkby/vograbulary/russian/PuzzleTest.java:20-26 | "two words" splits into two words, so its clue is cleared |
| Russian.TwoWordTargets | vograbulary-test/src/com/github/donkirkby/vograbulary/russian/PuzzleTest.java:29-36 | the targets of "two words" are TWO and WORDS |
| Russian.ThreeWordSplit | vograbulary-test/src/com/github/donkirkby/vograbulary/russian/PuzzleTest.java:39-45 | "three *big* *words*" splits into three words, so its clue is kept |
| Russian.ThreeWordTargets | vograbulary-test/src/com/github/donkirkby/vograbulary/russian/PuzzleTest.java:48-55 | the targets of "three *big* *words*" are BIG and WORDS |
| Russian.PunctuatedTargets | vograbulary-test/src/com/github/donkirkby/vograbulary/russian/PuzzleTest.java:89-96 | the targets of "*targets* sometimes have *punctuation*!" are TARGETS and PUNCTUATION |
| Russian.Combination | core/src/com/github/donkirkby/vograbulary/russian/Puzzle.java:86-90 | the combination is as long as both targets together |
| Russian.CombinationRoundTrip | core/src/com/github/donkirkby/vograbulary/russian/Puzzle.java:86-90 | the other target sits at the target character, and taking it out gives back the target word |
| Russian.CombinationExamples | vograbulary-test/src/com/github/donkirkby/vograbulary/russian/PuzzleTest.java:58-77 | UNABLE around COMFORT at 2 is UNCOMFORTABLE, whichever target is first |
| Russian.Puzzle.MoveStarred | core/src/com/github/donkirkby/vograbulary/russian/Puzzle.java:27-35 | the in-place loop fails exactly when some word is empty; otherwise the array becomes the stripped starred words in order, followed by the untouched rest |
| Russian.Puzzle.Parse | core/src/com/github/donkirkby/vograbulary/russian/Puzzle.java:24-43 | an empty word fails first, then fewer than two words; otherwise the targets are as specified, the clue is cleared exactly for two words, the total is the given one and the puzzle starts unsolved with no delay |
| Russian.Puzzle.New | core/src/com/github/donkirkby/vograbulary/russian/Puzzle.java:16-18 | as the private constructor, with total score zero: an empty word fails first, then fewer than two words; otherwise a fresh, unsolved puzzle with no delay, the split clue's targets, and the clue cleared exactly for two words |
| Russian.Puzzle.NewAfter | core/src/com/github/donkirkby/vograbulary/russian/Puzzle.java:20-22 | as the private constructor, with the previous puzzle's total score: the same error order, targets, clue clearing, unsolved state and zero delay |
| Russian.Puzzle.GetCombination | core/src/com/github/donkirkby/vograbulary/russian/Puzzle.java:86-90 | the combination is as long as both targets; the other target sits at the target character, and taking it out gives back the target word |
| Russian.Puzzle.SetTargetWord | core/src/com/github/donkirkby/vograbulary/russian/Puzzle.java:52-54 | the target word is replaced |
| Russian.Puzzle.SetTargetCharacter | core/src/com/github/donkirkby/vograbulary/russian/Puzzle.java:66-68 | the target character is replaced |
| Russian.Puzzle.SetSolved | core/src/com/github/donkirkby/vograbulary/russian/Puzzle.java:81-82 | the solved flag is replaced |
| Russian.Puzzle.AdjustScore | core/src/com/github/donkirkby/vograbulary/russian/Puzzle.java:101-104 | the delay grows by the seconds only while the puzzle is unsolved |

## Findings

| source | as written | input that shows it | evidently intended | confidence | as-written member | corrected member |
|---|---|---|---|---|---|---|
| core/src/com/github/donkirkby/vograbulary/ultraghost/Match.java:116-124 | The tie flag is not cleared when a student takes the lead. It is overwritten by every student who does not lead, whether or not that student ties the leader. | Three students with even score counts, match score 0, scores 5, 5, 7: no winner, though the third leads alone. Scores 7, 7, 3: the first student wins, though tied. | The unique highest score wins when it reaches the match score. | not executed | Matches.WinnerAsWrittenMisjudgesTies | Matches.WinnerFixedIsUniqueMaximum |

`Matches.WinnerAsWritten` is the loop as written. `Matches.WinnerFixed` clears the flag on a new lead and otherwise accumulates ties. `Matches.Match.GetWinner` is the loop as written, proved equal to `Matches.WinnerAsWritten`.

## Left out

- Screens, views, focus painting, refreshes and listener registration (`watchPuzzle`, `addListener`, `setListener`, `setMatch` on students):
  - user interface only;
  - the focus changes they cause are kept.
- Timers: a scheduler is a map from task to interval. Running a task is a method call; no time passes.
- The score task's `adjustScore` call on the core puzzle, `refreshScore` and `getSummary`: text display, or code that is not part of this model.
- The core ultraghost puzzle:
  - its `Puzzle.java` is not part of this model;
  - `getScore`, `isCompleted` and `isValidSolution` are parameters of the controller methods that call them.
- `setWordList`, `setRandom`, `setGenerator`, `setPreferences` and `setScreen` on the controllers: dependency wiring, so the model takes those values as constructor arguments instead.
- Random numbers and letter generation: the choices and the generated letters are parameters.
- I/O: `readWordList` takes the lines already read. The reader, its close and the IOException are left out.
- `Students.Student.*`: `Student.java` is not part of this model. The class records only what the controller and match use.
- `JavaText.Upper`: only ASCII letters are upper-cased, not full Unicode case mapping.
- The russian score:
  - `getScore`, the score displays and the float and BigDecimal arithmetic are left out;
  - the delay and the total are exact reals.
- `Russian.Puzzle.SetSolved` does not add the puzzle's score to the total, because that score is float arithmetic. `totalScoreAfterNotSolving` expects an unchanged total after `setSolved(false)`, yet the code adds the score either way. This mismatch is recorded, not resolved.
- `Russian.Puzzle.GetCombination`:
  - it requires a target word of 0 or 1 and an in-range target character, where Java throws;
  - `getTarget` likewise requires an index of 0 or 1.
- `Russian.Puzzle.NewAfter` takes a non-null previous puzzle, where Java throws on null.
- `Ultraghost.Puzzle.FindNextBetter` requires three letters, where Java throws `StringIndexOutOfBoundsException` on shorter letters once a long-enough word reaches `isMatch`.
- `Matches.Match.SetPuzzle` only accepts a puzzle of three letters or more, where Java's `setPuzzle` (core/src/com/github/donkirkby/vograbulary/ultraghost/Match.java:100-102) accepts any. `Matches.Match.Valid` holds that bound for the match's puzzle. `Matches.Match.CreatePuzzle` and, through `TurnController.Controller.Valid`, `Restart`, `Completed`, `Solve` and `Start` rely on it. In the source a match's letters come only from `random.generatePuzzle()` (Match.java:59), which the model takes as fresh letters of length three or more, and `completed` runs `findNextBetter`, which needs the three letters. So the model does not cover a match holding a puzzle of shorter letters.
- `Matches.Match.CreatePuzzle` requires at least one student, where Java's `% students.length` throws `ArithmeticException` on none.
- `TurnController.Controller.AddStudent` requires a student not listed already, which Java does not check. With it `Controller.Valid` keeps the students distinct, so the search task `restart` creates meets `TurnController.SearchTask.Run`'s requirement of distinct searching students.
- `Matches.WinnerFixedIsUniqueMaximum` and its companions require every score above `Integer.MIN_VALUE`. A student at exactly that score never takes the lead in the loop. Scores are mathematical integers, with no 32-bit overflow.
- `UltraghostControl.FilterLines` and the match rules: Java's `length()` and `indexOf` count UTF-16 code units, while Dafny strings count Unicode scalar values. On characters outside the Basic Multilingual Plane the `> 3` length test and the positional match can differ.
- `TurnController.Controller.Restart`, `TurnController.Controller.Completed` and `TurnController.Controller.Solve` require a current match with a puzzle. Java throws `NullPointerException` there: `restart` passes a null puzzle to `watchPuzzle`, which calls `addListener` on it (core/src/com/github/donkirkby/vograbulary/ultraghost/Controller.java:126-127), `completed` calls `getOwner` on a null puzzle, and `solve` calls `isCompleted` on one.
- `UltraghostControl.UltraghostController.Next` requires generated letters of length three at least.
- `toString` of the ultraghost puzzle and the getters that only return a field: nothing to prove.
