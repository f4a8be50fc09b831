# Advent of Code 2022, days 1 to 3, in Dafny

A verified model of the puzzle logic of three small Rust programs:

- **Day 1, calorie counting** (`calories.dfy`, module `CalorieCounting`).
  Elves carry food items with calorie values. An `ElfGroup` is a growing list
  of elves with sequential ids. The program finds the elf carrying the most
  calories and the sum of the three largest totals. It builds the group from
  lines of input, where a blank line closes the current elf. The group is a
  class whose `AddElf` method appends in place. `Top3ElvesCalories` sorts a
  local array in place. `CollectElves` is the line-grouping loop, run over an
  in-memory sequence of lines.
- **Day 2, rock paper scissors** (`rock_paper_scissors.dfy`, module
  `RockPaperScissors`). The rules of the game are modelled as pure functions
  over the `Choice` and `FightOutcome` enumerations, with their fixed point
  values. `PointsScored` is the fold that adds up a strategy guide's scores.
  `ParseLine` is the two-token line parser for both readings of a line.
- **Day 3, rucksack reorganisation** (`rucksacks.dfy`, module `Rucksacks`).
  This covers:
  - the 52-letter priority table;
  - splitting a rucksack into two compartments;
  - the common items of the two compartments, and the badge items of a group
    of three rucksacks. In both, the result keeps the first string's order and
    drops only *consecutive* repeats, as `Vec::dedup` does;
  - the two priority sums over a group.

`wrappers.dfy` holds the `Option` and `Result` datatypes the three modules
share.

Conventions:

- Rust's `u64` totals are unbounded `nat`s.
- A Rust panic or `?` error becomes a `Failure` or `None` result.
- Strings are sequences of (ASCII) characters.

## Model

| member | source | states |
|---|---|---|
| CalorieCounting.TotalCaloriesCarried | day1/src/main.rs:32-36 | an elf with no food carries 0 calories, and no food item is worth more than the elf's total |
| CalorieCounting.SumAppend | day1/src/main.rs:32-36 | the left fold from 0 is additive over concatenation |
| CalorieCounting.SumBoundsTerms | day1/src/main.rs:32-36 | every summed value is at most the total |
| CalorieCounting.Totals | day1/src/main.rs:58-59 | there is one total per elf |
| CalorieCounting.ElfGroup.constructor | day1/src/main.rs:39-40 | a default group is empty |
| CalorieCounting.ElfGroup.AddElf | day1/src/main.rs:43-47 | exactly one elf is appended, with id = previous count + 1; earlier elves are unchanged and ids stay 1..n in insertion order |
| CalorieCounting.LastMaxIndex | day1/src/main.rs:54 | the index chosen by max-by-key lies inside the sequence |
| CalorieCounting.LastMaxIndexSpec | day1/src/main.rs:54 | the chosen total is at least every total, and every later total is strictly smaller: ties go to the last maximal elf |
| CalorieCounting.ElfGroup.ElfWithMostCalories | day1/src/main.rs:49-55 | None iff the group is empty; otherwise an elf of the group whose total is at least every elf's total, with every later elf strictly below it |
| CalorieCounting.SumOfLargestOfFew | day1/src/main.rs:61 | taking the k largest values of at most k values sums all of them |
| CalorieCounting.FirstOfDescendingIsLargest | day1/src/main.rs:60 | the head of a descending permutation of the totals is their maximum |
| CalorieCounting.SortedPrefixSum | day1/src/main.rs:60-61 | the first min(k, n) values of any descending permutation sum to the sum of the k largest values |
| CalorieCounting.SortDescending | day1/src/main.rs:60 | sorting by reversed key leaves the array descending and a permutation of its old contents |
| CalorieCounting.IndexOfLargestFrom | day1/src/main.rs:60 | the returned index holds the largest value of the unsorted suffix |
| CalorieCounting.ElfGroup.Top3ElvesCalories | day1/src/main.rs:57-62 | the result is the sum of the three largest totals |
| CalorieCounting.Top3OfFewElves | day1/src/main.rs:57-62 | with at most three elves the result is the sum of all totals, and 0 for an empty group |
| CalorieCounting.ParseU64 | day1/src/main.rs:83 | a parsed calorie value fits in 64 bits, and the empty line is not a value |
| CalorieCounting.DecimalString | day1/src/main.rs:83 | every natural number has a non-empty decimal spelling |
| CalorieCounting.DigitsValueOfDecimalString | day1/src/main.rs:83 | reading the decimal spelling of n gives n back |
| CalorieCounting.ParseU64OfDecimalString | day1/src/main.rs:83 | every value below 2^64 written in decimal parses back to itself |
| CalorieCounting.Segments | day1/src/main.rs:77-86 | splitting the lines at blank lines gives at least one (possibly empty) segment |
| CalorieCounting.SegmentsJoin | day1/src/main.rs:77-86 | joining the segments with blank lines gives the input lines back |
| CalorieCounting.SegmentsHaveNoBlankLine | day1/src/main.rs:79 | no segment contains a blank line |
| CalorieCounting.ParseValuesSpec | day1/src/main.rs:83 | a segment's values exist exactly when every line of it parses |
| CalorieCounting.ParseValuesAt | day1/src/main.rs:83 | a segment's values are its lines' values, one per line and in order |
| CalorieCounting.ReadBlank | day1/src/main.rs:79-81 | a blank line adds one elf carrying the buffered values, with the next id, and empties the buffer |
| CalorieCounting.ReadValue | day1/src/main.rs:82-83 | a non-blank line that parses appends its value to the buffer and adds no elf |
| CalorieCounting.ReadLines | day1/src/main.rs:77-86 | the reading loop line by line; on success the elves it has added are numbered 1..n in order |
| CalorieCounting.ReadLinesFails | day1/src/main.rs:83 | reading fails exactly when some non-blank line is not a calorie value |
| CalorieCounting.ReadLinesFirstBadLine | day1/src/main.rs:83 | a failure names the first non-blank line that does not parse |
| CalorieCounting.ReadLinesElves | day1/src/main.rs:77-86 | on success the ids are 1..n; elf k carries the values of the k-th blank-terminated segment; the buffer holds the values after the last blank line, which produce no elf |
| CalorieCounting.CollectElves | day1/src/main.rs:73-86 | the loop returns the first parse error, or a valid group whose elves are the segment-by-segment reading of the lines |
| CalorieCounting.ExampleTotals | day1/src/main.rs:111-123 | the five example elves carry 6000, 4000, 11000, 24000 and 10000 calories |
| CalorieCounting.ExampleMaximum | day1/src/main.rs:111-123 | the maximum of the example is elf #4 |
| CalorieCounting.ExampleTop3 | day1/src/main.rs:125-136 | the three largest example totals add up to 45000 |
| CalorieCounting.ExampleSecondAndThird | day1/src/main.rs:125-136 | with 24000 removed, the two largest example totals add up to 21000 |
| CalorieCounting.ExampleThird | day1/src/main.rs:125-136 | with 24000 and 11000 removed, the largest example total is 10000 |
| CalorieCounting.BriefExample | day1/src/main.rs:111-136 | elf #4 carrying [7000, 8000, 9000] (24000) is chosen, and the top-3 sum is 45000 |
| RockPaperScissors.ChoicePoints | day2/src/main.rs:3-12 | a hand is worth between 1 and 3 points |
| RockPaperScissors.OutcomePoints | day2/src/main.rs:44-58 | an outcome is worth 0, 3 or 6 points |
| RockPaperScissors.PointTables | day2/src/main.rs:3-58 | Rock 1, Paper 2, Scissors 3; Loss 0, Draw 3, Win 6; both tables are one-to-one |
| RockPaperScissors.WinsAgainst | day2/src/main.rs:15-21 | a hand wins exactly when its points exceed the other's by 1 modulo 3 (Rock>Scissors, Paper>Rock, Scissors>Paper) |
| RockPaperScissors.WinsAgainstIsTournament | day2/src/main.rs:15-21 | no hand beats itself, and of two distinct hands exactly one beats the other |
| RockPaperScissors.Outcome | day2/src/main.rs:68-76 | Draw iff the hands are equal, Win iff mine beats the opponent's, Loss iff the opponent's beats mine; the outcome's points follow from the hands' points |
| RockPaperScissors.OutcomeOfSwapped | day2/src/main.rs:68-76 | swapping the sides swaps Win and Loss and keeps Draw |
| RockPaperScissors.SolveOutcome | day2/src/main.rs:23-37 | playing the solved hand against the opponent gives the desired outcome |
| RockPaperScissors.SolveOutcomeUnique | day2/src/main.rs:23-37 | a hand gives the desired outcome iff it is the solved hand |
| RockPaperScissors.FightScore | day2/src/main.rs:95-109 | each fight adds both hands' points plus 6 to the two sides together |
| RockPaperScissors.FightScoreCases | day2/src/main.rs:95-109 | me gains my hand + 6, 3 or 0 for win, draw or loss; the opponent gains their hand + 0, 3 or 6 |
| RockPaperScissors.TotalScore | day2/src/main.rs:89-113 | the per-side totals of a guide, fight by fight from (0, 0); each side scores at least 1 point per fight |
| RockPaperScissors.TotalScoreSpec | day2/src/main.rs:89-113 | a guide's two totals add up to all hands' points plus 6 per fight, and an empty guide scores (0, 0) |
| RockPaperScissors.TotalScoreAppend | day2/src/main.rs:89-113 | the totals of a concatenated guide are the sums of the parts' totals |
| RockPaperScissors.PointsScored | day2/src/main.rs:89-113 | the fold from (0, 0) over the guide's fights yields the guide's totals |
| RockPaperScissors.ParseChoice | day2/src/main.rs:5-12 | A/X parse as Rock, B/Y as Paper, C/Z as Scissors; any other token is an error naming it |
| RockPaperScissors.ParseOutcome | day2/src/main.rs:46-53 | X parses as Loss, Y as Draw, Z as Win; any other token is an error naming it |
| RockPaperScissors.SplitOnSpace | day2/src/main.rs:131 | splitting on spaces yields at least one token |
| RockPaperScissors.SplitOnSpaceJoins | day2/src/main.rs:131 | the tokens joined by single spaces give the line back, and no token holds a space |
| RockPaperScissors.ParseLine | day2/src/main.rs:131-137 | a parsed line has exactly two tokens; both of its fights have the same opponent, and the second fight's outcome is the outcome the second token names |
| RockPaperScissors.ParseLineSucceeds | day2/src/main.rs:131-137 | a line parses iff it is three characters: an opponent token in A-C or X-Z, a space and a token in X-Z |
| RockPaperScissors.ParseLineFights | day2/src/main.rs:131-137 | a parsed line's first fight reads both tokens as hands; its second fight has the same opponent and its outcome is the one the second token names |
| RockPaperScissors.BriefExampleParse | day2/src/main.rs:166-186 | "A Y", "B X", "C Z" read as Rock-Paper, Paper-Rock and Scissors-Scissors |
| RockPaperScissors.BriefExampleScore | day2/src/main.rs:165-191 | those three fights score 15 for me and 15 for the opponent |
| Rucksacks.LetterChain | day3/src/main.rs:19-20 | the chain 'a'..='z' then 'A'..='Z' has 52 distinct letters and holds every letter |
| Rucksacks.DefaultPriorities | day3/src/main.rs:17-25 | the default table is copied in full from the letter chain |
| Rucksacks.Position | day3/src/main.rs:8-10 | the position is absent iff the character is not in the table; otherwise it is the first index holding it |
| Rucksacks.PriorityForChar | day3/src/main.rs:7-14 | a priority exists iff the character is in the table; it lies in 1..52 and is its position + 1; otherwise an out-of-range error names the character |
| Rucksacks.DefaultPriority | day3/src/main.rs:7-25 | with the default table, a..z get 1..26, A..Z get 27..52, and every other character is an error |
| Rucksacks.PriorityInjective | day3/src/main.rs:7-14 | two characters with the same priority are the same character |
| Rucksacks.SumAllSpec | day3/src/main.rs:31-36 | a sum of priorities exists exactly when every term does, and otherwise fails with the first failing term's error |
| Rucksacks.SumAllAppend | day3/src/main.rs:31-36 | summing is additive over concatenation |
| Rucksacks.SumAllBounds | day3/src/main.rs:31-36 | n priorities in 1..52 sum to between n and 52n |
| Rucksacks.ItemPrioritiesAt | day3/src/main.rs:32-34 | the mapped priorities are the items' priorities, one per item and in order |
| Rucksacks.CumulatedPriorities | day3/src/main.rs:31-36 | the sum of the items' priorities, failing on the first item without one (its contract is stated by CumulatedPrioritiesSpec and CumulatedPrioritiesAppend) |
| Rucksacks.CumulatedPrioritiesSpec | day3/src/main.rs:31-36 | a container's sum exists iff every item has a priority, and lies between 1 and 52 per item; the empty container gives 0; a failure names an item without a priority |
| Rucksacks.CumulatedPrioritiesAppend | day3/src/main.rs:31-36 | the sum of concatenated contents is the sum of the parts' sums |
| Rucksacks.NewFromStr | day3/src/main.rs:58-70 | an error iff the length is odd; otherwise both compartments have half the length |
| Rucksacks.ToString | day3/src/main.rs:72-76 | the string is the first compartment followed by the second, its length the sum of theirs |
| Rucksacks.NewFromStrOfToString | day3/src/main.rs:58-76 | splitting the concatenation of two equal-length compartments gives the rucksack back |
| Rucksacks.Shared | day3/src/main.rs:79-85 | the kept characters form a subsequence of the first string |
| Rucksacks.SharedSpec | day3/src/main.rs:79-85 | the kept characters are exactly those that occur in both strings |
| Rucksacks.Dedup | day3/src/main.rs:87 | dedup never grows the sequence, and a non-empty sequence stays non-empty |
| Rucksacks.DedupSpec | day3/src/main.rs:87 | dedup keeps the last element and the same set of characters, and leaves no two adjacent equal characters |
| Rucksacks.DedupIsRunHeads | day3/src/main.rs:87 | dedup keeps exactly the elements that are first or differ from their predecessor in the input, so only consecutive repeats are removed |
| Rucksacks.DedupOfNoAdjacentDuplicates | day3/src/main.rs:87 | a sequence with no two adjacent equal elements is left unchanged, whatever repeats it holds further apart |
| Rucksacks.RunHeadsOfNoAdjacentDuplicates | day3/src/main.rs:87 | the run heads of a sequence without adjacent repeats are the whole sequence |
| Rucksacks.DedupIsSubsequence | day3/src/main.rs:87 | dedup keeps a subsequence of its input |
| Rucksacks.DedupOfRun | day3/src/main.rs:87 | a run of one repeated character dedups to that character alone |
| Rucksacks.DedupKeepsSeparatedRepeat | day3/src/main.rs:87 | for any two different characters a and b, [a, b, a] is left unchanged |
| Rucksacks.SharedOfContained | day3/src/main.rs:79-85 | filtering a string all of whose characters occur in the other string keeps it whole |
| Rucksacks.CommonItemsOf | day3/src/main.rs:78-90 | the common items never repeat a character back to back |
| Rucksacks.CommonItemsOfSpec | day3/src/main.rs:78-90 | the common items are a subsequence of the first compartment and are exactly the characters both compartments hold; they are the run heads of the first compartment's characters that occur in the second |
| Rucksacks.CommonItemsOfOneSharedType | day3/src/main.rs:78-90 | when the compartments share exactly one item type, the common items are that one item, however often it occurs |
| Rucksacks.CommonItemsKeepsSeparatedRepeats | day3/src/main.rs:78-90 | the common items of "aba"/"aby" are "aba": the result is not a full de-duplication |
| Rucksacks.DedupInPlace | day3/src/main.rs:87 | the in-place dedup leaves the dedup of the old contents in the array's prefix of the returned length |
| Rucksacks.CollectAndDedup | day3/src/main.rs:85-89 | the collected, deduplicated vector is turned into a container holding the dedup of the items |
| Rucksacks.CommonItems | day3/src/main.rs:78-90 | the method's result is the common-items function of the rucksack |
| Rucksacks.BadgeItemsOf | day3/src/main.rs:92-107 | the badge items never repeat a character back to back |
| Rucksacks.BadgeItemsOfSpec | day3/src/main.rs:92-107 | the badge items are a subsequence of the first rucksack's contents and are exactly the characters all three rucksacks hold; they are the run heads of the first rucksack's characters that occur in the other two |
| Rucksacks.CommonItemsWithGroup | day3/src/main.rs:92-107 | the method's result is the badge-items function of the three rucksacks |
| Rucksacks.CumulatedPrioritySum | day3/src/main.rs:114-119 | the sum over the rucksacks of their common items' priorities; an empty group gives 0 |
| Rucksacks.CumulatedPrioritySumSpec | day3/src/main.rs:114-119 | the group's sum exists iff every rucksack's common items have priorities |
| Rucksacks.CommonItemPrioritiesAt | day3/src/main.rs:115-117 | the mapped values are each rucksack's common-items sum, one per rucksack and in order |
| Rucksacks.CumulatedPrioritySumOfEach | day3/src/main.rs:114-119 | when each rucksack's common items sum to a given result, the group's sum is the sum of those results |
| Rucksacks.ChunksExact3 | day3/src/main.rs:123 | there are floor(n/3) chunks, chunk k being the elements 3k, 3k+1 and 3k+2 |
| Rucksacks.GroupBadgePrioritySum | day3/src/main.rs:121-133 | fewer than three rucksacks give 0 |
| Rucksacks.GroupBadgeIgnoresPartialChunk | day3/src/main.rs:121-133 | a trailing 1 or 2 rucksacks do not change the badge sum |
| Rucksacks.ExampleFirstParses | day3/src/main.rs:188 | the first example line splits into its two compartments |
| Rucksacks.ExampleSecondParses | day3/src/main.rs:189 | the second example line splits into its two compartments |
| Rucksacks.ExampleThirdParses | day3/src/main.rs:190 | the third example line splits into its two compartments |
| Rucksacks.ExampleFourthParses | day3/src/main.rs:191 | the fourth example line splits into its two compartments |
| Rucksacks.ExampleFifthParses | day3/src/main.rs:192 | the fifth example line splits into its two compartments |
| Rucksacks.ExampleSixthParses | day3/src/main.rs:193 | the sixth example line splits into its two compartments |
| Rucksacks.ExampleFirstCommonItems | day3/src/main.rs:179 | the common items of the first example rucksack are "p" |
| Rucksacks.ExampleSecondCommonItems | day3/src/main.rs:180 | the common items of the second example rucksack are "L" |
| Rucksacks.ExampleThirdCommonItems | day3/src/main.rs:181 | the common items of the third example rucksack are "P" |
| Rucksacks.ExampleFourthCommonItems | day3/src/main.rs:182 | the common items of the fourth example rucksack are "v" |
| Rucksacks.ExampleFifthCommonItems | day3/src/main.rs:183 | the common items of the fifth example rucksack are "t" |
| Rucksacks.ExampleSixthCommonItems | day3/src/main.rs:184 | the common items of the sixth example rucksack are "s" |
| Rucksacks.PriorityOfSingleCommonItem | day3/src/main.rs:31-36 | a single common item is worth its own priority |
| Rucksacks.ExampleFirstPriority | day3/src/main.rs:179 | the first example rucksack's common items are worth 16 |
| Rucksacks.ExampleSecondPriority | day3/src/main.rs:180 | the second example rucksack's common items are worth 38 |
| Rucksacks.ExampleThirdPriority | day3/src/main.rs:181 | the third example rucksack's common items are worth 42 |
| Rucksacks.ExampleFourthPriority | day3/src/main.rs:182 | the fourth example rucksack's common items are worth 22 |
| Rucksacks.ExampleFifthPriority | day3/src/main.rs:183 | the fifth example rucksack's common items are worth 20 |
| Rucksacks.ExampleSixthPriority | day3/src/main.rs:184 | the sixth example rucksack's common items are worth 19 |
| Rucksacks.SixRucksacksTotal | day3/src/main.rs:178-185 | six rucksacks worth 16, 38, 42, 22, 20 and 19 make a group worth 157 |
| Rucksacks.ExamplePrioritySum | day3/src/main.rs:204 | the example group's priority sum is 157 |

## Left out

- Reading the input files, skipping unreadable lines and printing the results (the `main` functions of all three days) are I/O and are not modelled. The `color_eyre` setup is left out as well. Day 1's grouping loop and day 2's line parse are modelled over in-memory lines.
- Day 2 skips empty lines before parsing and pushes the parsed fights into two guides. Day 3's `main` reads rucksacks line by line, skipping empty lines, then computes and prints the two sums. All of this is I/O glue around the modelled functions.
- The `strum` derives are not modelled. The token tables they generate are written out as explicit lookup functions.
- `Debug`, `Clone` and `Default` derives, and the `Food` wrapper around a calorie value, are not modelled. Food is a plain `nat`.
- CalorieCounting.TotalCaloriesCarried: totals are unbounded, so the `u64` overflow of the Rust fold (a panic in debug builds) is not modelled. The same holds for the day 2 totals and the day 3 sums.
- CalorieCounting.ParseU64: every reason `str::parse::<u64>` can fail (empty, invalid digit, overflow) is one `None`. The `?` in the loop returns the failing line in an `InvalidCalorieValue` error instead of the library's error kinds.
- CalorieCounting.ElfGroup.Top3ElvesCalories: a selection sort stands in for the standard library's sort. Stability is not observable in a sum of values, so only the multiset and the order matter.
- Rucksacks.PriorityForChar: the `expect` panic for a character outside the table becomes a `Failure(OutOfRangePriority(c))`, which the sums propagate. The `u8` cast is the identity, since positions are below 52.
- Rucksacks.NewFromStr: `len` and `split_at` count UTF-8 bytes in Rust. Here they count characters, which is the same for ASCII input.
- RockPaperScissors.ParseLine: the `assert_eq!` on the token count is a panic in Rust. Here it becomes a `WrongTokenCount` failure. A `?` on a bad token becomes an error naming the token.
- The empty `conforms_to_brief_step2` test of day 2 asserts nothing, so there is nothing to model.
