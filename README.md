# EZDice in Dafny

A model of `EZDice` (ezdice.php), a small PHP library that rolls dice written
in dice notation: `3d6+2`, `4d6-L`, `2d%-H1 - 1d4`.  The class keeps three
fields that describe the latest roll: the total, the list of die states
(sides, value, dropped) and the combined modifier.  Its public operations are
`roll`, `strContainsDice`, `getTotal`, `getDiceStates` and `getModifier`.

The model has the following files:

- `notation.dfy` (module `Notation`) is the scanner behind the pattern at
  ezdice.php:10.  It is written as an explicit left-to-right scanner.  At each
  position it tries the token shape, and `preg_match_all` is modelled in
  `matchall.dfy` (module `PregMatchAll`): skip a position without a match,
  resume at a match's end.  Captures stay digit strings, as PHP leaves them.
  - Mode `Tolerant` makes the dice suffix optional, as in `roll`
    (ezdice.php:43).  It yields `Modifier` and `Dice` tokens.
  - Mode `DiceOnly` requires the suffix, as in `strContainsDice`
    (ezdice.php:65).
  - `IntegerLiteral` is the `is_numeric`/`(int)` short-circuit of `roll` for
    integer literals.
- `evaluation.dfy` (module `Evaluation`) is the specification of what
  `processGroup` and `roll` do to the three fields:
  - `TotalDelta` and `ModifierDelta` give each token's effect.
  - `GroupStates` is the relation between the numbers a group draws and the
    states it appends.  It is a relation because `shuffle` leaves the order of
    the kept dice open.
  - `Produced` is the state a whole roll leaves.
  - The lemmas state what `roll` guarantees: bounds, drop order, the tie
    between the total and the states, and the no-digit and zero-dice cases.
- `ezdice.dfy` (module `Ezdice`) holds the class `EZDice`.  Its fields
  `total`, `states` and `modifier` are updated in place by `Roll`,
  `ProcessGroup` and `AddState`.  The loops of `processGroup` (draw, pop,
  keep) are `while` loops proved against the specification above.
- `seqs.dfy`, `numerals.dfy` and `option.dfy` hold sums, reversal, an
  insertion sort standing for `sort`, decimal digit strings, `sprintf("%+d")`
  and `Option`.

Randomness is a parameter.  `getRandomNumber` (ezdice.php:140-143) is
replaced by the sequence `rolls` given to `Roll`: the numbers the dice draw,
in order.  `RollsFit` requires each of them to lie in [1, sides] of its die,
which is what `mt_rand(1, $max)` guarantees.

The code and test.php disagree on `roll("0d10")`.  The code at
ezdice.php:46-53 returns the total, 0, because `0d10` is a match.
test.php:88-93 expects `false`.  The model follows the code; see
`Evaluation.ZeroCountRollsZero`.

## Model

| member | source | states |
|---|---|---|
| Notation.SkipSpaces | ezdice.php:10 | `\s*` ends at the first non-whitespace character, and everything it skips is whitespace |
| Notation.DigitsEnd | ezdice.php:10 | `\d+` is greedy: the run it reads is all digits and is followed by a non-digit or the end |
| Notation.DropAt | ezdice.php:10 | the optional `-L`/`-H` rule consumes input exactly when it is present, and its quantity is a non-empty digit run |
| Notation.DiceSuffix | ezdice.php:10 | the dice suffix is present exactly when a `d`/`D` is followed by a digit or `%`; its sides and quantity are digit runs |
| Notation.MatchAt | ezdice.php:10 | a match at p consumes at least one character and stays inside the string |
| Notation.MatchFacts | ezdice.php:10 | a match's sign is `-` exactly when it starts with `-`; its captures are digit runs; with the suffix required it is a dice group |
| Notation.TokenOrigin | ezdice.php:43 | every token of a scan is the match at some position of the string, with the same guarantees |
| PregMatchAll.MatchAll | ezdice.php:43 | `preg_match_all` from offset p: tries each start position in turn, takes a match and resumes at its end; it finds at most one match per character |
| Notation.Scan | ezdice.php:43 | all matches of the pattern from p on, in order; at most one per remaining character |
| Notation.Tokens | ezdice.php:43 | the dice groups and modifiers `roll` finds, at most one per character; `Notation.NoTokensIffNoDigit` says when there are none |
| PregMatchAll.FindsMatch | ezdice.php:43 | one match anywhere makes the result of `preg_match_all` non-empty |
| PregMatchAll.NeedsMatch | ezdice.php:43 | a non-empty result has a match at some position |
| PregMatchAll.Skips | ezdice.php:43 | positions without a match are skipped |
| PregMatchAll.Takes | ezdice.php:43 | a match comes first in the result, and the search resumes at its end |
| PregMatchAll.FromMatches | ezdice.php:43 | every result is the token of some match |
| Notation.NoDigitScansEmpty | ezdice.php:43-46 | text without a digit yields no match |
| Notation.ScanSkipsSpaces | ezdice.php:10 | whitespace not followed by a digit never starts a match |
| Notation.DigitStartsMatch | ezdice.php:10 | a digit always starts at least a modifier match in `roll` |
| Notation.NoDigitNoMatch | ezdice.php:10 | without a digit from p on, there is no match at p |
| Notation.NoTokensIffNoDigit | ezdice.php:43-46 | `roll` finds no tokens exactly when the string has no digit, both directions |
| Notation.DiceMatchHasDiceAt | ezdice.php:63-66 | a match with the suffix required contains digit, die letter, digit-or-`%` side by side |
| Notation.DiceAtMatches | ezdice.php:63-66 | digit, die letter, digit-or-`%` side by side is a match with the suffix required |
| Notation.ContainsDiceIff | ezdice.php:63-66 | the `strContainsDice` scan is non-empty exactly when digit, die letter, digit-or-`%` stand together; `0d6` counts |
| Notation.IntegerLiteral | ezdice.php:35-36 | an accepted literal holds a digit; its shape and value are stated by `Notation.LiteralParts` |
| Notation.ModifierMatchAt | ezdice.php:10 | a sign, whitespace and digits followed by whitespace or the end is a modifier match with that sign and those digits |
| Notation.LiteralParts | ezdice.php:35-36 | an integer literal splits into leading whitespace, sign, digits and trailing whitespace, and its value is that of the signed digits |
| Notation.LoneModifierScan | ezdice.php:43 | a signed digit run followed only by whitespace scans as exactly one modifier |
| Notation.LiteralScansAsModifier | ezdice.php:35-39 | an integer literal scans as one modifier of the same value, so the short-circuit agrees with the general path |
| Notation.SignedDigitsLiteral | ezdice.php:35-36 | a sign followed by digits is an integer literal with the signed decimal value |
| Notation.FormatSignedParses | ezdice.php:174 | the text `sprintf("%+d", m)` produces reads back as m |
| Numerals.DecimalValue | ezdice.php:81 | the number PHP reads from a captured digit string, leading zeros allowed; `Numerals.DecimalRoundTrip` and `Numerals.ZeroValueIffZeroDigits` state its properties |
| Numerals.DigitChar | ezdice.php:174 | the digit character printed for d has value d |
| Numerals.Decimal | ezdice.php:174 | the decimal text of n is non-empty digits, with a leading `0` only for zero |
| Numerals.DecimalRoundTrip | ezdice.php:174 | reading back the decimal text of n gives n |
| Numerals.ZeroValueIffZeroDigits | ezdice.php:101 | a digit string has value zero exactly when all its digits are `0` |
| Numerals.FormatSigned | ezdice.php:174 | `%+d` prints an explicit sign (`-` exactly for negatives) and the digits of the magnitude, with no leading zero; zero prints as `+0` |
| Seqs.Sum | ezdice.php:126-129 | the running sum of the `foreach`; `Seqs.SumConcat`, `Seqs.SumPermutation` and `Seqs.SumBounds` state its properties |
| Seqs.Reverse | ezdice.php:115 | `array_reverse`: the same number of values, last first; `Seqs.ReversePermutes` states that it keeps the values |
| Seqs.Ascending | ezdice.php:112 | `sort($results, SORT_NUMERIC)` as insertion sort: the same number of values; `Seqs.AscendingSorts` states that they are the same values in ascending order |
| Seqs.SumConcat | ezdice.php:126-129 | the sum of a concatenation is the sum of its parts |
| Seqs.SumPermutation | ezdice.php:122 | rearranging values does not change their sum |
| Seqs.SumBounds | ezdice.php:126-129 | n values in [lo, hi] sum to between n*lo and n*hi |
| Seqs.ReversePermutes | ezdice.php:115 | `array_reverse` keeps the values |
| Seqs.InsertPermutes | ezdice.php:112 | one insertion step keeps the values |
| Seqs.InsertSorts | ezdice.php:112 | inserting into ascending values keeps them ascending |
| Seqs.AscendingSorts | ezdice.php:112 | `sort` yields the same values in ascending order |
| Seqs.ReverseOfAscendingDescends | ezdice.php:112-115 | reversing an ascending list gives a descending one |
| Evaluation.Scale | ezdice.php:85 | `$scaler` is 1 or -1, and negative exactly for the `-` operator |
| Evaluation.SideCount | ezdice.php:98 | `%` stands for 100 sides; otherwise the value of the sides digits |
| Evaluation.IsLive | ezdice.php:101 | the corrected guard: at least one die with at least one side; `Evaluation.GuardsDisagreeOnZeroPadding` relates it to the guard as written |
| Evaluation.GuardAsWritten | ezdice.php:98-101 | the guard as written: PHP truthiness of the sides string (only `""` and `"0"` are falsy, `%` is 100) and a positive count |
| Evaluation.DropOrder | ezdice.php:112-120 | the order the pops take dice: ascending for L and descending for H, as many as drawn; `Evaluation.DropOrderFacts` states it is a rearrangement of the draws |
| Evaluation.BeforePops | ezdice.php:112-116 | `$results` after `sort`, and after `array_reverse` for L; `Evaluation.PopPlan` relates it to the drop order |
| Evaluation.TotalDelta | ezdice.php:84-129 | what one token adds to `$total`: a modifier its signed number, a live group the signed sum of its kept dice, a skipped group nothing |
| Evaluation.ModifierDelta | ezdice.php:89-90 | what one token adds to `$modifier`: a modifier its signed number, a dice group nothing |
| Evaluation.GroupStates | ezdice.php:101-129 | the states one token appends: none for a modifier or skipped group, the draws in order without a drop rule, the dropped dice in pop order then the kept dice in any order with one |
| Evaluation.DrawCount | ezdice.php:101-105 | how many times a token calls `getRandomNumber`: its dice count when the group passes the corrected guard, otherwise none |
| Evaluation.DieSides | ezdice.php:49-51 | the sides of the die behind each `getRandomNumber` call, in call order: the groups in order, each repeating its side count once per die |
| Evaluation.RollsFit | ezdice.php:140-143 | the numbers drawn are one per call of `getRandomNumber`, and each lies in [1, sides of its die], the range of `mt_rand(1, $max)` |
| Evaluation.Discarded | ezdice.php:117-120 | the dice the pops take, in pop order: the first min(quantity, N) of the drop order; none without a drop rule |
| Evaluation.Kept | ezdice.php:121-122 | the dice left in `$results` after the pops (before `shuffle`): the rest of the drop order, or all draws without a drop rule |
| Notation.ModifierValue | ezdice.php:85-90 | `$number*$scaler`: the value of a token's digits, negated after a `-` |
| Evaluation.TotalOf | ezdice.php:49-51 | `$total` after the `foreach`: the sum of each token's `TotalDelta`, each group taking the next numbers drawn |
| Evaluation.ModifierOf | ezdice.php:49-51 | `$modifier` after the `foreach`: the sum of each token's `ModifierDelta` |
| Evaluation.StatesOf | ezdice.php:49-51 | `$states` after the `foreach`: one state per number drawn, made of each token's `GroupStates` block in order |
| Evaluation.Produced | ezdice.php:29-51 | the fields after processing the tokens in order from the reset values, each token taking the next numbers drawn |
| Evaluation.DropQuantity | ezdice.php:110 | the number dropped is at most the dice count, and defaults to one die (none when there are no dice) |
| Evaluation.PopPlan | ezdice.php:112-120 | popping q dice after sorting, and reversing for L, takes the first q of the drop order and leaves the rest of it |
| Evaluation.DropGroupBuilt | ezdice.php:117-129 | the popped states followed by the shuffled rest are a valid group record, and the total moves by the signed sum of the rest |
| Evaluation.ModifierOnly | ezdice.php:88-92 | a lone modifier draws nothing and sets both total and modifier to its value |
| Evaluation.ModifierGroup | ezdice.php:80-92 | a modifier token appends no state and adds its signed number to both total and modifier |
| Evaluation.ProducedStep | ezdice.php:49-51 | processing one more token extends the specified final state by that token's effect |
| Evaluation.ProducedSplit | ezdice.php:49-51 | the converse: a roll of several tokens is a roll of all but the last, then the last token's group |
| Evaluation.DropOrderFacts | ezdice.php:112-115 | the drop order is a rearrangement of the draws, ascending for L and descending for H |
| Evaluation.DiscardedAndKept | ezdice.php:109-123 | the dropped and kept dice together are the draws, and min(quantity, N) are dropped |
| Evaluation.PlainGroup | ezdice.php:101-106 | without a drop rule each die is recorded as drawn, not dropped, and the signed sum of all of them is added |
| Evaluation.KeptBeyondDropped | ezdice.php:112-120 | under L no kept die is below a dropped one; under H none is above |
| Evaluation.DroppedInPopOrder | ezdice.php:112-120 | the dropped dice are ascending for L and descending for H |
| Evaluation.DropGroupFlags | ezdice.php:117-129 | a drop group's first q states are flagged dropped and the rest not, all with the group's sides |
| Evaluation.DropGroupValues | ezdice.php:117-129 | a drop group's state values are its draws rearranged, and the total moves by the signed sum of the kept ones |
| Evaluation.DropGroupOrder | ezdice.php:112-120 | within a drop group's states, kept values lie beyond dropped ones in the direction of the rule |
| Evaluation.DropGroup | ezdice.php:109-129 | a drop group: states are a permutation of the draws; the first min(quantity, N) are dropped, lowest first for L and highest first for H; only kept dice count toward the total |
| Evaluation.KeptInRange | ezdice.php:109-123 | the dice a group keeps are within the range of those it drew |
| Evaluation.GroupTotalBounds | ezdice.php:126-129 | a live group moves the total by between \|kept\| and \|kept\|*sides, in the direction of its sign |
| Evaluation.GroupShape | ezdice.php:101-129 | a group appends one state per die drawn, with that die's sides, and the values are the draws rearranged |
| Evaluation.ProducedShape | ezdice.php:49-51 | after a roll there is one state per number drawn, with the sides of its die, and the values are the draws rearranged |
| Evaluation.GroupKeptSum | ezdice.php:126-129 | a `+` group moves the total by the values of its states not marked dropped |
| Evaluation.TotalFromStates | ezdice.php:49-53 | with no subtracted dice group, the total is the modifier plus the values of the states not dropped |
| Evaluation.NoDigitRollsNothing | ezdice.php:43-46 | a string without a digit has no tokens and no dice, and the fields stay at their reset values |
| Evaluation.PlainRollBounds | ezdice.php:98-106 | a lone `+` group NdS without a drop rule gives N states with S sides, not dropped, values in [1, S], no modifier, and a total in [N, N*S] |
| Evaluation.PlainGroupBounds | ezdice.php:101-106 | the same bounds for one such group |
| Evaluation.SingleGroup | ezdice.php:49-51 | a roll of one token is that token's group applied to the reset fields |
| Evaluation.DeadGroupsRollZero | ezdice.php:46-53 | dice groups with a zero count or zero sides draw nothing and leave the reset values, so `roll` returns 0 (sides written as `00`, `000`, ... follow the corrected guard `Evaluation.IsLive`; see Findings) |
| Evaluation.ZeroCountRollsZero | ezdice.php:46-53 | `0d10` scans as one dice group with no dice, so `roll` returns 0 rather than `false` |
| Evaluation.DieSidesPositive | ezdice.php:101 | every die a roll draws for has at least one side |
| Evaluation.LowestRollsFit | ezdice.php:140-143 | every string has numbers `getRandomNumber` can return for all its dice (under the corrected guard `Evaluation.IsLive`; see Findings) |
| Evaluation.GuardsDisagreeOnZeroPadding | ezdice.php:98-101 | the guard as written and the intended guard differ exactly on sides written as two or more zeros |
| Evaluation.ZeroPaddedSidesPassGuard | ezdice.php:98-101 | `1d00` passes the guard as written with zero sides |
| Ezdice.Shuffle | ezdice.php:122 | `shuffle` yields a rearrangement of the values |
| Ezdice.EZDice.constructor | ezdice.php:13-15 | the fields start at 0, empty and 0 |
| Ezdice.EZDice.Roll | ezdice.php:27-54 | the fields are what the tokens produce from the reset values; the result is `false` exactly when there is no match, else the total; an integer literal sets total and modifier to its value with no states |
| Ezdice.EZDice.ProcessMatches | ezdice.php:49-51 | processing the matches in turn from the reset fields yields the specified final state |
| Ezdice.EZDice.ProcessMatch | ezdice.php:49-51 | one pass of the loop extends the specified state by one token |
| Ezdice.EZDice.StrContainsDice | ezdice.php:63-66 | true exactly when a digit, a die letter and a digit or `%` stand next to each other |
| Ezdice.EZDice.AddState | ezdice.php:68-75 | appends one state and changes nothing else |
| Ezdice.EZDice.ProcessGroup | ezdice.php:77-131 | one match moves total and modifier by its effect and appends its group's states (guarded by the corrected `Evaluation.IsLive`; see Findings) |
| Ezdice.EZDice.RollGroup | ezdice.php:101-130 | a live group draws, drops by its rule and keeps the rest, as specified |
| Ezdice.EZDice.DrawDice | ezdice.php:103-106 | `$results` holds the numbers drawn, in order |
| Ezdice.EZDice.DropDice | ezdice.php:109-123 | the dropped dice are appended in drop order, flagged dropped, and the rest is returned rearranged |
| Ezdice.EZDice.PopDice | ezdice.php:117-120 | q pops take the last q dice, last first, as dropped states, and leave the front |
| Ezdice.EZDice.KeepDice | ezdice.php:125-129 | each remaining die adds its scaled value to the total and a state that is not dropped |
| Ezdice.EZDice.GetTotal | ezdice.php:150-153 | returns the total of the latest roll |
| Ezdice.EZDice.GetDiceStates | ezdice.php:160-163 | returns the states of the latest roll |
| Ezdice.EZDice.GetModifier | ezdice.php:171-175 | `""` exactly when the modifier is 0; otherwise exactly the `%+d` text of the modifier (`Numerals.FormatSigned`): an explicit `+` or `-`, then the shortest digits of its magnitude, which read back as the modifier |

## Left out

- `mt_rand` (ezdice.php:142): the numbers drawn are the `rolls` parameter of `Roll`, each in [1, sides].
- `shuffle` (ezdice.php:122): an arbitrary rearrangement.  The method keeps the order, and its contract promises only the same values.  Every property of kept dice is a multiset or sum fact.
- Ezdice.EZDice.Roll: the `is_numeric` short-circuit is modelled only for integer literals (whitespace, an optional sign, digits, whitespace).  Other numeric strings such as `5.5` or `1e3` take the scan path in the model, where `roll` short-circuits them in the code.  For `5.5` the model gives total and modifier 10 (two modifiers of 5), while `is_numeric`/`(int)` return 5.
- PHP integers are 64-bit and overflow to floats.  The model uses unbounded integers.
- PHP strings are bytes.  The model uses Dafny strings.
- The PCRE engine is not modelled.  The scanner reproduces the token shapes of the pattern and `preg_match_all`'s left-to-right, non-overlapping search.
- Ezdice.EZDice.ProcessGroup: the guard of ezdice.php:101 is modelled as the corrected `Evaluation.IsLive` (side count and dice count both positive).  A group whose sides are written with two or more zeros, such as `1d00`, is skipped as a group with no dice.  The code as written lets it through to `mt_rand(1, 0)`.  `Evaluation.GuardAsWritten` and the Findings table record that behaviour.
- test.php and example.php are not part of this model.  Features that test.php asserts but ezdice.php does not have are left out: `dF` dice, `group` and `negative` state keys, and `strIsStrictlyDice`.

## Findings

| source | as written | input that shows it | evidently intended | confidence | as-written member | corrected member |
|---|---|---|---|---|---|---|
| ezdice.php:101 | `if ($sides && $number > 0)` tests the captured sides string for truthiness, and `"00"` is truthy | `roll("1d00")`: the guard passes with zero sides and reaches `mt_rand(1, 0)`, which raises an error | skip groups whose side count is 0, as `1d0` is skipped | not executed | Evaluation.ZeroPaddedSidesPassGuard | Evaluation.LowestRollsFit (with the guard Evaluation.IsLive) |
