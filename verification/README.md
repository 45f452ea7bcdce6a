# Advent of Code 2023, challenges 1 to 4, in Dafny

This project models the four puzzle solvers of the repository and proves
properties about them. Each challenge is a Dafny module. The C++ functions
become pure functions over `string` (`seq<char>`), `seq`, `set` and `map`.
The one in-place algorithm, the card-copy cascade of challenge 4, stays a
method over an array.

- `Text` (Text.dfy) holds the shared text helpers:
  - decimal digits and maximal digit runs (what the regexes `\d` and `\d+` find);
  - `Show`, the decimal rendering of a number;
  - `ParseInt`, the part of `std::stoi` the programs rely on: optional leading
    blanks and sign, then the longest digit run, or `None` where `stoi` throws;
  - `Fields`, `Join`, `NonEmpty` and `Strip` for the `find_first_of` splitting loops.
- `Calibration` (Calibration.dfy), challenge 1: the calibration value of a
  line is its first and its last numeral read as a two-digit number. In digit
  mode a numeral is a digit. In word mode it may also be a spelled numeral from
  "one" to "nine".
- `Cubes` (Cubes.dfy), challenge 2: games of coloured cubes. This covers reading
  a round's counts through the `(\d+)\s<colour>` regexes, splitting a game line,
  the validity test against the limits 12/13/14, per-colour maxima, and the two
  answers.
- `Schematic` (Schematic.dfy), challenge 3: the engine schematic. This covers
  the symbol and part scanners, the row maps, adjacency of parts to symbols,
  and the sums of part values and gear ratios.
- `Scratchcards` (Scratchcards.dfy), challenge 4: scratchcards. This covers
  splitting a card line, reading its numbers, matches and score, and the copy
  cascade of part 2. The cascade is proved equal to `Copies`, an independent
  recursive definition of how many copies of each card are held at the end.

Design points where the model follows the code rather than a looser reading of it:

- Challenge 1 searches again on the suffix after each match, so the numerals it
  collects never overlap. `Calibration.Scan` models exactly that. The overlapping
  reading that the function's documentation describes is modelled separately
  (see Findings).
- In challenge 3 the symbol class `[^\w\.\n]` also matches blanks and `\r`, so
  those count as symbols.
- `std::map::insert` does not replace a row that is already present.
- `findAdjacentParts` prepends each row's parts, so its result lists row
  r+1, then row r, then row r-1.
- Challenge 4's `part2` takes its cards by value. The model returns a number
  and leaves the input unchanged.

## Model

| member | source | states |
|---|---|---|
| Text.ParseIntOfShow | Challenge2/challenge2.cpp:85-89 | `stoi` applied to blanks, a decimal numeral and a non-digit tail gives back the number |
| Text.FieldsOfJoin | Challenge2/challenge2.cpp:65-83 | cutting a string at its delimiters gives back exactly the pieces it was joined from |
| Text.ConcatFields | Challenge4/challenge4.cpp:88-110 | the fields of a split, laid end to end, are the input with its delimiters removed |
| Text.DigitRunsCover | Challenge3/challenge3.cpp:72-85 | every digit of a line lies inside one of the digit runs the `\d+` search finds |
| Text.DigitRunsComplete | Challenge4/challenge4.cpp:119-130 | every maximal digit run at or after the start column is among the runs found |
| Calibration.WordValuesOfTable | Challenge1/challenge1.cpp:9-19 | the lookup table maps each spelled numeral to its position in the list, counting from one |
| Calibration.NumeralAt | Challenge1/challenge1.cpp:21-22 | a numeral starts at a column exactly when a digit or, in word mode, a spelled numeral begins there, and the text found is that numeral |
| Calibration.Scan | Challenge1/challenge1.cpp:38-45 | every match collected is a numeral at its column, and each match starts at or after the end of the previous one |
| Calibration.ScanOfLine | Challenge1/challenge1.cpp:38-50 | the scan is non-empty exactly when the line holds a numeral, and its first match is the line's first numeral |
| Calibration.ScanMissesOnlyOverlaps | Challenge1/challenge1.cpp:38-45 | no numeral is skipped between two matches or after the last one unless it overlaps a match |
| Calibration.LastTaken | Challenge1/challenge1.cpp:38-50 | the last match the scan takes is a numeral at its column, and no numeral starts after its end |
| Calibration.FindNumberStrings | Challenge1/challenge1.cpp:33-56 | the two strings are numerals: the first is the line's first numeral and the second is the text of `LastTaken`, the scan's last match (for "eightwo", "eight") |
| Calibration.ConvertToNumberValues | Challenge1/challenge1.cpp:64-74 | `ConvertToNumber` turns a single digit into its value and a spelled numeral into its number |
| Calibration.NumeralValue | Challenge1/challenge1.cpp:64-74 | every numeral found converts to the digit value 0..9 it denotes |
| Calibration.FindNumbers | Challenge1/challenge1.cpp:85-94 | the two values lie in 0..9: the first is denoted by the line's first numeral and the second by `LastTaken`, the scan's last match |
| Calibration.CalibrationValueDigits | Challenge1/challenge1.cpp:107-116 | `ExtractCalibrationValue` lies in 0..99; its tens digit is denoted by the line's first numeral and its units digit by `LastTaken`, the scan's last match |
| Calibration.DigitModeValue | Challenge1/challenge1.cpp:96-116 | in digit mode the value is ten times the first digit of the line plus its last digit |
| Calibration.SingleNumeralTwice | Challenge1/challenge1.cpp:96-116 | a line with a single numeral gives that numeral twice (a multiple of 11) |
| Calibration.WordModeWithoutWords | Challenge1/challenge1.cpp:21-22 | on a line that spells no numeral, word mode and digit mode agree |
| Calibration.ExampleDigits | Challenge1/challenge1.cpp:107-116 | "1abc2" gives 12 |
| Calibration.ExampleSingleDigit | Challenge1/challenge1.cpp:96-116 | "7" gives 77 |
| Calibration.OverlapAsWritten | Challenge1/challenge1.cpp:38-45 | as written, "eightwo" in word mode gives 88 |
| Calibration.IntendedValueDigits | Challenge1/challenge1.cpp:96-116 | the documented value: tens digit from the first numeral and units digit from the last numeral, overlapping or not |
| Calibration.IntendedAgreesInDigitMode | Challenge1/challenge1.cpp:96-116 | in digit mode the documented and the as-written values coincide |
| Calibration.OverlapIntended | Challenge1/challenge1.cpp:96-116 | the documented value of "eightwo" in word mode is 82 |
| Calibration.LastTakenIsLast | Challenge1/challenge1.cpp:38-50 | when no earlier numeral runs over the line's last numeral, the scan's last match is that numeral |
| Calibration.ValueWithoutLastOverlap | Challenge1/challenge1.cpp:96-116 | in either mode, when the last numeral does not start inside an earlier one, the value is ten times the first numeral's number plus the last numeral's |
| Calibration.AgreesUnlessLastOverlaps | Challenge1/challenge1.cpp:38-50 | the as-written and the documented values are equal unless the line's last numeral starts inside an earlier numeral |
| Calibration.WordFound | Challenge1/challenge1.cpp:21-22 | at a column where a spelled numeral occurs, the regex finds that numeral and no other |
| Calibration.NoWordAt | Challenge1/challenge1.cpp:21-22 | no numeral starts at a letter whose pair of letters begins no spelled numeral |
| Calibration.ExampleWords | Challenge1/challenge1.cpp:107-116 | "two1nine" in word mode gives 29 |
| Calibration.ExampleOverlapInside | Challenge1/challenge1.cpp:38-50 | "eightwothree" in word mode gives 83: an overlap before the last numeral changes nothing |
| Calibration.ExampleOverlapInsideAgrees | Challenge1/challenge1.cpp:96-116 | the documented value of "eightwothree" is also 83 |
| Cubes.CountFromIsLeftmost | Challenge2/challenge2.cpp:26-43 | the count read for a colour is the number before the leftmost "<digits><blank><colour>" match, or 0 when there is none |
| Cubes.EntryMatches | Challenge2/challenge2.cpp:11-13 | inside one "<count> <colour>" entry, a colour's regex matches exactly on the count's digits and only for that entry's colour |
| Cubes.ColourCountOfRoundText | Challenge2/challenge2.cpp:26-43 | for a round written as comma-separated entries, the count read for a colour is its first entry's count, or 0 when absent |
| Cubes.ParseRoundText | Challenge2/challenge2.cpp:26-43 | `ParseRound` (the `Round` constructor) on a rendered round gives back its three colour counts |
| Cubes.SplitLine | Challenge2/challenge2.cpp:65-83 | the pieces are non-empty, contain no `:` or `;`, and laid end to end they are the line without its separators |
| Cubes.SplitLineOfJoin | Challenge2/challenge2.cpp:65-83 | splitting delimiter-free pieces joined by delimiters gives back the non-empty pieces in order, and all of them when none is empty |
| Cubes.GameIdOfShow | Challenge2/challenge2.cpp:85-89 | `GameId` reads the id back from the header "Game <id>" |
| Cubes.ParseGameText | Challenge2/challenge2.cpp:52-61 | `ParseGame` (the `Game` constructor) on a rendered game line gives back its id and each round's colour counts, in order |
| Cubes.AllRoundsValid | Challenge2/challenge2.cpp:93-107 | `IsValidGame` holds exactly when every round stays within 12 red, 13 green and 14 blue |
| Cubes.MaxColors | Challenge2/challenge2.cpp:109-131 | each maximum bounds that colour in every round and is attained by some round, or is 0 |
| Cubes.ValidIffMaximaWithin | Challenge2/challenge2.cpp:93-131 | a game is valid exactly when its per-colour maxima are within the limits |
| Cubes.PowerZeroIffAbsent | Challenge2/challenge2.cpp:149-165 | a game's power is 0 exactly when some colour never appears in it |
| Cubes.Part1 | Challenge2/challenge2.cpp:135-147 | a single game adds its id exactly when it is valid; with every game valid the answer is the sum of all ids, and with none valid it is 0 |
| Cubes.Part1Append | Challenge2/challenge2.cpp:135-147 | the answer for two lists of games is the sum of their answers |
| Cubes.Part2 | Challenge2/challenge2.cpp:149-165 | no games give 0, a single game gives its power, and every game's power is a lower bound; with `Part2Append` the answer is the sum of the powers |
| Cubes.Part2Append | Challenge2/challenge2.cpp:149-165 | the answer for two lists of games is the sum of their answers |
| Cubes.ExampleMaxima | Challenge2/challenge2.cpp:109-131 | the maxima of rounds (4 red, 3 blue) and (1 red, 6 blue, 2 green) are 4 red, 6 blue, 2 green |
| Schematic.SymbolsFrom | Challenge3/challenge3.cpp:53-65 | each symbol found sits on a symbol character at its column, is a gear exactly when that is `*`, and columns strictly increase |
| Schematic.SymbolsFromComplete | Challenge3/challenge3.cpp:53-65 | every symbol character of the line is found |
| Schematic.FindSymbols | Challenge3/challenge3.cpp:53-70 | existing rows are kept, and the row is added only when it has symbols and is not already present |
| Schematic.RowParts | Challenge3/challenge3.cpp:72-83 | each part is a maximal digit run with its value, column and length, and parts are separated by at least one column |
| Schematic.RowPartsComplete | Challenge3/challenge3.cpp:72-83 | every maximal digit run of the line is one of the parts |
| Schematic.FindParts | Challenge3/challenge3.cpp:72-85 | existing rows are kept and the row is always present afterwards |
| Schematic.ParseLines | Challenge3/challenge3.cpp:87-91 | after reading lines 0..n-1, every row has its parts, and exactly the rows with a symbol have their symbols |
| Schematic.TouchesIff | Challenge3/challenge3.cpp:93-101 | the column test holds exactly when some column of the part is within one column of the symbol |
| Schematic.AdjacentRowParts | Challenge3/challenge3.cpp:93-106 | the result keeps exactly the parts of the row that touch the symbol |
| Schematic.AdjacentRowPartsOrdered | Challenge3/challenge3.cpp:93-106 | filtering keeps the left-to-right order of the row |
| Schematic.AdjacentRowPartsCount | Challenge3/challenge3.cpp:93-106 | a touching part is kept as often as the row lists it, and any other part is dropped |
| Schematic.FindAdjacentParts | Challenge3/challenge3.cpp:109-131 | a non-gear in gear mode gets nothing; otherwise the result is the touching parts of row r+1, then of row r, then of row r-1, each in row order |
| Schematic.FindAdjacentPartsCount | Challenge3/challenge3.cpp:109-131 | each part touching the symbol is listed as often as rows r-1 to r+1 list it, and no other part is listed |
| Schematic.MinKey | Challenge3/challenge3.cpp:137 | the smallest row key of a non-empty map, the first one the ordered map visits |
| Schematic.SumValuesRemove | Challenge3/challenge3.cpp:133-150 | a sum over rows is one row's share plus the sum over the others, whichever row is taken |
| Schematic.GearRatio | Challenge3/challenge3.cpp:158-165 | a non-gear adds 0; a gear with exactly two adjacent parts adds their product; any other number of adjacent parts adds 0 |
| Schematic.RowPart1Append | Challenge3/challenge3.cpp:139-146 | a row's share of part 1 is the sum over its symbols, each adding the values of its adjacent parts |
| Schematic.RowPart2Append | Challenge3/challenge3.cpp:158-166 | a row's share of part 2 is the sum over its symbols, each adding its gear ratio |
| Schematic.Part1ByRow | Challenge3/challenge3.cpp:133-150 | `Part1` is one row's share plus `Part1` of the other rows, whichever row is taken |
| Schematic.Part2ByRow | Challenge3/challenge3.cpp:152-170 | `Part2` is one row's share plus `Part2` of the other rows, whichever row is taken |
| Schematic.Part2WithoutGears | Challenge3/challenge3.cpp:152-170 | a schematic without `*` has answer 0 for part 2 |
| Schematic.Part1AtLeastRow | Challenge3/challenge3.cpp:133-150 | with non-negative parts, the answer is at least any one row's share |
| Schematic.ExampleDoubleCount | Challenge3/challenge3.cpp:133-150 | a part touching two symbols is counted twice |
| Schematic.ExampleGear | Challenge3/challenge3.cpp:152-170 | a gear between parts 2 and 3 gives 6 |
| Scratchcards.SplitLine | Challenge4/challenge4.cpp:88-110 | for any line whose fields after the third are empty: three slots, none holding a delimiter, which laid end to end are the line without its delimiters |
| Scratchcards.SplitLineOfParts | Challenge4/challenge4.cpp:88-110 | "header:winning\|owned" splits back into its three parts |
| Scratchcards.SplitLineTrailingBar | Challenge4/challenge4.cpp:88-110 | "header:winning\|owned\|" is accepted although it has three delimiters: the empty fourth field is dropped and the three parts come back |
| Scratchcards.ExtractCardNum | Challenge4/challenge4.cpp:112-117 | there is no number exactly when the text has no digit; otherwise it is the value of the first digit run |
| Scratchcards.ExtractCardNumOfShow | Challenge4/challenge4.cpp:112-117 | "Card <n>" style headers yield n |
| Scratchcards.ExtractNumbersAreRunValues | Challenge4/challenge4.cpp:119-130 | `ExtractNumbers` collects a number exactly when it is the value of some maximal digit run |
| Scratchcards.ParseLine | Challenge4/challenge4.cpp:132-143 | one card with count 1 is appended and the earlier cards are kept; it carries the header's number and the number sets of the two lists; parsing fails exactly when the header has no digit |
| Scratchcards.ParseCardText | Challenge4/challenge4.cpp:132-143 | a line written "Card n:W\|O" parses into one more card, held once, with number n and the numbers spelled in W and O |
| Scratchcards.WinningMatches | Challenge4/challenge4.cpp:45-55 | the matches are exactly the numbers both winning and owned |
| Scratchcards.NumWinningMatches | Challenge4/challenge4.cpp:57-60 | the count is the number of matches, at most either set's size, and 0 exactly when the sets are disjoint |
| Scratchcards.MatchesPartition | Challenge4/challenge4.cpp:45-60 | the count plus the number of winning numbers not owned is the number of winning numbers |
| Scratchcards.Score | Challenge4/challenge4.cpp:62-73 | 0 exactly without matches, otherwise twice the score is 2 to the power of the matches |
| Scratchcards.ScoreDoubles | Challenge4/challenge4.cpp:62-73 | one more match doubles a non-zero score |
| Scratchcards.ExampleScore | Challenge4/challenge4.cpp:57-73 | a card with winning numbers 41 48 83 86 17 and owned numbers 83 86 6 31 17 9 48 53 has 4 matches and scores 8 |
| Scratchcards.Part1 | Challenge4/challenge4.cpp:145-153 | a single card gives its score, and the total is 0 exactly when no card has a match; with `Part1Append` the total is the sum of the scores |
| Scratchcards.Part1Append | Challenge4/challenge4.cpp:145-153 | the total for two card lists is the sum of their totals |
| Scratchcards.Part2 | Challenge4/challenge4.cpp:155-175 | the result is the total number of cards held according to the reference definition `Copies` |
| Scratchcards.PushCopies | Challenge4/challenge4.cpp:160-165 | after card i hands on its copies, every count equals own cards plus what cards 0..i hand to it |
| Scratchcards.SumCounts | Challenge4/challenge4.cpp:168-172 | adding up the final counts gives the total number of copies |
| Scratchcards.LevelStep | Challenge4/challenge4.cpp:162-165 | one inner-loop write adds exactly card k's copies to the target card and nothing to any other |
| Scratchcards.CopiesAtLeastOwn | Challenge4/challenge4.cpp:155-175 | no card ends with fewer copies than it started with |
| Scratchcards.FirstCardUnchanged | Challenge4/challenge4.cpp:155-175 | nothing is handed to the first card |
| Scratchcards.TotalAtLeastCards | Challenge4/challenge4.cpp:155-175 | when every card starts with a copy, the total is at least the number of cards |
| Scratchcards.NoMatchesNoCopies | Challenge4/challenge4.cpp:155-175 | without matches no card receives anything |
| Scratchcards.ExampleCascade | Challenge4/challenge4.cpp:155-175 | a matching first card gives the second card two copies, three cards in all |

## Left out

- `main` in every challenge: file reading, line counting and printing. Lines
  arrive as parameters. Challenge 1 reads with `input >> line`, which splits at
  blanks; the model takes the resulting words as its lines.
- The general `std::regex` engine. Each regex is modelled by the one thing it
  matches here: a digit, a digit run, a spelled numeral, `(\d+)\s<colour>`, or
  a symbol character.
- Integer widths: `int` and `uint` overflow, the range errors of `stoi` and
  `stoul`, and `1 << n` for n of 32 or more. Values are unbounded.
- `CardContent::operator==` and `operator<` (Challenge4/challenge4.cpp:35-43)
  are defined but never called by the solver.
- The default constructors of `Part`, `Symbol` and `CardContent`, which build
  placeholder values the programs never read.
- The check at Challenge1/challenge1.cpp:40 that a match is not all blanks. No
  match of `\d` or of a spelled numeral is blank, so it always holds. The
  `abort()` for a line without numerals becomes the precondition `HasNumeral`.
- Characters: `std::string` holds bytes, while the model reads a line as a
  sequence of Dafny `char`s and classifies only ASCII characters. For ASCII
  text the two agree. For multi-byte UTF-8 text the code counts columns in
  bytes (challenge 3) and its regex classes decide byte by byte, which the
  model does not follow.
- Cubes.ParseGame: a line that splits into nothing gives `None`. The code
  indexes the empty vector there, which is undefined behaviour.
- Cubes.ParseGameText: the round texts are built from entries "<count> <colour>"
  joined by ", ". Arbitrary text between entries is covered only through
  `Cubes.CountFromIsLeftmost`.
- Scratchcards.SplitLine: requires `SplitFits`, that every field after the
  third is empty. The code writes a slot only for a non-empty field, so a
  non-empty fourth field would be written past the end of its three-slot
  array. Empty extra fields, such as the one after a trailing `|`, are accepted
  and dropped.
- Schematic.RowParts: the code adds `m.str().length()` to the column after
  `line = m.suffix()` has replaced the string the match refers to
  (Challenge3/challenge3.cpp:81-82), which is undefined behaviour. The model
  advances by the length of the matched digit run, as the code evidently means.
- Scratchcards.Part2: requires `CascadeFits`. The card list must be non-empty,
  because the loop bound `size() - 1` would wrap round. No card's matches may
  reach past the last card, because the writes would leave the vector.
- Scratchcards.Part2: the last card's matches are never applied, because the
  outer loop stops one card early. The reference definition `Copies` follows
  that bound.

## Findings

| source | as written | input that shows it | evidently intended | confidence | as-written member | corrected member |
|---|---|---|---|---|---|---|
| Challenge1/challenge1.cpp:38-45 | after each match the search resumes on the suffix, so a spelled numeral that overlaps the previous match is never seen and the "last" number is the last non-overlapping one | "eightwo" in word mode gives 88 | the documented first and last numbers of the line, 82; `Calibration.IntendedCalibrationValue` computes it and `Calibration.OverlapIntended` gives 82; `Calibration.AgreesUnlessLastOverlaps` shows the two differ only when the last numeral starts inside an earlier one | medium, not executed | Calibration.OverlapAsWritten | Calibration.IntendedValueDigits |
